/** The state of the Mood Sanctuary view and the handlers that change it: the
    journal text and the mood derived from it, the saved entries, the focus
    countdown and the engagement score (in half points). */
module Sanctuary {
  import opened Text
  import opened Moods
  import Themes
  import Focus
  import Clock

  /** A saved journal entry; `id` is the caller-supplied creation stamp. */
  datatype Entry = Entry(id: int, text: string, mood: Mood)

  /** Text a saved entry holds: non-empty, with no blank at either end. */
  predicate IsSavedText(t: string) {
    t != [] && !IsBlank(t[0]) && !IsBlank(t[|t| - 1])
  }

  /** Saved texts are exactly the non-empty texts that trimming leaves alone. */
  lemma SavedTextIsTrimmed(t: string)
    ensures IsSavedText(t) <==> t != [] && Trim(t) == t
  {
    if IsSavedText(t) {
      assert LeadingBlanks(t) == 0;
      assert TrailingBlanks(t) == 0;
    }
  }

  /** The countdown starts at 25 minutes. */
  const DefaultMinutes: nat := 25

  class MoodSanctuary {
    var mood: Mood
    var journal: string
    var entries: seq<Entry>  // most recent first
    var focusSeconds: nat
    var isFocusing: bool
    var gardenHalves: nat  // engagement score times two

    ghost predicate Valid()
      reads this
    {
      forall i :: 0 <= i < |entries| ==> IsSavedText(entries[i].text)
    }

    /** The focus part of the state, as the value the timer transitions act on. */
    function Timer(): (s: Focus.Session)
      reads this
      ensures s.seconds == focusSeconds && s.focusing == isFocusing && s.halves == gardenHalves
    {
      Focus.Session(focusSeconds, isFocusing, gardenHalves)
    }

    /** The theme the view is drawn in: the current mood's own entry, never
        the fallback. */
    function Theme(): (t: Themes.Theme)
      reads this
      ensures MoodKey(mood) in Themes.Table && t == Themes.Table[MoodKey(mood)]
    {
      Themes.MoodThemes(mood, mood);
      Themes.ThemeFor(MoodKey(mood))
    }

    /** The countdown as shown, `mm:ss`; it reads back as `focusSeconds`. */
    function Countdown(): (r: string)
      reads this
      ensures Clock.IsClockText(r)
      ensures Clock.ClockValue(r) == focusSeconds
      ensures Clock.Value(r[|r| - 2..]) < 60
      ensures focusSeconds < 6000 ==> |r| == 5
      ensures |r| > 5 ==> r[0] != '0'
    {
      Clock.FormatTime(focusSeconds)
    }

    /** The streak shown under the timer: whole points of engagement. */
    function Streak(): (n: nat)
      reads this
      ensures 2 * n <= gardenHalves < 2 * n + 2
    {
      gardenHalves / 2
    }

    constructor ()
      ensures Valid()
      ensures mood == Neutral && journal == [] && entries == []
      ensures focusSeconds == DefaultMinutes * 60 && !isFocusing && gardenHalves == 0
    {
      mood := Neutral;
      journal := [];
      entries := [];
      focusSeconds := DefaultMinutes * 60;
      isFocusing := false;
      gardenHalves := 0;
    }

    /** Typing in the journal. The mood effect depends on the journal text, so
        the mood is re-derived from the new text, and from it alone, whenever
        the text changes. */
    method SetJournal(t: string)
      requires Valid()
      modifies this
      ensures Valid()
      ensures journal == t
      ensures mood == if t == old(journal) then old(mood) else DeriveMood(t)
      ensures entries == old(entries) && Timer() == old(Timer())
    {
      if t != journal {
        mood := DeriveMood(t);
      }
      journal := t;
    }

    /** A click on a mood-ring option overrides the derived mood. */
    method PickMood(m: Mood)
      requires Valid()
      modifies this
      ensures Valid()
      ensures mood == m
      ensures journal == old(journal) && entries == old(entries) && Timer() == old(Timer())
    {
      mood := m;
    }

    /** The Clear button: empties the journal input and never touches the
        entries; emptying a non-empty journal re-derives the mood from "". */
    method Clear()
      requires Valid()
      modifies this
      ensures Valid()
      ensures journal == []
      ensures mood == if old(journal) == [] then old(mood) else Neutral
      ensures entries == old(entries) && Timer() == old(Timer())
    {
      EmptyJournalIsNeutral();
      SetJournal([]);
    }

    method StartFocus(minutes: nat)
      requires Valid()
      modifies this
      ensures Valid()
      ensures Timer() == Focus.Start(old(Timer()), minutes)
      ensures focusSeconds == minutes * 60 && isFocusing
      ensures mood == old(mood) && journal == old(journal) && entries == old(entries)
    {
      focusSeconds := minutes * 60;
      isFocusing := true;
    }

    method StopFocus()
      requires Valid()
      modifies this
      ensures Valid()
      ensures Timer() == Focus.Stop(old(Timer()))
      ensures !isFocusing && focusSeconds == old(focusSeconds)
      ensures mood == old(mood) && journal == old(journal) && entries == old(entries)
    {
      isFocusing := false;
    }

    /** The interval's updater: counts down, or at one second or less ends the
        session at zero and adds one point. */
    method Tick()
      requires Valid()
      modifies this
      ensures Valid()
      ensures Timer() == Focus.Tick(old(Timer()))
      ensures old(focusSeconds) > 1 ==>
        focusSeconds == old(focusSeconds) - 1 && isFocusing == old(isFocusing) && gardenHalves == old(gardenHalves)
      ensures old(focusSeconds) <= 1 ==>
        focusSeconds == 0 && !isFocusing && gardenHalves == old(gardenHalves) + 2
      ensures mood == old(mood) && journal == old(journal) && entries == old(entries)
    {
      if focusSeconds <= 1 {
        isFocusing := false;
        gardenHalves := gardenHalves + 2;
        focusSeconds := 0;
      } else {
        focusSeconds := focusSeconds - 1;
      }
    }

    /** The Save button. Blank text changes nothing; otherwise the trimmed text
        is put in front of the entries with the mood shown at that moment, the
        journal is emptied (which re-derives the mood from "") and the score
        rises by half a point. */
    method SaveJournal(id: int)
      requires Valid()
      modifies this
      ensures Valid()
      ensures Trim(old(journal)) == [] ==> unchanged(this)
      ensures Trim(old(journal)) != [] ==>
        && entries == [Entry(id, Trim(old(journal)), old(mood))] + old(entries)
        && journal == [] && mood == Neutral
        && gardenHalves == old(gardenHalves) + 1
        && focusSeconds == old(focusSeconds) && isFocusing == old(isFocusing)
    {
      var text := Trim(journal);
      if text == [] {
        return;
      }
      var entry := Entry(id, text, mood);
      entries := [entry] + entries;
      SetJournal([]);
      EmptyJournalIsNeutral();
      gardenHalves := gardenHalves + 1;
    }
  }
}
