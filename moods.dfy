/** The mood classifier: the effect that re-derives the mood from the journal
    text, written as an ordered list of (mood, keywords) rules where the first
    rule with a keyword in the lower-cased text wins. */
module Moods {
  import opened Text

  datatype Mood = Neutral | Calm | Happy | Stressed

  /** The key the component stores for each mood (and looks themes up by). */
  function MoodKey(m: Mood): string {
    match m
    case Neutral => "neutral"
    case Calm => "calm"
    case Happy => "happy"
    case Stressed => "stressed"
  }

  lemma MoodKeyInjective(m: Mood, n: Mood)
    ensures MoodKey(m) == MoodKey(n) <==> m == n
  {
  }

  datatype Rule = Rule(mood: Mood, keywords: seq<string>)

  /** The cascade in priority order: anxiety terms, then positive terms, then
      calm terms; no match leaves the mood neutral. */
  const Rules: seq<Rule> := [
    Rule(Stressed, ["anx", "nerv"]),
    Rule(Happy, ["happy", "good", "yay"]),
    Rule(Calm, ["calm", "relax"])
  ]

  predicate Fires(text: string, rule: Rule) {
    exists j :: 0 <= j < |rule.keywords| && Contains(text, rule.keywords[j])
  }

  /** The mood of the first rule that fires on `text`, neutral if none does. */
  function FirstMatch(text: string, rules: seq<Rule>): (r: Mood)
    ensures (forall j :: 0 <= j < |rules| ==> !Fires(text, rules[j])) ==> r == Neutral
    ensures forall i: nat :: FirstFiring(text, rules, i) ==> r == rules[i].mood
  {
    if rules == [] then Neutral
    else if Fires(text, rules[0]) then rules[0].mood
    else
      assert forall i: nat :: FirstFiring(text, rules, i) ==> i > 0 && FirstFiring(text, rules[1..], i - 1);
      FirstMatch(text, rules[1..])
  }

  /** Rule `i` is the first of `rules` that fires on `text`. */
  predicate FirstFiring(text: string, rules: seq<Rule>, i: nat) {
    i < |rules| && Fires(text, rules[i]) && forall j :: 0 <= j < i ==> !Fires(text, rules[j])
  }

  /** The mood the effect derives: that of the first rule firing on the
      lower-cased journal, or neutral when none fires. */
  function DeriveMood(journal: string): (r: Mood)
    ensures (forall j :: 0 <= j < |Rules| ==> !Fires(Lower(journal), Rules[j])) ==> r == Neutral
    ensures forall i: nat :: FirstFiring(Lower(journal), Rules, i) ==> r == Rules[i].mood
  {
    FirstMatch(Lower(journal), Rules)
  }

  /** The journal mentions `keyword`, ignoring ASCII case. */
  predicate Mentions(journal: string, keyword: string) {
    Contains(Lower(journal), keyword)
  }

  predicate MentionsStressed(journal: string) {
    Mentions(journal, "anx") || Mentions(journal, "nerv")
  }

  predicate MentionsHappy(journal: string) {
    Mentions(journal, "happy") || Mentions(journal, "good") || Mentions(journal, "yay")
  }

  predicate MentionsCalm(journal: string) {
    Mentions(journal, "calm") || Mentions(journal, "relax")
  }

  /** The rule list computes exactly the if/else-if cascade of the effect. */
  lemma DeriveMoodIsCascade(journal: string)
    ensures DeriveMood(journal) ==
      if MentionsStressed(journal) then Stressed
      else if MentionsHappy(journal) then Happy
      else if MentionsCalm(journal) then Calm
      else Neutral
  {
    var text := Lower(journal);
    assert Fires(text, Rules[0]) <==> MentionsStressed(journal) by {
      var kw := Rules[0].keywords;
      assert kw == ["anx", "nerv"];
      assert Contains(text, kw[0]) ==> Fires(text, Rules[0]);
      assert Contains(text, kw[1]) ==> Fires(text, Rules[0]);
    }
    assert Fires(text, Rules[1]) <==> MentionsHappy(journal) by {
      var kw := Rules[1].keywords;
      assert kw == ["happy", "good", "yay"];
      assert Contains(text, kw[0]) ==> Fires(text, Rules[1]);
      assert Contains(text, kw[1]) ==> Fires(text, Rules[1]);
      assert Contains(text, kw[2]) ==> Fires(text, Rules[1]);
    }
    assert Fires(text, Rules[2]) <==> MentionsCalm(journal) by {
      var kw := Rules[2].keywords;
      assert kw == ["calm", "relax"];
      assert Contains(text, kw[0]) ==> Fires(text, Rules[2]);
      assert Contains(text, kw[1]) ==> Fires(text, Rules[2]);
    }
    if MentionsStressed(journal) {
      assert FirstFiring(text, Rules, 0);
    } else if MentionsHappy(journal) {
      assert FirstFiring(text, Rules, 1);
    } else if MentionsCalm(journal) {
      assert FirstFiring(text, Rules, 2);
    }
  }

  /** Each mood is derived exactly when its keywords are present and no
      keyword of a higher-priority mood is; in particular every text without
      a keyword is neutral. */
  lemma MoodClassification(journal: string)
    ensures DeriveMood(journal) == Stressed <==> MentionsStressed(journal)
    ensures DeriveMood(journal) == Happy <==> !MentionsStressed(journal) && MentionsHappy(journal)
    ensures DeriveMood(journal) == Calm <==>
      !MentionsStressed(journal) && !MentionsHappy(journal) && MentionsCalm(journal)
    ensures DeriveMood(journal) == Neutral <==>
      !MentionsStressed(journal) && !MentionsHappy(journal) && !MentionsCalm(journal)
  {
    DeriveMoodIsCascade(journal);
  }

  /** An anxiety keyword wins whatever else the text says. */
  lemma StressedTakesPrecedence(journal: string, other: string)
    requires Mentions(journal, "anx") || Mentions(journal, "nerv")
    ensures DeriveMood(journal) == Stressed
    ensures DeriveMood(journal + other) == Stressed
    ensures DeriveMood(other + journal) == Stressed
  {
    var k := if Mentions(journal, "anx") then "anx" else "nerv";
    MentionsSurvivesAppend(journal, other, k);
    DeriveMoodIsCascade(journal);
    DeriveMoodIsCascade(journal + other);
    DeriveMoodIsCascade(other + journal);
  }

  /** A mention stays a mention whatever text is put before or after it. */
  lemma MentionsSurvivesAppend(journal: string, other: string, k: string)
    requires Mentions(journal, k)
    ensures Mentions(journal + other, k) && Mentions(other + journal, k)
  {
    var i: nat :| i <= |Lower(journal)| && OccursAt(Lower(journal), k, i);
    LowerAppend(journal, other);
    LowerAppend(other, journal);
    OccursInAppend(Lower(journal), Lower(other), k, i);
    assert OccursAt(Lower(journal + other), k, i);
    assert OccursAt(Lower(other + journal), k, |other| + i);
  }

  lemma OccursInAppend(a: string, b: string, k: string, i: nat)
    requires OccursAt(a, k, i)
    ensures OccursAt(a + b, k, i) && OccursAt(b + a, k, |b| + i)
  {
    assert (a + b)[i..i + |k|] == a[i..i + |k|];
    assert (b + a)[|b| + i..|b| + i + |k|] == a[i..i + |k|];
  }

  lemma LowerAppend(a: string, b: string)
    ensures Lower(a + b) == Lower(a) + Lower(b)
  {
  }

  /** The empty journal is neutral. */
  lemma EmptyJournalIsNeutral()
    ensures DeriveMood("") == Neutral
  {
    assert Lower("") == "";
    forall j | 0 <= j < |Rules|
      ensures !Fires("", Rules[j])
    {
      forall i | 0 <= i < |Rules[j].keywords|
        ensures !Contains("", Rules[j].keywords[i])
      {
        ContainsBounds("", Rules[j].keywords[i]);
      }
    }
  }

  /** Classification ignores ASCII case. */
  lemma CaseInsensitive(journal: string)
    ensures DeriveMood(Lower(journal)) == DeriveMood(journal)
  {
    LowerIdempotent(journal);
  }

  /** The four options of the mood ring, in the order it draws them. */
  const RingOptions: seq<Mood> := [Calm, Happy, Neutral, Stressed]

  lemma RingOffersEveryMood(m: Mood)
    ensures m in RingOptions
  {
  }
}
