# Mood Sanctuary view state in Dafny

This project models the state logic of the `MoodSanctuaryUI` component of the
Mood Sanctuary prototype (`ui3try.jsx`): the keyword classifier that derives a
mood from the journal text, the focus-mode countdown, the journal log, the
`mm:ss` clock formatting, the theme lookup and the growth garden.

Modules, one per concern:

- `Text` (`text.dfy`): `toLowerCase`, `includes` and `trim` on strings.
- `Moods` (`moods.dfy`): the four moods and the classifier. The classifier is an
  ordered list of (mood, keywords) rules, `Rules`, where the first rule with a
  keyword in the lower-cased text wins. A lemma shows that this list computes
  exactly the component's if / else-if cascade, so precedence is proved, not
  assumed.
- `Themes` (`themes.dfy`): the theme table and the lookup that falls back to
  the neutral theme.
- `Focus` (`focus.dfy`): the timer as pure transitions on a `Session` value
  (seconds left, focusing flag, score). `Tick` is the interval's updater.
  `Second` is one second of wall time: the interval exists only while focusing,
  so a second runs `Tick` then and does nothing otherwise. `Elapse(s, k)` is
  `k` seconds.
- `Clock` (`clock.dfy`): `formatTime`, with a reading-back function that
  recovers the seconds from the string.
- `Garden` (`garden.dfy`): the plant count and the loop that builds the
  `plants` array.
- `Sanctuary` (`sanctuary.dfy`): the class `MoodSanctuary`. Its fields are the
  component's state hooks. Its methods are the handlers. Each method states
  the whole new state. The focus methods are tied to the `Focus` transitions
  through `Timer()`.

The engagement score only moves in steps of 1 and 0.5. It is kept as
`gardenHalves`, a count of half points, so `Math.floor(score)` is
`gardenHalves / 2` and no floating point is needed.

Three behaviours of the code are easy to miss; the model follows the code:

- The mood is a state field, recomputed by an effect whenever the journal text
  changes. So emptying a non-empty journal (Clear, or a successful Save) also
  resets the mood to neutral, which is what `DeriveMood("")` gives. Clear on a
  journal that is already empty keeps a mood picked on the mood ring, because
  the text does not change and the effect does not run.
- A saved entry takes the current mood field. That is the derived mood unless
  the mood ring overrode it after the last edit.
- Entry ids come from `Date.now()`, which guarantees neither uniqueness nor
  monotonicity. The model takes the id as a parameter and claims neither.

## Model

| member | source | states |
|---|---|---|
| `Text.LowerChar` | ui3try.jsx:104 | an upper-case ASCII letter maps to its lower-case letter (code + 32); every other character is kept; the result is never upper-case |
| `Text.Lower` | ui3try.jsx:104 | lower-casing keeps the length, maps each character by `LowerChar`, and leaves no upper-case letter |
| `Text.LowerIdempotent` | ui3try.jsx:104 | lower-casing twice is the same as lower-casing once |
| `Text.LeadingBlanks` | ui3try.jsx:139 | counts the blanks at the front of a string: all of them are blanks, and the next character is not |
| `Text.TrailingBlanks` | ui3try.jsx:139 | counts the blanks at the back of a string: all of them are blanks, and the character before them is not |
| `Text.ContainsBounds` | ui3try.jsx:105-107 | `includes` finds the empty string in every text, and never finds a string longer than the text |
| `Text.Trim` | ui3try.jsx:139-140 | trim is empty exactly when the text is all blanks; otherwise it neither starts nor ends with a blank; it is the piece of the text that starts right after the leading blanks, and everything in front of it and behind it is blank, so only leading and trailing blanks are removed |
| `Text.TrimIdempotent` | ui3try.jsx:140 | trimming an already trimmed text changes nothing, so a saved entry's text is trimmed |
| `Moods.MoodKeyInjective` | ui3try.jsx:11-16 | the four mood keys are distinct, so different moods have different keys |
| `Moods.FirstMatch` | ui3try.jsx:104-108 | the classifier over an ordered rule list returns neutral when no rule fires, and otherwise the mood of the first rule that fires, whatever later rules say |
| `Moods.DeriveMood` | ui3try.jsx:102-109 | the effect's mood for a journal is neutral when no rule of `Rules` (anxiety terms, then positive terms, then calm terms) fires on the lower-cased text, and otherwise the mood of the first rule that fires |
| `Moods.DeriveMoodIsCascade` | ui3try.jsx:102-109 | the rule list gives stressed if the lower-cased text contains `anx` or `nerv`; else happy for `happy`, `good` or `yay`; else calm for `calm` or `relax`; else neutral |
| `Moods.MoodClassification` | ui3try.jsx:104-108 | each of the four moods is derived if and only if its keywords are present and no keyword of a higher-priority mood is |
| `Moods.StressedTakesPrecedence` | ui3try.jsx:105 | a text mentioning `anx` or `nerv` is stressed, and stays stressed whatever text is added before or after it |
| `Moods.EmptyJournalIsNeutral` | ui3try.jsx:104-108 | the empty journal is classified neutral |
| `Moods.CaseInsensitive` | ui3try.jsx:104 | classification ignores ASCII case: the lower-cased text gets the same mood as the text |
| `Moods.RingOffersEveryMood` | ui3try.jsx:337 | every mood is one of the mood ring's options |
| `Themes.ThemeFor` | ui3try.jsx:152 | over `Table`, the four mood themes of `THEMES` (ui3try.jsx lines 11-16), the lookup returns the table's theme for a key in the table and the neutral theme for any other key; the result is always one of the table's themes |
| `Themes.MoodThemes` | ui3try.jsx:11-16 | every mood key is in the theme table, and two moods get the same theme only if they are the same mood |
| `Themes.UnknownKeyFallsBack` | ui3try.jsx:152 | a key that is no mood's key gets the neutral theme |
| `Focus.Start` | ui3try.jsx:128-131 | starting sets the countdown to `minutes * 60` and turns focus on, leaving the score alone |
| `Focus.Stop` | ui3try.jsx:133-136 | stopping turns focus off and keeps the countdown and the score |
| `Focus.Tick` | ui3try.jsx:114-122 | above one second the countdown drops by one and nothing else changes; at one or less it becomes 0, focus ends and the score rises by one point |
| `Focus.Second` | ui3try.jsx:111-126 | one second with focus off changes nothing; a second never raises the countdown or lowers the score, and it raises the score only when it ends a running session at 0 |
| `Focus.Elapse` | ui3try.jsx:111-126 | as time passes the countdown never grows and the score never shrinks |
| `Focus.CountsDown` | ui3try.jsx:114-122 | while fewer seconds have passed than were on the countdown, it shows exactly that many fewer, still focusing, with the same score |
| `Focus.IdleIsFrozen` | ui3try.jsx:112-124 | with focus off no tick runs, so the state stays exactly as it is however long one waits |
| `Focus.CompletesOnce` | ui3try.jsx:114-122 | after at least `seconds` seconds (at least one) the session is over at 0 with exactly one point added, however much longer one waits |
| `Focus.FullSession` | ui3try.jsx:114-131 | starting an `m`-minute session (`m >= 1`) and letting exactly `m * 60` seconds pass ends it at 0 with exactly one point added |
| `Focus.StopFreezes` | ui3try.jsx:128-136 | stopping after `k` seconds of an `m`-minute session keeps `m * 60 - k` on the countdown and the score unchanged; no later second changes them |
| `Clock.DigitChar` | ui3try.jsx:149 | a digit value below 10 becomes the decimal digit character for it |
| `Clock.Decimal` | ui3try.jsx:149 | `String(n)` is all digits, reads back as `n`, has no leading zero, is one digit exactly when `n < 10`, and at most two when `n < 100` |
| `Clock.PadStart` | ui3try.jsx:149 | padding keeps the string at its end, fills the front with the fill character, and makes it `max(length, width)` long |
| `Clock.Field` | ui3try.jsx:149 | a padded field is at least two digits, reads back as `n`, is exactly two digits when `n < 100`, and when longer has no leading zero |
| `Clock.FieldIsPadStart` | ui3try.jsx:149 | the field is `String(n).padStart(2, '0')` |
| `Clock.Join` | ui3try.jsx:149 | joining puts the minutes first, then `:`, then the two-character seconds |
| `Clock.LeadingZeros` | ui3try.jsx:149 | zeros in front of a numeral do not change its value |
| `Clock.JoinReadsBack` | ui3try.jsx:149 | a joined clock string reads back as 60 times the minutes plus the seconds |
| `Clock.FormatTime` | ui3try.jsx:146-150 | the result is minutes, `:`, then two digits; the minutes read back as `seconds / 60`, the seconds field as `seconds % 60` (00 to 59), the whole string as `seconds`; below 6000 seconds it is exactly 5 characters, and a longer string does not start with `0`, so 100 minutes or more are not padded |
| `Garden.PlantCount` | ui3try.jsx:373 | the plant count is `min(6, floor(score))`: at most 6, at most `floor(score)`, and equal to one of them |
| `Garden.PlantCountMonotone` | ui3try.jsx:373 | a higher score never gives fewer plants |
| `Garden.Plants` | ui3try.jsx:371-374 | the loop builds `0, 1, ..., n - 1` where `n` is the plant count |
| `Sanctuary.SavedTextIsTrimmed` | ui3try.jsx:139-140 | a text is a valid saved text (non-empty, no blank at either end) exactly when it is non-empty and trimming leaves it unchanged |
| `Sanctuary.MoodSanctuary.constructor` | ui3try.jsx:93-100 | the view starts neutral, with an empty journal, no entries, 25 minutes on the countdown, focus off and score 0 |
| `Sanctuary.MoodSanctuary.Timer` | ui3try.jsx:97-100 | the focus state is the countdown, the focusing flag and the score |
| `Sanctuary.MoodSanctuary.Theme` | ui3try.jsx:152 | the view's theme is the current mood's own table entry; the fallback is never used |
| `Sanctuary.MoodSanctuary.Countdown` | ui3try.jsx:240 | the shown countdown has the `mm:ss` shape (minutes, `:`, two digits), reads back as the seconds left with a seconds field from 00 to 59, is exactly 5 characters below 100 minutes, and from 100 minutes up does not start with `0` |
| `Sanctuary.MoodSanctuary.Streak` | ui3try.jsx:252 | the streak is the whole part of the score |
| `Sanctuary.MoodSanctuary.SetJournal` | ui3try.jsx:102-109 | editing sets the journal text; when the text changes the mood becomes the mood derived from the new text alone; entries and timer are untouched |
| `Sanctuary.MoodSanctuary.PickMood` | ui3try.jsx:361 | a mood-ring click sets the mood and nothing else |
| `Sanctuary.MoodSanctuary.Clear` | ui3try.jsx:219 | Clear empties the journal and never touches entries or timer; the mood becomes neutral unless the journal was already empty |
| `Sanctuary.MoodSanctuary.StartFocus` | ui3try.jsx:128-131 | the countdown becomes `minutes * 60` and focus is on; the score, mood, journal and entries are kept |
| `Sanctuary.MoodSanctuary.StopFocus` | ui3try.jsx:133-136 | focus turns off and the countdown keeps its value; everything else is kept |
| `Sanctuary.MoodSanctuary.Tick` | ui3try.jsx:114-122 | above one second it counts down by one, keeping focus and score; at one or less the countdown becomes 0, focus ends and the score rises by exactly one point |
| `Sanctuary.MoodSanctuary.SaveJournal` | ui3try.jsx:138-144 | blank text changes nothing; otherwise exactly one entry (id, trimmed text, current mood) goes in front of the unchanged old entries, the journal is emptied, the mood becomes neutral and the score rises by exactly half a point; every entry's text stays non-empty and trimmed |

## Left out

- `ScriptRunner` (ui3try.jsx:32-89) is not modelled. It is a network `fetch` with a streamed body, a `TextDecoder` and React state updates.
- The interval's lifecycle (`setInterval`, `clearInterval`, the `focusTimer` ref, the effect cleanup) is not modelled as code. It appears only as `Focus.Second`: the tick runs each second while focusing and never otherwise.
- React's scheduling is not modelled: batching of state updates, and updaters run twice in strict mode. Each handler is one atomic step.
- Entry ids from `Date.now()` are a parameter of `SaveJournal`. Nothing is claimed about their uniqueness or order.
- Text.Lower: maps only ASCII `A`-`Z`, not the full Unicode case mapping of `toLowerCase`.
- Text.Trim: strips only space, tab, line feed, vertical tab, form feed and carriage return, not every Unicode white space or line terminator.
- Sanctuary.MoodSanctuary.StartFocus: takes whole, non-negative minutes. The buttons only pass 25 and 50, so negative or fractional durations are not modelled.
- Clock.FormatTime: takes a non-negative whole number of seconds, the only values the countdown holds. Negative or fractional input is not modelled.
- Themes.ThemeFor: the table is a map. A JavaScript object would also answer inherited keys such as `toString`. The component only stores the four mood keys.
- The mood ring's drawing (positions from `Math.cos`/`Math.sin`, colours) is not modelled. Only its effect is kept: a click sets one of the four moods.
- The display of the score with `toFixed(1)`, all JSX rendering, animation, Lottie, Tailwind classes and `alert` buttons are not modelled.
- The assistant panel's `showChat` toggle is not modelled. It only switches what is shown.
- `jerver3.js` is not modelled. It is a fixed sequence of `console.log` calls separated by sleeps.
