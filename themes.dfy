/** The colour theme table and its lookup, which falls back to the neutral
    theme for a key the table does not hold. */
module Themes {
  import opened Moods

  datatype Theme = Theme(bg: string, color: string)

  const Table: map<string, Theme> := map[
    "neutral" := Theme("bg-gradient-to-br from-gray-50 to-white", "text-gray-800"),
    "calm" := Theme("bg-gradient-to-br from-blue-50 to-indigo-50", "text-blue-900"),
    "happy" := Theme("bg-gradient-to-br from-yellow-50 to-pink-50", "text-pink-900"),
    "stressed" := Theme("bg-gradient-to-br from-green-50 to-emerald-50", "text-green-900")
  ]

  /** `THEMES[key] || THEMES.neutral`: always one of the four table themes. */
  function ThemeFor(key: string): (t: Theme)
    ensures t in Table.Values
    ensures key in Table ==> t == Table[key]
    ensures key !in Table ==> t == Table["neutral"]
  {
    if key in Table then Table[key] else Table["neutral"]
  }

  /** Every mood has its own entry in the table, so the fallback is only taken
      for keys that are not mood keys, and different moods show different
      themes. */
  lemma MoodThemes(m: Mood, n: Mood)
    ensures MoodKey(m) in Table
    ensures ThemeFor(MoodKey(m)) == ThemeFor(MoodKey(n)) <==> m == n
  {
  }

  lemma UnknownKeyFallsBack(key: string)
    requires forall m: Mood :: key != MoodKey(m)
    ensures ThemeFor(key) == ThemeFor(MoodKey(Neutral))
  {
    assert key != MoodKey(Neutral) && key != MoodKey(Calm) && key != MoodKey(Happy) && key != MoodKey(Stressed);
  }
}
