/** The growth garden: one plant per whole point of engagement, at most six.
    The score is counted in half points, so its floor is `halves / 2`. */
module Garden {

  const MaxPlants: nat := 6

  /** `Math.min(6, Math.floor(score))`. */
  function PlantCount(halves: nat): (n: nat)
    ensures n <= MaxPlants && n <= halves / 2
    ensures n == MaxPlants || n == halves / 2
  {
    if halves / 2 < MaxPlants then halves / 2 else MaxPlants
  }

  /** The garden never shrinks as the score grows. */
  lemma PlantCountMonotone(a: nat, b: nat)
    requires a <= b
    ensures PlantCount(a) <= PlantCount(b)
  {
  }

  /** The `plants` array the garden renders: `0, 1, ..., total - 1`. */
  method Plants(halves: nat) returns (plants: seq<nat>)
    ensures |plants| == PlantCount(halves)
    ensures forall i :: 0 <= i < |plants| ==> plants[i] == i
  {
    plants := [];
    var total := if MaxPlants < halves / 2 then MaxPlants else halves / 2;
    var i := 0;
    while i < total
      invariant i <= total
      invariant |plants| == i
      invariant forall j :: 0 <= j < i ==> plants[j] == j
    {
      plants := plants + [i];
      i := i + 1;
    }
  }
}
