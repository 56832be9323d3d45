/** The library's binary search over a sorted list. */
module Search {
  ghost predicate Ascending(s: seq<nat>) {
    forall i, j | 0 <= i <= j < |s| :: s[i] <= s[j]
  }

  /** The first place whose element is not below the target, and whether the target stands there. */
  method BinarySearch(s: seq<nat>, target: nat) returns (position: nat, found: bool)
    requires Ascending(s)
    ensures position <= |s|
    ensures forall i | 0 <= i < position :: s[i] < target
    ensures forall i | position <= i < |s| :: target <= s[i]
    ensures found <==> target in s
    ensures found <==> position < |s| && s[position] == target
  {
    var low, high := 0, |s|;
    while low < high
      invariant 0 <= low <= high <= |s|
      invariant forall i | 0 <= i < low :: s[i] < target
      invariant forall i | high <= i < |s| :: target <= s[i]
    {
      var middle := low + (high - low) / 2;
      if s[middle] < target { low := middle + 1; } else { high := middle; }
    }
    position := low;
    found := low < |s| && s[low] == target;
  }
}
