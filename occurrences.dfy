/**
 * The two helpers at the top of backend/app/api/schedule.py: the half-open
 * window overlap test and the expansion of a cron rule into its next start
 * instants. Instants are whole minutes on one clock.
 *
 * The cron expander is the foreign croniter library; the model takes it as
 * a function value. None stands for croniter raising on a malformed rule.
 * WellBehaved states what the model assumes of croniter's results.
 */
module Occurrences {
  import opened Wrappers

  /** Both endpoints expand every rule to 7 occurrences. */
  const Horizon: nat := 7

  type Expander = (string, int, nat) -> Option<seq<int>>

  predicate StrictlyIncreasing(s: seq<int>) {
    forall i, j :: 0 <= i < j < |s| ==> s[i] < s[j]
  }

  /** n start instants, ascending, each strictly after base. */
  predicate ValidExpansion(occ: seq<int>, base: int, n: nat) {
    && |occ| == n
    && StrictlyIncreasing(occ)
    && forall i :: 0 <= i < |occ| ==> base < occ[i]
  }

  ghost predicate WellBehaved(expand: Expander) {
    forall rule: string, base: int, n: nat ::
      expand(rule, base, n).Some? ==> ValidExpansion(expand(rule, base, n).value, base, n)
  }

  /** get_next_occurrences: the next n start instants of rule after base. */
  function NextOccurrences(expand: Expander, rule: string, base: int, n: nat): (r: Option<seq<int>>)
    requires WellBehaved(expand)
    ensures r.Some? ==> |r.value| == n
    ensures r.Some? ==> forall i, j :: 0 <= i < j < n ==> r.value[i] < r.value[j]
    ensures r.Some? ==> forall i :: 0 <= i < n ==> base < r.value[i]
  {
    expand(rule, base, n)
  }

  /** Instant t lies in the half-open window [start, end). */
  predicate InWindow(t: int, start: int, end: int) {
    start <= t < end
  }

  /** windows_overlap: do [start1, end1) and [start2, end2) share an instant? */
  function WindowsOverlap(start1: int, end1: int, start2: int, end2: int): (r: bool)
    ensures r <==> exists t :: InWindow(t, start1, end1) && InWindow(t, start2, end2)
  {
    var lo := if start1 < start2 then start2 else start1;
    var hi := if end1 < end2 then end1 else end2;
    assert lo < hi ==> InWindow(lo, start1, end1) && InWindow(lo, start2, end2);
    lo < hi
  }

  lemma OverlapSymmetric(start1: int, end1: int, start2: int, end2: int)
    ensures WindowsOverlap(start1, end1, start2, end2) == WindowsOverlap(start2, end2, start1, end1)
  {
  }

  /** Windows that only touch (one ends where the other starts) do not overlap. */
  lemma TouchingWindowsDoNotOverlap(start1: int, end1: int, end2: int)
    ensures !WindowsOverlap(start1, end1, end1, end2)
  {
  }

  /** A non-empty window overlaps itself. */
  lemma NonEmptyWindowOverlapsItself(start: int, end: int)
    requires start < end
    ensures WindowsOverlap(start, end, start, end)
  {
    assert InWindow(start, start, end);
  }

  /** Some occurrence of the first schedule, run for its duration, overlaps some occurrence of the second. */
  predicate AnyPairOverlaps(newOcc: seq<int>, newDur: int, oldOcc: seq<int>, oldDur: int) {
    exists i, j :: 0 <= i < |newOcc| && 0 <= j < |oldOcc|
      && WindowsOverlap(newOcc[i], newOcc[i] + newDur, oldOcc[j], oldOcc[j] + oldDur)
  }

  /** The nested pair loop of create_schedule / update_schedule, stopping at the first overlap. */
  method PairsOverlap(newOcc: seq<int>, newDur: int, oldOcc: seq<int>, oldDur: int) returns (found: bool)
    ensures found == AnyPairOverlaps(newOcc, newDur, oldOcc, oldDur)
  {
    var i := 0;
    while i < |newOcc|
      invariant 0 <= i <= |newOcc|
      invariant forall i', j :: 0 <= i' < i && 0 <= j < |oldOcc| ==>
        !WindowsOverlap(newOcc[i'], newOcc[i'] + newDur, oldOcc[j], oldOcc[j] + oldDur)
    {
      var newStart := newOcc[i];
      var newEnd := newStart + newDur;
      var j := 0;
      while j < |oldOcc|
        invariant 0 <= j <= |oldOcc|
        invariant forall j' :: 0 <= j' < j ==> !WindowsOverlap(newStart, newEnd, oldOcc[j'], oldOcc[j'] + oldDur)
      {
        var oldStart := oldOcc[j];
        if WindowsOverlap(newStart, newEnd, oldStart, oldStart + oldDur) {
          return true;
        }
        j := j + 1;
      }
      i := i + 1;
    }
    return false;
  }

  /** Two schedules that share a start instant and both run for a positive time overlap. */
  lemma SharedStartOverlaps(newOcc: seq<int>, newDur: int, oldOcc: seq<int>, oldDur: int, i: nat, j: nat)
    requires i < |newOcc| && j < |oldOcc| && newOcc[i] == oldOcc[j]
    requires newDur > 0 && oldDur > 0
    ensures AnyPairOverlaps(newOcc, newDur, oldOcc, oldDur)
  {
    assert InWindow(newOcc[i], newOcc[i], newOcc[i] + newDur) && InWindow(newOcc[i], oldOcc[j], oldOcc[j] + oldDur);
  }

  /** A schedule of non-positive duration occupies no time and overlaps nothing. */
  lemma EmptyDurationNeverOverlaps(newOcc: seq<int>, newDur: int, oldOcc: seq<int>, oldDur: int)
    requires newDur <= 0 || oldDur <= 0
    ensures !AnyPairOverlaps(newOcc, newDur, oldOcc, oldDur)
  {
  }
}
