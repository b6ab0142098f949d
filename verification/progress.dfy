/**
 * The status ladder: each entry of a list is completed, current or pending
 * according to where it stands against a current index. The loading
 * screen's message list and the macOS/Linux sub-step stepper both draw it.
 */
module Progress {

  datatype Phase = Completed | Current | Pending

  /** The phase of entry `i` when the current index is `cur`: the three
      class conditions (`i < cur`, `i === cur`, `i > cur`) hold one at a
      time. */
  function PhaseOf(i: int, cur: int): (p: Phase)
    ensures p.Completed? <==> i < cur
    ensures p.Current? <==> i == cur
    ensures p.Pending? <==> i > cur
  {
    if i < cur then Completed else if i == cur then Current else Pending
  }

  /** The check mark is drawn exactly on completed entries. */
  predicate CheckMark(i: int, cur: int) {
    i < cur
  }

  lemma {:induction false} CheckMarkIffCompleted(i: int, cur: int)
    ensures CheckMark(i, cur) <==> PhaseOf(i, cur) == Completed
  {
  }

  /** The phases of the first `n` entries. */
  function Ladder(n: nat, cur: int): (r: seq<Phase>)
    ensures |r| == n
    ensures forall i :: 0 <= i < n ==> r[i] == PhaseOf(i, cur)
    decreases n
  {
    if n == 0 then [] else Ladder(n - 1, cur) + [PhaseOf(n - 1, cur)]
  }

  /** How many entries are in phase `p`. */
  function Count(ps: seq<Phase>, p: Phase): (c: nat)
    ensures c <= |ps|
    decreases |ps|
  {
    if ps == [] then 0
    else Count(ps[..|ps| - 1], p) + (if ps[|ps| - 1] == p then 1 else 0)
  }

  function Min(a: int, b: int): int {
    if a <= b then a else b
  }

  /** For a non-negative current index, `min(cur, n)` entries are completed. */
  lemma {:induction false} CompletedCount(n: nat, cur: int)
    requires cur >= 0
    ensures Count(Ladder(n, cur), Completed) == Min(cur, n)
    decreases n
  {
    if n > 0 {
      CompletedCount(n - 1, cur);
      assert Ladder(n, cur)[..n - 1] == Ladder(n - 1, cur);
    }
  }

  /** Exactly one entry is current when the index is in range, none otherwise. */
  lemma {:induction false} CurrentCount(n: nat, cur: int)
    ensures Count(Ladder(n, cur), Current) == if 0 <= cur < n then 1 else 0
    decreases n
  {
    if n > 0 {
      CurrentCount(n - 1, cur);
      assert Ladder(n, cur)[..n - 1] == Ladder(n - 1, cur);
    }
  }

  /** Past the end of the list every entry is completed and none is current. */
  lemma {:induction false} PastTheEnd(n: nat, cur: int)
    requires cur >= n
    ensures forall i :: 0 <= i < n ==> Ladder(n, cur)[i] == Completed
    ensures Count(Ladder(n, cur), Completed) == n
    ensures Count(Ladder(n, cur), Current) == 0
  {
    CompletedCount(n, cur);
    CurrentCount(n, cur);
  }

  /** The three counts add up to the length: every entry has one phase. */
  lemma {:induction false} PhasesPartition(ps: seq<Phase>)
    ensures Count(ps, Completed) + Count(ps, Current) + Count(ps, Pending) == |ps|
    decreases |ps|
  {
    if ps != [] {
      PhasesPartition(ps[..|ps| - 1]);
    }
  }
}
