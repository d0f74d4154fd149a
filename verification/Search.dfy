/** Linear search from a starting index, and what repeating it finds. */
module Search {

  /** The least index at or after `from` and below `n` that satisfies `p`, or `n`. */
  function First(p: nat -> bool, from: nat, n: nat): (i: nat)
    ensures i <= n
    ensures i < n ==> from <= i && p(i)
    ensures forall j: nat :: from <= j < n && j < i ==> !p(j)
    decreases n - from
  {
    if from >= n then n else if p(from) then from else First(p, from + 1, n)
  }

  lemma FirstStep(p: nat -> bool, i: nat, n: nat)
    requires i < n
    ensures First(p, i, n) == if p(i) then i else First(p, i + 1, n)
  {
  }

  /** Searches for predicates that agree up to the first find find the same. */
  lemma {:induction false} FirstAgrees(p: nat -> bool, q: nat -> bool, from: nat, n: nat)
    requires forall i: nat :: i < n && i <= First(p, from, n) ==> p(i) == q(i)
    ensures First(p, from, n) == First(q, from, n)
    decreases n - from
  {
    if from < n && !p(from) { FirstAgrees(p, q, from + 1, n); }
  }

  /** What repeated searching finds, each search starting after the last find. */
  function All(p: nat -> bool, from: nat, n: nat): seq<nat>
    decreases n - from
  {
    var i := First(p, from, n);
    if i >= n then [] else [i] + All(p, i + 1, n)
  }

  lemma {:induction false} AllMembers(p: nat -> bool, from: nat, n: nat, i: nat)
    ensures i in All(p, from, n) <==> from <= i < n && p(i)
    decreases n - from
  {
    var first := First(p, from, n);
    if first < n {
      var rest := All(p, first + 1, n);
      AllMembers(p, first + 1, n, i);
      MemberOfCons(first, rest, i);
    }
  }

  lemma MemberOfCons(x: nat, rest: seq<nat>, i: nat)
    ensures i in [x] + rest <==> i == x || i in rest
  {
  }

  lemma ConsIndex(x: nat, rest: seq<nat>, i: nat)
    requires 0 < i <= |rest|
    ensures ([x] + rest)[i] == rest[i - 1]
  {
  }

  lemma {:induction false} AllIncreasing(p: nat -> bool, from: nat, n: nat, a: nat, b: nat)
    requires a < b < |All(p, from, n)|
    ensures All(p, from, n)[a] < All(p, from, n)[b]
    decreases n - from
  {
    var first := First(p, from, n);
    var rest := All(p, first + 1, n);
    ConsIndex(first, rest, b);
    if a > 0 { ConsIndex(first, rest, a); }
    if a == 0 {
      AllMembers(p, first + 1, n, rest[b - 1]);
    } else {
      AllIncreasing(p, first + 1, n, a - 1, b - 1);
    }
  }

  /** Repeated searching meets every satisfying index once, in increasing order. */
  lemma AllExact(p: nat -> bool, from: nat, n: nat)
    ensures forall i: nat :: i in All(p, from, n) <==> from <= i < n && p(i)
    ensures forall a, b :: 0 <= a < b < |All(p, from, n)| ==> All(p, from, n)[a] < All(p, from, n)[b]
  {
    forall i: nat ensures i in All(p, from, n) <==> from <= i < n && p(i) { AllMembers(p, from, n, i); }
    forall a, b | 0 <= a < b < |All(p, from, n)| ensures All(p, from, n)[a] < All(p, from, n)[b] {
      AllIncreasing(p, from, n, a, b);
    }
  }

  lemma {:induction false} AllAgrees(p: nat -> bool, q: nat -> bool, from: nat, n: nat)
    requires forall i: nat :: i < n ==> p(i) == q(i)
    ensures All(p, from, n) == All(q, from, n)
    decreases n - from
  {
    hide All, First;
    FirstAgrees(p, q, from, n);
    var first := First(p, from, n);
    if first < n { AllAgrees(p, q, first + 1, n); }
    AllUnfold(p, from, n);
    AllUnfold(q, from, n);
  }

  lemma AllUnfold(p: nat -> bool, from: nat, n: nat)
    ensures var i := First(p, from, n); All(p, from, n) == if i >= n then [] else [i] + All(p, i + 1, n)
  {
  }

  /** State of a repeated search: `found` lists the finds so far, and `next` (or `n`) is the next one. */
  datatype Progress = Progress(found: seq<nat>, from: nat, next: nat)

  ghost predicate Sofar(p: nat -> bool, n: nat, s: Progress) {
    && s.next == First(p, s.from, n)
    && All(p, 0, n) == s.found + All(p, s.from, n)
  }

  lemma SofarStart(p: nat -> bool, n: nat)
    ensures Sofar(p, n, Progress([], 0, First(p, 0, n)))
  {
  }

  lemma SofarStep(p: nat -> bool, n: nat, s: Progress)
    requires Sofar(p, n, s) && s.next < n
    ensures s.from <= s.next
    ensures Sofar(p, n, Progress(s.found + [s.next], s.next + 1, First(p, s.next + 1, n)))
  {
    AllUnfold(p, s.from, n);
    hide All, First;
    Regroup(s.found, s.next, All(p, s.next + 1, n));
  }

  lemma Regroup(a: seq<nat>, x: nat, b: seq<nat>)
    ensures a + ([x] + b) == a + [x] + b
  {
  }

  lemma SofarDone(p: nat -> bool, n: nat, s: Progress)
    requires Sofar(p, n, s) && s.next >= n
    ensures s.found == All(p, 0, n)
  {
    AllUnfold(p, s.from, n);
  }
}
