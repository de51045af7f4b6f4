/**
 The leader's two load balancers. Each chooses replication targets from a snapshot of the alive
 members and their message counts.
 */
module Balancer {
  import opened Seqs

  datatype MemberLoad = MemberLoad(addr: string, count: int)

  // ---------------------------------------------------------------- The comparison used by the sort

  /** Lexicographic order of strings by code point, as Go's `<` on strings. */
  predicate StrLess(a: string, b: string) {
    if b == [] then false
    else if a == [] then true
    else a[0] < b[0] || (a[0] == b[0] && StrLess(a[1..], b[1..]))
  }

  /** Smaller count first; equal counts by address. */
  predicate Less(a: MemberLoad, b: MemberLoad) {
    a.count < b.count || (a.count == b.count && StrLess(a.addr, b.addr))
  }

  lemma {:induction false} StrLessTotal(a: string, b: string)
    ensures a == b || StrLess(a, b) || StrLess(b, a)
    ensures !(StrLess(a, b) && StrLess(b, a))
    ensures !StrLess(a, a)
  {
    if a != [] && b != [] {
      StrLessTotal(a[1..], b[1..]);
      assert a == [a[0]] + a[1..] && b == [b[0]] + b[1..];
    }
    if a != [] {
      StrLessTotal(a[1..], a[1..]);
    }
  }

  lemma {:induction false} StrLessTransitive(a: string, b: string, c: string)
    requires StrLess(a, b) && StrLess(b, c)
    ensures StrLess(a, c)
  {
    if a != [] && a[0] == b[0] == c[0] {
      StrLessTransitive(a[1..], b[1..], c[1..]);
    }
  }

  /** The strings agree on their first `k` characters, and then `a` ends or has the smaller character. */
  ghost predicate SmallerAt(a: string, b: string, k: nat) {
    && k <= |a| && k <= |b| && a[..k] == b[..k]
    && (k == |a| < |b| || (k < |a| && k < |b| && a[k] < b[k]))
  }

  /** The order is decided at the first difference; a proper prefix comes first. */
  lemma {:induction false} StrLessMeans(a: string, b: string)
    ensures StrLess(a, b) <==> exists k :: SmallerAt(a, b, k)
  {
    if StrLess(a, b) {
      if a == [] {
        assert SmallerAt(a, b, 0);
      } else if a[0] < b[0] {
        assert SmallerAt(a, b, 0);
      } else {
        StrLessMeans(a[1..], b[1..]);
        var k :| SmallerAt(a[1..], b[1..], k);
        SmallerAtNext(a, b, k);
      }
    } else {
      forall k ensures !SmallerAt(a, b, k) {
        NeverSmaller(a, b, k);
      }
    }
  }

  lemma SmallerAtNext(a: string, b: string, k: nat)
    requires a != [] && b != [] && a[0] == b[0] && SmallerAt(a[1..], b[1..], k)
    ensures SmallerAt(a, b, k + 1)
  {
    assert a[..k + 1] == [a[0]] + a[1..][..k];
    assert b[..k + 1] == [b[0]] + b[1..][..k];
  }

  lemma {:induction false} NeverSmaller(a: string, b: string, k: nat)
    requires !StrLess(a, b)
    ensures !SmallerAt(a, b, k)
  {
    if SmallerAt(a, b, k) && k > 0 {
      assert a[0] == a[..k][0] == b[..k][0] == b[0];
      assert a[1..][..k - 1] == a[..k][1..] == b[..k][1..] == b[1..][..k - 1];
      NeverSmaller(a[1..], b[1..], k - 1);
    }
  }

  lemma LessTotal(a: MemberLoad, b: MemberLoad)
    ensures a == b || Less(a, b) || Less(b, a)
    ensures !(Less(a, b) && Less(b, a))
    ensures !Less(a, a)
  {
    StrLessTotal(a.addr, b.addr);
    StrLessTotal(a.addr, a.addr);
  }

  lemma NotLessTransitive(a: MemberLoad, b: MemberLoad, c: MemberLoad)
    requires !Less(b, a) && !Less(c, b)
    ensures !Less(c, a)
  {
    LessTotal(a, b);
    LessTotal(b, c);
    LessTotal(a, c);
    if a.addr != b.addr && b.addr != c.addr && a.count == b.count == c.count {
      StrLessTransitive(a.addr, b.addr, c.addr);
    }
  }

  // ---------------------------------------------------------------- Sorting

  ghost predicate Sorted(s: seq<MemberLoad>) {
    forall i, j :: 0 <= i < j < |s| ==> !Less(s[j], s[i])
  }

  /** `x` put behind every element of the sorted prefix that it is not less than. */
  function Insert(s: seq<MemberLoad>, x: MemberLoad): seq<MemberLoad> {
    if s == [] || !Less(x, s[|s| - 1]) then s + [x]
    else Insert(s[..|s| - 1], x) + [s[|s| - 1]]
  }

  function Sort(s: seq<MemberLoad>): seq<MemberLoad> {
    if s == [] then [] else Insert(Sort(s[..|s| - 1]), s[|s| - 1])
  }

  lemma {:induction false} InsertSorts(s: seq<MemberLoad>, x: MemberLoad)
    requires Sorted(s)
    ensures Sorted(Insert(s, x))
    ensures multiset(Insert(s, x)) == multiset(s) + multiset{x}
  {
    if s == [] {
    } else if !Less(x, s[|s| - 1]) {
      forall i | 0 <= i < |s| ensures !Less(x, s[i]) {
        if i < |s| - 1 {
          NotLessTransitive(s[i], s[|s| - 1], x);
        }
      }
    } else {
      var last := s[|s| - 1];
      var front := s[..|s| - 1];
      InsertSorts(front, x);
      assert s == front + [last];
      LessTotal(x, last);
      var t := Insert(front, x);
      forall i | 0 <= i < |t| ensures !Less(last, t[i]) {
        assert t[i] in multiset(t);
        assert t[i] in front || t[i] == x;
      }
    }
  }

  lemma {:induction false} SortSorts(s: seq<MemberLoad>)
    ensures Sorted(Sort(s))
    ensures multiset(Sort(s)) == multiset(s)
    ensures |Sort(s)| == |s|
  {
    if s != [] {
      SortSorts(s[..|s| - 1]);
      InsertSorts(Sort(s[..|s| - 1]), s[|s| - 1]);
      assert s == s[..|s| - 1] + [s[|s| - 1]];
    }
    assert |multiset(Sort(s))| == |multiset(s)|;
  }

  /** The last element of a sorted sequence is not less than any element of its bag. */
  lemma SortedLast(s: seq<MemberLoad>, x: MemberLoad)
    requires Sorted(s) && x in multiset(s)
    ensures !Less(s[|s| - 1], x)
  {
    var k := BagIndex(s, x);
    LessTotal(x, x);
  }

  /** A bag of loads has one sorted arrangement. */
  lemma {:induction false} SortedUnique(s: seq<MemberLoad>, t: seq<MemberLoad>)
    requires Sorted(s) && Sorted(t) && multiset(s) == multiset(t)
    ensures s == t
    decreases |s|
  {
    assert |multiset(s)| == |multiset(t)|;
    if s != [] {
      LastBag(s);
      LastBag(t);
      var a, b := s[|s| - 1], t[|t| - 1];
      SortedLast(s, b);
      SortedLast(t, a);
      LessTotal(a, b);
      BagCancel(multiset(s[..|s| - 1]), multiset(t[..|t| - 1]), a);
      BagCancel(multiset(t[..|t| - 1]), multiset(s[..|s| - 1]), a);
      SortedUnique(s[..|s| - 1], t[..|t| - 1]);
    }
  }

  /** `x` is less than every element of `s` from index `j` on. */
  ghost predicate InsertSteps(s: seq<MemberLoad>, x: MemberLoad, j: nat) {
    forall k :: j <= k < |s| ==> Less(x, s[k])
  }

  /** Where `Insert` puts an element: behind the last one it is not less than. */
  lemma {:induction false} InsertPlace(s: seq<MemberLoad>, x: MemberLoad, j: nat)
    requires j <= |s|
    requires j == 0 || !Less(x, s[j - 1])
    requires InsertSteps(s, x, j)
    ensures Insert(s, x) == s[..j] + [x] + s[j..]
  {
    if j < |s| {
      var front := s[..|s| - 1];
      InsertPlace(front, x, j);
      assert front[..j] == s[..j];
      assert front[j..] + [s[|s| - 1]] == s[j..];
    }
  }

  lemma SortStep(s: seq<MemberLoad>, i: nat)
    requires i < |s|
    ensures Sort(s[..i + 1]) == Insert(Sort(s[..i]), s[i])
  {
    assert s[..i + 1][..i] == s[..i];
  }

  lemma Rest<T>(s: seq<T>, i: nat)
    requires i < |s|
    ensures s[i..][0] == s[i] && s[i..][1..] == s[i + 1..]
  {
  }

  /** In-place insertion sort by adjacent swaps, moving each element left while it is less. */
  method SliceStable(a: array<MemberLoad>)
    modifies a
    ensures a[..] == Sort(old(a[..]))
  {
    ghost var was := a[..];
    var i := 0;
    while i < a.Length
      invariant 0 <= i <= a.Length
      invariant a[..i] == Sort(was[..i])
      invariant a[i..] == was[i..]
    {
      Rest(a[..], i);
      Rest(was, i);
      SortStep(was, i);
      assert a[i] == a[i..][0];
      assert a[i + 1..] == a[i..][1..];
      InsertInto(a, i);
      i := i + 1;
    }
    assert was[..i] == was;
    assert a[..i] == a[..];
  }

  /** The inner loop: swaps a[n] left to its place among the n elements before it. */
  method InsertInto(a: array<MemberLoad>, n: nat)
    requires n < a.Length
    modifies a
    ensures a[..n + 1] == Insert(old(a[..n]), old(a[n]))
    ensures a[n + 1..] == old(a[n + 1..])
  {
    var j := n;
    ghost var s := a[..n];
    ghost var x := a[n];
    while j > 0 && Less(a[j], a[j - 1])
      invariant 0 <= j <= n
      invariant a[..n + 1] == s[..j] + [x] + s[j..]
      invariant InsertSteps(s, x, j)
      invariant a[n + 1..] == old(a[n + 1..])
    {
      assert a[j] == a[..n + 1][j] == x;
      assert a[j - 1] == a[..n + 1][j - 1] == s[j - 1];
      a[j], a[j - 1] := a[j - 1], a[j];
      j := j - 1;
    }
    if j > 0 {
      assert a[j] == a[..n + 1][j] == x;
      assert a[j - 1] == a[..n + 1][j - 1] == s[j - 1];
    }
    InsertPlace(s, x, j);
  }

  // ---------------------------------------------------------------- Least loaded

  /** The sorted candidates cut to the tolerance; nothing when either is empty. */
  function LeastLoaded(candidates: seq<MemberLoad>, tolerance: int): seq<MemberLoad> {
    if tolerance <= 0 || candidates == [] then []
    else
      SortSorts(candidates);
      Sort(candidates)[..Min(tolerance, |candidates|)]
  }

  class LeastLoadedBalancer {
    constructor () {}

    method Pick(candidates: array<MemberLoad>, tolerance: int) returns (out: seq<MemberLoad>)
      modifies candidates
      ensures out == LeastLoaded(old(candidates[..]), tolerance)
      ensures multiset(candidates[..]) == multiset(old(candidates[..]))
      ensures tolerance > 0 ==> Sorted(candidates[..])
    {
      if tolerance <= 0 || candidates.Length == 0 {
        return [];
      }
      SliceStable(candidates);
      SortSorts(old(candidates[..]));
      var limit := tolerance;
      if limit > candidates.Length {
        limit := candidates.Length;
      }
      out := [];
      var i := 0;
      while i < limit
        invariant 0 <= i <= limit
        invariant out == candidates[..i]
      {
        out := out + [candidates[i]];
        i := i + 1;
      }
      assert candidates[..limit] == candidates[..][..limit];
    }
  }

  function Total(s: seq<MemberLoad>): int {
    if s == [] then 0 else Total(s[..|s| - 1]) + s[|s| - 1].count
  }

  /** Removing one element takes its count off the total. */
  lemma {:induction false} TotalWithout(s: seq<MemberLoad>, k: nat)
    requires k < |s|
    ensures Total(s) == Total(Without(s, k)) + s[k].count
    decreases |s|
  {
    var n := |s| - 1;
    var t := Without(s, k);
    if k == n {
      assert t == s[..n];
    } else {
      TotalWithout(s[..n], k);
      assert t[..|t| - 1] == Without(s[..n], k);
      assert t[|t| - 1] == s[n];
    }
  }

  /** Equal bags have equal totals. */
  lemma {:induction false} TotalOfBag(s: seq<MemberLoad>, t: seq<MemberLoad>)
    requires multiset(s) == multiset(t)
    ensures Total(s) == Total(t)
    decreases |s|
  {
    assert |multiset(s)| == |multiset(t)|;
    if s != [] {
      LastBag(s);
      var k := BagIndex(t, s[|s| - 1]);
      TotalWithout(t, k);
      WithoutBag(t, k);
      BagCancel(multiset(s[..|s| - 1]), multiset(Without(t, k)), t[k]);
      BagCancel(multiset(Without(t, k)), multiset(s[..|s| - 1]), t[k]);
      TotalOfBag(s[..|s| - 1], Without(t, k));
    }
  }

  /** Striking the last element of `s` from a choice leaves a choice from the rest. */
  lemma StrikeLast(s: seq<MemberLoad>, t: seq<MemberLoad>, k: nat)
    requires s != [] && k < |t| && t[k] == s[|s| - 1] && multiset(t) <= multiset(s)
    ensures multiset(Without(t, k)) <= multiset(s[..|s| - 1])
  {
    LastBag(s);
    WithoutBag(t, k);
    BagCancel(multiset(Without(t, k)), multiset(s[..|s| - 1]), t[k]);
  }

  /** A choice that does not use the last element of `s` is a choice from the rest. */
  lemma DropLast(s: seq<MemberLoad>, t: seq<MemberLoad>)
    requires s != [] && s[|s| - 1] !in multiset(t) && multiset(t) <= multiset(s)
    ensures multiset(t) <= multiset(s[..|s| - 1])
  {
    LastBag(s);
    forall y ensures multiset(t)[y] <= multiset(s[..|s| - 1])[y] {
      assert multiset(t)[y] <= multiset(s)[y];
    }
  }

  lemma FullChoice(s: seq<MemberLoad>, t: seq<MemberLoad>)
    requires multiset(t) <= multiset(s)
    ensures |t| <= |s|
    ensures |t| == |s| ==> Total(s[..|t|]) == Total(t)
  {
    SubBagSize(multiset(t), multiset(s));
    if |t| == |s| {
      TotalOfBag(s, t);
      assert s[..|t|] == s;
    }
  }

  /** No choice of `|t|` elements from a sorted sequence totals less than its first `|t|`. */
  lemma {:induction false} PrefixIsCheapest(s: seq<MemberLoad>, t: seq<MemberLoad>)
    requires Sorted(s) && multiset(t) <= multiset(s)
    ensures |t| <= |s|
    ensures Total(s[..|t|]) <= Total(t)
    decreases |s|
  {
    FullChoice(s, t);
    if t != [] && |t| < |s| {
      var x, front := s[|s| - 1], s[..|s| - 1];
      if x in multiset(t) {
        var k := BagIndex(t, x);
        StrikeLast(s, t, k);
        TotalWithout(t, k);
        PrefixIsCheapest(front, Without(t, k));
        PrefixStep(s, |t| - 1);
      } else {
        DropLast(s, t);
        PrefixIsCheapest(front, t);
        assert s[..|t|] == front[..|t|];
      }
    }
  }

  /** One more element of a sorted sequence costs at most its last element. */
  lemma PrefixStep(s: seq<MemberLoad>, k: nat)
    requires Sorted(s) && k < |s|
    ensures Total(s[..k + 1]) <= Total(s[..|s| - 1][..k]) + s[|s| - 1].count
  {
    assert s[..k + 1][..k] == s[..|s| - 1][..k];
    SortedLast(s, s[k]);
  }

  /** The bag left behind by a pick is what the sort put after it. */
  lemma LeastLoadedSplit(candidates: seq<MemberLoad>, tolerance: int)
    requires tolerance >= 0
    ensures var out := LeastLoaded(candidates, tolerance);
            && |out| == Min(tolerance, |candidates|) <= |Sort(candidates)|
            && out == Sort(candidates)[..|out|]
            && multiset(candidates) == multiset(out) + multiset(Sort(candidates)[|out|..])
  {
    SortSorts(candidates);
    var out, s := LeastLoaded(candidates, tolerance), Sort(candidates);
    assert s == s[..|out|] + s[|out|..];
  }

  /** A pick is no dearer than any other choice of the same size. */
  lemma LeastLoadedCheapest(candidates: seq<MemberLoad>, tolerance: int, t: seq<MemberLoad>)
    requires tolerance >= 0
    requires multiset(t) <= multiset(candidates) && |t| == |LeastLoaded(candidates, tolerance)|
    ensures |LeastLoaded(candidates, tolerance)| == if tolerance < |candidates| then tolerance else |candidates|
    ensures multiset(LeastLoaded(candidates, tolerance)) <= multiset(candidates)
    ensures Total(LeastLoaded(candidates, tolerance)) <= Total(t)
  {
    LeastLoadedSplit(candidates, tolerance);
    SortSorts(candidates);
    PrefixIsCheapest(Sort(candidates), t);
  }

  /**
   No load left behind has a smaller count than a picked one, nor the same count and an address that comes
   earlier by its first different character.
   */
  lemma LeastLoadedOrdered(candidates: seq<MemberLoad>, tolerance: int, p: MemberLoad, q: MemberLoad)
    requires tolerance >= 0
    requires p in LeastLoaded(candidates, tolerance)
    requires q in multiset(candidates) - multiset(LeastLoaded(candidates, tolerance))
    ensures p.count <= q.count
    ensures p.count == q.count ==> forall k :: !SmallerAt(q.addr, p.addr, k)
  {
    StrLessMeans(q.addr, p.addr);
    LeastLoadedSplit(candidates, tolerance);
    SortSorts(candidates);
    var s := Sort(candidates);
    var k := |LeastLoaded(candidates, tolerance)|;
    var i :| 0 <= i < k && s[i] == p;
    var j := BagIndex(s[k..], q);
    assert s[k + j] == q;
    assert !Less(q, p);
  }

  /** The result does not depend on the order in which the candidates were listed. */
  lemma LeastLoadedOrderFree(c: seq<MemberLoad>, d: seq<MemberLoad>, tolerance: int)
    requires multiset(c) == multiset(d)
    ensures LeastLoaded(c, tolerance) == LeastLoaded(d, tolerance)
  {
    assert |multiset(c)| == |multiset(d)|;
    SortSorts(c);
    SortSorts(d);
    SortedUnique(Sort(c), Sort(d));
  }

  // ---------------------------------------------------------------- Distinct targets

  ghost predicate DistinctAddrs(s: seq<MemberLoad>) {
    forall i, j :: 0 <= i < j < |s| ==> s[i].addr != s[j].addr
  }

  /** A choice from candidates with distinct addresses names no address twice. */
  lemma SubBagDistinct(t: seq<MemberLoad>, s: seq<MemberLoad>)
    requires DistinctAddrs(s) && multiset(t) <= multiset(s)
    ensures DistinctAddrs(t)
    ensures forall x :: x in t ==> x in s
  {
    NoDupMultiset(s);
    NoDupMultiset(t);
    forall x | x in t ensures x in s {
      assert x in multiset(t);
    }
    forall i, j | 0 <= i < j < |t| ensures t[i].addr != t[j].addr {
      assert t[i] != t[j];
      assert t[i] in s && t[j] in s;
    }
  }

  // ---------------------------------------------------------------- Power of two choices

  /** Two distinct indices drawn from a pool of the given size. */
  predicate ValidDraw(d: (nat, nat), size: nat) {
    d.0 < size && d.1 < size && d.0 != d.1
  }

  predicate ValidDraws(draws: seq<(nat, nat)>, size: nat) {
    |draws| < size && forall i :: 0 <= i < |draws| ==> ValidDraw(draws[i], size - i)
  }

  /** The second index wins only with a strictly smaller count. */
  function Winner(pool: seq<MemberLoad>, d: (nat, nat)): nat
    requires ValidDraw(d, |pool|)
  {
    if pool[d.1].count < pool[d.0].count then d.1 else d.0
  }

  /** The winner's slot takes the last element and the pool loses its last slot. */
  function SwapRemove(pool: seq<MemberLoad>, w: nat): seq<MemberLoad>
    requires w < |pool|
  {
    pool[w := pool[|pool| - 1]][..|pool| - 1]
  }

  datatype Picked = Picked(out: seq<MemberLoad>, rest: seq<MemberLoad>)

  /** The duels played out for one sequence of draws. */
  function Duels(pool: seq<MemberLoad>, draws: seq<(nat, nat)>): (p: Picked)
    requires ValidDraws(draws, |pool|)
    ensures |p.out| == |draws| && |p.rest| == |pool| - |draws|
    decreases |draws|
  {
    if draws == [] then Picked([], pool)
    else
      var n := |draws| - 1;
      var p := Duels(pool, draws[..n]);
      var w := Winner(p.rest, draws[n]);
      Picked(p.out + [p.rest[w]], SwapRemove(p.rest, w))
  }

  /** One more round: the winner of the next draw moves from the pool to the output. */
  lemma DuelsStep(pool: seq<MemberLoad>, draws: seq<(nat, nat)>, i: nat)
    requires ValidDraws(draws, |pool|) && i < |draws|
    ensures var p, q := Duels(pool, draws[..i]), Duels(pool, draws[..i + 1]);
            && ValidDraw(draws[i], |p.rest|)
            && q.out == p.out + [p.rest[Winner(p.rest, draws[i])]]
            && q.rest == SwapRemove(p.rest, Winner(p.rest, draws[i]))
  {
    assert draws[..i + 1][..i] == draws[..i];
  }

  /**
   What a round of duels does, in terms of the two loads drawn: the lighter one is picked, the first of two
   equally heavy ones, and its slot in the pool is filled from the end.
   */
  ghost predicate LighterLeaves(rest: seq<MemberLoad>, d: (nat, nat), picked: MemberLoad, next: seq<MemberLoad>) {
    && d.0 < |rest| && d.1 < |rest| && |next| == |rest| - 1
    && exists w :: (w == d.0 || w == d.1) && picked == rest[w]
                   && picked.count <= rest[d.0].count && picked.count <= rest[d.1].count
                   && (rest[d.0].count == rest[d.1].count ==> w == d.0)
                   && forall k :: 0 <= k < |next| ==> next[k] == if k == w then rest[|rest| - 1] else rest[k]
  }

  /** In every round the lighter of the two drawn loads is picked. */
  lemma {:induction false} LighterWins(pool: seq<MemberLoad>, draws: seq<(nat, nat)>, n: nat)
    requires ValidDraws(draws, |pool|) && n < |draws|
    ensures LighterLeaves(Duels(pool, draws[..n]).rest, draws[n], Duels(pool, draws).out[n],
                          Duels(pool, draws[..n + 1]).rest)
    decreases |draws|
  {
    var last := |draws| - 1;
    if n < last {
      LighterWins(pool, draws[..last], n);
      assert draws[..last][..n] == draws[..n] && draws[..last][..n + 1] == draws[..n + 1];
    } else {
      assert draws[..n + 1] == draws;
      RoundIsFair(Duels(pool, draws[..n]).rest, draws[n]);
    }
  }

  lemma RoundIsFair(rest: seq<MemberLoad>, d: (nat, nat))
    requires ValidDraw(d, |rest|)
    ensures LighterLeaves(rest, d, rest[Winner(rest, d)], SwapRemove(rest, Winner(rest, d)))
  {
    var w := Winner(rest, d);
    assert w == d.0 || w == d.1;
  }

  lemma SwapRemoveBag(pool: seq<MemberLoad>, w: nat)
    requires w < |pool|
    ensures multiset(pool) == multiset(SwapRemove(pool, w)) + multiset{pool[w]}
  {
    var last := |pool| - 1;
    LastBag(pool);
    LastBag(pool[w := pool[last]]);
  }

  /** Picked and left-over loads together are exactly the candidates. */
  lemma {:induction false} DuelsConserve(pool: seq<MemberLoad>, draws: seq<(nat, nat)>)
    requires ValidDraws(draws, |pool|)
    ensures multiset(Duels(pool, draws).out) + multiset(Duels(pool, draws).rest) == multiset(pool)
    decreases |draws|
  {
    if draws != [] {
      var n := |draws| - 1;
      DuelsConserve(pool, draws[..n]);
      var p := Duels(pool, draws[..n]);
      SwapRemoveBag(p.rest, Winner(p.rest, draws[n]));
    }
  }

  /** After a duel, something at least as heavy as any load of the pool is still in the pool. */
  lemma DuelKeepsHeavy(pool: seq<MemberLoad>, d: (nat, nat), k: nat) returns (at: nat)
    requires ValidDraw(d, |pool|) && k < |pool|
    ensures var now := SwapRemove(pool, Winner(pool, d));
            at < |now| && pool[k].count <= now[at].count
  {
    var w := Winner(pool, d);
    var loser := if w == d.0 then d.1 else d.0;
    var keep := if k == w then loser else k;
    at := if keep == |pool| - 1 then w else keep;
  }

  /** Whatever is drawn, a load as heavy as the heaviest candidate stays unpicked. */
  lemma {:induction false} HeaviestStays(pool: seq<MemberLoad>, draws: seq<(nat, nat)>, k: nat) returns (at: nat)
    requires ValidDraws(draws, |pool|)
    requires k < |pool|
    ensures at < |Duels(pool, draws).rest| && pool[k].count <= Duels(pool, draws).rest[at].count
    decreases |draws|
  {
    if draws == [] {
      at := k;
    } else {
      var n := |draws| - 1;
      var j := HeaviestStays(pool, draws[..n], k);
      at := DuelKeepsHeavy(Duels(pool, draws[..n]).rest, draws[n], j);
    }
  }

  /** Distinct addresses among the candidates give distinct addresses among the picked. */
  lemma DuelsDistinct(pool: seq<MemberLoad>, draws: seq<(nat, nat)>)
    requires ValidDraws(draws, |pool|)
    requires DistinctAddrs(pool)
    ensures DistinctAddrs(Duels(pool, draws).out)
  {
    DuelsConserve(pool, draws);
    SubBagDistinct(Duels(pool, draws).out, pool);
  }

  /** The indices one round draws: a first one, and tries for a second one until they differ. */
  datatype Roll = Roll(first: nat, tries: seq<nat>)

  /** Every index is in the pool, and some try differs from the first index. */
  predicate ValidRoll(r: Roll, size: nat) {
    r.first < size && (forall i :: 0 <= i < |r.tries| ==> r.tries[i] < size) && exists x :: x in r.tries && x != r.first
  }

  predicate ValidRolls(rolls: seq<Roll>, size: nat) {
    |rolls| < size && forall i :: 0 <= i < |rolls| ==> ValidRoll(rolls[i], size - i)
  }

  /** The first try that differs. */
  function FirstOther(first: nat, tries: seq<nat>): (x: nat)
    requires exists x :: x in tries && x != first
    ensures x in tries && x != first
    ensures exists n :: 0 <= n < |tries| && tries[n] == x && forall m :: 0 <= m < n ==> tries[m] == first
  {
    if tries[0] != first then tries[0]
    else
      assert tries == [tries[0]] + tries[1..];
      FirstOther(first, tries[1..])
  }

  /** The pair of different indices that a round ends up with. */
  function Settled(rolls: seq<Roll>, size: nat): (draws: seq<(nat, nat)>)
    requires ValidRolls(rolls, size)
    ensures |draws| == |rolls| && ValidDraws(draws, size)
  {
    seq(|rolls|, i requires 0 <= i < |rolls| =>
      assert ValidRoll(rolls[i], size - i); (rolls[i].first, FirstOther(rolls[i].first, rolls[i].tries)))
  }

  class PowerOfTwoChoicesBalancer {
    constructor () {}

    /** Draws again until the second index differs from the first. */
    method Draw(r: Roll, size: nat) returns (d: (nat, nat))
      requires ValidRoll(r, size)
      ensures d == (r.first, FirstOther(r.first, r.tries)) && ValidDraw(d, size)
    {
      var idx1 := r.first;
      var n := 0;
      var idx2 := r.tries[n];
      while idx1 == idx2
        invariant n < |r.tries| && idx2 == r.tries[n]
        invariant exists x :: x in r.tries[n..] && x != r.first
        invariant FirstOther(r.first, r.tries[n..]) == FirstOther(r.first, r.tries)
        decreases |r.tries| - n
      {
        assert r.tries[n..] == [r.tries[n]] + r.tries[n + 1..];
        assert r.tries[n..][1..] == r.tries[n + 1..];
        n := n + 1;
        idx2 := r.tries[n];
      }
      assert r.tries[n..][0] == idx2;
      return (idx1, idx2);
    }

    /** One round: the winner of the duel leaves the first `size` slots of the pool. */
    method Round(pool: array<MemberLoad>, size: nat, d: (nat, nat)) returns (picked: MemberLoad)
      requires size <= pool.Length && ValidDraw(d, size)
      modifies pool
      ensures picked == old(pool[..size])[Winner(old(pool[..size]), d)]
      ensures pool[..size - 1] == SwapRemove(old(pool[..size]), Winner(old(pool[..size]), d))
    {
      var idx1, idx2 := d.0, d.1;
      var winnerIdx := idx1;
      if pool[idx2].count < pool[idx1].count {
        winnerIdx := idx2;
      }
      picked := pool[winnerIdx];
      var lastIdx := size - 1;
      pool[winnerIdx] := pool[lastIdx];
    }

    /** All rounds, on a pool that each of them shortens by one. */
    method Play(pool: array<MemberLoad>, rolls: seq<Roll>) returns (out: seq<MemberLoad>)
      requires ValidRolls(rolls, pool.Length)
      modifies pool
      ensures Picked(out, pool[..pool.Length - |rolls|]) == Duels(old(pool[..]), Settled(rolls, pool.Length))
    {
      ghost var cs, draws := pool[..], Settled(rolls, pool.Length);
      out := [];
      var size := pool.Length;
      assert pool[..size] == cs;
      assert draws[..0] == [];
      for i := 0 to |rolls|
        invariant size == pool.Length - i
        invariant Picked(out, pool[..size]) == Duels(cs, draws[..i])
      {
        if size == 1 {
          // More candidates than rounds: the pool never shrinks to one before the last round.
          assert false;
        }
        DuelsStep(cs, draws, i);
        assert ValidRoll(rolls[i], size);
        var d := Draw(rolls[i], size);
        var picked := Round(pool, size, d);
        out := out + [picked];
        size := size - 1;
      }
      assert draws[..|rolls|] == draws;
    }

    /**
     `rolls` are the random indices drawn in each round. The method works on a copy and modifies nothing, so
     the caller's candidates keep their order.
     */
    method Pick(candidates: array<MemberLoad>, tolerance: int, rolls: seq<Roll>)
      returns (out: seq<MemberLoad>, ghost rest: seq<MemberLoad>)
      requires 0 < tolerance < candidates.Length ==> |rolls| == tolerance && ValidRolls(rolls, candidates.Length)
      ensures tolerance <= 0 ==> out == []
      ensures 0 < tolerance && candidates.Length <= tolerance ==> out == candidates[..] && rest == []
      ensures 0 < tolerance < candidates.Length ==>
                Picked(out, rest) == Duels(candidates[..], Settled(rolls, candidates.Length))
    {
      if tolerance <= 0 || candidates.Length == 0 {
        return [], [];
      }
      if candidates.Length <= tolerance {
        return candidates[..], [];
      }
      var pool := new MemberLoad[candidates.Length]
        (i requires 0 <= i < candidates.Length reads candidates => candidates[i]);
      assert pool[..] == candidates[..];
      out := Play(pool, rolls);
      rest := pool[..pool.Length - tolerance];
    }
  }
}
