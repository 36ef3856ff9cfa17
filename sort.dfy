/**
 * Ordering a message's signals by start bit: the in-place exchange sort of
 * ast2msg and the stable sort it computes.
 */
module SignalSort {
  import opened Model

  /** Ascending by start bit. */
  predicate Sorted(s: seq<Signal>)
  {
    forall i, j :: 0 <= i < j < |s| ==> s[i].startBit <= s[j].startBit
  }

  /** The signals of `s` that start at bit `k`, in their order in `s`. */
  function WithStart(s: seq<Signal>, k: nat): seq<Signal>
  {
    if s == [] then [] else (if s[0].startBit == k then [s[0]] else []) + WithStart(s[1..], k)
  }

  /**
   * For every start bit, `s` and `t` hold the same signals with that start
   * bit in the same order. A sort that keeps this is stable.
   */
  ghost predicate SameOrderPerStart(s: seq<Signal>, t: seq<Signal>)
  {
    forall k: nat :: WithStart(s, k) == WithStart(t, k)
  }

  /** Puts `x` before the first signal of the sorted `t` that does not start below it. */
  function Insert(x: Signal, t: seq<Signal>): seq<Signal>
  {
    if t == [] then [x]
    else if x.startBit <= t[0].startBit then [x] + t
    else [t[0]] + Insert(x, t[1..])
  }

  /** The reference stable sort by start bit (an insertion sort). */
  function SortByStart(s: seq<Signal>): seq<Signal>
  {
    if s == [] then [] else Insert(s[0], SortByStart(s[1..]))
  }

  lemma {:induction false} WithStartConcat(a: seq<Signal>, b: seq<Signal>, k: nat)
    ensures WithStart(a + b, k) == WithStart(a, k) + WithStart(b, k)
  {
    if a == [] {
      assert a + b == b;
    } else {
      assert (a + b)[1..] == a[1..] + b;
      WithStartConcat(a[1..], b, k);
    }
  }

  lemma {:induction false} WithStartMembers(s: seq<Signal>, k: nat)
    ensures forall e :: e in WithStart(s, k) ==> e in s && e.startBit == k
  {
    if s != [] {
      WithStartMembers(s[1..], k);
    }
  }

  lemma WithStartOfFirst(s: seq<Signal>)
    requires s != []
    ensures WithStart(s, s[0].startBit) != []
  {
  }

  lemma {:induction false} InsertKeepsOrder(x: Signal, t: seq<Signal>, k: nat)
    ensures WithStart(Insert(x, t), k) == (if x.startBit == k then [x] else []) + WithStart(t, k)
  {
    if t != [] && x.startBit > t[0].startBit {
      InsertKeepsOrder(x, t[1..], k);
    }
  }

  lemma {:induction false} InsertElements(x: Signal, t: seq<Signal>)
    ensures multiset(Insert(x, t)) == multiset(t) + multiset{x}
  {
    if t != [] && x.startBit > t[0].startBit {
      InsertElements(x, t[1..]);
      assert t == [t[0]] + t[1..];
    } else if t != [] {
      assert Insert(x, t) == [x] + t;
    }
  }

  /** Every signal of Insert(x, t) is `x` or one of `t`. */
  lemma {:induction false} InsertMembers(x: Signal, t: seq<Signal>)
    ensures forall e :: e in Insert(x, t) ==> e == x || e in t
  {
    if t != [] && x.startBit > t[0].startBit {
      InsertMembers(x, t[1..]);
    }
  }

  /** A signal starting no later than every signal of the sorted `r` may go in front of it. */
  lemma ConsSorted(h: Signal, r: seq<Signal>)
    requires Sorted(r)
    requires forall e :: e in r ==> h.startBit <= e.startBit
    ensures Sorted([h] + r)
  {
    var s := [h] + r;
    forall i, j | 0 <= i < j < |s|
      ensures s[i].startBit <= s[j].startBit
    {
      assert s[j] == r[j - 1];
      if i > 0 {
        assert s[i] == r[i - 1];
      }
    }
  }

  lemma {:induction false} InsertSorted(x: Signal, t: seq<Signal>)
    requires Sorted(t)
    ensures Sorted(Insert(x, t))
  {
    if t != [] && x.startBit > t[0].startBit {
      var r := Insert(x, t[1..]);
      assert Sorted(t[1..]);
      InsertSorted(x, t[1..]);
      assert forall e :: e in r ==> t[0].startBit <= e.startBit by {
        InsertMembers(x, t[1..]);
        forall e | e in t[1..]
          ensures t[0].startBit <= e.startBit
        {
          var j :| 0 <= j < |t[1..]| && t[1..][j] == e;
          assert t[j + 1] == e;
        }
      }
      ConsSorted(t[0], r);
      assert Insert(x, t) == [t[0]] + r;
    }
  }

  /** The reference sort is ordered, a permutation of its input and stable. */
  lemma {:induction false} SortByStartCorrect(s: seq<Signal>)
    ensures Sorted(SortByStart(s))
    ensures multiset(SortByStart(s)) == multiset(s)
    ensures SameOrderPerStart(SortByStart(s), s)
  {
    if s != [] {
      SortByStartCorrect(s[1..]);
      InsertSorted(s[0], SortByStart(s[1..]));
      InsertElements(s[0], SortByStart(s[1..]));
      assert s == [s[0]] + s[1..];
      forall k: nat
        ensures WithStart(SortByStart(s), k) == WithStart(s, k)
      {
        InsertKeepsOrder(s[0], SortByStart(s[1..]), k);
      }
    }
  }

  /**
   * Two sequences sorted by start bit that agree on the order of the signals
   * of every start bit are equal: a stable sort has exactly one result.
   */
  lemma {:induction false} StableSortUnique(s: seq<Signal>, t: seq<Signal>)
    requires Sorted(s) && Sorted(t) && SameOrderPerStart(s, t)
    ensures s == t
    decreases |s|
  {
    if s == [] || t == [] {
      var u := if s == [] then t else s;
      if u != [] {
        WithStartOfFirst(u);
        assert false;
      }
    } else {
      var k, k' := s[0].startBit, t[0].startBit;
      assert WithStart(s, k')[0] == t[0] by {
        assert WithStart(t, k')[0] == t[0];
      }
      WithStartMembers(s, k');
      assert t[0] in s;
      assert k <= k';
      assert WithStart(t, k)[0] == s[0] by {
        assert WithStart(s, k)[0] == s[0];
      }
      WithStartMembers(t, k);
      assert s[0] in t;
      assert k' <= k;
      assert s[0] == t[0];
      forall k2: nat
        ensures WithStart(s[1..], k2) == WithStart(t[1..], k2)
      {
        var h := if s[0].startBit == k2 then [s[0]] else [];
        assert WithStart(s, k2) == h + WithStart(s[1..], k2);
        assert WithStart(t, k2) == h + WithStart(t[1..], k2);
        assert (h + WithStart(s[1..], k2))[|h|..] == WithStart(s[1..], k2);
        assert (h + WithStart(t[1..], k2))[|h|..] == WithStart(t[1..], k2);
      }
      StableSortUnique(s[1..], t[1..]);
      assert s == [s[0]] + s[1..] && t == [t[0]] + t[1..];
    }
  }

  /** Sorting signals that are already in start-bit order changes nothing. */
  lemma SortByStartOfSorted(s: seq<Signal>)
    requires Sorted(s)
    ensures SortByStart(s) == s
  {
    SortByStartCorrect(s);
    StableSortUnique(SortByStart(s), s);
  }

  /** Sorting twice sorts once. */
  lemma SortByStartIdempotent(s: seq<Signal>)
    ensures SortByStart(SortByStart(s)) == SortByStart(s)
  {
    SortByStartCorrect(s);
    SortByStartOfSorted(SortByStart(s));
  }

  /** `s` with its neighbours `i` and `i + 1` exchanged. */
  function Swapped(s: seq<Signal>, i: nat): seq<Signal>
    requires i + 1 < |s|
  {
    s[..i] + [s[i + 1], s[i]] + s[i + 2..]
  }

  /** Keeping the per-start order is transitive. */
  lemma SameOrderTrans(s: seq<Signal>, t: seq<Signal>, u: seq<Signal>)
    requires SameOrderPerStart(s, t) && SameOrderPerStart(t, u)
    ensures SameOrderPerStart(s, u)
  {
    forall k: nat
      ensures WithStart(s, k) == WithStart(u, k)
    {
      assert WithStart(s, k) == WithStart(t, k);
    }
  }

  /** Exchanging two neighbours with different start bits keeps every per-start order. */
  lemma SwapKeepsOrder(s: seq<Signal>, i: nat)
    requires i + 1 < |s| && s[i].startBit != s[i + 1].startBit
    ensures SameOrderPerStart(Swapped(s, i), s)
  {
    var t := Swapped(s, i);
    assert s == s[..i] + [s[i], s[i + 1]] + s[i + 2..];
    forall k: nat
      ensures WithStart(t, k) == WithStart(s, k)
    {
      WithStartConcat(s[..i] + [s[i + 1], s[i]], s[i + 2..], k);
      WithStartConcat(s[..i], [s[i + 1], s[i]], k);
      WithStartConcat(s[..i] + [s[i], s[i + 1]], s[i + 2..], k);
      WithStartConcat(s[..i], [s[i], s[i + 1]], k);
      WithStartConcat([s[i]], [s[i + 1]], k);
      WithStartConcat([s[i + 1]], [s[i]], k);
    }
  }

  /**
   * The suffix of `s` from `m` is sorted and nothing before `m` starts above
   * anything in it: the part an exchange sort has already put in place.
   */
  ghost predicate Settled(s: seq<Signal>, m: nat)
  {
    && m <= |s|
    && (forall x, y :: m <= x < y < |s| ==> s[x].startBit <= s[y].startBit)
    && (forall x, y :: 0 <= x < m <= y < |s| ==> s[x].startBit <= s[y].startBit)
  }

  lemma AdjacentSorted(s: seq<Signal>)
    requires forall j :: 0 <= j < |s| - 1 ==> s[j].startBit <= s[j + 1].startBit
    ensures Sorted(s)
  {
    forall i, j | 0 <= i < j < |s|
      ensures s[i].startBit <= s[j].startBit
    {
      var l := i;
      while l < j
        invariant i <= l <= j
        invariant s[i].startBit <= s[l].startBit
      {
        l := l + 1;
      }
    }
  }

  /**
   * What holds after the first `i` steps of a pass over `s` that started
   * settled from `m`: `s[i]` is a largest start bit of `s[..i + 1]`, the pair
   * at `m - 1` is in place once passed, and a pass without swaps so far has
   * found every neighbour pair in order.
   */
  ghost predicate PassInvariant(s: seq<Signal>, m: nat, i: nat, flipped: bool)
  {
    && (if |s| == 0 then i == 0 else i < |s|)
    && Settled(s, m)
    && (i < |s| ==> forall j :: 0 <= j < i ==> s[j].startBit <= s[i].startBit)
    && (0 < m <= i ==> forall j :: 0 <= j < m - 1 ==> s[j].startBit <= s[m - 1].startBit)
    && (!flipped ==> forall j :: 0 <= j < i ==> s[j].startBit <= s[j + 1].startBit)
    && (flipped ==> m >= 2)
  }

  /** A swap only happens in the unsettled part and keeps the pass invariant. */
  lemma PassStepSwap(s: seq<Signal>, m: nat, i: nat, flipped: bool)
    requires PassInvariant(s, m, i, flipped) && i + 1 < |s|
    requires s[i].startBit > s[i + 1].startBit
    ensures i + 1 < m && PassInvariant(Swapped(s, i), m, i + 1, true)
  {
    var t := Swapped(s, i);
    assert |t| == |s|;
    assert forall j :: 0 <= j < |s| && j != i && j != i + 1 ==> t[j] == s[j];
    assert t[i] == s[i + 1] && t[i + 1] == s[i];
  }

  /** A swap of the pass keeps both its invariant and the order of equal start bits. */
  lemma PassSwap(s: seq<Signal>, m: nat, i: nat, flipped: bool, s0: seq<Signal>)
    requires PassInvariant(s, m, i, flipped) && SameOrderPerStart(s, s0) && i + 1 < |s|
    requires s[i].startBit > s[i + 1].startBit
    ensures PassInvariant(Swapped(s, i), m, i + 1, true) && SameOrderPerStart(Swapped(s, i), s0)
  {
    PassStepSwap(s, m, i, flipped);
    SwapKeepsOrder(s, i);
    SameOrderTrans(Swapped(s, i), s, s0);
  }

  /** Passing a pair that is in order keeps the pass invariant. */
  lemma PassStepKeep(s: seq<Signal>, m: nat, i: nat, flipped: bool)
    requires PassInvariant(s, m, i, flipped) && i + 1 < |s|
    requires s[i].startBit <= s[i + 1].startBit
    ensures PassInvariant(s, m, i + 1, flipped)
  {
  }

  lemma PassEnd(s: seq<Signal>, m: nat, i: nat, flipped: bool)
    requires PassInvariant(s, m, i, flipped) && i + 1 >= |s|
    ensures Settled(s, if m == 0 then 0 else m - 1)
    ensures !flipped ==> Sorted(s)
  {
    if !flipped {
      AdjacentSorted(s);
    }
  }

  /** Exchanges `a[i]` and `a[i + 1]`. */
  method SwapNext(a: array<Signal>, i: nat)
    requires i + 1 < a.Length
    modifies a
    ensures a[..] == Swapped(old(a[..]), i)
  {
    a[i], a[i + 1] := a[i + 1], a[i];
  }

  /**
   * One pass of the exchange sort over neighbours 0..n-1, swapping a pair
   * when the first starts strictly above the second. Before the pass the
   * array is settled from `m`; after it, from `m - 1`.
   */
  method BubblePass(a: array<Signal>, ghost m: nat, ghost a0: seq<Signal>) returns (flipped: bool)
    requires Settled(a[..], m) && SameOrderPerStart(a[..], a0)
    modifies a
    ensures Settled(a[..], if m == 0 then 0 else m - 1) && SameOrderPerStart(a[..], a0)
    ensures flipped ==> m >= 2
    ensures !flipped ==> Sorted(a[..])
  {
    var n := a.Length;
    flipped := false;
    var i := 0;
    ghost var cur := a[..];
    while i + 1 < n
      invariant a[..] == cur
      invariant PassInvariant(cur, m, i, flipped)
      invariant SameOrderPerStart(cur, a0)
    {
      if a[i].startBit > a[i + 1].startBit {
        PassSwap(cur, m, i, flipped, a0);
        SwapNext(a, i);
        cur := Swapped(cur, i);
        flipped := true;
      } else {
        PassStepKeep(cur, m, i, flipped);
      }
      i := i + 1;
    }
    PassEnd(cur, m, i, flipped);
  }

  /**
   * The exchange sort of ast2msg: passes over neighbours, swapping on a
   * strict `>`, until a pass swaps nothing.
   */
  method BubbleSort(a: array<Signal>)
    modifies a
    ensures a[..] == SortByStart(old(a[..]))
    ensures Sorted(a[..]) && multiset(a[..]) == multiset(old(a[..]))
    ensures Sorted(old(a[..])) ==> a[..] == old(a[..])
  {
    var n := a.Length;
    ghost var a0 := a[..];
    var flipped := true;
    ghost var passes: nat := 0;
    while flipped
      invariant passes <= n
      invariant Settled(a[..], n - passes)
      invariant SameOrderPerStart(a[..], a0)
      invariant !flipped ==> Sorted(a[..])
      decreases (if flipped then 1 else 0) + n - passes
    {
      flipped := BubblePass(a, n - passes, a0);
      if passes < n {
        passes := passes + 1;
      }
    }
    SortByStartCorrect(a0);
    StableSortUnique(a[..], SortByStart(a0));
    if Sorted(a0) {
      SortByStartOfSorted(a0);
    }
  }
}
