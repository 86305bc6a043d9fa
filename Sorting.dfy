/** The in-place steps of the asset list: `result.sort(comparator)` and
    `result.reverse()`. The sort is specified as the stable sort that
    `Array.prototype.sort` must be, and computed by insertion. */
module Sorting {
  import opened Holdings

  /** A sort comparator: negative when its first argument goes first,
      positive when its second does, zero when they tie. */
  type Comparator = (Holding, Holding) -> real

  /** A consistent comparator: swapping the arguments negates the result,
      and "may precede" is transitive. */
  ghost predicate Consistent(cmp: Comparator) {
    && (forall a, b :: cmp(b, a) == -cmp(a, b))
    && (forall a, b, c {:trigger cmp(a, b), cmp(b, c), cmp(a, c)} ::
          cmp(a, b) <= 0.0 && cmp(b, c) <= 0.0 ==> cmp(a, c) <= 0.0)
  }

  /** Inserts `x` behind `t` and moves it left past every element that must
      come after it; it stops behind the first one it may follow, so it
      stays behind the elements it ties with. */
  function Insert(cmp: Comparator, t: seq<Holding>, x: Holding): seq<Holding>
    decreases |t|
  {
    if t == [] then [x]
    else
      var n := |t| - 1;
      if cmp(t[n], x) > 0.0 then Insert(cmp, t[..n], x) + [t[n]] else t + [x]
  }

  /** The stable sort of `s` under `cmp`: every prefix sorted in turn, each
      new element inserted behind its ties. */
  function StableSort(cmp: Comparator, s: seq<Holding>): seq<Holding> {
    if s == [] then []
    else
      var n := |s| - 1;
      Insert(cmp, StableSort(cmp, s[..n]), s[n])
  }

  /** Inserting adds `x` and drops nothing. */
  lemma {:induction false} InsertPermutes(cmp: Comparator, t: seq<Holding>, x: Holding)
    ensures multiset(Insert(cmp, t, x)) == multiset(t) + multiset{x}
    decreases |t|
  {
    if t != [] {
      var n := |t| - 1;
      assert t == t[..n] + [t[n]];
      if cmp(t[n], x) > 0.0 {
        InsertPermutes(cmp, t[..n], x);
      }
    }
  }

  /** The sort neither adds nor drops a holding. */
  lemma {:induction false} StableSortPermutes(cmp: Comparator, s: seq<Holding>)
    ensures multiset(StableSort(cmp, s)) == multiset(s)
  {
    if s != [] {
      var n := |s| - 1;
      assert s == s[..n] + [s[n]];
      StableSortPermutes(cmp, s[..n]);
      InsertPermutes(cmp, StableSort(cmp, s[..n]), s[n]);
    }
  }

  predicate Sorted(cmp: Comparator, s: seq<Holding>) {
    forall i, j :: 0 <= i < j < |s| ==> cmp(s[i], s[j]) <= 0.0
  }

  /** Inserting into a sorted sequence keeps it sorted. */
  lemma {:induction false} InsertSorted(cmp: Comparator, t: seq<Holding>, x: Holding)
    requires Consistent(cmp)
    requires Sorted(cmp, t)
    ensures Sorted(cmp, Insert(cmp, t, x))
    decreases |t|
  {
    if t != [] {
      var n := |t| - 1;
      var last := t[n];
      if cmp(last, x) > 0.0 {
        assert Sorted(cmp, t[..n]);
        InsertSorted(cmp, t[..n], x);
        assert cmp(x, last) <= 0.0;
        InsertBelow(cmp, t[..n], x, last);
        SortedSnoc(cmp, Insert(cmp, t[..n], x), last);
      } else {
        forall k | 0 <= k < |t| ensures cmp(t[k], x) <= 0.0 {
          if k < n {
            assert cmp(t[k], last) <= 0.0;
          }
        }
        SortedSnoc(cmp, t, x);
      }
    }
  }

  /** A holding that may follow every element of a sorted sequence may be
      appended to it. */
  lemma SortedSnoc(cmp: Comparator, u: seq<Holding>, z: Holding)
    requires Sorted(cmp, u)
    requires forall k :: 0 <= k < |u| ==> cmp(u[k], z) <= 0.0
    ensures Sorted(cmp, u + [z])
  {
  }

  /** A bound that every element and `x` respect is respected by every
      element after the insertion. */
  lemma {:induction false} InsertBelow(cmp: Comparator, t: seq<Holding>, x: Holding, z: Holding)
    requires forall k :: 0 <= k < |t| ==> cmp(t[k], z) <= 0.0
    requires cmp(x, z) <= 0.0
    ensures forall k :: 0 <= k < |Insert(cmp, t, x)| ==> cmp(Insert(cmp, t, x)[k], z) <= 0.0
    decreases |t|
  {
    if t != [] {
      var n := |t| - 1;
      if cmp(t[n], x) > 0.0 {
        InsertBelow(cmp, t[..n], x, z);
      }
    }
  }

  /** `StableSort` puts the holdings in the order the comparator asks for. */
  lemma {:induction false} StableSortSorted(cmp: Comparator, s: seq<Holding>)
    requires Consistent(cmp)
    ensures Sorted(cmp, StableSort(cmp, s))
  {
    if s != [] {
      var n := |s| - 1;
      StableSortSorted(cmp, s[..n]);
      InsertSorted(cmp, StableSort(cmp, s[..n]), s[n]);
    }
  }

  /** `[z]` when `z` ties with `x`, otherwise nothing. */
  function Tie(cmp: Comparator, x: Holding, z: Holding): seq<Holding> {
    if cmp(x, z) == 0.0 then [z] else []
  }

  /** The holdings of `s` that tie with `x`, in their order in `s`. */
  function Ties(cmp: Comparator, x: Holding, s: seq<Holding>): seq<Holding> {
    if s == [] then [] else Ties(cmp, x, s[..|s| - 1]) + Tie(cmp, x, s[|s| - 1])
  }

  lemma TiesSnoc(cmp: Comparator, x: Holding, s: seq<Holding>, z: Holding)
    ensures Ties(cmp, x, s + [z]) == Ties(cmp, x, s) + Tie(cmp, x, z)
  {
    assert (s + [z])[..|s|] == s;
  }

  /** Two holdings in strict order cannot both tie with `x`, so their tie
      contributions commute. */
  lemma TieSwap(cmp: Comparator, x: Holding, y: Holding, z: Holding)
    requires Consistent(cmp)
    requires cmp(z, y) > 0.0
    ensures Tie(cmp, x, y) + Tie(cmp, x, z) == Tie(cmp, x, z) + Tie(cmp, x, y)
  {
    if cmp(x, z) == 0.0 && cmp(x, y) == 0.0 {
      assert false;
    }
  }

  lemma {:induction false} InsertKeepsTies(cmp: Comparator, x: Holding, t: seq<Holding>, y: Holding)
    requires Consistent(cmp)
    ensures Ties(cmp, x, Insert(cmp, t, y)) == Ties(cmp, x, t + [y])
    decreases |t|
  {
    if t != [] {
      var n := |t| - 1;
      var t', last := t[..n], t[n];
      if cmp(last, y) > 0.0 {
        var u := Insert(cmp, t', y);
        assert Insert(cmp, t, y) == u + [last];
        assert t == t' + [last];
        InsertKeepsTies(cmp, x, t', y);
        MovePastKeepsTies(cmp, x, t', u, last, y);
      }
    }
  }

  /** Moving `y` in front of a holding `z` that must follow it leaves every
      tie class in the same order. */
  lemma MovePastKeepsTies(cmp: Comparator, x: Holding, t: seq<Holding>, u: seq<Holding>, z: Holding, y: Holding)
    requires Consistent(cmp)
    requires cmp(z, y) > 0.0
    requires Ties(cmp, x, u) == Ties(cmp, x, t + [y])
    ensures Ties(cmp, x, u + [z]) == Ties(cmp, x, t + [z] + [y])
  {
    calc {
      Ties(cmp, x, u + [z]);
      { TiesSnoc(cmp, x, u, z); }
      Ties(cmp, x, u) + Tie(cmp, x, z);
      { TiesSnoc(cmp, x, t, y); }
      Ties(cmp, x, t) + Tie(cmp, x, y) + Tie(cmp, x, z);
      { TieSwap(cmp, x, y, z); }
      Ties(cmp, x, t) + Tie(cmp, x, z) + Tie(cmp, x, y);
      { TiesSnoc(cmp, x, t, z); }
      Ties(cmp, x, t + [z]) + Tie(cmp, x, y);
      { TiesSnoc(cmp, x, t + [z], y); }
      Ties(cmp, x, t + [z] + [y]);
    }
  }

  /** The sort is stable: the holdings that tie with any `x` keep their
      relative order. */
  lemma {:induction false} StableSortKeepsTies(cmp: Comparator, x: Holding, s: seq<Holding>)
    requires Consistent(cmp)
    ensures Ties(cmp, x, StableSort(cmp, s)) == Ties(cmp, x, s)
  {
    if s != [] {
      var n := |s| - 1;
      var t := StableSort(cmp, s[..n]);
      StableSortKeepsTies(cmp, x, s[..n]);
      InsertKeepsTies(cmp, x, t, s[n]);
      TiesSnoc(cmp, x, t, s[n]);
    }
  }

  /** When every pair ties, the sort changes nothing. */
  lemma {:induction false} StableSortAllTies(cmp: Comparator, s: seq<Holding>)
    requires forall a, b :: cmp(a, b) == 0.0
    ensures StableSort(cmp, s) == s
  {
    if s != [] {
      var n := |s| - 1;
      StableSortAllTies(cmp, s[..n]);
      assert s == s[..n] + [s[n]];
    }
  }

  /** `a.sort(cmp)`: insertion sort, growing a sorted prefix one element at
      a time. */
  method SortInPlace(a: array<Holding>, cmp: Comparator)
    modifies a
    ensures a[..] == StableSort(cmp, old(a[..]))
  {
    ghost var s := a[..];
    var i := 0;
    while i < a.Length
      invariant 0 <= i <= a.Length
      invariant a[..i] == StableSort(cmp, s[..i])
      invariant a[i..] == s[i..]
    {
      assert a[i] == s[i] && a[i + 1..] == s[i + 1..] by {
        assert a[i..][0] == a[i] && a[i..][1..] == a[i + 1..];
        assert s[i..][0] == s[i] && s[i..][1..] == s[i + 1..];
      }
      InsertAt(a, cmp, i);
      StableSortPrefix(cmp, s, i);
      i := i + 1;
    }
    assert s[..a.Length] == s;
  }

  lemma StableSortPrefix(cmp: Comparator, s: seq<Holding>, i: nat)
    requires i < |s|
    ensures StableSort(cmp, s[..i + 1]) == Insert(cmp, StableSort(cmp, s[..i]), s[i])
  {
    assert s[..i + 1][..i] == s[..i];
  }

  /** Moves `a[i]` left into the sorted prefix `a[..i]`, shifting right
      every element that must come after it. */
  method InsertAt(a: array<Holding>, cmp: Comparator, i: nat)
    requires i < a.Length
    modifies a
    ensures a[..i + 1] == Insert(cmp, old(a[..i]), old(a[i]))
    ensures a[i + 1..] == old(a[i + 1..])
  {
    ghost var s := a[..];
    var x := a[i];
    var j := ShiftPast(a, cmp, i, x);
    a[j] := x;
    Placed(cmp, a[..], s, i, j);
  }

  /** The inner loop of insertion sort: shifts right by one place every
      element of `a[..i]`, from the back, that must come after `x`, and
      returns the gap left behind. */
  method ShiftPast(a: array<Holding>, cmp: Comparator, i: nat, x: Holding) returns (j: nat)
    requires i < a.Length
    modifies a
    ensures j <= i
    ensures forall k :: 0 <= k < j ==> a[k] == old(a[k])
    ensures forall k :: j < k <= i ==> a[k] == old(a[k - 1])
    ensures forall k :: i < k < a.Length ==> a[k] == old(a[k])
    ensures forall k :: j <= k < i ==> cmp(old(a[k]), x) > 0.0
    ensures j == 0 || cmp(old(a[j - 1]), x) <= 0.0
  {
    j := i;
    while j > 0 && cmp(a[j - 1], x) > 0.0
      invariant j <= i
      invariant forall k :: 0 <= k < j ==> a[k] == old(a[k])
      invariant forall k :: j < k <= i ==> a[k] == old(a[k - 1])
      invariant forall k :: i < k < a.Length ==> a[k] == old(a[k])
      invariant forall k :: j <= k < i ==> cmp(old(a[k]), x) > 0.0
    {
      assert cmp(old(a[j - 1]), x) > 0.0;
      a[j] := a[j - 1];
      j := j - 1;
    }
  }

  /** After the shift, writing `x` into the gap leaves the first `i + 1`
      elements equal to `Insert` of `x` into the old prefix, and the rest as
      they were. */
  lemma Placed(cmp: Comparator, r: seq<Holding>, s: seq<Holding>, i: nat, j: nat)
    requires i < |s| == |r| && j <= i && r[j] == s[i]
    requires forall k :: 0 <= k < j ==> r[k] == s[k]
    requires forall k :: j < k <= i ==> r[k] == s[k - 1]
    requires forall k :: i < k < |r| ==> r[k] == s[k]
    requires forall k :: j <= k < i ==> cmp(s[k], s[i]) > 0.0
    requires j == 0 || cmp(s[j - 1], s[i]) <= 0.0
    ensures r[..i + 1] == Insert(cmp, s[..i], s[i])
    ensures r[i + 1..] == s[i + 1..]
  {
    Spliced(r[..i + 1], s[..i], j, s[i]);
    InsertLands(cmp, s[..i], j, s[i]);
  }

  /** A sequence that agrees with `t` before `j`, holds `x` at `j` and
      agrees with `t` shifted by one after `j` is `t` with `x` spliced in. */
  lemma Spliced(r: seq<Holding>, t: seq<Holding>, j: nat, x: Holding)
    requires j <= |t| && |r| == |t| + 1 && r[j] == x
    requires forall k :: 0 <= k < j ==> r[k] == t[k]
    requires forall k :: j < k < |r| ==> r[k] == t[k - 1]
    ensures r == t[..j] + [x] + t[j..]
  {
  }

  /** `Insert` puts `x` right behind the last element that may precede it,
      when everything after that element must follow `x`. */
  lemma {:induction false} InsertLands(cmp: Comparator, t: seq<Holding>, j: nat, x: Holding)
    requires j <= |t|
    requires j == 0 || cmp(t[j - 1], x) <= 0.0
    requires forall k :: j <= k < |t| ==> cmp(t[k], x) > 0.0
    ensures Insert(cmp, t, x) == t[..j] + [x] + t[j..]
    decreases |t|
  {
    if j < |t| {
      var n := |t| - 1;
      InsertLands(cmp, t[..n], j, x);
      assert t[..n][..j] == t[..j];
      assert t[j..] == t[..n][j..] + [t[n]];
    } else {
      assert t[..j] == t;
    }
  }

  /** The sequence read back to front. */
  function Reversed<T>(s: seq<T>): (r: seq<T>)
    ensures |r| == |s|
    ensures forall k :: 0 <= k < |s| ==> r[k] == s[|s| - 1 - k]
  {
    if s == [] then [] else [s[|s| - 1]] + Reversed(s[..|s| - 1])
  }

  lemma ReversedTwice<T>(s: seq<T>)
    ensures Reversed(Reversed(s)) == s
  {
  }

  lemma {:induction false} ReversedPermutes<T>(s: seq<T>)
    ensures multiset(Reversed(s)) == multiset(s)
  {
    if s != [] {
      var n := |s| - 1;
      ReversedPermutes(s[..n]);
      assert s == s[..n] + [s[n]];
      assert Reversed(s) == [s[n]] + Reversed(s[..n]);
    }
  }

  /** A sequence holding at each index the element mirrored from `s` is
      `s` reversed. */
  lemma ReversedByIndex<T>(r: seq<T>, s: seq<T>)
    requires |r| == |s|
    requires forall k :: 0 <= k < |s| ==> r[k] == s[|s| - 1 - k]
    ensures r == Reversed(s)
  {
  }

  /** Reverses `a` in place by swapping from both ends towards the middle. */
  method ReverseInPlace(a: array<Holding>)
    modifies a
    ensures a[..] == Reversed(old(a[..]))
  {
    ghost var s := a[..];
    var lo, hi := 0, a.Length;
    while lo + 1 < hi
      invariant 0 <= lo <= hi <= a.Length && lo + hi == a.Length
      invariant forall k :: 0 <= k < lo ==> a[k] == s[a.Length - 1 - k]
      invariant forall k :: hi <= k < a.Length ==> a[k] == s[a.Length - 1 - k]
      invariant forall k :: lo <= k < hi ==> a[k] == s[k]
    {
      var tmp := a[lo];
      a[lo] := a[hi - 1];
      a[hi - 1] := tmp;
      lo, hi := lo + 1, hi - 1;
    }
    ReversedByIndex(a[..], s);
  }
}
