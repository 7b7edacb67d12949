/**
  A pandas data frame, reduced to what the loaders use: an ordered sequence of
  rows of one fixed schema, each carrying its index label.  A freshly read
  frame is labelled 0..n-1; boolean-mask selection keeps the surviving rows'
  labels; `reset_index(drop=True)` relabels the rows 0..n-1 again.
 */
module Frames {

  /** One row of a frame together with its index label. */
  datatype Labelled<R> = Labelled(index: nat, row: R)

  type Frame<R> = seq<Labelled<R>>

  /** The rows of a frame, without their labels. */
  function Rows<R>(f: Frame<R>): seq<R>
  {
    seq(|f|, i requires 0 <= i < |f| => f[i].row)
  }

  /** The index is the contiguous range 0..|f|-1. */
  predicate Contiguous<R>(f: Frame<R>)
  {
    forall i :: 0 <= i < |f| ==> f[i].index == i
  }

  /** The frame `read_csv` builds from the rows of a feed: default index 0..n-1. */
  function FromRows<R>(rows: seq<R>): (f: Frame<R>)
    ensures Contiguous(f)
    ensures Rows(f) == rows
  {
    seq(|rows|, i requires 0 <= i < |rows| => Labelled(i, rows[i]))
  }

  /** `reset_index(drop=True)`: the same rows, in the same order, relabelled from 0. */
  function ResetIndex<R>(f: Frame<R>): (r: Frame<R>)
    ensures Contiguous(r)
    ensures Rows(r) == Rows(f)
  {
    FromRows(Rows(f))
  }

  /**
    A column-wise change that leaves the index alone: assigning a column,
    renaming columns, dropping columns or choosing their order.
   */
  function Select<R, S>(f: Frame<R>, g: R -> S): Frame<S>
  {
    seq(|f|, i requires 0 <= i < |f| => Labelled(f[i].index, g(f[i].row)))
  }

  /** `df[mask]`: the rows whose mask entry is true, in order, keeping their labels. */
  function Where<R>(f: Frame<R>, mask: seq<bool>): (kept: Frame<R>)
    requires |mask| == |f|
    ensures |kept| <= |f|
    ensures (forall i :: 0 <= i < |mask| ==> mask[i]) ==> kept == f
  {
    if |f| == 0 then []
    else (if mask[0] then [f[0]] else []) + Where(f[1..], mask[1..])
  }

  /** Strictly increasing sequence of positions. */
  predicate Increasing(ps: seq<nat>)
  {
    forall j, k :: 0 <= j < k < |ps| ==> ps[j] < ps[k]
  }

  /** The positions at or after `i` whose mask entry is true, in ascending order. */
  function PositionsFrom(mask: seq<bool>, i: nat): (ps: seq<nat>)
    requires i <= |mask|
    ensures forall j :: 0 <= j < |ps| ==> i <= ps[j] < |mask| && mask[ps[j]]
    ensures Increasing(ps)
    ensures forall k :: i <= k < |mask| && mask[k] ==> k in ps
    decreases |mask| - i
  {
    if i == |mask| then []
    else (if mask[i] then [i] else []) + PositionsFrom(mask, i + 1)
  }

  /**
    The positions whose mask entry is true, in ascending order: the reference
    description of which rows a boolean mask selects.
   */
  function Positions(mask: seq<bool>): (ps: seq<nat>)
    ensures forall j :: 0 <= j < |ps| ==> ps[j] < |mask| && mask[ps[j]]
    ensures Increasing(ps)
    ensures forall k :: 0 <= k < |mask| && mask[k] ==> k in ps
  {
    PositionsFrom(mask, 0)
  }

  /** The elements of `s` at positions `ps`, in the order of `ps`. */
  function Picked<T>(s: seq<T>, ps: seq<nat>): seq<T>
    requires forall j :: 0 <= j < |ps| ==> ps[j] < |s|
  {
    seq(|ps|, j requires 0 <= j < |ps| => s[ps[j]])
  }

  /** Two strictly increasing sequences with the same elements are equal. */
  lemma {:induction false} IncreasingDetermined(a: seq<nat>, b: seq<nat>)
    requires Increasing(a) && Increasing(b)
    requires forall x :: x in a <==> x in b
    ensures a == b
  {
    assert |a| > 0 ==> a[0] in b;
    assert |b| > 0 ==> b[0] in a;
    if |a| > 0 {
      assert a[0] == b[0] by {
        HeadIsLeast(a, b[0]);
        HeadIsLeast(b, a[0]);
      }
      forall x
        ensures x in a[1..] <==> x in b[1..]
      {
        if x in a[1..] {
          TailMember(a, b, x);
        }
        if x in b[1..] {
          TailMember(b, a, x);
        }
      }
      IncreasingDetermined(a[1..], b[1..]);
      assert a == [a[0]] + a[1..];
      assert b == [b[0]] + b[1..];
    }
  }

  /** The head of a strictly increasing sequence is below every other element. */
  lemma HeadIsLeast(a: seq<nat>, x: nat)
    requires Increasing(a) && x in a
    ensures a[0] <= x
  {
    var k :| 0 <= k < |a| && a[k] == x;
  }

  /** An element past the common head of one sequence is past the head of the other. */
  lemma TailMember(a: seq<nat>, b: seq<nat>, x: nat)
    requires Increasing(a) && Increasing(b)
    requires forall y :: y in a <==> y in b
    requires |a| > 0 && |b| > 0 && a[0] == b[0]
    requires x in a[1..]
    ensures x in b[1..]
  {
    var k :| 0 <= k < |a[1..]| && a[1..][k] == x;
    assert x == a[k + 1] && a[0] < x;
    assert x in b;
    var m :| 0 <= m < |b| && b[m] == x;
    assert b[1..][m - 1] == x;
  }

  /**
    `Positions(mask)` is the only strictly increasing sequence of in-range
    positions that lists every true entry of the mask and no other.
   */
  lemma PositionsUnique(mask: seq<bool>, ps: seq<nat>)
    requires Increasing(ps)
    requires forall j :: 0 <= j < |ps| ==> ps[j] < |mask| && mask[ps[j]]
    requires forall k :: 0 <= k < |mask| && mask[k] ==> k in ps
    ensures ps == Positions(mask)
  {
    var qs := Positions(mask);
    forall x
      ensures x in ps <==> x in qs
    {
      if x in ps {
        var j :| 0 <= j < |ps| && ps[j] == x;
      }
      if x in qs {
        var j :| 0 <= j < |qs| && qs[j] == x;
      }
    }
    IncreasingDetermined(ps, qs);
  }

  lemma PickedAppend<T>(s: seq<T>, a: seq<nat>, b: seq<nat>)
    requires forall j :: 0 <= j < |a| ==> a[j] < |s|
    requires forall j :: 0 <= j < |b| ==> b[j] < |s|
    ensures Picked(s, a + b) == Picked(s, a) + Picked(s, b)
  {
  }

  lemma {:induction false} WhereFrom<R>(f: Frame<R>, mask: seq<bool>, i: nat)
    requires |mask| == |f| && i <= |f|
    ensures Where(f[i..], mask[i..]) == Picked(f, PositionsFrom(mask, i))
    decreases |f| - i
  {
    if i < |f| {
      WhereFrom(f, mask, i + 1);
      var rest := PositionsFrom(mask, i + 1);
      var head: seq<nat> := if mask[i] then [i] else [];
      assert PositionsFrom(mask, i) == head + rest;
      assert Where(f[i..], mask[i..]) == Picked(f, head) + Where(f[i + 1..], mask[i + 1..]) by {
        var g, m := f[i..], mask[i..];
        assert g[0] == f[i] && m[0] == mask[i];
        assert g[1..] == f[i + 1..] && m[1..] == mask[i + 1..];
        assert Picked(f, head) == if mask[i] then [f[i]] else [];
      }
      PickedAppend(f, head, rest);
    }
  }

  /**
    Boolean-mask selection picks exactly the rows at `Positions(mask)`: every
    row whose entry is true survives, no other does, and the survivors keep
    their relative order and their labels.
   */
  lemma WhereIsPicked<R>(f: Frame<R>, mask: seq<bool>)
    requires |mask| == |f|
    ensures Where(f, mask) == Picked(f, Positions(mask))
  {
    WhereFrom(f, mask, 0);
    assert f[0..] == f && mask[0..] == mask;
  }

  /**
    Selecting with `inner` among the rows that `outer` selected is the same as
    selecting once with `both`, when `inner` agrees with `both` on the
    survivors of `outer` and `both` implies `outer`.
   */
  lemma NestedPositions(outer: seq<bool>, inner: seq<bool>, both: seq<bool>)
    requires |inner| == |Positions(outer)| && |both| == |outer|
    requires forall j :: 0 <= j < |inner| ==> inner[j] == both[Positions(outer)[j]]
    requires forall k :: 0 <= k < |both| && both[k] ==> outer[k]
    ensures Picked(Positions(outer), Positions(inner)) == Positions(both)
  {
    var ps := Positions(outer);
    var qs := Positions(inner);
    var c := Picked(ps, qs);
    forall j | 0 <= j < |c|
      ensures c[j] < |both| && both[c[j]]
    {
      assert c[j] == ps[qs[j]] && inner[qs[j]];
    }
    forall j, k | 0 <= j < k < |c|
      ensures c[j] < c[k]
    {
      assert qs[j] < qs[k];
    }
    forall k | 0 <= k < |both| && both[k]
      ensures k in c
    {
      assert k in ps;
      var q :| 0 <= q < |ps| && ps[q] == k;
      assert inner[q];
      assert q in qs;
      var i :| 0 <= i < |qs| && qs[i] == q;
      assert c[i] == k;
    }
    PositionsUnique(both, c);
  }

  /** A position is selected exactly when its mask entry is true. */
  lemma InPositions(mask: seq<bool>)
    ensures forall k :: 0 <= k < |mask| ==> (k in Positions(mask) <==> mask[k])
  {
    var ps := Positions(mask);
    forall k | 0 <= k < |mask| && k in ps
      ensures mask[k]
    {
      var j :| 0 <= j < |ps| && ps[j] == k;
    }
  }

  /** A mask selects no position exactly when all its entries are false. */
  lemma NoPositions(mask: seq<bool>)
    ensures |Positions(mask)| == 0 <==> forall i :: 0 <= i < |mask| ==> !mask[i]
  {
    var ps := Positions(mask);
    if |ps| > 0 {
      assert mask[ps[0]];
    }
  }

  /**
    Mask selection, a column change and `reset_index(drop=True)` in a row:
    row `j` of the result is row `Positions(mask)[j]` of `f` after the change,
    and the result is labelled 0..n-1.
   */
  lemma FilterProject<R, S>(f: Frame<R>, mask: seq<bool>, g: R -> S)
    requires |mask| == |f|
    ensures var r := ResetIndex(Select(Where(f, mask), g));
      var ps := Positions(mask);
      && Contiguous(r) && |r| == |ps|
      && forall j :: 0 <= j < |ps| ==> r[j].row == g(f[ps[j]].row)
  {
    WhereIsPicked(f, mask);
  }
}
