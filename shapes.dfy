/**
 * Array shapes and NumPy broadcasting, written out explicitly.
 *
 * A shape is the tuple of an N-dimensional array's extents.  Arrays are
 * stored flat in row-major (C) order, so an array of shape `s` holds
 * `Size(s)` elements.  Broadcasting aligns two shapes on the right; each
 * aligned pair of extents must be equal or contain a 1, and the missing
 * leading axes of the shorter shape count as 1.
 */
module Shapes {
  import opened Wrappers

  type Shape = seq<nat>

  function Last(s: Shape): nat
    requires s != []
  {
    s[|s| - 1]
  }

  function Init(s: Shape): Shape
    requires s != []
  {
    s[..|s| - 1]
  }

  /** Number of elements of an array of shape `s` (a scalar, shape (), has one). */
  function Size(s: Shape): nat
  {
    if s == [] then 1 else Size(Init(s)) * Last(s)
  }

  /** Extent of axis `k` counted from the right (0 is the last axis). */
  function Dim(s: Shape, k: nat): nat
    requires k < |s|
  {
    s[|s| - 1 - k]
  }

  /** NumPy's compatibility rule: right-aligned extents are equal or one of them is 1. */
  ghost predicate Compatible(a: Shape, b: Shape)
  {
    forall k: nat :: k < |a| && k < |b| ==> Dim(a, k) == Dim(b, k) || Dim(a, k) == 1 || Dim(b, k) == 1
  }

  /** `r` is the broadcast shape of `a` and `b`, axis by axis. */
  ghost predicate IsBroadcast(a: Shape, b: Shape, r: Shape)
  {
    && |r| == (if |a| < |b| then |b| else |a|)
    && forall k: nat :: k < |r| ==>
         Dim(r, k) == (if |a| <= k then Dim(b, k)
                       else if |b| <= k then Dim(a, k)
                       else if Dim(a, k) == 1 then Dim(b, k)
                       else Dim(a, k))
  }

  /** An array of shape `a` can be stretched to shape `r` without copying axes that differ. */
  predicate BroadcastsTo(a: Shape, r: Shape)
  {
    |a| <= |r| && forall k: nat :: k < |a| ==> Dim(a, k) == Dim(r, k) || Dim(a, k) == 1
  }

  /** The shape NumPy gives to an elementwise operation on arrays of shapes `a` and `b`. */
  function Broadcast(a: Shape, b: Shape): Option<Shape>
  {
    if a == [] then Some(b)
    else if b == [] then Some(a)
    else
      match Broadcast(Init(a), Init(b))
      case None => None
      case Some(p) =>
        if Last(a) == Last(b) || Last(b) == 1 then Some(p + [Last(a)])
        else if Last(a) == 1 then Some(p + [Last(b)])
        else None
  }

  lemma DimInit(s: Shape, k: nat)
    requires s != [] && k + 1 < |s|
    ensures Dim(Init(s), k) == Dim(s, k + 1)
  {
  }

  lemma DimAppend(p: Shape, x: nat, k: nat)
    requires k < |p| + 1
    ensures Dim(p + [x], k) == if k == 0 then x else Dim(p, k - 1)
  {
  }

  /** Broadcasting succeeds exactly on compatible shapes, and then yields the axis-wise broadcast. */
  lemma {:induction false} BroadcastCorrect(a: Shape, b: Shape)
    ensures Broadcast(a, b).Some? <==> Compatible(a, b)
    ensures Broadcast(a, b).Some? ==> IsBroadcast(a, b, Broadcast(a, b).value)
    decreases |a|
  {
    if a == [] {
      assert Broadcast(a, b) == Some(b);
      return;
    }
    if b == [] {
      assert Broadcast(a, b) == Some(a);
      return;
    }
    BroadcastCorrect(Init(a), Init(b));
    var x, y := Last(a), Last(b);
    assert Dim(a, 0) == x && Dim(b, 0) == y;
    assert Compatible(a, b) <==> Compatible(Init(a), Init(b)) && (x == y || x == 1 || y == 1) by {
      if Compatible(a, b) {
        forall k: nat | k < |Init(a)| && k < |Init(b)|
          ensures Dim(Init(a), k) == Dim(Init(b), k) || Dim(Init(a), k) == 1 || Dim(Init(b), k) == 1
        {
          DimInit(a, k);
          DimInit(b, k);
          assert k + 1 < |a| && k + 1 < |b|;
        }
      }
      if Compatible(Init(a), Init(b)) && (x == y || x == 1 || y == 1) {
        forall k: nat | k < |a| && k < |b|
          ensures Dim(a, k) == Dim(b, k) || Dim(a, k) == 1 || Dim(b, k) == 1
        {
          if k > 0 {
            DimInit(a, k - 1);
            DimInit(b, k - 1);
          }
        }
      }
    }
    match Broadcast(Init(a), Init(b))
    case None =>
    case Some(p) =>
      if x == y || x == 1 || y == 1 {
        var r := Broadcast(a, b).value;
        var d := if x == y || y == 1 then x else y;
        assert r == p + [d];
        forall k: nat | k < |r|
          ensures Dim(r, k) == (if |a| <= k then Dim(b, k)
                                else if |b| <= k then Dim(a, k)
                                else if Dim(a, k) == 1 then Dim(b, k)
                                else Dim(a, k))
        {
          DimAppend(p, d, k);
          if k > 0 {
            if k < |a| { DimInit(a, k - 1); }
            if k < |b| { DimInit(b, k - 1); }
          }
        }
      }
  }

  /** The broadcast shape does not depend on the order of the operands. */
  lemma {:induction false} BroadcastCommutes(a: Shape, b: Shape)
    ensures Broadcast(a, b) == Broadcast(b, a)
    decreases |a|
  {
    if a != [] && b != [] {
      BroadcastCommutes(Init(a), Init(b));
    }
  }

  /** Both operands stretch to the broadcast shape. */
  lemma BroadcastOperands(a: Shape, b: Shape)
    requires Broadcast(a, b).Some?
    ensures BroadcastsTo(a, Broadcast(a, b).value)
    ensures BroadcastsTo(b, Broadcast(a, b).value)
  {
    BroadcastCorrect(a, b);
  }

  /** Broadcasting against a scalar, or against the same shape, keeps the shape. */
  lemma {:induction false} BroadcastNeutral(a: Shape)
    ensures Broadcast(a, []) == Some(a) && Broadcast([], a) == Some(a)
    ensures Broadcast(a, a) == Some(a)
    decreases |a|
  {
    if a != [] {
      BroadcastNeutral(Init(a));
      assert Init(a) + [Last(a)] == a;
    }
  }

  lemma BroadcastsToInit(a: Shape, r: Shape)
    requires a != [] && BroadcastsTo(a, r)
    ensures r != [] && BroadcastsTo(Init(a), Init(r))
    ensures Last(a) == Last(r) || Last(a) == 1
  {
    assert Dim(a, 0) == Last(a) && Dim(r, 0) == Last(r);
    forall k: nat | k < |Init(a)|
      ensures Dim(Init(a), k) == Dim(Init(r), k) || Dim(Init(a), k) == 1
    {
      DimInit(a, k);
      DimInit(r, k);
      assert k + 1 < |a|;
    }
  }

  lemma MulMono(x: int, y: int, d: nat)
    ensures x <= y ==> x * d <= y * d
  {
    assert y * d - x * d == (y - x) * d;
  }

  lemma DivBound(k: nat, p: nat, d: nat)
    requires k < p * d
    ensures d > 0 && k / d < p && k % d < d
  {
    MulMono(p, k / d, d);
  }

  lemma RowBound(q: nat, p: nat, i: nat, d: nat)
    requires q < p && i < d
    ensures q * d + i < p * d
  {
    assert q * d + d == (q + 1) * d;
    assert (q + 1) * d <= p * d;
  }

  /**
   * The flat index, in an array of shape `a`, of the element that NumPy
   * broadcasting reads for flat index `k` of the broadcast shape `r`:
   * stretched axes (extent 1) always read index 0, missing leading axes
   * are dropped.
   */
  function Stretch(a: Shape, r: Shape, k: nat): (j: nat)
    requires BroadcastsTo(a, r) && k < Size(r)
    ensures j < Size(a)
    decreases |a|
  {
    if a == [] then 0
    else
      BroadcastsToInit(a, r);
      DivBound(k, Size(Init(r)), Last(r));
      var q := Stretch(Init(a), Init(r), k / Last(r));
      var i := if Last(a) == 1 then 0 else k % Last(r);
      RowBound(q, Size(Init(a)), i, Last(a));
      q * Last(a) + i
  }

  /** Stretching an array to its own shape reads every element in place. */
  lemma {:induction false} StretchIdentity(s: Shape, k: nat)
    requires k < Size(s)
    ensures BroadcastsTo(s, s) && Stretch(s, s, k) == k
    decreases |s|
  {
    if s != [] {
      BroadcastsToInit(s, s);
      DivBound(k, Size(Init(s)), Last(s));
      StretchIdentity(Init(s), k / Last(s));
      assert k == (k / Last(s)) * Last(s) + k % Last(s);
    }
  }

  /** Stretching through an intermediate broadcast shape reads the same element as stretching directly. */
  lemma {:induction false} StretchCompose(a: Shape, b: Shape, r: Shape, k: nat)
    requires BroadcastsTo(a, b) && BroadcastsTo(b, r) && k < Size(r)
    ensures BroadcastsTo(a, r) && Stretch(a, b, Stretch(b, r, k)) == Stretch(a, r, k)
    decreases |a|
  {
    forall x: nat | x < |a|
      ensures Dim(a, x) == Dim(r, x) || Dim(a, x) == 1
    {
      assert x < |b|;
    }
    if a != [] {
      BroadcastsToInit(a, b);
      BroadcastsToInit(b, r);
      DivBound(k, Size(Init(r)), Last(r));
      var qb := Stretch(Init(b), Init(r), k / Last(r));
      var ib := if Last(b) == 1 then 0 else k % Last(r);
      assert Stretch(b, r, k) == qb * Last(b) + ib;
      RowDiv(qb, ib, Last(b));
      StretchCompose(Init(a), Init(b), Init(r), k / Last(r));
    }
  }

  lemma RowDiv(q: nat, i: nat, d: nat)
    requires i < d
    ensures (q * d + i) / d == q && (q * d + i) % d == i
  {
    var n := q * d + i;
    assert n == (n / d) * d + n % d;
    assert (n / d - q) * d == i - n % d;
    if n / d > q {
      MulMono(1, n / d - q, d);
    } else if n / d < q {
      MulMono(1, q - n / d, d);
    }
  }

  // Per-axis indices.  A flat index of an array of shape `s` stands for one
  // index per axis, the last axis varying fastest.

  /** Every index lies within its axis. */
  ghost predicate InBounds(s: Shape, idx: seq<nat>)
  {
    |idx| == |s| && forall x :: 0 <= x < |s| ==> idx[x] < s[x]
  }

  /** The flat (row-major) position of the per-axis index `idx`. */
  function Flat(s: Shape, idx: seq<nat>): nat
    requires |idx| == |s|
  {
    if s == [] then 0 else Flat(Init(s), idx[..|idx| - 1]) * Last(s) + idx[|idx| - 1]
  }

  /** The per-axis index of flat position `k`. */
  function Unflat(s: Shape, k: nat): (idx: seq<nat>)
    requires k < Size(s)
    ensures InBounds(s, idx)
    decreases |s|
  {
    if s == [] then []
    else
      DivBound(k, Size(Init(s)), Last(s));
      var idx := Unflat(Init(s), k / Last(s)) + [k % Last(s)];
      assert forall x :: 0 <= x < |s| - 1 ==> idx[x] < Init(s)[x] == s[x];
      idx
  }

  /** Flat positions and in-bounds per-axis indices correspond one to one. */
  lemma {:induction false} FlatUnflat(s: Shape, k: nat)
    requires k < Size(s)
    ensures Flat(s, Unflat(s, k)) == k
    decreases |s|
  {
    if s != [] {
      DivBound(k, Size(Init(s)), Last(s));
      var idx := Unflat(s, k);
      assert idx[..|idx| - 1] == Unflat(Init(s), k / Last(s));
      FlatUnflat(Init(s), k / Last(s));
    }
  }

  lemma {:induction false} UnflatFlat(s: Shape, idx: seq<nat>)
    requires InBounds(s, idx)
    ensures Flat(s, idx) < Size(s) && Unflat(s, Flat(s, idx)) == idx
    decreases |s|
  {
    if s != [] {
      var init := idx[..|idx| - 1];
      assert InBounds(Init(s), init);
      UnflatFlat(Init(s), init);
      var q := Flat(Init(s), init);
      RowBound(q, Size(Init(s)), idx[|idx| - 1], Last(s));
      RowDiv(q, idx[|idx| - 1], Last(s));
      assert idx == init + [idx[|idx| - 1]];
    }
  }

  /**
   * The per-axis index NumPy reads in an operand of shape `a` for the index
   * `idx` of the broadcast shape `r`: the leading axes `a` lacks are
   * dropped, and an axis of extent 1 is always read at 0.
   */
  function Project(a: Shape, r: Shape, idx: seq<nat>): (p: seq<nat>)
    requires |a| <= |r| == |idx|
    ensures |p| == |a|
  {
    seq(|a|, x requires 0 <= x < |a| => if a[x] == 1 then 0 else idx[|r| - |a| + x])
  }

  /** `Stretch` reads the element that broadcasting reads axis by axis. */
  lemma {:induction false} StretchReadsAxes(a: Shape, r: Shape, k: nat)
    requires BroadcastsTo(a, r) && k < Size(r)
    ensures Stretch(a, r, k) == Flat(a, Project(a, r, Unflat(r, k)))
    decreases |a|
  {
    if a != [] {
      BroadcastsToInit(a, r);
      DivBound(k, Size(Init(r)), Last(r));
      var u, u' := Unflat(r, k), Unflat(Init(r), k / Last(r));
      assert u == u' + [k % Last(r)];
      var p, p' := Project(a, r, u), Project(Init(a), Init(r), u');
      assert p[..|p| - 1] == p' by {
        forall x | 0 <= x < |p'|
          ensures p[x] == p'[x]
        {
          assert Init(a)[x] == a[x];
          assert u[|r| - |a| + x] == u'[|Init(r)| - |Init(a)| + x];
        }
      }
      StretchReadsAxes(Init(a), Init(r), k / Last(r));
    }
  }

  /** Pointwise stretch of a flat array of shape `a` to shape `r`. */
  function Expand<T>(vals: seq<T>, a: Shape, r: Shape): (out: seq<T>)
    requires |vals| == Size(a) && BroadcastsTo(a, r)
    ensures |out| == Size(r)
  {
    seq(Size(r), k requires 0 <= k < Size(r) => vals[Stretch(a, r, k)])
  }

  /** Stretching to the array's own shape is the identity. */
  lemma ExpandSame<T>(vals: seq<T>, s: Shape)
    requires |vals| == Size(s)
    ensures BroadcastsTo(s, s) && Expand(vals, s, s) == vals
  {
    assert BroadcastsTo(s, s);
    forall k | 0 <= k < Size(s)
      ensures Expand(vals, s, s)[k] == vals[k]
    {
      StretchIdentity(s, k);
    }
  }
}
