/**
 * NumPy arrays as values: a plain or masked float array, and a structured
 * (record) array of named float columns sharing one shape.  Data is kept
 * flat in row-major order (see module Shapes); a mask holds `true` at an
 * invalid element.
 */
module Arrays {
  import opened Wrappers
  import opened Shapes

  /** A float ndarray; `mask` is `Some` exactly when it is a masked array (`ma.isMA`). */
  datatype NdArray = NdArray(shape: Shape, data: seq<real>, mask: Option<seq<bool>>)
  {
    predicate Valid()
    {
      |data| == Size(shape) && (mask.Some? ==> |mask.value| == Size(shape))
    }
  }

  predicate NoDuplicates(names: seq<string>)
  {
    forall i, j :: 0 <= i < j < |names| ==> names[i] != names[j]
  }

  function Zeros(n: nat): seq<real>
  {
    seq(n, _ => 0.0)
  }

  function AllFalse(n: nat): seq<bool>
  {
    seq(n, _ => false)
  }

  /**
   * A structured array: the dtype's field names in order, one flat column
   * per field, and a per-field mask when it is a masked array.
   */
  datatype Records = Records(shape: Shape, fields: seq<string>, cols: map<string, seq<real>>,
                             masks: Option<map<string, seq<bool>>>)
  {
    ghost predicate Valid()
    {
      && NoDuplicates(fields)
      && (forall f :: f in cols <==> f in fields)
      && (forall f :: f in cols ==> |cols[f]| == Size(shape))
      && (masks.Some? ==> forall f :: f in masks.value <==> f in cols)
      && (masks.Some? ==> forall f :: f in masks.value ==> |masks.value[f]| == Size(shape))
    }

    /** `data_in[name]`: one field as an array of the table's shape, with that field's mask. */
    function Column(name: string): (a: NdArray)
      requires name in cols
      ensures Valid() ==> a.Valid()
      ensures a.shape == shape && a.data == cols[name] && (a.mask.Some? <==> masks.Some? && name in masks.value)
      ensures a.mask.Some? ==> a.mask.value == masks.value[name]
    {
      NdArray(shape, cols[name], if masks.Some? && name in masks.value then Some(masks.value[name]) else None)
    }
  }

  /** Whether `a`, stretched to `shape`, is masked at flat index `k` of `shape`. */
  predicate MaskedAt(a: NdArray, shape: Shape, k: nat)
    requires a.Valid() && BroadcastsTo(a.shape, shape) && k < Size(shape)
  {
    a.mask.Some? && a.mask.value[Stretch(a.shape, shape, k)]
  }

  /**
   * The mask an assignment of `a`, stretched to `shape`, writes into a masked
   * array: `a`'s own mask, or all False when `a` is a plain array.
   */
  function ValueMask(a: NdArray, shape: Shape): (m: seq<bool>)
    requires a.Valid() && BroadcastsTo(a.shape, shape)
    ensures |m| == Size(shape)
    ensures a.mask.None? ==> forall k :: 0 <= k < |m| ==> !m[k]
    ensures forall k :: 0 <= k < |m| ==> (m[k] <==> MaskedAt(a, shape, k))
  {
    if a.mask.Some? then Expand(a.mask.value, a.shape, shape) else AllFalse(Size(shape))
  }
}
