/** The ndarray marshalling of src/python/export_math.cpp: an `Array2D` whose
    cells carry `channels` components is filled from, or copied into, a flat
    buffer laid out as module Layout describes. Component values are only
    copied, so the element type `T` stays opaque. */
module ExportMath {
  import opened Layout

  /** The array types the bindings give a channel count (`get_channels`). */
  datatype BoundType = Array2DVector3 | Array2DVector4 | LevelSet2D | LevelSet3D

  /** The number of components a cell of a bound type has: the constant
      each `get_channels` binding is instantiated with. Level sets are scalar
      fields. */
  function Channels(t: BoundType): nat {
    match t
    case Array2DVector3 => 3
    case Array2DVector4 => 4
    case LevelSet2D => 1
    case LevelSet3D => 1
  }

  /** `return_constant<T, ret>` as registered for `get_channels`: it ignores
      the object and returns 3 for `Array2DVector3`, 4 for `Array2DVector4`
      and 1 for either level set. */
  function GetChannels<A>(t: BoundType, obj: A): (c: nat)
    ensures 0 < c
    ensures c == 1 <==> t.LevelSet2D? || t.LevelSet3D?
    ensures t.Array2DVector3? ==> c == 3
    ensures t.Array2DVector4? ==> c == 4
  {
    Channels(t)
  }

  /** The object passed to `return_constant` plays no part in the answer. */
  lemma GetChannelsIgnoresObject<A>(t: BoundType, a: A, b: A)
    ensures GetChannels(t, a) == GetChannels(t, b)
  {
  }

  /** `make_range(start, end, delta)`: the three numbers, in argument order. */
  function MakeRange(start: real, end: real, delta: real): (r: seq<real>)
    ensures |r| == 3 && r[0] == start && r[1] == end && r[2] == delta
  {
    [start, end, delta]
  }

  // ---------------------------------------------------------------------
  // Type names of the bound vector classes.

  /** The element types whose `get_type_short_name` is modelled. */
  datatype ScalarType = Int | Int64 | UInt64

  /** `get_type_short_name<T>()`: one letter per element type; no two types
      share a letter and none of the letters is a digit. */
  function ShortName(t: ScalarType): (s: string)
    ensures |s| == 1 && !IsDigit(s[0])
    ensures s == "i" <==> t == Int
    ensures s == "I" <==> t == Int64
    ensures s == "U" <==> t == UInt64
  {
    match t
    case Int => "i"
    case Int64 => "I"
    case UInt64 => "U"
  }

  predicate IsDigit(ch: char) {
    '0' <= ch <= '9'
  }

  /** The decimal digit of `d < 10`. */
  function DigitChar(d: nat): (ch: char)
    requires d < 10
    ensures IsDigit(ch) && ch as int - '0' as int == d
  {
    ('0' as int + d) as char
  }

  /** `std::to_string` of a non-negative number: its decimal digits, most
      significant first, without leading zeros. */
  function NatToString(n: nat): (s: string)
    ensures 0 < |s| && forall q :: 0 <= q < |s| ==> IsDigit(s[q])
    ensures n < 10 <==> |s| == 1
    decreases n
  {
    if n < 10 then [DigitChar(n)] else NatToString(n / 10) + [DigitChar(n % 10)]
  }

  /** Reading a string of decimal digits as a number. */
  function DigitsValue(s: string): nat
    decreases |s|
  {
    if s == [] then 0
    else
      var d := s[|s| - 1] as int - '0' as int;
      DigitsValue(s[..|s| - 1]) * 10 + (if 0 <= d then d else 0)
  }

  /** Reading back the digits `std::to_string` writes gives the number. */
  lemma {:induction false} NatToStringRoundTrip(n: nat)
    ensures DigitsValue(NatToString(n)) == n
    decreases n
  {
    if 10 <= n {
      var s := NatToString(n);
      assert s[..|s| - 1] == NatToString(n / 10);
      NatToStringRoundTrip(n / 10);
    }
  }

  /** Different numbers get different decimal strings. */
  lemma NatToStringInjective(a: nat, b: nat)
    requires NatToString(a) == NatToString(b)
    ensures a == b
  {
    NatToStringRoundTrip(a);
    NatToStringRoundTrip(b);
  }

  /** The class name `VectorRegistration` gives `VectorND<DIM, T>`, such as
      `Vector4i`: the word, the dimension in decimal, the type letter. */
  function VectorName(dim: nat, t: ScalarType): (s: string)
    ensures |s| == 7 + |NatToString(dim)| && s[..6] == "Vector"
  {
    "Vector" + NatToString(dim) + ShortName(t)
  }

  /** The name of the class's `VectorNDBase` base class, such as
      `Vector4iBase`. */
  function BaseName(dim: nat, t: ScalarType): (s: string)
    ensures |s| == |VectorName(dim, t)| + 4 && s[|s| - 4..] == "Base"
  {
    VectorName(dim, t) + "Base"
  }

  /** A vector class name determines the dimension and the element type it
      was made from. */
  lemma VectorNameInjective(d1: nat, t1: ScalarType, d2: nat, t2: ScalarType)
    requires VectorName(d1, t1) == VectorName(d2, t2)
    ensures d1 == d2 && t1 == t2
  {
    var s1, s2 := VectorName(d1, t1), VectorName(d2, t2);
    assert NatToString(d1) == s1[6..|s1| - 1];
    assert NatToString(d2) == s2[6..|s2| - 1];
    NatToStringInjective(d1, d2);
    assert ShortName(t1) == [s1[|s1| - 1]] == ShortName(t2);
  }

  /** Base class names are just as distinct. */
  lemma BaseNameInjective(d1: nat, t1: ScalarType, d2: nat, t2: ScalarType)
    requires BaseName(d1, t1) == BaseName(d2, t2)
    ensures d1 == d2 && t1 == t2
  {
    var b1, b2 := BaseName(d1, t1), BaseName(d2, t2);
    assert VectorName(d1, t1) == b1[..|b1| - 4];
    assert VectorName(d2, t2) == b2[..|b2| - 4];
    VectorNameInjective(d1, t1, d2, t2);
  }

  /** No vector class is registered under the name of a base class: a
      vector name ends in a type letter, a base name in `e`. */
  lemma VectorNameIsNotBaseName(d1: nat, t1: ScalarType, d2: nat, t2: ScalarType)
    ensures VectorName(d1, t1) != BaseName(d2, t2)
  {
    var v, b := VectorName(d1, t1), BaseName(d2, t2);
    assert v[|v| - 1] == ShortName(t1)[0];
    assert b[|b| - 1] == 'e';
  }

  /** The channel loop of `ndarray_to_image_buffer` for one cell `(i, j)`
      of the freshly sized array `a`: component `k` comes from the flat
      position of `(i, j, k)`, where the buffer holds `cell[k]`. Nothing else
      in `a` changes. */
  method ReadCell<T>(a: array3<T>, input: array<T>, i: nat, j: nat, ghost cell: seq<T>)
    requires i < a.Length0 && j < a.Length1 && |cell| == a.Length2
    requires forall k :: 0 <= k < a.Length2 ==>
               FlatIndex(i, j, k, a.Length1, a.Length2) < input.Length &&
               input[FlatIndex(i, j, k, a.Length1, a.Length2)] == cell[k]
    modifies a
    ensures forall k :: 0 <= k < a.Length2 ==> a[i, j, k] == cell[k]
    ensures forall i', j', k' :: (i' != i || j' != j) && 0 <= i' < a.Length0 && 0 <= j' < a.Length1 && 0 <= k' < a.Length2 ==>
              a[i', j', k'] == old(a[i', j', k'])
  {
    var h, channels := a.Length1, a.Length2;
    var k := 0;
    while k < channels
      invariant 0 <= k <= channels
      invariant forall k' :: 0 <= k' < k ==> a[i, j, k'] == cell[k']
      invariant forall i', j', k' :: (i' != i || j' != j) && 0 <= i' < a.Length0 && 0 <= j' < h && 0 <= k' < channels ==>
                  a[i', j', k'] == old(a[i', j', k'])
    {
      var idx := i * channels * h + j * channels + k;
      assert idx == FlatIndex(i, j, k, h, channels) by {
        assert i * channels * h == i * h * channels;
      }
      a[i, j, k] := input[idx];
      k := k + 1;
    }
  }

  /** The body of `ndarray_to_array2d_real` for one cell `(i, j)` of the
      freshly sized single-channel array `a`: its value comes from
      `input[i * height + j]`, where the buffer holds `v`. Nothing else in `a`
      changes. */
  method ReadScalar<T>(a: array3<T>, input: array<T>, i: nat, j: nat, ghost v: T)
    requires i < a.Length0 && j < a.Length1 && a.Length2 == 1
    requires i * a.Length1 + j < input.Length && input[i * a.Length1 + j] == v
    modifies a
    ensures a[i, j, 0] == v
    ensures forall i', j' :: (i' != i || j' != j) && 0 <= i' < a.Length0 && 0 <= j' < a.Length1 ==>
              a[i', j', 0] == old(a[i', j', 0])
  {
    a[i, j, 0] := input[i * a.Length1 + j];
  }

  /** The channel loop of `array2d_to_ndarray` for one cell `(i, j)`: its
      components go to the `c` consecutive slots from `p`, the flat position
      of `(i, j, 0)`, and take the values `spec` holds there. No other slot
      changes. */
  method WriteCell<T>(cells: array3<T>, output: array<T>, i: nat, j: nat, ghost spec: seq<T>, ghost p: nat)
    requires i < cells.Length0 && j < cells.Length1
    requires p == FlatIndex(i, j, 0, cells.Length1, cells.Length2)
    requires p + cells.Length2 <= output.Length == |spec|
    requires forall k :: 0 <= k < cells.Length2 ==> spec[p + k] == cells[i, j, k]
    modifies output
    ensures forall n :: 0 <= n < output.Length ==>
              output[n] == if p <= n < p + cells.Length2 then spec[n] else old(output[n])
  {
    var height, channels := cells.Length1, cells.Length2;
    var k := 0;
    while k < channels
      invariant 0 <= k <= channels
      invariant forall n :: 0 <= n < output.Length ==>
                  output[n] == if p <= n < p + k then spec[n] else old(output[n])
    {
      var idx := i * height * channels + j * channels + k;
      assert idx == p + k;
      output[idx] := cells[i, j, k];
      k := k + 1;
    }
  }

  /** A `width x height` array of cells with `channels` components each. */
  class Array2D<T(0)> {
    var width: nat
    var height: nat
    const channels: nat
    var cells: array3<T>

    ghost predicate Valid()
      reads this
    {
      0 < channels &&
      cells.Length0 == width && cells.Length1 == height && cells.Length2 == channels
    }

    /** The array's contents as a grid value. */
    function Cells(): (g: Grid<T>)
      requires Valid()
      reads this, cells
      ensures IsShape(g, width, height, channels)
      ensures forall i, j, k :: 0 <= i < width && 0 <= j < height && 0 <= k < channels ==>
                g[i][j][k] == cells[i, j, k]
    {
      var a, w, h, c := cells, width, height, channels;
      var g := seq(w, i requires 0 <= i < w reads a =>
        seq(h, j requires 0 <= j < h reads a =>
          seq(c, k requires 0 <= k < c reads a => a[i, j, k])));
      assert forall i :: 0 <= i < w ==> |g[i]| == h;
      assert forall i, j :: 0 <= i < w && 0 <= j < h ==> |g[i][j]| == c;
      g
    }

    /** An empty array of one of the bound 2D types, before any
        `initialize`. */
    constructor (t: BoundType)
      requires !t.LevelSet3D?
      ensures Valid() && fresh(cells)
      ensures width == 0 && height == 0 && channels == Channels(t)
    {
      width, height := 0, 0;
      channels := Channels(t);
      cells := new T[0, 0, Channels(t)];
    }

    /** `ndarray_to_image_buffer` and `ndarray_to_array2d`: resize to
        `w x h` and read every component of every cell from the buffer. */
    method FromBuffer(input: array<T>, w: nat, h: nat)
      requires Valid()
      requires w * h * channels <= input.Length
      modifies this
      ensures Valid() && fresh(cells)
      ensures width == w && height == h
      ensures Cells() == Decode(input[..], w, h, channels)
    {
      ghost var spec := Decode(input[..], w, h, channels);
      var a := new T[w, h, channels];
      // One pass over the region, as in `ToBuffer`.
      var i, j := 0, 0;
      while i < w && 0 < h
        invariant 0 <= i <= w && 0 <= j && (j < h || j == 0) && (i == w ==> j == 0)
        invariant forall i', j', k' :: 0 <= i' < w && 0 <= j' < h && 0 <= k' < channels && (i' < i || (i' == i && j' < j)) ==>
                    a[i', j', k'] == spec[i'][j'][k']
        decreases w - i, h - j
      {
        forall k | 0 <= k < channels
          ensures FlatIndex(i, j, k, h, channels) < input.Length
          ensures input[FlatIndex(i, j, k, h, channels)] == spec[i][j][k]
        {
          DecodeAt(input[..], w, h, channels, i, j, k);
        }
        ReadCell(a, input, i, j, spec[i][j]);
        if j + 1 < h {
          j := j + 1;
        } else {
          i, j := i + 1, 0;
        }
      }
      width, height, cells := w, h, a;
      GridExtensional(Cells(), spec, w, h, channels);
    }

    /** `ndarray_to_array2d_real`: the single-channel decoder of scalar
        arrays, reading cell `(i, j)` from `input[i * height + j]`. It is the
        general layout at one channel. */
    method FromScalarBuffer(input: array<T>, w: nat, h: nat)
      requires Valid() && channels == 1
      requires w * h <= input.Length
      modifies this
      ensures Valid() && fresh(cells)
      ensures width == w && height == h
      ensures Cells() == Decode(input[..], w, h, 1)
    {
      ghost var spec := Decode(input[..], w, h, 1);
      var a := new T[w, h, 1];
      var i, j := 0, 0;
      while i < w && 0 < h
        invariant 0 <= i <= w && 0 <= j && (j < h || j == 0) && (i == w ==> j == 0)
        invariant forall i', j', k' :: 0 <= i' < w && 0 <= j' < h && 0 <= k' < 1 && (i' < i || (i' == i && j' < j)) ==>
                    a[i', j', k'] == spec[i'][j'][k']
        decreases w - i, h - j
      {
        ScalarDecodeAt(input[..], w, h, i, j);
        ReadScalar(a, input, i, j, spec[i][j][0]);
        if j + 1 < h {
          j := j + 1;
        } else {
          i, j := i + 1, 0;
        }
      }
      width, height, cells := w, h, a;
      GridExtensional(Cells(), spec, w, h, 1);
    }

    /** Both `array2d_to_ndarray` overloads: after checking that the array is
        not empty, write every component of every cell to its flat position.
        An empty array fails the check before anything is written. */
    method ToBuffer(output: array<T>) returns (ok: bool)
      requires Valid()
      requires width * height * channels <= output.Length
      modifies output
      ensures ok <==> 0 < width && 0 < height
      ensures ok ==> output[..] == Encode(Cells(), width, height, channels, old(output[..]))
      ensures !ok ==> output[..] == old(output[..])
    {
      var w, h, c := width, height, channels;
      if w == 0 || h == 0 {
        return false;
      }
      ghost var g := Cells();
      ghost var before := output[..];
      ghost var spec := Encode(g, w, h, c, before);
      // One pass over the region, cell `(i, j)` after cell `(i, j - 1)` and
      // column `i + 1` after column `i`; `p` is the flat position of the
      // next write.
      ghost var p := 0;
      var i, j := 0, 0;
      while i < w
        invariant 0 <= i <= w && 0 <= j < h && (i == w ==> j == 0)
        invariant p == FlatIndex(i, j, 0, h, c)
        invariant forall n :: 0 <= n < output.Length && n < p ==> output[n] == spec[n]
        invariant forall n :: 0 <= n < output.Length && p <= n ==> output[n] == old(output[n])
        decreases w - i, h - j
      {
        EncodeCell(g, w, h, c, before, i, j);
        WriteCell(cells, output, i, j, spec, p);
        p := p + c;
        NextCell(i, j, h, c);
        if j + 1 < h {
          j := j + 1;
        } else {
          NextColumn(i, h, c);
          i, j := i + 1, 0;
        }
      }
      forall n | p <= n < output.Length ensures output[n] == spec[n] {
        EncodeKeepsTail(g, w, h, c, before, n);
      }
      assert output[..] == spec;
      ok := true;
    }
  }

  /** Handing a buffer to `from_ndarray` and reading it back with
      `to_ndarray` reproduces the buffer's first `w * h * c` entries. */
  method FromThenToNdarray<T(0)>(t: BoundType, input: array<T>, w: nat, h: nat) returns (ok: bool, r: seq<T>)
    requires !t.LevelSet3D?
    requires w * h * Channels(t) <= input.Length
    ensures ok <==> 0 < w && 0 < h
    ensures ok ==> r == input[..w * h * Channels(t)]
  {
    var arr := new Array2D<T>(t);
    arr.FromBuffer(input, w, h);
    var c := arr.channels;
    ghost var g := arr.Cells();
    var output := new T[input.Length];
    ghost var before := output[..];
    ok := arr.ToBuffer(output);
    var encoded := output[..];
    r := encoded[..w * h * c];
    if ok {
      assert encoded == Encode(Decode(input[..], w, h, c), w, h, c, before);
      EncodeDecode(input[..], w, h, c, before);
    }
  }
}
