/** The flat-buffer layout shared by the ndarray marshalling routines of
    src/python/export_math.cpp: a `width x height` array whose cells carry
    `channels` components sits in a flat buffer in row-major
    `(width, height, channels)` order, so component `k` of cell `(i, j)` lives
    at `i * height * channels + j * channels + k`.

    A grid value is a `seq` of `width` columns, each a `seq` of `height` cells,
    each a `seq` of `channels` components. Decoding cuts the buffer into
    columns and the columns into cells; encoding lays the cells end to end.
    `Decode` and `Encode` are the specifications the imperative routines of
    module ExportMath are proved against. */
module Layout {
  import opened Arith

  type Grid<T> = seq<seq<seq<T>>>

  /** `g` has exactly `w` columns of `h` cells of `c` components. */
  predicate IsShape<T>(g: Grid<T>, w: nat, h: nat, c: nat) {
    |g| == w &&
    (forall i :: 0 <= i < w ==> |g[i]| == h) &&
    (forall i, j :: 0 <= i < w && 0 <= j < h ==> |g[i][j]| == c)
  }

  /** Flat position of component `k` of cell `(i, j)`. `ndarray_to_image_buffer`
      writes the first term as `i * channels * height`, the other routines as
      `i * height * channels`; both are this number. */
  function FlatIndex(i: nat, j: nat, k: nat, h: nat, c: nat): nat {
    MulNonneg(i, h);
    MulNonneg(i * h, c);
    MulNonneg(j, c);
    i * h * c + j * c + k
  }

  // ---------------------------------------------------------------------
  // Cutting a sequence into equal pieces and laying pieces end to end.

  /** `s` cut into its first `n` consecutive pieces of length `m`. */
  function Chunks<T>(s: seq<T>, n: nat, m: nat): (r: seq<seq<T>>)
    requires n * m <= |s|
    ensures |r| == n
    ensures forall q :: 0 <= q < n ==> |r[q]| == m
    decreases n
  {
    if n == 0 then []
    else
      assert m <= |s| && (n - 1) * m <= |s| - m by {
        MulSucc(n - 1, m);
        MulNonneg(n - 1, m);
      }
      [s[..m]] + Chunks(s[m..], n - 1, m)
  }

  /** The pieces of `ss`, end to end. */
  function Concat<T>(ss: seq<seq<T>>): seq<T>
    decreases |ss|
  {
    if ss == [] then [] else ss[0] + Concat(ss[1..])
  }

  /** All of the `n` pieces of `ss` have length `m`. */
  predicate Uniform<T>(ss: seq<seq<T>>, n: nat, m: nat) {
    |ss| == n && forall q :: 0 <= q < n ==> |ss[q]| == m
  }

  lemma {:induction false} ConcatLength<T>(ss: seq<seq<T>>, n: nat, m: nat)
    requires Uniform(ss, n, m)
    ensures |Concat(ss)| == n * m
    decreases n
  {
    if n > 0 {
      ConcatLength(ss[1..], n - 1, m);
      MulSucc(n - 1, m);
    }
  }

  /** Laying one more piece at the end extends the result by that piece. */
  lemma {:induction false} ConcatAppend<T>(ss: seq<seq<T>>, s: seq<T>)
    ensures Concat(ss + [s]) == Concat(ss) + s
    decreases |ss|
  {
    if ss != [] {
      assert (ss + [s])[1..] == ss[1..] + [s];
      ConcatAppend(ss[1..], s);
    } else {
      assert ss + [s] == [s];
    }
  }

  /** Element `k` of piece `q` of `s` is element `q * m + k` of `s`. */
  lemma {:induction false} ChunksAt<T>(s: seq<T>, n: nat, m: nat, q: nat, k: nat)
    requires n * m <= |s| && q < n && k < m
    ensures q * m + k < |s| && Chunks(s, n, m)[q][k] == s[q * m + k]
    decreases n
  {
    DigitBound(q, k, n, m);
    if q > 0 {
      MulSucc(n - 1, m);
      MulNonneg(n - 1, m);
      MulSucc(q - 1, m);
      ChunksAt(s[m..], n - 1, m, q - 1, k);
    }
  }

  /** Element `q * m + k` of uniform pieces end to end is element `k` of
      piece `q`. */
  lemma {:induction false} ConcatAt<T>(ss: seq<seq<T>>, n: nat, m: nat, q: nat, k: nat)
    requires Uniform(ss, n, m) && q < n && k < m
    ensures q * m + k < |Concat(ss)| && Concat(ss)[q * m + k] == ss[q][k]
    decreases n
  {
    ConcatLength(ss, n, m);
    DigitBound(q, k, n, m);
    if q > 0 {
      MulSucc(q - 1, m);
      ConcatAt(ss[1..], n - 1, m, q - 1, k);
    }
  }

  /** Cutting uniform pieces laid end to end gives the pieces back. */
  lemma {:induction false} ChunksOfConcat<T>(ss: seq<seq<T>>, n: nat, m: nat)
    requires Uniform(ss, n, m)
    ensures |Concat(ss)| == n * m && Chunks(Concat(ss), n, m) == ss
    decreases n
  {
    ConcatLength(ss, n, m);
    if n > 0 {
      var s := Concat(ss);
      assert s == ss[0] + Concat(ss[1..]);
      assert s[..m] == ss[0];
      assert s[m..] == Concat(ss[1..]);
      ChunksOfConcat(ss[1..], n - 1, m);
    }
  }

  /** Laying the pieces of `s` end to end gives back its first `n * m`
      elements. */
  lemma {:induction false} ConcatOfChunks<T>(s: seq<T>, n: nat, m: nat)
    requires n * m <= |s|
    ensures Concat(Chunks(s, n, m)) == s[..n * m]
    decreases n
  {
    if n > 0 {
      MulSucc(n - 1, m);
      MulNonneg(n - 1, m);
      ConcatOfChunks(s[m..], n - 1, m);
      assert Chunks(s, n, m)[1..] == Chunks(s[m..], n - 1, m);
      assert s[..m] + s[m..][..(n - 1) * m] == s[..n * m];
    }
  }

  /** Cutting only looks at the first `n * m` elements. */
  lemma {:induction false} ChunksPrefix<T>(s: seq<T>, n: nat, m: nat)
    requires n * m <= |s|
    ensures Chunks(s, n, m) == Chunks(s[..n * m], n, m)
    decreases n
  {
    if n > 0 {
      MulSucc(n - 1, m);
      MulNonneg(n - 1, m);
      var t := s[..n * m];
      assert t[..m] == s[..m];
      assert t[m..] == s[m..][..(n - 1) * m];
      ChunksPrefix(s[m..], n - 1, m);
    }
  }

  // ---------------------------------------------------------------------
  // Positions.

  /** The first term of the flat position is the start of column `i`, a
      column being `h * c` slots long. */
  lemma FlatIndexSplit(i: nat, j: nat, k: nat, h: nat, c: nat)
    ensures FlatIndex(i, j, k, h, c) == i * (h * c) + (j * c + k)
  {
    MulAssoc(i, h, c);
  }

  /** Within a column, component `k` of cell `j` is at offset `j * c + k`,
      below the column length. */
  lemma CellInColumn(j: nat, k: nat, h: nat, c: nat)
    requires j < h && k < c
    ensures 0 <= j * c + k < h * c
  {
    DigitBound(j, k, h, c);
  }

  /** Every in-range coordinate lands inside the first `w * h * c` slots. */
  lemma FlatIndexInBounds(i: nat, j: nat, k: nat, w: nat, h: nat, c: nat)
    requires i < w && j < h && k < c
    ensures 0 <= FlatIndex(i, j, k, h, c) < w * h * c
  {
    CellInColumn(j, k, h, c);
    DigitBound(i, j * c + k, w, h * c);
    FlatIndexSplit(i, j, k, h, c);
    MulAssoc(w, h, c);
  }

  /** The three coordinates a flat position decodes to. */
  function Column(n: nat, h: nat, c: nat): nat
    requires 0 < h && 0 < c
  {
    MulPositive(h, c);
    n / (h * c)
  }

  function Row(n: nat, h: nat, c: nat): nat
    requires 0 < h && 0 < c
  {
    (n / c) % h
  }

  function Channel(n: nat, c: nat): nat
    requires 0 < c
  {
    n % c
  }

  /** A flat position built from in-range coordinates decodes back to them. */
  lemma Decompose(i: nat, j: nat, k: nat, h: nat, c: nat)
    requires j < h && k < c
    ensures 0 <= FlatIndex(i, j, k, h, c)
    ensures Column(FlatIndex(i, j, k, h, c), h, c) == i
    ensures Row(FlatIndex(i, j, k, h, c), h, c) == j
    ensures Channel(FlatIndex(i, j, k, h, c), c) == k
  {
    var n := FlatIndex(i, j, k, h, c);
    MulNonneg(i, h);
    MulAddLeft(i * h, j, c);
    MulNonneg(i * h + j, c);
    DivModUnique(n, c, i * h + j, k);
    DivModUnique(i * h + j, h, i, j);
    CellInColumn(j, k, h, c);
    MulPositive(h, c);
    FlatIndexSplit(i, j, k, h, c);
    DivModUnique(n, h * c, i, j * c + k);
  }

  /** Distinct in-range coordinates never share a flat position, so an encoder
      writing each coordinate once never overwrites an earlier write. */
  lemma FlatIndexInjective(i: nat, j: nat, k: nat, i': nat, j': nat, k': nat, h: nat, c: nat)
    requires j < h && k < c && j' < h && k' < c
    requires FlatIndex(i, j, k, h, c) == FlatIndex(i', j', k', h, c)
    ensures i == i' && j == j' && k == k'
  {
    Decompose(i, j, k, h, c);
    Decompose(i', j', k', h, c);
  }

  /** Every flat position below `w * h * c` is the position of in-range
      coordinates, namely of the ones it decodes to: the layout leaves no
      slot of that prefix unused. */
  lemma Recompose(n: nat, w: nat, h: nat, c: nat)
    requires 0 < h && 0 < c && n < w * h * c
    ensures Column(n, h, c) < w && Row(n, h, c) < h && Channel(n, c) < c
    ensures FlatIndex(Column(n, h, c), Row(n, h, c), Channel(n, c), h, c) == n
  {
    DivMod(n, c);
    var q := n / c;
    DivMod(q, h);
    var i, j, k := q / h, q % h, n % c;
    MulAddLeft(i * h, j, c);
    assert FlatIndex(i, j, k, h, c) == n;
    Decompose(i, j, k, h, c);
    MulAssoc(w, h, c);
    FlatIndexSplit(i, j, k, h, c);
    CellInColumn(j, k, h, c);
    if w <= i {
      MulMonoLeft(w, i, h * c);
      assert false;
    }
  }

  /** Positions are consecutive across cell and column boundaries: the
      slot after the last component of cell `(i, j)` starts cell `(i, j + 1)`,
      and the slot after the last cell of column `i` starts column `i + 1`. */
  lemma NextCell(i: nat, j: nat, h: nat, c: nat)
    ensures FlatIndex(i, j, c, h, c) == FlatIndex(i, j + 1, 0, h, c)
  {
    MulSucc(j, c);
  }

  lemma NextColumn(i: nat, h: nat, c: nat)
    ensures FlatIndex(i, h, 0, h, c) == FlatIndex(i + 1, 0, 0, h, c)
  {
    MulSucc(i, h);
    MulAddLeft(i * h, h, c);
  }

  // ---------------------------------------------------------------------
  // Decoding and encoding.

  /** The buffer's first `w * h * c` entries read as `w` columns of `h`
      cells of `c` components. */
  function Decode<T>(buf: seq<T>, w: nat, h: nat, c: nat): (g: Grid<T>)
    requires w * h * c <= |buf|
    ensures IsShape(g, w, h, c)
  {
    MulAssoc(w, h, c);
    var columns := Chunks(buf, w, h * c);
    seq(w, i requires 0 <= i < w => Chunks(columns[i], h, c))
  }

  /** Each column of the grid with its cells end to end. */
  function Columns<T>(g: Grid<T>, w: nat, h: nat, c: nat): (cols: seq<seq<T>>)
    requires IsShape(g, w, h, c)
    ensures Uniform(cols, w, h * c)
    ensures forall i :: 0 <= i < w ==> cols[i] == Concat(g[i])
  {
    forall i | 0 <= i < w ensures |Concat(g[i])| == h * c {
      ConcatLength(g[i], h, c);
    }
    seq(w, i requires 0 <= i < w => Concat(g[i]))
  }

  /** The grid's components end to end, column after column, cell after
      cell. */
  function Flatten<T>(g: Grid<T>, w: nat, h: nat, c: nat): (r: seq<T>)
    requires IsShape(g, w, h, c)
    ensures |r| == w * h * c
  {
    ConcatLength(Columns(g, w, h, c), w, h * c);
    MulAssoc(w, h, c);
    Concat(Columns(g, w, h, c))
  }

  /** Encoding into a buffer that already holds `out`: the first `w * h * c`
      slots receive the grid, every later slot keeps its old value. */
  function Encode<T>(g: Grid<T>, w: nat, h: nat, c: nat, out: seq<T>): (r: seq<T>)
    requires IsShape(g, w, h, c) && w * h * c <= |out|
    ensures |r| == |out|
  {
    Flatten(g, w, h, c) + out[w * h * c..]
  }

  /** Component `k` of cell `(i, j)` of a decoded buffer is entry
      `j * c + k` of column `i`. */
  lemma DecodeInColumn<T>(buf: seq<T>, w: nat, h: nat, c: nat, i: nat, j: nat, k: nat)
    requires w * h * c <= |buf| && i < w && j < h && k < c
    ensures w * (h * c) <= |buf| && 0 <= j * c + k < h * c
    ensures Decode(buf, w, h, c)[i][j][k] == Chunks(buf, w, h * c)[i][j * c + k]
  {
    MulAssoc(w, h, c);
    CellInColumn(j, k, h, c);
    ChunksAt(Chunks(buf, w, h * c)[i], h, c, j, k);
  }

  /** Decoding reads component `k` of cell `(i, j)` from the flat position
      of `(i, j, k)`. */
  lemma DecodeAt<T>(buf: seq<T>, w: nat, h: nat, c: nat, i: nat, j: nat, k: nat)
    requires w * h * c <= |buf| && i < w && j < h && k < c
    ensures 0 <= FlatIndex(i, j, k, h, c) < |buf|
    ensures Decode(buf, w, h, c)[i][j][k] == buf[FlatIndex(i, j, k, h, c)]
  {
    FlatIndexInBounds(i, j, k, w, h, c);
    DecodeInColumn(buf, w, h, c, i, j, k);
    ChunksAt(buf, w, h * c, i, j * c + k);
    FlatIndexSplit(i, j, k, h, c);
  }

  /** Flattening puts component `k` of cell `(i, j)` at the flat position
      of `(i, j, k)`. */
  lemma FlattenAt<T>(g: Grid<T>, w: nat, h: nat, c: nat, i: nat, j: nat, k: nat)
    requires IsShape(g, w, h, c) && i < w && j < h && k < c
    ensures 0 <= FlatIndex(i, j, k, h, c) < w * h * c
    ensures Flatten(g, w, h, c)[FlatIndex(i, j, k, h, c)] == g[i][j][k]
  {
    var columns := Columns(g, w, h, c);
    FlatIndexInBounds(i, j, k, w, h, c);
    CellInColumn(j, k, h, c);
    ConcatAt(g[i], h, c, j, k);
    ConcatAt(columns, w, h * c, i, j * c + k);
    FlatIndexSplit(i, j, k, h, c);
    MulAssoc(w, h, c);
  }

  /** Encoding writes component `k` of cell `(i, j)` at the flat position of
      `(i, j, k)`. */
  lemma EncodeAt<T>(g: Grid<T>, w: nat, h: nat, c: nat, out: seq<T>, i: nat, j: nat, k: nat)
    requires IsShape(g, w, h, c) && w * h * c <= |out| && i < w && j < h && k < c
    ensures 0 <= FlatIndex(i, j, k, h, c) < w * h * c
    ensures Encode(g, w, h, c, out)[FlatIndex(i, j, k, h, c)] == g[i][j][k]
  {
    FlattenAt(g, w, h, c, i, j, k);
  }

  /** Encoding puts the `c` components of cell `(i, j)` in the consecutive
      slots from the flat position of `(i, j, 0)`, inside the first
      `w * h * c`. */
  lemma EncodeCell<T>(g: Grid<T>, w: nat, h: nat, c: nat, out: seq<T>, i: nat, j: nat)
    requires IsShape(g, w, h, c) && w * h * c <= |out| && i < w && j < h
    ensures FlatIndex(i, j, 0, h, c) + c <= w * h * c
    ensures forall k :: 0 <= k < c ==> Encode(g, w, h, c, out)[FlatIndex(i, j, 0, h, c) + k] == g[i][j][k]
  {
    if 0 < c {
      FlatIndexInBounds(i, j, c - 1, w, h, c);
    } else {
      MulAssoc(w, h, c);
    }
    forall k | 0 <= k < c ensures Encode(g, w, h, c, out)[FlatIndex(i, j, 0, h, c) + k] == g[i][j][k] {
      EncodeAt(g, w, h, c, out, i, j, k);
    }
  }

  /** Encoding leaves every slot from `w * h * c` on as it was. */
  lemma EncodeKeepsTail<T>(g: Grid<T>, w: nat, h: nat, c: nat, out: seq<T>, n: nat)
    requires IsShape(g, w, h, c) && w * h * c <= n < |out|
    ensures Encode(g, w, h, c, out)[n] == out[n]
  {
  }

  /** Encoding a grid and decoding the buffer gives the grid back. */
  lemma DecodeEncode<T>(g: Grid<T>, w: nat, h: nat, c: nat, out: seq<T>)
    requires IsShape(g, w, h, c) && w * h * c <= |out|
    ensures Decode(Encode(g, w, h, c, out), w, h, c) == g
  {
    var columns := Columns(g, w, h, c);
    var buf := Encode(g, w, h, c, out);
    MulAssoc(w, h, c);
    assert buf[..w * h * c] == Concat(columns);
    ChunksOfConcat(columns, w, h * c);
    ChunksPrefix(buf, w, h * c);
    forall i | 0 <= i < w ensures Decode(buf, w, h, c)[i] == g[i] {
      ChunksOfConcat(g[i], h, c);
    }
  }

  /** Flattening a decoded buffer gives back its first `w * h * c` entries. */
  lemma FlattenDecode<T>(buf: seq<T>, w: nat, h: nat, c: nat)
    requires w * h * c <= |buf|
    ensures Flatten(Decode(buf, w, h, c), w, h, c) == buf[..w * h * c]
  {
    MulAssoc(w, h, c);
    var g := Decode(buf, w, h, c);
    var columns := Chunks(buf, w, h * c);
    var flat := Columns(g, w, h, c);
    forall i | 0 <= i < w ensures flat[i] == columns[i] {
      assert g[i] == Chunks(columns[i], h, c);
      ConcatOfChunks(columns[i], h, c);
      assert columns[i][..h * c] == columns[i];
    }
    assert flat == columns;
    ConcatOfChunks(buf, w, h * c);
  }

  /** Decoding a buffer and encoding the grid into any buffer reproduces the
      first `w * h * c` entries of the original; encoding over the original
      itself gives it back whole. */
  lemma EncodeDecode<T>(buf: seq<T>, w: nat, h: nat, c: nat, out: seq<T>)
    requires w * h * c <= |buf| && w * h * c <= |out|
    ensures Encode(Decode(buf, w, h, c), w, h, c, out)[..w * h * c] == buf[..w * h * c]
    ensures Encode(Decode(buf, w, h, c), w, h, c, buf) == buf
  {
    FlattenDecode(buf, w, h, c);
    assert buf[..w * h * c] + buf[w * h * c..] == buf;
  }

  /** Two grids of the same shape that agree on every component are equal. */
  lemma GridExtensional<T>(a: Grid<T>, b: Grid<T>, w: nat, h: nat, c: nat)
    requires IsShape(a, w, h, c) && IsShape(b, w, h, c)
    requires forall i, j, k :: 0 <= i < w && 0 <= j < h && 0 <= k < c ==> a[i][j][k] == b[i][j][k]
    ensures a == b
  {
    forall i | 0 <= i < w ensures a[i] == b[i] {
      forall j | 0 <= j < h ensures a[i][j] == b[i][j] {
      }
    }
  }

  /** With one channel the layout is the plain row-major `i * height + j`
      of the single-channel decoder. */
  lemma SingleChannel(i: nat, j: nat, h: nat)
    ensures FlatIndex(i, j, 0, h, 1) == i * h + j
  {
  }

  /** At one channel, decoding reads cell `(i, j)` from `buf[i * h + j]`. */
  lemma ScalarDecodeAt<T>(buf: seq<T>, w: nat, h: nat, i: nat, j: nat)
    requires w * h <= |buf| && i < w && j < h
    ensures 0 <= i * h + j < |buf| && Decode(buf, w, h, 1)[i][j][0] == buf[i * h + j]
  {
    SingleChannel(i, j, h);
    DecodeAt(buf, w, h, 1, i, j, 0);
  }
}
