/** The arena-backed matrix engine of include/lna_matrix.h and src/lna_matrix.c.

    A matrix is a row-major flat buffer: element (r, c) lives at offset
    r * cols + c. Its storage is either NULL or a block carved out of an arena at
    some offset; the block's contents are carried as a sequence of reals
    (single-precision rounding is not modelled). In-place C routines become
    functions returning the updated matrix; allocating routines return the new
    arena as well. */
module LnaMatrix {
  import opened LnaNumber
  import opened Arith
  import opened LnaArena
  import opened Sums

  /** LnaOpStatus. */
  datatype Status = InvalidDimensions | InvalidElementTypes | InvalidAlloc | Todo | Ok

  /** The `data` pointer: NULL, or a block at an arena offset holding the elements. */
  datatype Storage = NullData | Block(offset: u64, elems: seq<real>)

  datatype Matrix = Matrix(rows: u64, cols: u64, data: Storage)
  {
    /** A non-null buffer holds exactly rows * cols elements. */
    predicate Valid()
    {
      data.Block? ==> |data.elems| == rows * cols
    }

    /** Every element (r, c) with r < rows and c < cols is backed by storage. */
    predicate Backed()
    {
      Valid() && (data.NullData? ==> rows == 0 || cols == 0)
    }
  }

  /** Result of an allocating routine: its status, the arena after it, and the
      `out` matrix it leaves behind (the caller's value, untouched, on error). */
  datatype Outcome = Outcome(status: Status, arena: Arena, out: Matrix)

  /** Result of an in-place routine: its status and the matrix after it. */
  datatype Updated = Updated(status: Status, m: Matrix)

  // ---------------------------------------------------------------------------
  // Row-major addressing
  // ---------------------------------------------------------------------------

  /** The flat offset of element (r, c) in a matrix with `cols` columns: r
      whole rows of `cols` elements, then c more. */
  function Flat(cols: nat, r: nat, c: nat): nat
    decreases r
  {
    if r == 0 then c else Flat(cols, r - 1, c) + cols
  }

  lemma {:induction false} FlatIsRowMajor(cols: nat, r: nat, c: nat)
    ensures Flat(cols, r, c) == r * cols + c
    decreases r
  {
    if r > 0 {
      FlatIsRowMajor(cols, r - 1, c);
    }
  }

  lemma FlatInRange(rows: nat, cols: nat, r: nat, c: nat)
    requires r < rows && c < cols
    ensures Flat(cols, r, c) < rows * cols
  {
    FlatIsRowMajor(cols, r, c);
    MulMono(r + 1, rows, cols);
  }

  /** Distinct in-range coordinates have distinct offsets, and an offset splits
      back into its coordinates. */
  lemma FlatSplit(cols: nat, r: nat, c: nat)
    requires c < cols
    ensures Flat(cols, r, c) / cols == r && Flat(cols, r, c) % cols == c
  {
    FlatIsRowMajor(cols, r, c);
    DivModUnique(Flat(cols, r, c), cols, r, c);
  }

  lemma AllFlat(rows: nat, cols: nat)
    ensures forall i: nat, j: nat :: i < rows && j < cols ==>
              Flat(cols, i, j) < rows * cols && Flat(cols, i, j) / cols == i && Flat(cols, i, j) % cols == j
  {
    forall i: nat, j: nat | i < rows && j < cols
      ensures Flat(cols, i, j) < rows * cols && Flat(cols, i, j) / cols == i && Flat(cols, i, j) % cols == j
    {
      FlatInRange(rows, cols, i, j);
      FlatSplit(cols, i, j);
    }
  }

  /** Every flat offset below rows * cols is the offset of an in-range element. */
  lemma OffsetSplit(rows: nat, cols: nat, k: nat)
    requires k < rows * cols
    ensures cols > 0 && k / cols < rows && k % cols < cols && Flat(cols, k / cols, k % cols) == k
  {
    assert cols > 0;
    FlatIsRowMajor(cols, k / cols, k % cols);
    if k / cols >= rows {
      MulMono(rows, k / cols, cols);
    }
  }

  /** The row-major buffer whose element (i, j) is f(i, j). */
  function Tabulate(rows: nat, cols: nat, f: (nat, nat) --> real): (s: seq<real>)
    requires forall i: nat, j: nat :: i < rows && j < cols ==> f.requires(i, j)
    ensures |s| == rows * cols
    ensures forall i: nat, j: nat :: i < rows && j < cols ==>
              Flat(cols, i, j) < |s| && s[Flat(cols, i, j)] == f(i, j)
  {
    AllFlat(rows, cols);
    seq(rows * cols, k requires 0 <= k < rows * cols =>
      OffsetSplit(rows, cols, k);
      f(k / cols, k % cols))
  }

  /** Two backed matrices of one shape with the same elements have the same buffer contents. */
  lemma SameElems(m: Matrix, n: Matrix)
    requires m.Backed() && n.Backed() && m.rows == n.rows && m.cols == n.cols
    requires m.data.Block? && n.data.Block?
    requires forall i: nat, j: nat :: i < m.rows && j < m.cols ==> Get(m, i, j) == Get(n, i, j)
    ensures m.data.elems == n.data.elems
  {
    forall k | 0 <= k < m.rows * m.cols
      ensures m.data.elems[k] == n.data.elems[k]
    {
      OffsetSplit(m.rows, m.cols, k);
      assert Get(m, k / m.cols, k % m.cols) == Get(n, k / m.cols, k % m.cols);
    }
  }

  // ---------------------------------------------------------------------------
  // Element access (mget / mset) and views
  // ---------------------------------------------------------------------------

  /** mget: the element at flat offset r * cols + c. */
  function Get(m: Matrix, r: nat, c: nat): real
    requires m.Backed() && r < m.rows && c < m.cols
  {
    FlatInRange(m.rows, m.cols, r, c);
    m.data.elems[Flat(m.cols, r, c)]
  }

  /** mget reads the buffer at r * cols + c, which lies inside it. Kept out of
      Get's own contract so that the products it mentions do not follow every
      element access. */
  lemma GetAtOffset(m: Matrix, r: nat, c: nat)
    requires m.Backed() && r < m.rows && c < m.cols
    ensures m.data.Block? && r * m.cols + c < |m.data.elems|
    ensures Get(m, r, c) == m.data.elems[r * m.cols + c]
  {
    FlatInRange(m.rows, m.cols, r, c);
    FlatIsRowMajor(m.cols, r, c);
  }

  /** Row r as a sequence of cols elements. */
  function Row(m: Matrix, r: nat): (s: seq<real>)
    requires m.Backed() && r < m.rows
    ensures |s| == m.cols
    ensures forall j: nat :: j < m.cols ==> s[j] == Get(m, r, j)
  {
    seq(m.cols, j requires 0 <= j < m.cols => Get(m, r, j))
  }

  /** Column c as a sequence of rows elements. */
  function Col(m: Matrix, c: nat): (s: seq<real>)
    requires m.Backed() && c < m.cols
    ensures |s| == m.rows
    ensures forall i: nat :: i < m.rows ==> s[i] == Get(m, i, c)
  {
    seq(m.rows, i requires 0 <= i < m.rows => Get(m, i, c))
  }

  /** m' is m's buffer (same shape, same storage) with possibly new contents. */
  predicate SameBuffer(m': Matrix, m: Matrix)
  {
    && m'.rows == m.rows && m'.cols == m.cols && m'.Backed()
    && (match m.data
        case NullData => m'.data.NullData?
        case Block(o, _) => m'.data.Block? && m'.data.offset == o)
  }

  /** mset: writes v at flat offset r * cols + c and nothing else. */
  function Set(m: Matrix, r: nat, c: nat, v: real): (m': Matrix)
    requires m.Backed() && r < m.rows && c < m.cols
    ensures SameBuffer(m', m)
    ensures Get(m', r, c) == v
    ensures forall i: nat, j: nat :: i < m.rows && j < m.cols && (i != r || j != c) ==> Get(m', i, j) == Get(m, i, j)
  {
    FlatInRange(m.rows, m.cols, r, c);
    AllFlat(m.rows, m.cols);
    m.(data := m.data.(elems := m.data.elems[Flat(m.cols, r, c) := v]))
  }

  // ---------------------------------------------------------------------------
  // create_Matrix and fill_row_Matrix
  // ---------------------------------------------------------------------------

  /** Bytes a rows x cols matrix occupies. The C expression is u64 arithmetic;
      callers must keep it from wrapping. */
  function Bytes(rows: nat, cols: nat): nat
  {
    rows * cols * F32_BYTES
  }

  /** The arena can hold a fresh rows x cols matrix: its byte count does not wrap
      in u64, and unless it is empty the push succeeds. Without this the
      allocating routines write through the NULL that create_Matrix stores. */
  predicate Room(a: Arena, rows: nat, cols: nat)
  {
    Bytes(rows, cols) < U64_MODULUS && (rows > 0 && cols > 0 ==> Fits(a, Bytes(rows, cols)))
  }

  /** m, with arena a' after it, is what create_Matrix(a, rows, cols) leaves:
      the requested shape, and the storage is the pointer the push returned. */
  predicate Placed(a: Arena, a': Arena, m: Matrix, rows: nat, cols: nat)
  {
    && Bytes(rows, cols) < U64_MODULUS
    && var p := Push(a, Bytes(rows, cols));
    && a' == p.arena && m.rows == rows && m.cols == cols && m.Valid()
    && (match p.ptr
        case Null => m.data.NullData?
        case At(o) => m.data.Block? && m.data.offset == o)
  }

  /** m's buffer after a loop has stored `elems` into it. A NULL buffer is left
      alone; it only arises for an empty matrix, where no loop body runs. */
  function Written(m: Matrix, elems: seq<real>): (r: Matrix)
    requires m.Valid() && |elems| == m.rows * m.cols
    requires m.data.NullData? ==> m.rows == 0 || m.cols == 0
    ensures SameBuffer(r, m)
    ensures r.data.Block? ==> r.data.elems == elems
  {
    match m.data
    case NullData => m
    case Block(o, _) => m.(data := Block(o, elems))
  }

  datatype Created = Created(arena: Arena, m: Matrix)

  /** create_Matrix. The NULL a failed push returns is stored, not reported.
      Fresh storage is uninitialised in C; the model fills it with zeros, and
      no property below reads it before it is written. */
  function Create(a: Arena, rows: u64, cols: u64): (r: Created)
    requires Bytes(rows, cols) < U64_MODULUS
    ensures Placed(a, r.arena, r.m, rows, cols)
    ensures r.m.data.NullData? <==> !Fits(a, Bytes(rows, cols))
    ensures Room(a, rows, cols) ==> r.m.Backed()
  {
    var p := Push(a, Bytes(rows, cols));
    match p.ptr
    case Null => Created(p.arena, Matrix(rows, cols, NullData))
    case At(o) => Created(p.arena, Matrix(rows, cols, Block(o, seq(rows * cols, _ => 0.0))))
  }

  /** An allocating routine succeeded: its output was placed by a fresh push and
      every element is backed. */
  predicate Fresh(a: Arena, r: Outcome, rows: nat, cols: nat)
  {
    r.status == Ok && Placed(a, r.arena, r.out, rows, cols) && r.out.Backed()
  }

  /** fill_row_Matrix: copies col_vals[0..cols) over row `row`. */
  function FillRow(m: Matrix, row: nat, vals: seq<real>): (r: Matrix)
    requires m.Backed() && row < m.rows && |vals| >= m.cols
    ensures SameBuffer(r, m)
    ensures Row(r, row) == vals[..m.cols]
    ensures forall i: nat, j: nat :: i < m.rows && j < m.cols && i != row ==> Get(r, i, j) == Get(m, i, j)
  {
    if m.cols == 0 then m
    else
    var base := row * m.cols;
    FlatInRange(m.rows, m.cols, row, 0);
    MulMono(row + 1, m.rows, m.cols);
    var elems := m.data.elems[..base] + vals[..m.cols] + m.data.elems[base + m.cols..];
    var r := m.(data := m.data.(elems := elems));
    FillRowFacts(m, row, vals, r);
    r
  }

  lemma FillRowFacts(m: Matrix, row: nat, vals: seq<real>, r: Matrix)
    requires m.Backed() && row < m.rows && |vals| >= m.cols && m.cols > 0
    requires (row + 1) * m.cols <= m.rows * m.cols
    requires r == m.(data := m.data.(elems := m.data.elems[..row * m.cols] + vals[..m.cols]
                                              + m.data.elems[row * m.cols + m.cols..]))
    ensures SameBuffer(r, m)
    ensures Row(r, row) == vals[..m.cols]
    ensures forall i: nat, j: nat :: i < m.rows && j < m.cols && i != row ==> Get(r, i, j) == Get(m, i, j)
  {
    var base := row * m.cols;
    var e, e' := m.data.elems, r.data.elems;
    assert |e'| == |e|;
    forall k | 0 <= k < |e| && (k < base || base + m.cols <= k)
      ensures e'[k] == e[k]
    {
    }
    forall j: nat | j < m.cols
      ensures Get(r, row, j) == vals[j]
    {
      FlatIsRowMajor(m.cols, row, j);
    }
    forall i: nat, j: nat | i < m.rows && j < m.cols && i != row
      ensures Get(r, i, j) == Get(m, i, j)
    {
      FlatInRange(m.rows, m.cols, i, j);
      FlatIsRowMajor(m.cols, i, j);
      if i < row {
        FlatInRange(row, m.cols, i, j);
      } else {
        MulMono(row + 1, i, m.cols);
      }
    }
  }

  // ---------------------------------------------------------------------------
  // Matrix x Matrix
  // ---------------------------------------------------------------------------

  /** The inner loop of Matrix_mut_Matrix over the flat buffers:
      acc += lhs_data[r * lhs_cols + i] * rhs_data[i * rhs_cols + c] for i < n. */
  function Acc(lhs: Matrix, rhs: Matrix, r: nat, c: nat, n: nat): real
    requires lhs.Backed() && rhs.Backed() && lhs.cols == rhs.rows
    requires r < lhs.rows && c < rhs.cols && n <= lhs.cols
  {
    if n == 0 then 0.0
    else
      FlatInRange(lhs.rows, lhs.cols, r, n - 1);
      FlatInRange(rhs.rows, rhs.cols, n - 1, c);
      Acc(lhs, rhs, r, c, n - 1)
        + Product(lhs.data.elems[Flat(lhs.cols, r, n - 1)], rhs.data.elems[Flat(rhs.cols, n - 1, c)])
  }

  /** The flat accumulation is the dot product of row r of lhs with column c of rhs. */
  lemma {:induction false} AccIsDotProduct(lhs: Matrix, rhs: Matrix, r: nat, c: nat, n: nat)
    requires lhs.Backed() && rhs.Backed() && lhs.cols == rhs.rows
    requires r < lhs.rows && c < rhs.cols && n <= lhs.cols
    ensures Acc(lhs, rhs, r, c, n) == DotProduct(Row(lhs, r)[..n], Col(rhs, c)[..n])
  {
    if n > 0 {
      AccIsDotProduct(lhs, rhs, r, c, n - 1);
      assert Row(lhs, r)[..n][..n - 1] == Row(lhs, r)[..n - 1];
      assert Col(rhs, c)[..n][..n - 1] == Col(rhs, c)[..n - 1];
    }
  }

  /** Matrix_mut_Matrix: the dimension check comes first, then the NULL check,
      and only then is the output allocated. */
  function MatMul(a: Arena, out: Matrix, lhs: Matrix, rhs: Matrix): (r: Outcome)
    requires lhs.Valid() && rhs.Valid()
    requires lhs.cols == rhs.rows && lhs.data.Block? && rhs.data.Block? ==> Room(a, lhs.rows, rhs.cols)
    ensures lhs.cols != rhs.rows ==> r == Outcome(InvalidDimensions, a, out)
    ensures lhs.cols == rhs.rows && (lhs.data.NullData? || rhs.data.NullData?) ==> r == Outcome(InvalidAlloc, a, out)
    ensures lhs.cols == rhs.rows && lhs.data.Block? && rhs.data.Block? ==>
              && Fresh(a, r, lhs.rows, rhs.cols)
              && forall i: nat, j: nat :: i < lhs.rows && j < rhs.cols ==>
                   Get(r.out, i, j) == DotProduct(Row(lhs, i), Col(rhs, j))
  {
    if lhs.cols != rhs.rows then Outcome(InvalidDimensions, a, out)
    else if lhs.data.NullData? || rhs.data.NullData? then Outcome(InvalidAlloc, a, out)
    else
      var created := Create(a, lhs.rows, rhs.cols);
      var elems := Tabulate(lhs.rows, rhs.cols,
                            (i: nat, j: nat) requires i < lhs.rows && j < rhs.cols => Acc(lhs, rhs, i, j, lhs.cols));
      var r := Outcome(Ok, created.arena, Written(created.m, elems));
      MatMulFacts(lhs, rhs, r.out);
      r
  }

  lemma MatMulFacts(lhs: Matrix, rhs: Matrix, out: Matrix)
    requires lhs.Backed() && rhs.Backed() && lhs.cols == rhs.rows
    requires out.rows == lhs.rows && out.cols == rhs.cols && out.Backed()
    requires forall i: nat, j: nat :: i < lhs.rows && j < rhs.cols ==> Get(out, i, j) == Acc(lhs, rhs, i, j, lhs.cols)
    ensures forall i: nat, j: nat :: i < lhs.rows && j < rhs.cols ==> Get(out, i, j) == DotProduct(Row(lhs, i), Col(rhs, j))
  {
    forall i: nat, j: nat | i < lhs.rows && j < rhs.cols
      ensures Get(out, i, j) == DotProduct(Row(lhs, i), Col(rhs, j))
    {
      AccIsDotProduct(lhs, rhs, i, j, lhs.cols);
      assert Row(lhs, i)[..lhs.cols] == Row(lhs, i);
      assert Col(rhs, j)[..lhs.cols] == Col(rhs, j);
    }
  }

  /** The element-wise loop shared by Matrix_plus_Matrix and Matrix_minus_Matrix:
      out_data[k] = lhs_data[k] op rhs_data[k] over the common flat layout. */
  function Zip(lhs: seq<real>, rhs: seq<real>, subtract: bool): (s: seq<real>)
    requires |lhs| == |rhs|
    ensures |s| == |lhs|
    ensures forall k :: 0 <= k < |s| ==> s[k] == if subtract then lhs[k] - rhs[k] else lhs[k] + rhs[k]
  {
    seq(|lhs|, k requires 0 <= k < |lhs| => if subtract then lhs[k] - rhs[k] else lhs[k] + rhs[k])
  }

  /** Matrix_plus_Matrix: shapes must match exactly, then both buffers must be non-NULL. */
  function Plus(a: Arena, out: Matrix, lhs: Matrix, rhs: Matrix): (r: Outcome)
    requires lhs.Valid() && rhs.Valid()
    requires lhs.rows == rhs.rows && lhs.cols == rhs.cols && lhs.data.Block? && rhs.data.Block? ==>
               Room(a, lhs.rows, lhs.cols)
    ensures lhs.cols != rhs.cols || lhs.rows != rhs.rows ==> r == Outcome(InvalidDimensions, a, out)
    ensures lhs.rows == rhs.rows && lhs.cols == rhs.cols && (lhs.data.NullData? || rhs.data.NullData?) ==>
              r == Outcome(InvalidAlloc, a, out)
    ensures lhs.rows == rhs.rows && lhs.cols == rhs.cols && lhs.data.Block? && rhs.data.Block? ==>
              && Fresh(a, r, lhs.rows, lhs.cols)
              && forall i: nat, j: nat :: i < lhs.rows && j < lhs.cols ==> Get(r.out, i, j) == Get(lhs, i, j) + Get(rhs, i, j)
  {
    if lhs.cols != rhs.cols then Outcome(InvalidDimensions, a, out)
    else if lhs.rows != rhs.rows then Outcome(InvalidDimensions, a, out)
    else if lhs.data.NullData? || rhs.data.NullData? then Outcome(InvalidAlloc, a, out)
    else
      var created := Create(a, lhs.rows, lhs.cols);
      AllFlat(lhs.rows, lhs.cols);
      Outcome(Ok, created.arena,
              Written(created.m, Zip(lhs.data.elems, rhs.data.elems, false)))
  }

  /** Matrix_minus_Matrix: as Plus, with the difference. */
  function Minus(a: Arena, out: Matrix, lhs: Matrix, rhs: Matrix): (r: Outcome)
    requires lhs.Valid() && rhs.Valid()
    requires lhs.rows == rhs.rows && lhs.cols == rhs.cols && lhs.data.Block? && rhs.data.Block? ==>
               Room(a, lhs.rows, lhs.cols)
    ensures lhs.cols != rhs.cols || lhs.rows != rhs.rows ==> r == Outcome(InvalidDimensions, a, out)
    ensures lhs.rows == rhs.rows && lhs.cols == rhs.cols && (lhs.data.NullData? || rhs.data.NullData?) ==>
              r == Outcome(InvalidAlloc, a, out)
    ensures lhs.rows == rhs.rows && lhs.cols == rhs.cols && lhs.data.Block? && rhs.data.Block? ==>
              && Fresh(a, r, lhs.rows, lhs.cols)
              && forall i: nat, j: nat :: i < lhs.rows && j < lhs.cols ==> Get(r.out, i, j) == Get(lhs, i, j) - Get(rhs, i, j)
  {
    if lhs.cols != rhs.cols then Outcome(InvalidDimensions, a, out)
    else if lhs.rows != rhs.rows then Outcome(InvalidDimensions, a, out)
    else if lhs.data.NullData? || rhs.data.NullData? then Outcome(InvalidAlloc, a, out)
    else
      var created := Create(a, lhs.rows, lhs.cols);
      AllFlat(lhs.rows, lhs.cols);
      Outcome(Ok, created.arena,
              Written(created.m, Zip(lhs.data.elems, rhs.data.elems, true)))
  }

  /** Matrix_minus_Matrix_inplace: the checks of Minus, in the same order, but the
      difference is written over lhs's own buffer. */
  function MinusInPlace(lhs: Matrix, rhs: Matrix): (r: Updated)
    requires lhs.Valid() && rhs.Valid()
    ensures lhs.cols != rhs.cols || lhs.rows != rhs.rows ==> r == Updated(InvalidDimensions, lhs)
    ensures lhs.rows == rhs.rows && lhs.cols == rhs.cols && (lhs.data.NullData? || rhs.data.NullData?) ==>
              r == Updated(InvalidAlloc, lhs)
    ensures lhs.rows == rhs.rows && lhs.cols == rhs.cols && lhs.data.Block? && rhs.data.Block? ==>
              && r.status == Ok && SameBuffer(r.m, lhs)
              && forall i: nat, j: nat :: i < lhs.rows && j < lhs.cols ==> Get(r.m, i, j) == Get(lhs, i, j) - Get(rhs, i, j)
  {
    if lhs.cols != rhs.cols then Updated(InvalidDimensions, lhs)
    else if lhs.rows != rhs.rows then Updated(InvalidDimensions, lhs)
    else if lhs.data.NullData? || rhs.data.NullData? then Updated(InvalidAlloc, lhs)
    else
      AllFlat(lhs.rows, lhs.cols);
      Updated(Ok, lhs.(data := lhs.data.(elems := Zip(lhs.data.elems, rhs.data.elems, true))))
  }

  // ---------------------------------------------------------------------------
  // Matrix x Scalar (in place)
  // ---------------------------------------------------------------------------

  /** Matrix_mut_Scalar. */
  function MulScalar(m: Matrix, s: real): (r: Updated)
    requires m.Valid()
    ensures m.data.NullData? ==> r == Updated(InvalidAlloc, m)
    ensures m.data.Block? ==>
              && r.status == Ok && SameBuffer(r.m, m)
              && forall i: nat, j: nat :: i < m.rows && j < m.cols ==> Get(r.m, i, j) == Get(m, i, j) * s
  {
    if m.data.NullData? then Updated(InvalidAlloc, m)
    else
      AllFlat(m.rows, m.cols);
      Updated(Ok, m.(data := m.data.(elems := Scaled(m.data.elems, s))))
  }

  /** Matrix_plus_Scalar. */
  function PlusScalar(m: Matrix, s: real): (r: Updated)
    requires m.Valid()
    ensures m.data.NullData? ==> r == Updated(InvalidAlloc, m)
    ensures m.data.Block? ==>
              && r.status == Ok && SameBuffer(r.m, m)
              && forall i: nat, j: nat :: i < m.rows && j < m.cols ==> Get(r.m, i, j) == Get(m, i, j) + s
  {
    if m.data.NullData? then Updated(InvalidAlloc, m)
    else
      AllFlat(m.rows, m.cols);
      Updated(Ok, m.(data := m.data.(elems := Shifted(m.data.elems, s))))
  }

  /** Matrix_minus_Scalar. */
  function MinusScalar(m: Matrix, s: real): (r: Updated)
    requires m.Valid()
    ensures m.data.NullData? ==> r == Updated(InvalidAlloc, m)
    ensures m.data.Block? ==>
              && r.status == Ok && SameBuffer(r.m, m)
              && forall i: nat, j: nat :: i < m.rows && j < m.cols ==> Get(r.m, i, j) == Get(m, i, j) - s
  {
    if m.data.NullData? then Updated(InvalidAlloc, m)
    else
      AllFlat(m.rows, m.cols);
      Updated(Ok, m.(data := m.data.(elems := Shifted(m.data.elems, -s))))
  }

  // ---------------------------------------------------------------------------
  // Transpose
  // ---------------------------------------------------------------------------

  /** Matrix_transpose: a cols x rows output with out[c][r] = target[r][c]. */
  function Transpose(a: Arena, out: Matrix, target: Matrix): (r: Outcome)
    requires target.Valid()
    requires target.data.Block? ==> Room(a, target.cols, target.rows)
    ensures target.data.NullData? ==> r == Outcome(InvalidAlloc, a, out)
    ensures target.data.Block? ==>
              && Fresh(a, r, target.cols, target.rows)
              && forall i: nat, j: nat :: i < target.cols && j < target.rows ==> Get(r.out, i, j) == Get(target, j, i)
  {
    if target.data.NullData? then Outcome(InvalidAlloc, a, out)
    else
      var created := Create(a, target.cols, target.rows);
      var elems := Tabulate(target.cols, target.rows,
                            (i: nat, j: nat) requires i < target.cols && j < target.rows => Get(target, j, i));
      Outcome(Ok, created.arena, Written(created.m, elems))
  }

  // ---------------------------------------------------------------------------
  // Laws relating the routines
  // ---------------------------------------------------------------------------

  /** Row c of the transpose is column c of the original. */
  lemma TransposeRowIsColumn(a: Arena, out: Matrix, m: Matrix, c: nat)
    requires m.Valid() && m.data.Block? && Room(a, m.cols, m.rows) && c < m.cols
    ensures Row(Transpose(a, out, m).out, c) == Col(m, c)
  {
  }

  /** Transposing twice gives back the original elements in the original shape
      (in a fresh buffer). The first output is NULL only for an empty matrix. */
  lemma TransposeTwice(a: Arena, out: Matrix, out2: Matrix, m: Matrix)
    requires m.Valid() && m.data.Block?
    requires Room(a, m.cols, m.rows)
    requires Room(Transpose(a, out, m).arena, m.rows, m.cols)
    ensures var t := Transpose(a, out, m);
            var tt := Transpose(t.arena, out2, t.out);
            && (t.out.data.NullData? ==> m.rows == 0 || m.cols == 0)
            && (t.out.data.Block? ==>
                  && tt.status == Ok && tt.out.rows == m.rows && tt.out.cols == m.cols
                  && tt.out.data.Block? && tt.out.data.elems == m.data.elems)
  {
    var t := Transpose(a, out, m);
    if t.out.data.Block? {
      var tt := Transpose(t.arena, out2, t.out);
      if m.rows == 0 || m.cols == 0 {
        assert |tt.out.data.elems| == 0;
      } else {
        assert tt.out.data.Block?;
        SameElems(tt.out, m);
      }
    }
  }

  /** Subtracting B from A + B gives back A. */
  lemma MinusUndoesPlus(a: Arena, out1: Matrix, out2: Matrix, lhs: Matrix, rhs: Matrix)
    requires lhs.Valid() && rhs.Valid() && lhs.data.Block? && rhs.data.Block?
    requires lhs.rows == rhs.rows && lhs.cols == rhs.cols
    requires Room(a, lhs.rows, lhs.cols)
    requires Room(Plus(a, out1, lhs, rhs).arena, lhs.rows, lhs.cols)
    ensures var s := Plus(a, out1, lhs, rhs);
            var d := Minus(s.arena, out2, s.out, rhs);
            s.out.data.Block? ==>
              && d.status == Ok && d.out.rows == lhs.rows && d.out.cols == lhs.cols
              && forall i: nat, j: nat :: i < lhs.rows && j < lhs.cols ==> Get(d.out, i, j) == Get(lhs, i, j)
  {
  }

  /** The in-place subtraction reports what the allocating one reports and, on
      success, leaves in lhs's buffer what the allocating one puts in a fresh
      buffer; on failure it leaves lhs and the allocating one leaves the arena. */
  lemma MinusInPlaceAgreesWithMinus(a: Arena, out: Matrix, lhs: Matrix, rhs: Matrix)
    requires lhs.Valid() && rhs.Valid()
    requires lhs.rows == rhs.rows && lhs.cols == rhs.cols && lhs.data.Block? && rhs.data.Block? ==>
               Room(a, lhs.rows, lhs.cols)
    ensures var p := MinusInPlace(lhs, rhs);
            var q := Minus(a, out, lhs, rhs);
            && p.status == q.status
            && (p.status == Ok ==>
                  && SameBuffer(p.m, lhs) && q.out.rows == p.m.rows && q.out.cols == p.m.cols
                  && forall i: nat, j: nat :: i < lhs.rows && j < lhs.cols ==> Get(p.m, i, j) == Get(q.out, i, j))
            && (p.status != Ok ==> p.m == lhs && q.arena == a && q.out == out)
  {
  }

  /** Adding a scalar and then subtracting it restores the matrix exactly. */
  lemma MinusScalarUndoesPlusScalar(m: Matrix, s: real)
    requires m.Valid()
    ensures MinusScalar(PlusScalar(m, s).m, s).m == m
  {
    if m.data.Block? {
      var e := m.data.elems;
      assert Shifted(Shifted(e, s), -s) == e;
    }
  }

  /** Scaling by s and then by 1/s restores the matrix exactly when s is non-zero. */
  lemma MulScalarInverse(m: Matrix, s: real)
    requires m.Valid() && s != 0.0
    ensures MulScalar(MulScalar(m, s).m, 1.0 / s).m == m
  {
    if m.data.Block? {
      var e := m.data.elems;
      forall k | 0 <= k < |e|
        ensures Scaled(Scaled(e, s), 1.0 / s)[k] == e[k]
      {
        assert e[k] * s * (1.0 / s) == e[k] * (s * (1.0 / s));
      }
      assert Scaled(Scaled(e, s), 1.0 / s) == e;
    }
  }
}
