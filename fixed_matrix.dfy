/** FixedMatrix<T,COLS,ROWS> (ICLUtils/src/iclFixedMatrix.h) over integers: a
    COLS x ROWS matrix stored row-major in one buffer of COLS*ROWS entries,
    element (col, row) at linear index col + COLS*row. The template
    dimensions become the `cols` and `rows` of a value; operations whose
    template parameters must agree require the dimensions to agree. */
module FixedMatrices {
  import opened Sequences

  datatype Mat = Mat(cols: nat, rows: nat, data: seq<int>)

  /** A matrix whose buffer has exactly DIM = cols*rows entries. */
  type Matrix = m: Mat | |m.data| == m.cols * m.rows witness Mat(0, 0, [])

  /** What at(col, row) yields: the element, or the InvalidIndexException
      it throws. */
  datatype Access = Element(value: int) | InvalidIndexException

  // ---------------------------------------------------------------------
  // Arithmetic on the row-major layout

  lemma MulMono(a: nat, x: int, y: int)
    requires x <= y
    ensures a * x <= a * y
  {
    assert a * y - a * x == a * (y - x);
  }

  lemma MulCancelLess(a: nat, x: int, y: int)
    requires a * x < a * y
    ensures x < y
  {
    if y <= x {
      MulMono(a, y, x);
    }
  }

  /** An in-range (col, row) lies inside the buffer. */
  lemma IndexInRange(c: nat, r: nat, cols: nat, rows: nat)
    requires c < cols && r < rows
    ensures c + cols * r < cols * rows
  {
    MulMono(cols, r + 1, rows);
  }

  /** A linear index inside the buffer splits into a column below `cols`
      and a row below `rows`. */
  lemma Split(i: int, cols: nat, rows: nat)
    requires 0 <= i < cols * rows
    ensures cols > 0 && 0 <= i % cols < cols && 0 <= i / cols < rows
    ensures i == i % cols + cols * (i / cols)
  {
    MulCancelLess(cols, i / cols, rows);
  }

  /** The column and row are recovered from the linear index. */
  lemma Unsplit(c: nat, r: nat, cols: nat)
    requires c < cols
    ensures (c + cols * r) / cols == r && (c + cols * r) % cols == c
  {
    var x := c + cols * r;
    var q, m := x / cols, x % cols;
    assert cols * q + m == cols * r + c;
    MulCancelLess(cols, q, r + 1);
    MulCancelLess(cols, r, q + 1);
  }

  // ---------------------------------------------------------------------
  // Element access

  /** The linear index of element (c, r): c + COLS*r. */
  function Index(m: Matrix, c: nat, r: nat): (i: nat)
    requires c < m.cols && r < m.rows
    ensures i < |m.data|
  {
    IndexInRange(c, r, m.cols, m.rows);
    c + m.cols * r
  }

  /** operator()(col, row) const: no bounds check, so the caller must stay
      inside the matrix. */
  function Get(m: Matrix, c: nat, r: nat): int
    requires c < m.cols && r < m.rows
  {
    m.data[Index(m, c, r)]
  }

  /** operator[](idx) const: the linear view of the same buffer. */
  function Linear(m: Matrix, idx: nat): int
    requires idx < |m.data|
  {
    m.data[idx]
  }

  /** Writing through operator()(col, row). */
  function SetAt(m: Matrix, c: nat, r: nat, v: int): (res: Matrix)
    requires c < m.cols && r < m.rows
    ensures res.cols == m.cols && res.rows == m.rows
    ensures Get(res, c, r) == v
    ensures forall c', r' :: 0 <= c' < m.cols && 0 <= r' < m.rows && (c', r') != (c, r) ==>
              Get(res, c', r') == Get(m, c', r')
  {
    var res: Matrix := m.(data := m.data[Index(m, c, r) := v]);
    forall c', r' | 0 <= c' < m.cols && 0 <= r' < m.rows && (c', r') != (c, r)
      ensures Get(res, c', r') == Get(m, c', r')
    {
      IndexInjective(m.cols, c, r, c', r');
    }
    res
  }

  /** Writing through operator[](idx). */
  function SetLinear(m: Matrix, idx: nat, v: int): (res: Matrix)
    requires idx < |m.data|
    ensures res.cols == m.cols && res.rows == m.rows && |res.data| == |m.data|
    ensures res.data[idx] == v && forall j :: 0 <= j < |m.data| && j != idx ==> res.data[j] == m.data[j]
  {
    m.(data := m.data[idx := v])
  }

  /** Distinct in-range positions have distinct linear indices. */
  lemma IndexInjective(cols: nat, c: nat, r: nat, c': nat, r': nat)
    requires c < cols && c' < cols
    ensures c + cols * r == c' + cols * r' <==> c == c' && r == r'
  {
    Unsplit(c, r, cols);
    Unsplit(c', r', cols);
  }

  /** The layout is a bijection: every linear index of the buffer is the
      index of exactly one in-range (col, row), and operator() and
      operator[] read the same entry there. */
  lemma LayoutIsBijective(m: Matrix, i: nat)
    requires i < |m.data|
    ensures m.cols > 0 && i % m.cols < m.cols && i / m.cols < m.rows
    ensures Index(m, i % m.cols, i / m.cols) == i && Get(m, i % m.cols, i / m.cols) == Linear(m, i)
    ensures forall c, r :: 0 <= c < m.cols && 0 <= r < m.rows && Index(m, c, r) == i ==>
              c == i % m.cols && r == i / m.cols
  {
    Split(i, m.cols, m.rows);
    forall c, r | 0 <= c < m.cols && 0 <= r < m.rows
      ensures Index(m, c, r) == i ==> c == i % m.cols && r == i / m.cols
    {
      IndexInjective(m.cols, c, r, i % m.cols, i / m.cols);
    }
  }

  /** Matrices of the same shape that agree on every element are equal. */
  lemma {:induction false} SameElements(a: Matrix, b: Matrix)
    requires a.cols == b.cols && a.rows == b.rows
    requires forall c, r :: 0 <= c < a.cols && 0 <= r < a.rows ==> Get(a, c, r) == Get(b, c, r)
    ensures a == b
  {
    forall i | 0 <= i < |a.data| ensures a.data[i] == b.data[i] {
      LayoutIsBijective(a, i);
      assert Get(a, i % a.cols, i / a.cols) == Get(b, i % a.cols, i / a.cols);
    }
  }

  /** at(col, row): throws InvalidIndexException exactly when col >= COLS or
      row >= ROWS, and otherwise reads the same element as operator(). */
  function At(m: Matrix, c: nat, r: nat): (res: Access)
    ensures res == InvalidIndexException <==> c >= m.cols || r >= m.rows
    ensures res != InvalidIndexException ==> c < m.cols && r < m.rows && res == Element(Get(m, c, r))
  {
    if c >= m.cols || r >= m.rows then InvalidIndexException else Element(Get(m, c, r))
  }

  // ---------------------------------------------------------------------
  // Building matrices

  /** The buffer of a cols x rows matrix whose linear entry i is f at
      column i % cols and row i / cols. */
  function Build(cols: nat, rows: nat, f: (int, int) -> int): (m: Matrix)
    ensures m.cols == cols && m.rows == rows
    ensures forall c, r :: 0 <= c < cols && 0 <= r < rows ==> Get(m, c, r) == f(c, r)
  {
    var m: Matrix := Mat(cols, rows, seq(cols * rows, i requires 0 <= i < cols * rows => Split(i, cols, rows); f(i % cols, i / cols)));
    BuildElements(m, f);
    m
  }

  lemma BuildElements(m: Matrix, f: (int, int) -> int)
    requires m.cols > 0 ==> forall i :: 0 <= i < |m.data| ==> m.data[i] == f(i % m.cols, i / m.cols)
    ensures forall c, r :: 0 <= c < m.cols && 0 <= r < m.rows ==> Get(m, c, r) == f(c, r)
  {
    forall c, r | 0 <= c < m.cols && 0 <= r < m.rows ensures Get(m, c, r) == f(c, r) {
      Unsplit(c, r, m.cols);
    }
  }

  /** The fill constructor FixedMatrix(initValue) and operator=(T): every
      one of the DIM entries holds `v`. null() is Filled(cols, rows, 0). */
  function Filled(cols: nat, rows: nat, v: int): (m: Matrix)
    ensures m.cols == cols && m.rows == rows
    ensures forall i :: 0 <= i < |m.data| ==> m.data[i] == v
    ensures forall c, r :: 0 <= c < cols && 0 <= r < rows ==> Get(m, c, r) == v
  {
    Mat(cols, rows, Repeat(v, cols * rows))
  }

  /** A column vector FixedMatrix<T,1,N> holding `v`. */
  function ColumnVector(v: seq<int>): (m: Matrix)
    ensures m.cols == 1 && m.rows == |v|
    ensures forall r :: 0 <= r < |v| ==> Get(m, 0, r) == v[r]
  {
    Mat(1, |v|, v)
  }

  // ---------------------------------------------------------------------
  // Entry-by-entry arithmetic (std::transform over the buffer)

  /** Two matrices combined entry by entry with `op`. */
  function Zip(a: Matrix, b: Matrix, op: (int, int) -> int): (m: Matrix)
    requires a.cols == b.cols && a.rows == b.rows
    ensures m.cols == a.cols && m.rows == a.rows
    ensures forall i :: 0 <= i < |m.data| ==> m.data[i] == op(a.data[i], b.data[i])
    ensures forall c, r :: 0 <= c < a.cols && 0 <= r < a.rows ==> Get(m, c, r) == op(Get(a, c, r), Get(b, c, r))
  {
    Mat(a.cols, a.rows, seq(|a.data|, i requires 0 <= i < |a.data| => op(a.data[i], b.data[i])))
  }

  /** Every entry of a matrix transformed by `op`. */
  function MapEntries(a: Matrix, op: int -> int): (m: Matrix)
    ensures m.cols == a.cols && m.rows == a.rows
    ensures forall i :: 0 <= i < |m.data| ==> m.data[i] == op(a.data[i])
    ensures forall c, r :: 0 <= c < a.cols && 0 <= r < a.rows ==> Get(m, c, r) == op(Get(a, c, r))
  {
    Mat(a.cols, a.rows, seq(|a.data|, i requires 0 <= i < |a.data| => op(a.data[i])))
  }

  /** operator+(const FixedMatrix&): element-wise sum. */
  function Add(a: Matrix, b: Matrix): (m: Matrix)
    requires a.cols == b.cols && a.rows == b.rows
    ensures m.cols == a.cols && m.rows == a.rows
    ensures forall c, r :: 0 <= c < a.cols && 0 <= r < a.rows ==> Get(m, c, r) == Get(a, c, r) + Get(b, c, r)
  {
    Zip(a, b, (x, y) => x + y)
  }

  /** operator-(const FixedMatrix&): element-wise difference. */
  function Sub(a: Matrix, b: Matrix): (m: Matrix)
    requires a.cols == b.cols && a.rows == b.rows
    ensures m.cols == a.cols && m.rows == a.rows
    ensures forall c, r :: 0 <= c < a.cols && 0 <= r < a.rows ==> Get(m, c, r) == Get(a, c, r) - Get(b, c, r)
  {
    Zip(a, b, (x, y) => x - y)
  }

  /** Unary operator-: every entry negated. */
  function Neg(a: Matrix): (m: Matrix)
    ensures m.cols == a.cols && m.rows == a.rows
    ensures forall c, r :: 0 <= c < a.cols && 0 <= r < a.rows ==> Get(m, c, r) == -Get(a, c, r)
  {
    MapEntries(a, x => -x)
  }

  /** operator+(const T&): the scalar added to every entry. */
  function AddScalar(a: Matrix, t: int): (m: Matrix)
    ensures m.cols == a.cols && m.rows == a.rows
    ensures forall c, r :: 0 <= c < a.cols && 0 <= r < a.rows ==> Get(m, c, r) == Get(a, c, r) + t
  {
    MapEntries(a, x => x + t)
  }

  /** operator-(const T&): the scalar subtracted from every entry. */
  function SubScalar(a: Matrix, t: int): (m: Matrix)
    ensures m.cols == a.cols && m.rows == a.rows
    ensures forall c, r :: 0 <= c < a.cols && 0 <= r < a.rows ==> Get(m, c, r) == Get(a, c, r) - t
  {
    MapEntries(a, x => x - t)
  }

  /** operator*(T): every entry multiplied by the scalar. */
  function Scale(a: Matrix, f: int): (m: Matrix)
    ensures m.cols == a.cols && m.rows == a.rows
    ensures forall c, r :: 0 <= c < a.cols && 0 <= r < a.rows ==> Get(m, c, r) == Get(a, c, r) * f
  {
    MapEntries(a, x => x * f)
  }

  /** M + (-M) is the null matrix. */
  lemma AddNegIsNull(m: Matrix)
    ensures Add(m, Neg(m)) == Filled(m.cols, m.rows, 0)
  {
    SameElements(Add(m, Neg(m)), Filled(m.cols, m.rows, 0));
  }

  /** Subtracting what was added gives back the original matrix, and so
      does adding back what was subtracted. */
  lemma SubUndoesAdd(a: Matrix, b: Matrix)
    requires a.cols == b.cols && a.rows == b.rows
    ensures Sub(Add(a, b), b) == a
    ensures Add(Sub(a, b), b) == a
  {
    SameElements(Sub(Add(a, b), b), a);
    SameElements(Add(Sub(a, b), b), a);
  }

  /** Scaling by 1 changes nothing, and scaling distributes over the sum. */
  lemma ScaleIsLinear(a: Matrix, b: Matrix, f: int)
    requires a.cols == b.cols && a.rows == b.rows
    ensures Scale(a, 1) == a
    ensures Scale(Add(a, b), f) == Add(Scale(a, f), Scale(b, f))
  {
    SameElements(Scale(a, 1), a);
    forall c, r | 0 <= c < a.cols && 0 <= r < a.rows
      ensures Get(Scale(Add(a, b), f), c, r) == Get(Add(Scale(a, f), Scale(b, f)), c, r)
    {
      assert (Get(a, c, r) + Get(b, c, r)) * f == Get(a, c, r) * f + Get(b, c, r) * f;
    }
    SameElements(Scale(Add(a, b), f), Add(Scale(a, f), Scale(b, f)));
  }

  /** Adding a scalar and then subtracting it gives back the matrix. */
  lemma SubScalarUndoesAddScalar(a: Matrix, t: int)
    ensures SubScalar(AddScalar(a, t), t) == a
  {
    SameElements(SubScalar(AddScalar(a, t), t), a);
  }

  // ---------------------------------------------------------------------
  // Matrix product, transpose, identity, trace

  /** Sum over j < k of A(j, r) * B(c, j): the inner product of row r of A
      with column c of B, cut off after k terms. */
  function Dot(a: Matrix, b: Matrix, c: nat, r: nat, k: nat): int
    requires a.cols == b.rows && c < b.cols && r < a.rows && k <= a.cols
  {
    if k == 0 then 0 else Dot(a, b, c, r, k - 1) + Get(a, k - 1, r) * Get(b, c, k - 1)
  }

  /** operator*(const FixedMatrix<T,MCOLS,COLS>&): a COLS x ROWS matrix A
      times an MCOLS x COLS matrix B is the MCOLS x ROWS matrix with
      d(c, r) = sum over k < COLS of A(k, r) * B(c, k). */
  function Mul(a: Matrix, b: Matrix): (d: Matrix)
    requires a.cols == b.rows
    ensures d.cols == b.cols && d.rows == a.rows
    ensures forall c, r :: 0 <= c < b.cols && 0 <= r < a.rows ==> Get(d, c, r) == Dot(a, b, c, r, a.cols)
  {
    Build(b.cols, a.rows, (c, r) => if 0 <= c < b.cols && 0 <= r < a.rows then Dot(a, b, c, r, a.cols) else 0)
  }

  /** transp(): the ROWS x COLS matrix d with d(k, i) = this(i, k). */
  function Transp(a: Matrix): (d: Matrix)
    ensures d.cols == a.rows && d.rows == a.cols
    ensures forall k, i :: 0 <= k < a.rows && 0 <= i < a.cols ==> Get(d, k, i) == Get(a, i, k)
  {
    Build(a.rows, a.cols, (k, i) => if 0 <= k < a.rows && 0 <= i < a.cols then Get(a, i, k) else 0)
  }

  /** id(): the cols x rows matrix with 1 at (i, i) for i < min(cols, rows)
      and 0 elsewhere. (FixedMatrix<T,C,R>::id() is Identity(R, C).) */
  function Identity(cols: nat, rows: nat): (m: Matrix)
    ensures m.cols == cols && m.rows == rows
    ensures forall c, r :: 0 <= c < cols && 0 <= r < rows ==> Get(m, c, r) == if c == r then 1 else 0
  {
    Build(cols, rows, (c, r) => if c == r then 1 else 0)
  }

  /** trace(m) of a square matrix: the column vector of its diagonal,
      t[i] = m(i, i) (not the sum of the diagonal). */
  function Trace(m: Matrix): (t: Matrix)
    requires m.cols == m.rows
    ensures t.cols == 1 && t.rows == m.rows
    ensures forall i :: 0 <= i < m.rows ==> Linear(t, i) == Get(m, i, i)
  {
    var t := Build(1, m.rows, (c, r) => if 0 <= r < m.rows then Get(m, r, r) else 0);
    assert forall i :: 0 <= i < m.rows ==> Index(t, 0, i) == i;
    t
  }

  /** Transposing twice gives back the matrix. */
  lemma TransposeTwice(a: Matrix)
    ensures Transp(Transp(a)) == a
  {
    SameElements(Transp(Transp(a)), a);
  }

  /** Against a matrix e whose column c is the unit column e_c, the first k
      terms of row r's inner product pick out A(c, r) once k has passed c. */
  lemma {:induction false} DotWithUnitColumn(a: Matrix, e: Matrix, c: nat, r: nat, k: nat)
    requires a.cols == e.rows && c < e.cols && c < a.cols && r < a.rows && k <= a.cols
    requires forall j :: 0 <= j < e.rows ==> Get(e, c, j) == if c == j then 1 else 0
    ensures Dot(a, e, c, r, k) == if c < k then Get(a, c, r) else 0
  {
    if k > 0 {
      DotWithUnitColumn(a, e, c, r, k - 1);
      DotUnitRightStep(a, e, c, r, k - 1);
    }
  }

  /** One more term of a product with a matrix whose column c is the unit
      column e_c. */
  lemma DotUnitRightStep(a: Matrix, e: Matrix, c: nat, r: nat, k: nat)
    requires a.cols == e.rows && c < e.cols && c < a.cols && r < a.rows && k < a.cols
    requires Get(e, c, k) == if c == k then 1 else 0
    requires Dot(a, e, c, r, k) == if c < k then Get(a, c, r) else 0
    ensures Dot(a, e, c, r, k + 1) == if c < k + 1 then Get(a, c, r) else 0
  {
    DotStep(a, e, c, r, k);
  }

  /** With a matrix e whose row r is the unit row e_r on the left, the first
      k terms pick out B(c, r) once k has passed r. */
  lemma {:induction false} DotWithUnitRow(e: Matrix, a: Matrix, c: nat, r: nat, k: nat)
    requires e.cols == a.rows && c < a.cols && r < e.rows && r < a.rows && k <= e.cols
    requires forall j :: 0 <= j < e.cols ==> Get(e, j, r) == if r == j then 1 else 0
    ensures Dot(e, a, c, r, k) == if r < k then Get(a, c, r) else 0
  {
    if k > 0 {
      DotWithUnitRow(e, a, c, r, k - 1);
      DotUnitLeftStep(e, a, c, r, k - 1);
    }
  }

  /** One more term of a product with a matrix whose row r is the unit
      row e_r. */
  lemma DotUnitLeftStep(e: Matrix, a: Matrix, c: nat, r: nat, k: nat)
    requires e.cols == a.rows && c < a.cols && r < e.rows && r < a.rows && k < e.cols
    requires Get(e, k, r) == if r == k then 1 else 0
    requires Dot(e, a, c, r, k) == if r < k then Get(a, c, r) else 0
    ensures Dot(e, a, c, r, k + 1) == if r < k + 1 then Get(a, c, r) else 0
  {
    DotStep(e, a, c, r, k);
  }

  /** The identity is neutral for the product on both sides. */
  lemma MulIdentity(a: Matrix)
    ensures Mul(a, Identity(a.cols, a.cols)) == a
    ensures Mul(Identity(a.rows, a.rows), a) == a
  {
    forall c, r | 0 <= c < a.cols && 0 <= r < a.rows
      ensures Get(Mul(a, Identity(a.cols, a.cols)), c, r) == Get(a, c, r)
      ensures Get(Mul(Identity(a.rows, a.rows), a), c, r) == Get(a, c, r)
    {
      DotWithUnitColumn(a, Identity(a.cols, a.cols), c, r, a.cols);
      DotWithUnitRow(Identity(a.rows, a.rows), a, c, r, a.rows);
    }
    SameElements(Mul(a, Identity(a.cols, a.cols)), a);
    SameElements(Mul(Identity(a.rows, a.rows), a), a);
  }

  /** operator*(const FixedMatrix<T,MCOLS,COLS>&) as the source computes it:
      for every column c and row r, the inner product of row r of A with
      column c of B, accumulated term by term. */
  method Multiply(a: Matrix, b: Matrix) returns (d: Matrix)
    requires a.cols == b.rows
    ensures d == Mul(a, b)
  {
    d := Filled(b.cols, a.rows, 0);
    for c := 0 to b.cols
      invariant d.cols == b.cols && d.rows == a.rows
      invariant forall c', r' :: 0 <= c' < c && 0 <= r' < a.rows ==> Get(d, c', r') == Dot(a, b, c', r', a.cols)
    {
      for r := 0 to a.rows
        invariant d.cols == b.cols && d.rows == a.rows
        invariant forall c', r' :: 0 <= c' < c && 0 <= r' < a.rows ==> Get(d, c', r') == Dot(a, b, c', r', a.cols)
        invariant forall r' :: 0 <= r' < r ==> Get(d, c, r') == Dot(a, b, c, r', a.cols)
      {
        var s := 0;
        for k := 0 to a.cols
          invariant s == Dot(a, b, c, r, k)
        {
          s := s + Get(a, k, r) * Get(b, c, k);
        }
        d := SetAt(d, c, r, s);
      }
    }
    SameElements(d, Mul(a, b));
  }

  /** transp() as the source computes it: column i of the matrix is copied
      into row i of the result. */
  method Transpose(a: Matrix) returns (d: Matrix)
    ensures d == Transp(a)
  {
    d := Filled(a.rows, a.cols, 0);
    for i := 0 to a.cols
      invariant d.cols == a.rows && d.rows == a.cols
      invariant forall k, i' :: 0 <= k < a.rows && 0 <= i' < i ==> Get(d, k, i') == Get(a, i', k)
    {
      for k := 0 to a.rows
        invariant d.cols == a.rows && d.rows == a.cols
        invariant forall k', i' :: 0 <= k' < a.rows && 0 <= i' < i ==> Get(d, k', i') == Get(a, i', k')
        invariant forall k' :: 0 <= k' < k ==> Get(d, k', i) == Get(a, i, k')
      {
        d := SetAt(d, k, i, Get(a, i, k));
      }
    }
    SameElements(d, Transp(a));
  }

  /** id() as the source computes it: a null matrix with 1 written at (i, i)
      for every i below both dimensions. */
  method MakeIdentity(cols: nat, rows: nat) returns (m: Matrix)
    ensures m == Identity(cols, rows)
  {
    m := Filled(cols, rows, 0);
    var i := 0;
    while i < rows && i < cols
      invariant i <= rows && i <= cols
      invariant m.cols == cols && m.rows == rows
      invariant forall c, r :: 0 <= c < cols && 0 <= r < rows ==>
                  Get(m, c, r) == if c == r && c < i then 1 else 0
    {
      m := SetAt(m, i, i, 1);
      i := i + 1;
    }
    SameElements(m, Identity(cols, rows));
  }

  /** trace(m) as the source computes it: t[i] := m(i, i) for every i. */
  method MakeTrace(m: Matrix) returns (t: Matrix)
    requires m.cols == m.rows
    ensures t == Trace(m)
  {
    t := Filled(1, m.rows, 0);
    for i := 0 to m.rows
      invariant t.cols == 1 && t.rows == m.rows
      invariant forall j :: 0 <= j < i ==> Linear(t, j) == Get(m, j, j)
    {
      t := SetLinear(t, i, Get(m, i, i));
    }
    TraceIsDiagonal(m, t);
  }

  /** Two column vectors of the diagonal of `m` are the same matrix. */
  lemma TraceIsDiagonal(m: Matrix, t: Matrix)
    requires m.cols == m.rows && t.cols == 1 && t.rows == m.rows
    requires forall i :: 0 <= i < m.rows ==> Linear(t, i) == Get(m, i, i)
    ensures t == Trace(m)
  {
    var u := Trace(m);
    assert t.data == u.data;
  }

  // ---------------------------------------------------------------------
  // Homogeneous translation matrices

  /** create_hom_3x3_trans(dx, dy): the 3x3 identity with (2,0) = dx and
      (2,1) = dy. */
  function HomTrans3(dx: int, dy: int): (m: Matrix)
    ensures m.cols == 3 && m.rows == 3
  {
    SetAt(SetAt(Identity(3, 3), 2, 0, dx), 2, 1, dy)
  }

  /** create_hom_4x4_trans(dx, dy, dz) as written: the 4x4 identity with
      (3,0) = dx, (3,1) = dy and (3,2) = dy; dz is never used. */
  function HomTrans4AsWritten(dx: int, dy: int, dz: int): (m: Matrix)
    ensures m.cols == 4 && m.rows == 4
  {
    SetAt(SetAt(SetAt(Identity(4, 4), 3, 0, dx), 3, 1, dy), 3, 2, dy)
  }

  /** create_hom_4x4_trans(dx, dy, dz) as intended: (3,2) = dz. */
  function HomTrans4(dx: int, dy: int, dz: int): (m: Matrix)
    ensures m.cols == 4 && m.rows == 4
  {
    SetAt(SetAt(SetAt(Identity(4, 4), 3, 0, dx), 3, 1, dy), 3, 2, dz)
  }

  /** `h` is an (n+1) x (n+1) homogeneous translation by `t`: the identity
      with t[r] at (n, r) for every r < n. */
  ghost predicate IsTranslation(h: Matrix, t: seq<int>)
  {
    && h.cols == |t| + 1 && h.rows == |t| + 1
    && forall c, r :: 0 <= c < h.cols && 0 <= r < h.rows ==>
         Get(h, c, r) == if c == |t| && r < |t| then t[r] else if c == r then 1 else 0
  }

  lemma {:induction false} TranslationDotPrefix(h: Matrix, t: seq<int>, w: Matrix, v: seq<int>, r: nat, k: nat)
    requires IsTranslation(h, t) && w.cols == 1 && w.rows == |t| + 1 && |v| == |t|
    requires forall j :: 0 <= j < |t| ==> Get(w, 0, j) == v[j]
    requires r < h.rows && k <= |t|
    ensures Dot(h, w, 0, r, k) == if r < k then v[r] else 0
  {
    if k > 0 {
      TranslationDotPrefix(h, t, w, v, r, k - 1);
      var j := k - 1;
      assert Get(h, j, r) == if j == r then 1 else 0;
      assert Get(w, 0, j) == v[j];
    }
  }

  lemma DotStep(a: Matrix, b: Matrix, c: nat, r: nat, k: nat)
    requires a.cols == b.rows && c < b.cols && r < a.rows && k < a.cols
    ensures Dot(a, b, c, r, k + 1) == Dot(a, b, c, r, k) + Get(a, k, r) * Get(b, c, k)
  {
  }

  lemma TranslationRow(h: Matrix, t: seq<int>, w: Matrix, v: seq<int>, r: nat)
    requires IsTranslation(h, t) && w.cols == 1 && w.rows == |t| + 1 && |v| == |t|
    requires forall j :: 0 <= j < |t| ==> Get(w, 0, j) == v[j]
    requires Get(w, 0, |t|) == 1 && r < h.rows
    ensures Dot(h, w, 0, r, |t| + 1) == if r < |t| then v[r] + t[r] else 1
  {
    TranslationDotPrefix(h, t, w, v, r, |t|);
    DotStep(h, w, 0, r, |t|);
    assert Get(h, |t|, r) == if r < |t| then t[r] else 1;
  }

  /** The homogeneous point (v + t, 1). */
  function Moved(v: seq<int>, t: seq<int>): (u: seq<int>)
    requires |v| == |t|
    ensures |u| == |t| + 1 && u[|t|] == 1
    ensures forall i :: 0 <= i < |t| ==> u[i] == v[i] + t[i]
  {
    seq(|t|, i requires 0 <= i < |t| => v[i] + t[i]) + [1]
  }

  /** A translation matrix times the homogeneous point (v, 1) is the point
      (v + t, 1). */
  lemma TranslationTranslates(h: Matrix, t: seq<int>, v: seq<int>)
    requires IsTranslation(h, t) && |v| == |t|
    ensures Mul(h, ColumnVector(v + [1])) == ColumnVector(Moved(v, t))
  {
    TranslatedEntries(h, t, v);
    SameElements(Mul(h, ColumnVector(v + [1])), ColumnVector(Moved(v, t)));
  }

  lemma TranslatedEntries(h: Matrix, t: seq<int>, v: seq<int>)
    requires IsTranslation(h, t) && |v| == |t|
    ensures forall r :: 0 <= r < h.rows ==> Get(Mul(h, ColumnVector(v + [1])), 0, r) == Moved(v, t)[r]
  {
    var w := ColumnVector(v + [1]);
    assert forall j :: 0 <= j < |t| ==> Get(w, 0, j) == v[j];
    assert Get(w, 0, |t|) == 1;
    forall r | 0 <= r < h.rows ensures Get(Mul(h, w), 0, r) == Moved(v, t)[r] {
      TranslationRow(h, t, w, v, r);
    }
  }

  /** The (n+1) x (n+1) identity is the translation by the zero vector. */
  lemma IdentityIsTranslation(n: nat)
    ensures IsTranslation(Identity(n + 1, n + 1), Repeat(0, n))
  {
  }

  /** Writing x at (n, r) of a translation by t gives the translation by t
      with its r-th component replaced by x. */
  lemma SetOffsetIsTranslation(h: Matrix, t: seq<int>, r: nat, x: int)
    requires IsTranslation(h, t) && r < |t|
    ensures IsTranslation(SetAt(h, |t|, r, x), t[r := x])
  {
  }

  /** create_hom_3x3_trans(dx, dy) is the translation by (dx, dy). */
  lemma HomTrans3IsTranslation(dx: int, dy: int)
    ensures IsTranslation(HomTrans3(dx, dy), [dx, dy])
  {
    var h0 := Identity(3, 3);
    IdentityIsTranslation(2);
    assert Repeat(0, 2) == [0, 0];
    SetOffsetIsTranslation(h0, [0, 0], 0, dx);
    SetOffsetIsTranslation(SetAt(h0, 2, 0, dx), [dx, 0], 1, dy);
  }

  /** The corrected create_hom_4x4_trans(dx, dy, dz) is the translation by
      (dx, dy, dz). */
  lemma HomTrans4IsTranslation(dx: int, dy: int, dz: int)
    ensures IsTranslation(HomTrans4(dx, dy, dz), [dx, dy, dz])
  {
    var h0 := Identity(4, 4);
    IdentityIsTranslation(3);
    assert Repeat(0, 3) == [0, 0, 0];
    SetOffsetIsTranslation(h0, [0, 0, 0], 0, dx);
    var h1 := SetAt(h0, 3, 0, dx);
    SetOffsetIsTranslation(h1, [dx, 0, 0], 1, dy);
    SetOffsetIsTranslation(SetAt(h1, 3, 1, dy), [dx, dy, 0], 2, dz);
  }

  /** create_hom_4x4_trans(dx, dy, dz) as written is the translation by
      (dx, dy, dy). */
  lemma HomTrans4AsWrittenIsTranslation(dx: int, dy: int, dz: int)
    ensures IsTranslation(HomTrans4AsWritten(dx, dy, dz), [dx, dy, dy])
  {
    var h0 := Identity(4, 4);
    IdentityIsTranslation(3);
    assert Repeat(0, 3) == [0, 0, 0];
    SetOffsetIsTranslation(h0, [0, 0, 0], 0, dx);
    var h1 := SetAt(h0, 3, 0, dx);
    SetOffsetIsTranslation(h1, [dx, 0, 0], 1, dy);
    SetOffsetIsTranslation(SetAt(h1, 3, 1, dy), [dx, dy, 0], 2, dy);
  }

  /** The 2D translation matrix moves a homogeneous point (x, y, 1) to
      (x + dx, y + dy, 1). */
  lemma HomTrans3Translates(x: int, y: int, dx: int, dy: int)
    ensures Mul(HomTrans3(dx, dy), ColumnVector([x, y, 1])) == ColumnVector([x + dx, y + dy, 1])
  {
    HomTrans3IsTranslation(dx, dy);
    TranslationTranslates(HomTrans3(dx, dy), [dx, dy], [x, y]);
    assert [x, y] + [1] == [x, y, 1];
    assert Moved([x, y], [dx, dy]) == [x + dx, y + dy, 1];
  }

  /** The corrected 3D translation matrix moves (x, y, z, 1) to
      (x + dx, y + dy, z + dz, 1). */
  lemma HomTrans4Translates(x: int, y: int, z: int, dx: int, dy: int, dz: int)
    ensures Mul(HomTrans4(dx, dy, dz), ColumnVector([x, y, z, 1])) == ColumnVector([x + dx, y + dy, z + dz, 1])
  {
    HomTrans4IsTranslation(dx, dy, dz);
    Translation3Translates(HomTrans4(dx, dy, dz), dx, dy, dz, x, y, z);
  }

  /** A 3D translation by (tx, ty, tz) moves (x, y, z, 1) to
      (x + tx, y + ty, z + tz, 1). */
  lemma Translation3Translates(h: Matrix, tx: int, ty: int, tz: int, x: int, y: int, z: int)
    requires IsTranslation(h, [tx, ty, tz])
    ensures Mul(h, ColumnVector([x, y, z, 1])) == ColumnVector([x + tx, y + ty, z + tz, 1])
  {
    TranslationTranslates(h, [tx, ty, tz], [x, y, z]);
    assert [x, y, z] + [1] == [x, y, z, 1];
    assert Moved([x, y, z], [tx, ty, tz]) == [x + tx, y + ty, z + tz, 1];
  }

  /** As written, create_hom_4x4_trans moves (x, y, z, 1) to
      (x + dx, y + dy, z + dy, 1): z is shifted by dy, and dz has no effect. */
  lemma HomTrans4AsWrittenTranslates(x: int, y: int, z: int, dx: int, dy: int, dz: int)
    ensures Mul(HomTrans4AsWritten(dx, dy, dz), ColumnVector([x, y, z, 1])) == ColumnVector([x + dx, y + dy, z + dy, 1])
  {
    HomTrans4AsWrittenIsTranslation(dx, dy, dz);
    Translation3Translates(HomTrans4AsWritten(dx, dy, dz), dx, dy, dy, x, y, z);
  }

  /** Whenever dy != dz the as-written matrix and the intended one send every
      homogeneous point to different places: the third coordinate comes out as
      z + dy instead of z + dz. With dx = dz = 0 and dy = 1 the origin goes to
      (0, 1, 1) instead of (0, 1, 0). */
  lemma HomTrans4AsWrittenMisplacesZ(x: int, y: int, z: int, dx: int, dy: int, dz: int)
    requires dy != dz
    ensures Mul(HomTrans4AsWritten(dx, dy, dz), ColumnVector([x, y, z, 1]))
         != Mul(HomTrans4(dx, dy, dz), ColumnVector([x, y, z, 1]))
  {
    HomTrans4AsWrittenTranslates(x, y, z, dx, dy, dz);
    HomTrans4Translates(x, y, z, dx, dy, dz);
    var w := ColumnVector([x + dx, y + dy, z + dy, 1]);
    var i := ColumnVector([x + dx, y + dy, z + dz, 1]);
    assert Get(w, 0, 2) != Get(i, 0, 2);
  }

  // ---------------------------------------------------------------------
  // The matrix object: a COLS x ROWS buffer written in place

  /** A FixedMatrix object: the template dimensions and the m_data buffer of
      DIM = cols*rows entries that the assigning operators write in place. */
  class FixedMatrix {
    const cols: nat
    const rows: nat
    const buf: array<int>

    ghost predicate Valid()
      reads this
    {
      buf.Length == cols * rows
    }

    /** The matrix the buffer currently holds. */
    function Value(): (m: Matrix)
      reads this, buf
      requires Valid()
      ensures m.cols == cols && m.rows == rows && m.data == buf[..]
    {
      Mat(cols, rows, buf[..])
    }

    /** The fill constructor FixedMatrix(initValue): a fresh buffer of DIM
        entries, every one set to `v`. */
    constructor (cols: nat, rows: nat, v: int)
      ensures Valid() && fresh(buf)
      ensures Value() == Filled(cols, rows, v)
    {
      this.cols := cols;
      this.rows := rows;
      buf := new int[cols * rows];
      new;
      Fill(v);
    }

    /** operator=(const T&): std::fill over the whole buffer. */
    method Fill(t: int)
      requires Valid()
      modifies buf
      ensures Valid() && Value() == Filled(cols, rows, t)
    {
      for i := 0 to buf.Length
        invariant forall j :: 0 <= j < i ==> buf[j] == t
      {
        buf[i] := t;
      }
      assert buf[..] == Filled(cols, rows, t).data;
    }

    /** operator()(col, row) read as a value. */
    method Read(c: nat, r: nat) returns (v: int)
      requires Valid() && c < cols && r < rows
      ensures v == Get(Value(), c, r)
    {
      v := buf[Index(Value(), c, r)];
    }

    /** A write through the reference operator()(col, row) returns. */
    method Write(c: nat, r: nat, v: int)
      requires Valid() && c < cols && r < rows
      modifies buf
      ensures Valid() && Value() == SetAt(old(Value()), c, r, v)
    {
      buf[Index(Value(), c, r)] := v;
    }

    /** operator[](idx) read as a value. */
    method ReadLinear(idx: nat) returns (v: int)
      requires Valid() && idx < cols * rows
      ensures v == Linear(Value(), idx)
    {
      v := buf[idx];
    }

    /** A write through the reference operator[](idx) returns. */
    method WriteLinear(idx: nat, v: int)
      requires Valid() && idx < cols * rows
      modifies buf
      ensures Valid() && Value() == SetLinear(old(Value()), idx, v)
    {
      buf[idx] := v;
    }

    /** at(col, row) read as a value: the exception when the position is out
        of range, the element otherwise. */
    method CheckedRead(c: nat, r: nat) returns (res: Access)
      requires Valid()
      ensures res == At(Value(), c, r)
    {
      if c >= cols || r >= rows {
        res := InvalidIndexException;
      } else {
        res := Element(buf[Index(Value(), c, r)]);
      }
    }

    /** std::transform(begin(), end(), m.begin(), begin(), op): entry i
        becomes op(entry i, m's entry i). Each entry of `m` is read before
        the same entry of this buffer is written, so `m` may be this
        matrix itself. */
    method Combine(m: FixedMatrix, op: (int, int) -> int)
      requires Valid() && m.Valid() && m.cols == cols && m.rows == rows
      modifies buf
      ensures Valid()
      ensures forall i :: 0 <= i < buf.Length ==> buf[i] == op(old(buf[i]), old(m.buf[i]))
    {
      ghost var a := buf[..];
      ghost var b := m.buf[..];
      for i := 0 to buf.Length
        invariant forall j :: 0 <= j < i ==> buf[j] == op(a[j], b[j])
        invariant forall j :: i <= j < buf.Length ==> buf[j] == a[j] && m.buf[j] == b[j]
      {
        buf[i] := op(buf[i], m.buf[i]);
      }
    }

    /** std::transform(begin(), end(), begin(), op): every entry replaced by
        op of itself. */
    method Transform(op: int -> int)
      requires Valid()
      modifies buf
      ensures Valid()
      ensures forall i :: 0 <= i < buf.Length ==> buf[i] == op(old(buf[i]))
    {
      for i := 0 to buf.Length
        invariant forall j :: 0 <= j < i ==> buf[j] == op(old(buf[j]))
        invariant forall j :: i <= j < buf.Length ==> buf[j] == old(buf[j])
      {
        buf[i] := op(buf[i]);
      }
    }

    /** operator+=(const FixedMatrix&): this becomes this + m. */
    method AddAssign(m: FixedMatrix)
      requires Valid() && m.Valid() && m.cols == cols && m.rows == rows
      modifies buf
      ensures Valid() && Value() == Add(old(Value()), old(m.Value()))
    {
      Combine(m, (x, y) => x + y);
      assert buf[..] == Add(old(Value()), old(m.Value())).data;
    }

    /** operator-=(const FixedMatrix&): this becomes this - m. */
    method SubAssign(m: FixedMatrix)
      requires Valid() && m.Valid() && m.cols == cols && m.rows == rows
      modifies buf
      ensures Valid() && Value() == Sub(old(Value()), old(m.Value()))
    {
      Combine(m, (x, y) => x - y);
      assert buf[..] == Sub(old(Value()), old(m.Value())).data;
    }

    /** operator+=(const T&): t added to every entry. */
    method AddScalarAssign(t: int)
      requires Valid()
      modifies buf
      ensures Valid() && Value() == AddScalar(old(Value()), t)
    {
      Transform(x => x + t);
      assert buf[..] == AddScalar(old(Value()), t).data;
    }

    /** operator-=(const T&): t subtracted from every entry. */
    method SubScalarAssign(t: int)
      requires Valid()
      modifies buf
      ensures Valid() && Value() == SubScalar(old(Value()), t)
    {
      Transform(x => x - t);
      assert buf[..] == SubScalar(old(Value()), t).data;
    }

    /** operator*=(T): every entry multiplied by f. */
    method ScaleAssign(f: int)
      requires Valid()
      modifies buf
      ensures Valid() && Value() == Scale(old(Value()), f)
    {
      Transform(x => x * f);
      assert buf[..] == Scale(old(Value()), f).data;
    }

    /** The free operator*=(v, m) with this matrix as v: v = m * v for a
        square m with as many columns as v has rows. The product is formed
        in a fresh matrix and then copied in, so m may be v itself. */
    method MulAssign(m: FixedMatrix)
      requires Valid() && m.Valid() && m.cols == m.rows == rows
      modifies buf
      ensures Valid() && Value() == Mul(old(m.Value()), old(Value()))
    {
      var p := Multiply(m.Value(), Value());
      for i := 0 to buf.Length
        invariant forall j :: 0 <= j < i ==> buf[j] == p.data[j]
      {
        buf[i] := p.data[i];
      }
      assert buf[..] == p.data;
    }
  }
}
