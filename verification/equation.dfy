/** The softmax-regression equations of src/equation.c: row-stable softmax,
    cross-entropy, the row-broadcast bias add, the column-sum reduction, the
    in-place backward pass.

    `expf` and `logf` are not interpreted: they are passed in as functions `exp`
    and `log`, and only the facts a property needs are assumed of them (for
    softmax, that `exp` is positive). */
module Equation {
  import opened LnaNumber
  import opened Arith
  import opened LnaArena
  import opened Sums
  import opened LnaMatrix

  // ---------------------------------------------------------------------------
  // Softmax
  // ---------------------------------------------------------------------------

  /** The row-max loop of softmax: start from the first element and keep the
      larger one while scanning the first n elements. */
  function ScanMax(s: seq<real>, n: nat): (m: real)
    requires 0 < |s| && n <= |s|
    ensures m in s
    ensures forall k :: 0 <= k < n ==> s[k] <= m
    decreases n
  {
    if n == 0 then s[0]
    else
      var m := ScanMax(s, n - 1);
      if s[n - 1] > m then s[n - 1] else m
  }

  function Max(s: seq<real>): (m: real)
    requires 0 < |s|
    ensures m in s
    ensures forall k :: 0 <= k < |s| ==> s[k] <= m
  {
    ScanMax(s, |s|)
  }

  /** The maximum is the only element that bounds all the others. */
  lemma MaxUnique(s: seq<real>, m: real)
    requires m in s && forall k :: 0 <= k < |s| ==> s[k] <= m
    ensures Max(s) == m
  {
  }

  /** The row maximum moves with a constant added to every element. */
  lemma MaxShifted(s: seq<real>, c: real)
    requires 0 < |s|
    ensures Max(Shifted(s, c)) == Max(s) + c
  {
    var m := Max(s);
    var k :| 0 <= k < |s| && s[k] == m;
    assert Shifted(s, c)[k] == m + c;
    MaxUnique(Shifted(s, c), m + c);
  }

  ghost predicate ExpPositive(exp: real -> real)
  {
    forall x :: exp(x) > 0.0
  }

  /** exp(x - shift) for every element x. */
  function Exps(row: seq<real>, shift: real, exp: real -> real): (e: seq<real>)
    ensures |e| == |row|
    ensures forall j :: 0 <= j < |row| ==> e[j] == exp(row[j] - shift)
  {
    seq(|row|, j requires 0 <= j < |row| => exp(row[j] - shift))
  }

  /** One row of softmax as the C code computes it: subtract the row maximum,
      exponentiate, sum, and multiply every term by the reciprocal of the sum. */
  function SoftmaxRow(row: seq<real>, exp: real -> real): (p: seq<real>)
    requires 0 < |row| && ExpPositive(exp)
    ensures |p| == |row|
    ensures forall j :: 0 <= j < |row| ==> p[j] * Sum(Exps(row, Max(row), exp)) == exp(row[j] - Max(row))
  {
    var e := Exps(row, Max(row), exp);
    SumPositive(e);
    Scaled(e, 1.0 / Sum(e))
  }

  /** Every softmax row sums to exactly one over the reals. */
  lemma SoftmaxRowSumsToOne(row: seq<real>, exp: real -> real)
    requires 0 < |row| && ExpPositive(exp)
    ensures Sum(SoftmaxRow(row, exp)) == 1.0
  {
    var e := Exps(row, Max(row), exp);
    SumPositive(e);
    SumScaled(e, 1.0 / Sum(e));
  }

  /** Every softmax entry is a probability in (0, 1]. */
  lemma SoftmaxRowInUnitInterval(row: seq<real>, exp: real -> real)
    requires 0 < |row| && ExpPositive(exp)
    ensures forall j :: 0 <= j < |row| ==> 0.0 < SoftmaxRow(row, exp)[j] <= 1.0
  {
    var e := Exps(row, Max(row), exp);
    SumPositive(e);
    ScaledPositive(e, 1.0 / Sum(e));
    SoftmaxRowSumsToOne(row, exp);
    forall j | 0 <= j < |row|
      ensures 0.0 < SoftmaxRow(row, exp)[j] <= 1.0
    {
      SumBoundsTerm(SoftmaxRow(row, exp), j);
    }
  }

  /** Adding a constant to every element of a row leaves its softmax unchanged:
      the maximum shifts by the same constant, so every x - max is unchanged. */
  lemma SoftmaxRowShiftInvariant(row: seq<real>, c: real, exp: real -> real)
    requires 0 < |row| && ExpPositive(exp)
    ensures SoftmaxRow(Shifted(row, c), exp) == SoftmaxRow(row, exp)
  {
    MaxShifted(row, c);
    var row' := Shifted(row, c);
    forall j | 0 <= j < |row|
      ensures row'[j] - Max(row') == row[j] - Max(row)
    {
    }
    assert Exps(row', Max(row'), exp) == Exps(row, Max(row), exp);
  }

  /** softmax: allocates an output of the input's shape (ignoring a NULL from
      the arena, hence Room) and fills it row by row. Line 22 reads column 0 of
      every row, so a matrix with rows but no columns is outside its domain. */
  function Softmax(a: Arena, logits: Matrix, exp: real -> real): (r: Outcome)
    requires logits.Backed()
    requires logits.rows > 0 ==> logits.cols > 0
    requires Room(a, logits.rows, logits.cols)
    requires ExpPositive(exp)
    ensures Fresh(a, r, logits.rows, logits.cols)
    ensures forall i: nat :: i < logits.rows ==> Row(r.out, i) == SoftmaxRow(Row(logits, i), exp)
  {
    var created := Create(a, logits.rows, logits.cols);
    var elems := Tabulate(logits.rows, logits.cols,
                          (i: nat, j: nat) requires i < logits.rows && j < logits.cols =>
                            SoftmaxRow(Row(logits, i), exp)[j]);
    var r := Outcome(Ok, created.arena, Written(created.m, elems));
    SoftmaxRowsFacts(logits, exp, r.out);
    r
  }

  lemma SoftmaxRowsFacts(logits: Matrix, exp: real -> real, out: Matrix)
    requires logits.Backed() && (logits.rows > 0 ==> logits.cols > 0) && ExpPositive(exp)
    requires out.Backed() && out.rows == logits.rows && out.cols == logits.cols
    requires forall i: nat, j: nat :: i < logits.rows && j < logits.cols ==>
               Get(out, i, j) == SoftmaxRow(Row(logits, i), exp)[j]
    ensures forall i: nat :: i < logits.rows ==> Row(out, i) == SoftmaxRow(Row(logits, i), exp)
  {
    forall i: nat | i < logits.rows
      ensures Row(out, i) == SoftmaxRow(Row(logits, i), exp)
    {
      assert forall j: nat :: j < logits.cols ==> Row(out, i)[j] == SoftmaxRow(Row(logits, i), exp)[j];
    }
  }

  /** Each row of softmax's output sums to one. */
  lemma SoftmaxRowsSumToOne(a: Arena, logits: Matrix, exp: real -> real)
    requires logits.Backed() && (logits.rows > 0 ==> logits.cols > 0)
    requires Room(a, logits.rows, logits.cols) && ExpPositive(exp)
    ensures forall i: nat :: i < logits.rows ==> Sum(Row(Softmax(a, logits, exp).out, i)) == 1.0
  {
    forall i: nat | i < logits.rows
      ensures Sum(Row(Softmax(a, logits, exp).out, i)) == 1.0
    {
      SoftmaxRowSumsToOne(Row(logits, i), exp);
    }
  }

  /** Two logit matrices whose row i differ by a constant give the same row i of
      probabilities. */
  lemma SoftmaxShiftInvariant(a: Arena, a': Arena, logits: Matrix, logits': Matrix, exp: real -> real,
                              i: nat, c: real)
    requires logits.Backed() && (logits.rows > 0 ==> logits.cols > 0)
    requires logits'.Backed() && (logits'.rows > 0 ==> logits'.cols > 0)
    requires Room(a, logits.rows, logits.cols) && Room(a', logits'.rows, logits'.cols) && ExpPositive(exp)
    requires i < logits.rows && i < logits'.rows
    requires Row(logits', i) == Shifted(Row(logits, i), c)
    ensures Row(Softmax(a', logits', exp).out, i) == Row(Softmax(a, logits, exp).out, i)
  {
    SoftmaxRowShiftInvariant(Row(logits, i), c, exp);
  }

  // ---------------------------------------------------------------------------
  // Cross-entropy
  // ---------------------------------------------------------------------------

  /** The probability floor of cross_entropy: values below EPS become EPS. */
  function Floor(p: real): (q: real)
    ensures q >= EPS
    ensures p >= EPS ==> q == p
    ensures p < EPS ==> q == EPS
  {
    if p < EPS then EPS else p
  }

  /** The first `rows` labels exist and index a column. */
  predicate LabelsInRange(labels: seq<u64>, rows: nat, cols: nat)
  {
    rows <= |labels| && forall i :: 0 <= i < rows ==> labels[i] < cols
  }

  /** -log of the floored true-class probability, for each of the first n rows. */
  function SampleLosses(P: Matrix, labels: seq<u64>, log: real -> real): (s: seq<real>)
    requires P.Backed() && LabelsInRange(labels, P.rows, P.cols)
    ensures |s| == P.rows
  {
    seq(P.rows, i requires 0 <= i < P.rows => -log(Floor(Get(P, i, labels[i]))))
  }

  /** cross_entropy: the mean over the rows of -log(max(P[i][y_i], eps)). The C
      code divides by the row count even when it is zero (giving NaN), so an
      empty batch is excluded here. */
  function CrossEntropy(P: Matrix, labels: seq<u64>, log: real -> real): (L: real)
    requires P.Backed() && P.rows > 0 && LabelsInRange(labels, P.rows, P.cols)
    ensures L * (P.rows as real) == Sum(SampleLosses(P, labels, log))
    ensures P.rows == 1 ==> L == -log(Floor(Get(P, 0, labels[0])))
  {
    Sum(SampleLosses(P, labels, log)) / (P.rows as real)
  }

  /** When every true-class probability is 1 and log 1 = 0, the loss is 0. */
  lemma CrossEntropyZeroWhenCertain(P: Matrix, labels: seq<u64>, log: real -> real)
    requires P.Backed() && P.rows > 0 && LabelsInRange(labels, P.rows, P.cols)
    requires log(1.0) == 0.0
    requires forall i :: 0 <= i < P.rows ==> Get(P, i, labels[i]) == 1.0
    ensures CrossEntropy(P, labels, log) == 0.0
  {
    var s := SampleLosses(P, labels, log);
    forall i | 0 <= i < |s|
      ensures s[i] == 0.0
    {
      assert Floor(Get(P, i, labels[i])) == 1.0;
    }
    SumConstant(s, 0.0);
  }

  /** With log non-positive on (0, 1] and probabilities at most 1, the loss is
      non-negative. */
  lemma CrossEntropyNonNegative(P: Matrix, labels: seq<u64>, log: real -> real)
    requires P.Backed() && P.rows > 0 && LabelsInRange(labels, P.rows, P.cols)
    requires forall x :: 0.0 < x <= 1.0 ==> log(x) <= 0.0
    requires forall i, j :: 0 <= i < P.rows && 0 <= j < P.cols ==> Get(P, i, j) <= 1.0
    ensures CrossEntropy(P, labels, log) >= 0.0
  {
    var s := SampleLosses(P, labels, log);
    forall i | 0 <= i < |s|
      ensures s[i] >= 0.0
    {
      assert Floor(Get(P, i, labels[i])) <= 1.0;
    }
    MeanNonNegative(s, P.rows);
  }

  /** The floor keeps the loss finite: with log monotone, no sample contributes
      more than -log(EPS), so neither does the mean. */
  lemma CrossEntropyAtMostFloorLoss(P: Matrix, labels: seq<u64>, log: real -> real)
    requires P.Backed() && P.rows > 0 && LabelsInRange(labels, P.rows, P.cols)
    requires forall x, y :: x <= y ==> log(x) <= log(y)
    ensures CrossEntropy(P, labels, log) <= -log(EPS)
  {
    var s := SampleLosses(P, labels, log);
    forall i | 0 <= i < |s|
      ensures s[i] <= -log(EPS)
    {
      assert log(EPS) <= log(Floor(Get(P, i, labels[i])));
    }
    MeanAtMost(s, -log(EPS), P.rows);
  }

  // ---------------------------------------------------------------------------
  // Bias broadcast and column sums
  // ---------------------------------------------------------------------------

  /** add_bias_rowwise_inplace: bias must be a single row as wide as logits. */
  function AddBiasRowwise(logits: Matrix, bias: Matrix): (r: Updated)
    requires logits.Backed()
    requires bias.rows == 1 && bias.cols == logits.cols ==> bias.Backed()
    ensures !(bias.rows == 1 && bias.cols == logits.cols) ==> r == Updated(InvalidDimensions, logits)
    ensures bias.rows == 1 && bias.cols == logits.cols ==>
              && r.status == Ok && SameBuffer(r.m, logits)
              && forall i: nat, j: nat :: i < logits.rows && j < logits.cols ==>
                   Get(r.m, i, j) == Get(logits, i, j) + Get(bias, 0, j)
  {
    if bias.rows != 1 || bias.cols != logits.cols then Updated(InvalidDimensions, logits)
    else
      var elems := Tabulate(logits.rows, logits.cols,
                            (i: nat, j: nat) requires i < logits.rows && j < logits.cols =>
                              Get(logits, i, j) + Get(bias, 0, j));
      Updated(Ok, Written(logits, elems))
  }

  lemma ColumnPrefix(m: Matrix, n: nat)
    requires m.Backed() && 0 < n <= m.rows
    ensures forall j: nat :: j < m.cols ==> Col(m, j)[..n][..n - 1] == Col(m, j)[..n - 1]
  {
  }

  /** The accumulation loop of sum_rows after the first n rows: the zeroed row
      plus rows 0 .. n-1 added one at a time. */
  function ColumnTotals(m: Matrix, n: nat): (t: seq<real>)
    requires m.Backed() && n <= m.rows
    ensures |t| == m.cols
    ensures forall j :: 0 <= j < m.cols ==> t[j] == Sum(Col(m, j)[..n])
    decreases n
  {
    if n == 0 then seq(m.cols, _ => 0.0)
    else
      ColumnPrefix(m, n);
      Added(ColumnTotals(m, n - 1), Row(m, n - 1))
  }

  /** sum_rows: a fresh 1 x cols matrix holding the sum of each column. */
  function SumRows(a: Arena, m: Matrix): (r: Outcome)
    requires m.Backed() && Room(a, 1, m.cols)
    ensures Fresh(a, r, 1, m.cols)
    ensures forall j: nat :: j < m.cols ==> Get(r.out, 0, j) == Sum(Col(m, j))
  {
    assert forall j: nat :: j < m.cols ==> Col(m, j)[..m.rows] == Col(m, j);
    assert forall j: nat :: j < m.cols ==> Flat(m.cols, 0, j) == j;
    Outcome(Ok, Create(a, 1, m.cols).arena, Written(Create(a, 1, m.cols).m, ColumnTotals(m, m.rows)))
  }

  /** Adding the bias to each of N rows adds N times the bias to every column sum. */
  lemma SumRowsAfterBias(a: Arena, a': Arena, logits: Matrix, bias: Matrix, j: nat)
    requires logits.Backed() && bias.Backed() && bias.rows == 1 && bias.cols == logits.cols
    requires Room(a, 1, logits.cols) && Room(a', 1, logits.cols) && j < logits.cols
    ensures Get(SumRows(a, AddBiasRowwise(logits, bias).m).out, 0, j)
            == Get(SumRows(a', logits).out, 0, j) + Times(logits.rows, Get(bias, 0, j))
  {
    BiasedColumnSum(logits, bias, j);
    SumRowsAt(a, AddBiasRowwise(logits, bias).m, j);
    SumRowsAt(a', logits, j);
  }

  lemma SumRowsAt(a: Arena, m: Matrix, j: nat)
    requires m.Backed() && Room(a, 1, m.cols) && j < m.cols
    ensures Get(SumRows(a, m).out, 0, j) == Sum(Col(m, j))
  {
  }

  lemma BiasedColumnSum(logits: Matrix, bias: Matrix, j: nat)
    requires logits.Backed() && bias.Backed() && bias.rows == 1 && bias.cols == logits.cols && j < logits.cols
    ensures Sum(Col(AddBiasRowwise(logits, bias).m, j)) == Sum(Col(logits, j)) + Times(logits.rows, Get(bias, 0, j))
  {
    assert Col(AddBiasRowwise(logits, bias).m, j) == Shifted(Col(logits, j), Get(bias, 0, j)) by {
      BiasedColumn(logits, bias, j);
    }
    ShiftedColumnSum(AddBiasRowwise(logits, bias).m, logits, j, Get(bias, 0, j));
  }

  lemma ShiftedColumnSum(m': Matrix, m: Matrix, j: nat, c: real)
    requires m.Backed() && m'.Backed() && m'.rows == m.rows && j < m.cols && j < m'.cols
    requires Col(m', j) == Shifted(Col(m, j), c)
    ensures Sum(Col(m', j)) == Sum(Col(m, j)) + Times(m.rows, c)
  {
    SumShifted(Col(m, j), c);
  }

  /** Column j of the biased logits is column j of the logits shifted by bias[j]. */
  lemma BiasedColumn(logits: Matrix, bias: Matrix, j: nat)
    requires logits.Backed() && bias.Backed() && bias.rows == 1 && bias.cols == logits.cols && j < logits.cols
    ensures Col(AddBiasRowwise(logits, bias).m, j) == Shifted(Col(logits, j), Get(bias, 0, j))
  {
  }

  // ---------------------------------------------------------------------------
  // Backward pass
  // ---------------------------------------------------------------------------

  /** Entry j of the one-hot encoding of label y. */
  function OneHot(y: nat, j: nat): real
  {
    if j == y then 1.0 else 0.0
  }

  /** The first row at or after i whose label does not index a column, or rows if none. */
  function FirstBadLabel(labels: seq<u64>, rows: nat, cols: nat, i: nat): (k: nat)
    requires i <= rows <= |labels|
    ensures i <= k <= rows
    ensures forall p :: i <= p < k ==> labels[p] < cols
    ensures k < rows ==> labels[k] >= cols
    decreases rows - i
  {
    if i == rows then rows
    else if labels[i] >= cols then i
    else FirstBadLabel(labels, rows, cols, i + 1)
  }

  /** No label is out of range exactly when the scan runs off the end. */
  lemma FirstBadLabelIsRange(labels: seq<u64>, rows: nat, cols: nat)
    requires rows <= |labels|
    ensures FirstBadLabel(labels, rows, cols, 0) == rows <==> LabelsInRange(labels, rows, cols)
  {
  }

  /** m' is m with the one-hot encoding of its label subtracted from each row
      in lo .. hi-1, and every other row as it was. */
  predicate Subtracted(m: Matrix, m': Matrix, labels: seq<u64>, lo: nat, hi: nat)
    requires m.Backed() && m'.Backed() && m'.rows == m.rows && m'.cols == m.cols
    requires hi <= m.rows <= |labels|
  {
    forall p: nat, j: nat :: p < m.rows && j < m.cols ==>
      Get(m', p, j) == if lo <= p < hi then Get(m, p, j) - OneHot(labels[p], j) else Get(m, p, j)
  }

  /** The first loop of the backward pass from row i on: P[p][y_p] -= 1 for each
      row p, returning INVALID_ELEMENT_TYPES at the first out-of-range label with
      the earlier rows already changed. */
  function SubtractOneHot(m: Matrix, labels: seq<u64>, i: nat): (r: Updated)
    requires m.Backed() && i <= m.rows <= |labels|
    ensures SameBuffer(r.m, m)
    ensures var k := FirstBadLabel(labels, m.rows, m.cols, i);
            && (r.status == Ok <==> k == m.rows)
            && (r.status != Ok ==> r.status == InvalidElementTypes)
            && Subtracted(m, r.m, labels, i, k)
    decreases m.rows - i
  {
    if i == m.rows then Updated(Ok, m)
    else if labels[i] >= m.cols then Updated(InvalidElementTypes, m)
    else
      var y := labels[i];
      SubtractOneHot(Set(m, i, y, Get(m, i, y) - 1.0), labels, i + 1)
  }

  /** softmax_xent_backward_inplace: overwrites P with (P - Y) / N, Y the one-hot
      labels. An out-of-range label at row k is reported, but rows 0 .. k-1 have
      already had their one-hot entry subtracted and nothing is scaled. */
  function Backward(probs: Matrix, labels: seq<u64>): (r: Updated)
    requires probs.Backed() && probs.rows <= |labels|
    ensures SameBuffer(r.m, probs)
    ensures r.status == Ok <==> LabelsInRange(labels, probs.rows, probs.cols)
    ensures r.status != Ok ==> r.status == InvalidElementTypes
    ensures r.status == Ok ==>
              forall i: nat, j: nat :: i < probs.rows && j < probs.cols ==>
                Get(r.m, i, j) == (Get(probs, i, j) - OneHot(labels[i], j)) / (probs.rows as real)
    ensures r.status != Ok ==>
              var k := FirstBadLabel(labels, probs.rows, probs.cols, 0);
              && k < probs.rows && labels[k] >= probs.cols
              && Subtracted(probs, r.m, labels, 0, k)
  {
    FirstBadLabelIsRange(labels, probs.rows, probs.cols);
    if SubtractOneHot(probs, labels, 0).status != Ok then
      BackwardStops(probs, labels, SubtractOneHot(probs, labels, 0));
      SubtractOneHot(probs, labels, 0)
    else
      BackwardScales(probs, labels, SubtractOneHot(probs, labels, 0).m);
      Updated(Ok, ScaleAll(SubtractOneHot(probs, labels, 0).m, Reciprocal(probs.rows)))
  }

  lemma BackwardStops(probs: Matrix, labels: seq<u64>, sub: Updated)
    requires probs.Backed() && probs.rows <= |labels|
    requires sub == SubtractOneHot(probs, labels, 0) && sub.status != Ok
    ensures !LabelsInRange(labels, probs.rows, probs.cols)
    ensures sub.status == InvalidElementTypes
    ensures var k := FirstBadLabel(labels, probs.rows, probs.cols, 0);
            && k < probs.rows && labels[k] >= probs.cols
            && Subtracted(probs, sub.m, labels, 0, k)
  {
  }

  /** invN = 1.0f / n. For n = 0 the C value is infinity, which no loop then
      reads; 0 stands in for it. */
  function Reciprocal(n: nat): (r: real)
    ensures n > 0 ==> r * (n as real) == 1.0
  {
    if n == 0 then 0.0 else 1.0 / (n as real)
  }

  lemma BackwardScales(probs: Matrix, labels: seq<u64>, sub: Matrix)
    requires probs.Backed() && probs.rows <= |labels|
    requires SameBuffer(sub, probs) && Subtracted(probs, sub, labels, 0, probs.rows)
    ensures forall i: nat, j: nat :: i < probs.rows && j < probs.cols ==>
              Get(ScaleAll(sub, Reciprocal(probs.rows)), i, j)
                == (Get(probs, i, j) - OneHot(labels[i], j)) / (probs.rows as real)
  {
    var out := ScaleAll(sub, Reciprocal(probs.rows));
    forall i: nat, j: nat | i < probs.rows && j < probs.cols
      ensures Get(out, i, j) == (Get(probs, i, j) - OneHot(labels[i], j)) / (probs.rows as real)
    {
      assert Get(sub, i, j) == Get(probs, i, j) - OneHot(labels[i], j);
      ScaledByReciprocal(Get(sub, i, j), probs.rows);
    }
  }

  /** Multiplying by 1/n is dividing by n. */
  lemma ScaledByReciprocal(x: real, n: nat)
    requires n > 0
    ensures x * Reciprocal(n) == x / (n as real)
  {
  }

  /** The second loop of the backward pass: every entry multiplied by k. */
  function ScaleAll(m: Matrix, k: real): (r: Matrix)
    requires m.Backed()
    ensures SameBuffer(r, m)
    ensures forall i: nat, j: nat :: i < m.rows && j < m.cols ==> Get(r, i, j) == Get(m, i, j) * k
  {
    match m.data
    case NullData => m
    case Block(o, elems) =>
      AllFlat(m.rows, m.cols);
      m.(data := Block(o, Scaled(elems, k)))
  }

}
