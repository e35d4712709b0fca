/** softmax_regression_train_step of src/equation.c: one step of batch
    gradient descent for multinomial logistic regression, built from the
    matrix engine and the softmax / cross-entropy equations.

    With X the N x D batch, W the D x C weights, b the 1 x C bias and y the
    labels, the step computes Z = X W + b, P = softmax(Z), the loss
    mean_i -log P[i][y_i], dZ = (P - onehot(y)) / N, dW = X^T dZ,
    db = column sums of dZ, and updates W -= lr dW and b -= lr db. Every
    intermediate matrix is pushed on the arena and none is popped. The C code
    ignores every status it is handed; the model threads the matrices through
    in the same way. */
module Training {
  import opened LnaNumber
  import opened LnaArena
  import opened Sums
  import opened LnaMatrix
  import opened Equation

  // ---------------------------------------------------------------------------
  // Arena use
  // ---------------------------------------------------------------------------

  /** The arena after create_Matrix(a, rows, cols) has pushed its buffer. */
  function After(a: Arena, rows: nat, cols: nat): Arena
    requires Bytes(rows, cols) < U64_MODULUS
  {
    Push(a, Bytes(rows, cols)).arena
  }

  /** Under Room, the create advances the position by the buffer size plus at
      most ARENA_ALIGN - 1 bytes of padding. */
  lemma AfterAdvances(a: Arena, rows: nat, cols: nat)
    requires Room(a, rows, cols)
    ensures After(a, rows, cols).capacity == a.capacity
    ensures a.pos + Bytes(rows, cols) <= After(a, rows, cols).pos <= a.pos + Bytes(rows, cols) + ARENA_ALIGN - 1
  {
    var p := Push(a, Bytes(rows, cols));
    if p.ptr.Null? {
      assert rows == 0 || cols == 0;
      assert Bytes(rows, cols) == 0;
    }
  }

  /** A push with its padding allowance below the capacity has room. */
  lemma RoomWithin(a: Arena, rows: nat, cols: nat)
    requires Bytes(rows, cols) < U64_MODULUS
    requires a.pos + Bytes(rows, cols) + ARENA_ALIGN - 1 <= a.capacity
    ensures Room(a, rows, cols)
  {
  }

  /** The three N x C buffers of the forward pass fit: logits (line 128), the
      product X W (line 129) and the probabilities (line 138). */
  predicate ForwardFits(a: Arena, N: nat, C: nat)
  {
    && Room(a, N, C)
    && Room(After(a, N, C), N, C)
    && Room(After(After(a, N, C), N, C), N, C)
  }

  function ForwardArena(a: Arena, N: nat, C: nat): Arena
    requires ForwardFits(a, N, C)
  {
    After(After(After(a, N, C), N, C), N, C)
  }

  /** The four buffers of the gradient pass fit: X^T (line 148), dW (line 150),
      the product X^T dZ (line 151) and db (line 155). */
  predicate GradientFits(a: Arena, N: nat, D: nat, C: nat)
  {
    && Room(a, D, N)
    && Room(After(a, D, N), D, C)
    && Room(After(After(a, D, N), D, C), D, C)
    && Room(After(After(After(a, D, N), D, C), D, C), 1, C)
  }

  function GradientArena(a: Arena, N: nat, D: nat, C: nat): Arena
    requires GradientFits(a, N, D, C)
  {
    After(After(After(After(a, D, N), D, C), D, C), 1, C)
  }

  predicate StepFits(a: Arena, N: nat, D: nat, C: nat)
  {
    ForwardFits(a, N, C) && GradientFits(ForwardArena(a, N, C), N, D, C)
  }

  /** Bytes the seven pushes of one step ask for. */
  function StepBytes(N: nat, D: nat, C: nat): nat
  {
    3 * Bytes(N, C) + Bytes(D, N) + 2 * Bytes(D, C) + Bytes(1, C)
  }

  /** The arena after a whole step. */
  function StepArena(a: Arena, N: nat, D: nat, C: nat): Arena
    requires StepFits(a, N, D, C)
  {
    GradientArena(ForwardArena(a, N, C), N, D, C)
  }

  /** Enough free space for the step's bytes plus ARENA_ALIGN - 1 bytes of
      padding per push guarantees that every push of the step succeeds. */
  lemma {:induction false} StepFitsWithin(a: Arena, N: nat, D: nat, C: nat)
    requires Bytes(N, C) < U64_MODULUS && Bytes(D, N) < U64_MODULUS
    requires Bytes(D, C) < U64_MODULUS && Bytes(1, C) < U64_MODULUS
    requires a.pos + StepBytes(N, D, C) + 7 * (ARENA_ALIGN - 1) <= a.capacity
    ensures StepFits(a, N, D, C)
    ensures StepArena(a, N, D, C).pos <= a.pos + StepBytes(N, D, C) + 7 * (ARENA_ALIGN - 1)
  {
    var a1 := After(a, N, C);
    RoomWithin(a, N, C);
    AfterAdvances(a, N, C);
    var a2 := After(a1, N, C);
    RoomWithin(a1, N, C);
    AfterAdvances(a1, N, C);
    var a3 := After(a2, N, C);
    RoomWithin(a2, N, C);
    AfterAdvances(a2, N, C);
    var a4 := After(a3, D, N);
    RoomWithin(a3, D, N);
    AfterAdvances(a3, D, N);
    var a5 := After(a4, D, C);
    RoomWithin(a4, D, C);
    AfterAdvances(a4, D, C);
    var a6 := After(a5, D, C);
    RoomWithin(a5, D, C);
    AfterAdvances(a5, D, C);
    RoomWithin(a6, 1, C);
    AfterAdvances(a6, 1, C);
  }

  /** Nothing of a step is given back: the position grows by at least the bytes
      of all seven buffers, and the capacity stays. */
  lemma {:induction false} StepArenaGrows(a: Arena, N: nat, D: nat, C: nat)
    requires StepFits(a, N, D, C)
    ensures StepArena(a, N, D, C).capacity == a.capacity
    ensures StepArena(a, N, D, C).pos >= a.pos + StepBytes(N, D, C)
  {
    var a1 := After(a, N, C);
    AfterAdvances(a, N, C);
    var a2 := After(a1, N, C);
    AfterAdvances(a1, N, C);
    var a3 := After(a2, N, C);
    AfterAdvances(a2, N, C);
    var a4 := After(a3, D, N);
    AfterAdvances(a3, D, N);
    var a5 := After(a4, D, C);
    AfterAdvances(a4, D, C);
    var a6 := After(a5, D, C);
    AfterAdvances(a5, D, C);
    AfterAdvances(a6, 1, C);
  }

  // ---------------------------------------------------------------------------
  // Reference definitions of the step
  // ---------------------------------------------------------------------------

  /** The shapes a step is defined for: a non-empty batch of N rows with D > 0
      features, C > 0 classes, and a bias that add_bias_rowwise_inplace can
      read whenever it has the 1 x C shape that routine accepts. */
  predicate Shapes(X: Matrix, W: Matrix, b: Matrix)
  {
    && X.Backed() && W.Backed() && b.Valid()
    && X.rows > 0 && X.cols > 0 && W.cols > 0 && X.cols == W.rows
    && (b.rows == 1 && b.cols == W.cols ==> b.Backed())
  }

  /** What add_bias_rowwise_inplace adds to column j: b[0][j] for a 1 x C bias;
      nothing when it rejects b (the step does not look at the status). */
  function BiasTerm(W: Matrix, b: Matrix, j: nat): real
    requires b.rows == 1 && b.cols == W.cols ==> b.Backed()
  {
    if b.rows == 1 && b.cols == W.cols && j < W.cols then Get(b, 0, j) else 0.0
  }

  /** Row i of Z = X W + b. */
  function LogitRow(X: Matrix, W: Matrix, b: Matrix, i: nat): (z: seq<real>)
    requires Shapes(X, W, b) && i < X.rows
    ensures |z| == W.cols
  {
    seq(W.cols, j requires 0 <= j < W.cols => DotProduct(Row(X, i), Col(W, j)) + BiasTerm(W, b, j))
  }

  /** P[i][j] = softmax(Z)[i][j]. */
  function Prob(X: Matrix, W: Matrix, b: Matrix, exp: real -> real, i: nat, j: nat): real
    requires Shapes(X, W, b) && ExpPositive(exp) && i < X.rows && j < W.cols
  {
    SoftmaxRow(LogitRow(X, W, b, i), exp)[j]
  }

  /** dZ[i][j] = (P[i][j] - [j == y_i]) / N. */
  function Delta(X: Matrix, W: Matrix, b: Matrix, labels: seq<u64>, exp: real -> real, i: nat, j: nat): real
    requires Shapes(X, W, b) && ExpPositive(exp) && |labels| >= X.rows && i < X.rows && j < W.cols
  {
    (Prob(X, W, b, exp, i, j) - OneHot(labels[i], j)) / (X.rows as real)
  }

  /** Column j of dZ. */
  function DeltaCol(X: Matrix, W: Matrix, b: Matrix, labels: seq<u64>, exp: real -> real, j: nat): (d: seq<real>)
    requires Shapes(X, W, b) && ExpPositive(exp) && |labels| >= X.rows && j < W.cols
    ensures |d| == X.rows
  {
    seq(X.rows, i requires 0 <= i < X.rows => Delta(X, W, b, labels, exp, i, j))
  }

  /** The mean cross-entropy of P against the labels. */
  function Loss(X: Matrix, W: Matrix, b: Matrix, labels: seq<u64>, exp: real -> real, log: real -> real): real
    requires Shapes(X, W, b) && ExpPositive(exp) && LabelsInRange(labels, X.rows, W.cols)
  {
    Sum(seq(X.rows, i requires 0 <= i < X.rows => -log(Floor(Prob(X, W, b, exp, i, labels[i]))))) / (X.rows as real)
  }

  // ---------------------------------------------------------------------------
  // The step
  // ---------------------------------------------------------------------------

  datatype Forward = Forward(arena: Arena, probs: Matrix)

  /** Lines 128-129: the logits buffer is created, then Matrix_mut_Matrix
      pushes a fresh buffer for X W over it (the first is left behind). */
  function LogitsProduct(a: Arena, X: Matrix, W: Matrix): (r: Outcome)
    requires X.Backed() && W.Backed() && X.cols == W.rows && X.data.Block? && W.data.Block?
    requires Room(a, X.rows, W.cols) && Room(After(a, X.rows, W.cols), X.rows, W.cols)
    ensures r.arena == After(After(a, X.rows, W.cols), X.rows, W.cols)
    ensures r.out.Backed() && r.out.rows == X.rows && r.out.cols == W.cols
    ensures forall i: nat, j: nat :: i < X.rows && j < W.cols ==>
              Get(r.out, i, j) == DotProduct(Row(X, i), Col(W, j))
  {
    MatMul(Create(a, X.rows, W.cols).arena, Create(a, X.rows, W.cols).m, X, W)
  }

  /** Lines 127-132: X W, then the bias added in place. */
  function Logits(a: Arena, X: Matrix, W: Matrix, b: Matrix): (r: Outcome)
    requires Shapes(X, W, b) && Room(a, X.rows, W.cols) && Room(After(a, X.rows, W.cols), X.rows, W.cols)
    ensures r.arena == After(After(a, X.rows, W.cols), X.rows, W.cols)
    ensures r.out.Backed() && r.out.rows == X.rows && r.out.cols == W.cols
    ensures forall i: nat :: i < X.rows ==> Row(r.out, i) == LogitRow(X, W, b, i)
  {
    ForwardRows(X, W, b, LogitsProduct(a, X, W).out, AddBiasRowwise(LogitsProduct(a, X, W).out, b).m);
    Outcome(Ok, LogitsProduct(a, X, W).arena, AddBiasRowwise(LogitsProduct(a, X, W).out, b).m)
  }

  /** Lines 127-138: Z = X W + b, then softmax allocates the probabilities. */
  function ForwardPass(a: Arena, X: Matrix, W: Matrix, b: Matrix, exp: real -> real): (r: Forward)
    requires Shapes(X, W, b) && ExpPositive(exp) && ForwardFits(a, X.rows, W.cols)
    ensures r.arena == ForwardArena(a, X.rows, W.cols)
    ensures r.probs.Backed() && r.probs.rows == X.rows && r.probs.cols == W.cols
    ensures forall i: nat :: i < X.rows ==> Row(r.probs, i) == SoftmaxRow(LogitRow(X, W, b, i), exp)
  {
    Forward(Softmax(Logits(a, X, W, b).arena, Logits(a, X, W, b).out, exp).arena,
            Softmax(Logits(a, X, W, b).arena, Logits(a, X, W, b).out, exp).out)
  }

  /** The biased product holds Z row by row. */
  lemma ForwardRows(X: Matrix, W: Matrix, b: Matrix, product: Matrix, biased: Matrix)
    requires Shapes(X, W, b)
    requires product.Backed() && product.rows == X.rows && product.cols == W.cols
    requires forall i: nat, j: nat :: i < X.rows && j < W.cols ==>
               Get(product, i, j) == DotProduct(Row(X, i), Col(W, j))
    requires biased == AddBiasRowwise(product, b).m
    ensures biased.Backed() && biased.rows == X.rows && biased.cols == W.cols
    ensures forall i: nat :: i < X.rows ==> Row(biased, i) == LogitRow(X, W, b, i)
  {
    forall i: nat | i < X.rows
      ensures Row(biased, i) == LogitRow(X, W, b, i)
    {
      forall j: nat | j < W.cols
        ensures Row(biased, i)[j] == LogitRow(X, W, b, i)[j]
      {
      }
    }
  }

  datatype Gradients = Gradients(arena: Arena, dW: Matrix, db: Matrix)

  /** Line 147: X^T is pushed onto the arena; row d of it is column d of X. */
  function TransposedInput(a: Arena, X: Matrix): (r: Outcome)
    requires X.Backed() && X.rows > 0 && X.cols > 0 && Room(a, X.cols, X.rows)
    ensures r.arena == After(a, X.cols, X.rows)
    ensures r.out.Backed() && r.out.rows == X.cols && r.out.cols == X.rows
    ensures forall d: nat :: d < X.cols ==> Row(r.out, d) == Col(X, d)
  {
    TransposedRows(a, X);
    Transpose(a, Matrix(0, 0, NullData), X)
  }

  /** Every row of the transpose is the matching column of X. */
  lemma TransposedRows(a: Arena, X: Matrix)
    requires X.Backed() && X.data.Block? && Room(a, X.cols, X.rows)
    ensures forall d: nat :: d < X.cols ==> Row(Transpose(a, Matrix(0, 0, NullData), X).out, d) == Col(X, d)
  {
    forall d: nat | d < X.cols
      ensures Row(Transpose(a, Matrix(0, 0, NullData), X).out, d) == Col(X, d)
    {
      TransposeRowIsColumn(a, Matrix(0, 0, NullData), X, d);
    }
  }

  /** Lines 147-151: dW is created and then overwritten by a fresh X^T dZ (the
      first buffer is left behind on the arena). */
  function WeightGradient(a: Arena, X: Matrix, dZ: Matrix): (r: Outcome)
    requires X.Backed() && X.rows > 0 && X.cols > 0
    requires dZ.Backed() && dZ.rows == X.rows && dZ.cols > 0
    requires Room(a, X.cols, X.rows) && Room(After(a, X.cols, X.rows), X.cols, dZ.cols)
    requires Room(After(After(a, X.cols, X.rows), X.cols, dZ.cols), X.cols, dZ.cols)
    ensures r.arena == After(After(After(a, X.cols, X.rows), X.cols, dZ.cols), X.cols, dZ.cols)
    ensures r.out.Backed() && r.out.rows == X.cols && r.out.cols == dZ.cols
    ensures forall d: nat, j: nat :: d < X.cols && j < dZ.cols ==>
              Get(r.out, d, j) == DotProduct(Col(X, d), Col(dZ, j))
  {
    MatMul(Create(TransposedInput(a, X).arena, X.cols, dZ.cols).arena,
           Create(TransposedInput(a, X).arena, X.cols, dZ.cols).m,
           TransposedInput(a, X).out, dZ)
  }

  /** Lines 147-155: dW = X^T dZ, then sum_rows allocates db. */
  function GradientPass(a: Arena, X: Matrix, dZ: Matrix): (r: Gradients)
    requires X.Backed() && X.rows > 0 && X.cols > 0
    requires dZ.Backed() && dZ.rows == X.rows && dZ.cols > 0
    requires GradientFits(a, X.rows, X.cols, dZ.cols)
    ensures r.arena == GradientArena(a, X.rows, X.cols, dZ.cols)
    ensures r.dW.Backed() && r.dW.rows == X.cols && r.dW.cols == dZ.cols
    ensures forall d: nat, j: nat :: d < X.cols && j < dZ.cols ==>
              Get(r.dW, d, j) == DotProduct(Col(X, d), Col(dZ, j))
    ensures r.db.Backed() && r.db.rows == 1 && r.db.cols == dZ.cols
    ensures forall j: nat :: j < dZ.cols ==> Get(r.db, 0, j) == Sum(Col(dZ, j))
  {
    Gradients(SumRows(WeightGradient(a, X, dZ).arena, dZ).arena, WeightGradient(a, X, dZ).out,
              SumRows(WeightGradient(a, X, dZ).arena, dZ).out)
  }

  datatype Step = Step(loss: real, arena: Arena, W: Matrix, b: Matrix)

  /** dW and db as lines 144-155 compute them: the backward pass turns the
      forward pass's P into dZ, then the gradient pass. */
  function StepGradients(a: Arena, X: Matrix, labels: seq<u64>, W: Matrix, b: Matrix, exp: real -> real): (g: Gradients)
    requires Shapes(X, W, b) && ExpPositive(exp) && LabelsInRange(labels, X.rows, W.cols)
    requires StepFits(a, X.rows, X.cols, W.cols)
    ensures g.arena == StepArena(a, X.rows, X.cols, W.cols)
    ensures g.dW.Backed() && g.dW.rows == W.rows && g.dW.cols == W.cols
    ensures g.db.Backed() && g.db.rows == 1 && g.db.cols == W.cols
  {
    GradientPass(ForwardPass(a, X, W, b, exp).arena, X, Backward(ForwardPass(a, X, W, b, exp).probs, labels).m)
  }

  /** The gradients the step computes are the reference ones: dW = X^T dZ and
      db = the column sums of dZ, for dZ = (softmax(X W + b) - Y) / N. */
  lemma StepGradientsAreReference(a: Arena, X: Matrix, labels: seq<u64>, W: Matrix, b: Matrix, exp: real -> real)
    requires Shapes(X, W, b) && ExpPositive(exp) && LabelsInRange(labels, X.rows, W.cols)
    requires StepFits(a, X.rows, X.cols, W.cols)
    ensures forall d: nat, j: nat :: d < W.rows && j < W.cols ==>
              Get(StepGradients(a, X, labels, W, b, exp).dW, d, j) == DotProduct(Col(X, d), DeltaCol(X, W, b, labels, exp, j))
    ensures forall j: nat :: j < W.cols ==>
              Get(StepGradients(a, X, labels, W, b, exp).db, 0, j) == Sum(DeltaCol(X, W, b, labels, exp, j))
  {
    StepDeltaIsReference(a, X, labels, W, b, exp);
    GradientsOfDelta(ForwardPass(a, X, W, b, exp).arena, X, labels, W, b, exp,
                     Backward(ForwardPass(a, X, W, b, exp).probs, labels).m);
  }

  /** The gradient pass over a buffer that holds dZ gives X^T dZ and the
      column sums of dZ. */
  lemma GradientsOfDelta(a: Arena, X: Matrix, labels: seq<u64>, W: Matrix, b: Matrix, exp: real -> real, dZ: Matrix)
    requires Shapes(X, W, b) && ExpPositive(exp) && LabelsInRange(labels, X.rows, W.cols)
    requires dZ.Backed() && dZ.rows == X.rows && dZ.cols == W.cols
    requires GradientFits(a, X.rows, X.cols, W.cols)
    requires forall j: nat :: j < W.cols ==> Col(dZ, j) == DeltaCol(X, W, b, labels, exp, j)
    ensures forall d: nat, j: nat :: d < W.rows && j < W.cols ==>
              Get(GradientPass(a, X, dZ).dW, d, j) == DotProduct(Col(X, d), DeltaCol(X, W, b, labels, exp, j))
    ensures forall j: nat :: j < W.cols ==>
              Get(GradientPass(a, X, dZ).db, 0, j) == Sum(DeltaCol(X, W, b, labels, exp, j))
  {
  }

  /** The buffer the backward pass leaves holds dZ column by column. */
  lemma StepDeltaIsReference(a: Arena, X: Matrix, labels: seq<u64>, W: Matrix, b: Matrix, exp: real -> real)
    requires Shapes(X, W, b) && ExpPositive(exp) && LabelsInRange(labels, X.rows, W.cols)
    requires ForwardFits(a, X.rows, W.cols)
    ensures Backward(ForwardPass(a, X, W, b, exp).probs, labels).m.Backed()
    ensures forall j: nat :: j < W.cols ==>
              Col(Backward(ForwardPass(a, X, W, b, exp).probs, labels).m, j) == DeltaCol(X, W, b, labels, exp, j)
  {
    ProbsAreProb(X, W, b, exp, ForwardPass(a, X, W, b, exp).probs);
    DeltaColumns(X, W, b, labels, exp, ForwardPass(a, X, W, b, exp).probs,
                 Backward(ForwardPass(a, X, W, b, exp).probs, labels).m);
  }


  /** softmax_regression_train_step: returns the loss of the parameters it was
      given, leaves the arena after the step's seven pushes, and takes one
      gradient step of size lr along the step's gradients: W - lr dW, and
      b - lr db when b is 1 x C (otherwise both in-place routines reject b and
      it is left as it was). WeightsDescend and BiasDescends state the update
      entry by entry; StepGradientsAreReference and TrainStepLoss say what dW,
      db and the loss are. */
  function TrainStep(a: Arena, X: Matrix, labels: seq<u64>, W: Matrix, b: Matrix, lr: real,
                     exp: real -> real, log: real -> real): (r: Step)
    requires Shapes(X, W, b) && ExpPositive(exp) && LabelsInRange(labels, X.rows, W.cols)
    requires StepFits(a, X.rows, X.cols, W.cols)
    ensures r.arena == StepArena(a, X.rows, X.cols, W.cols)
    ensures SameBuffer(r.W, W)
    ensures b.rows == 1 && b.cols == W.cols ==> SameBuffer(r.b, b)
    ensures !(b.rows == 1 && b.cols == W.cols) ==> r.b == b
  {
    Step(StepLoss(a, X, labels, W, b, exp, log),
         StepGradients(a, X, labels, W, b, exp).arena,
         Descent(W, StepGradients(a, X, labels, W, b, exp).dW, lr),
         if b.rows == 1 && b.cols == W.cols then Descent(b, StepGradients(a, X, labels, W, b, exp).db, lr) else b)
  }

  /** Line 141: cross_entropy of the forward pass's probabilities. */
  function StepLoss(a: Arena, X: Matrix, labels: seq<u64>, W: Matrix, b: Matrix,
                    exp: real -> real, log: real -> real): (L: real)
    requires Shapes(X, W, b) && ExpPositive(exp) && LabelsInRange(labels, X.rows, W.cols)
    requires ForwardFits(a, X.rows, W.cols)
    ensures L == Loss(X, W, b, labels, exp, log)
  {
    ProbsAreProb(X, W, b, exp, ForwardPass(a, X, W, b, exp).probs);
    LossIsCrossEntropy(X, W, b, labels, exp, log, ForwardPass(a, X, W, b, exp).probs);
    CrossEntropy(ForwardPass(a, X, W, b, exp).probs, labels, log)
  }

  /** W becomes W - lr dW, for the step's own gradient dW. */
  lemma WeightsDescend(a: Arena, X: Matrix, labels: seq<u64>, W: Matrix, b: Matrix, lr: real,
                       exp: real -> real, log: real -> real)
    requires Shapes(X, W, b) && ExpPositive(exp) && LabelsInRange(labels, X.rows, W.cols)
    requires StepFits(a, X.rows, X.cols, W.cols)
    ensures forall d: nat, j: nat :: d < W.rows && j < W.cols ==>
              Get(TrainStep(a, X, labels, W, b, lr, exp, log).W, d, j)
                == Get(W, d, j) - Get(StepGradients(a, X, labels, W, b, exp).dW, d, j) * lr
  {
  }

  /** A 1 x C bias becomes b - lr db, for the step's own gradient db. */
  lemma BiasDescends(a: Arena, X: Matrix, labels: seq<u64>, W: Matrix, b: Matrix, lr: real,
                     exp: real -> real, log: real -> real)
    requires Shapes(X, W, b) && ExpPositive(exp) && LabelsInRange(labels, X.rows, W.cols)
    requires StepFits(a, X.rows, X.cols, W.cols)
    requires b.rows == 1 && b.cols == W.cols
    ensures forall i: nat, j: nat :: i < b.rows && j < b.cols ==>
              Get(TrainStep(a, X, labels, W, b, lr, exp, log).b, i, j)
                == Get(b, i, j) - Get(StepGradients(a, X, labels, W, b, exp).db, i, j) * lr
  {
    assert TrainStep(a, X, labels, W, b, lr, exp, log).b == Descent(b, StepGradients(a, X, labels, W, b, exp).db, lr);
  }

  /** The returned loss is the mean cross-entropy of the parameters the step
      was given: it is read from P before the backward pass overwrites P. */
  lemma TrainStepLoss(a: Arena, X: Matrix, labels: seq<u64>, W: Matrix, b: Matrix, lr: real,
                      exp: real -> real, log: real -> real)
    requires Shapes(X, W, b) && ExpPositive(exp) && LabelsInRange(labels, X.rows, W.cols)
    requires StepFits(a, X.rows, X.cols, W.cols)
    ensures TrainStep(a, X, labels, W, b, lr, exp, log).loss == Loss(X, W, b, labels, exp, log)
  {
    assert TrainStep(a, X, labels, W, b, lr, exp, log).loss == StepLoss(a, X, labels, W, b, exp, log);
  }

  /** The probabilities the forward pass leaves are P of the reference step. */
  lemma ProbsAreProb(X: Matrix, W: Matrix, b: Matrix, exp: real -> real, P: Matrix)
    requires Shapes(X, W, b) && ExpPositive(exp)
    requires P.Backed() && P.rows == X.rows && P.cols == W.cols
    requires forall i: nat :: i < X.rows ==> Row(P, i) == SoftmaxRow(LogitRow(X, W, b, i), exp)
    ensures forall i: nat, j: nat :: i < X.rows && j < W.cols ==> Get(P, i, j) == Prob(X, W, b, exp, i, j)
  {
    forall i: nat, j: nat | i < X.rows && j < W.cols
      ensures Get(P, i, j) == Prob(X, W, b, exp, i, j)
    {
      assert Get(P, i, j) == Row(P, i)[j];
    }
  }

  /** cross_entropy of the forward pass's P is the reference loss. */
  lemma LossIsCrossEntropy(X: Matrix, W: Matrix, b: Matrix, labels: seq<u64>, exp: real -> real,
                           log: real -> real, P: Matrix)
    requires Shapes(X, W, b) && ExpPositive(exp) && LabelsInRange(labels, X.rows, W.cols)
    requires P.Backed() && P.rows == X.rows && P.cols == W.cols
    requires forall i: nat, j: nat :: i < X.rows && j < W.cols ==> Get(P, i, j) == Prob(X, W, b, exp, i, j)
    ensures CrossEntropy(P, labels, log) == Loss(X, W, b, labels, exp, log)
  {
    assert SampleLosses(P, labels, log)
        == seq(X.rows, i requires 0 <= i < X.rows => -log(Floor(Prob(X, W, b, exp, i, labels[i]))));
  }

  /** After the backward pass, entry (i, j) of the buffer is dZ[i][j]. */
  lemma DeltaEntries(X: Matrix, W: Matrix, b: Matrix, labels: seq<u64>, exp: real -> real, P: Matrix, dZ: Matrix)
    requires Shapes(X, W, b) && ExpPositive(exp) && LabelsInRange(labels, X.rows, W.cols)
    requires P.Backed() && P.rows == X.rows && P.cols == W.cols
    requires forall i: nat, j: nat :: i < X.rows && j < W.cols ==> Get(P, i, j) == Prob(X, W, b, exp, i, j)
    requires dZ.Backed() && dZ.rows == X.rows && dZ.cols == W.cols
    requires forall i: nat, j: nat :: i < X.rows && j < W.cols ==>
               Get(dZ, i, j) == (Get(P, i, j) - OneHot(labels[i], j)) / (P.rows as real)
    ensures forall i: nat, j: nat :: i < X.rows && j < W.cols ==> Get(dZ, i, j) == Delta(X, W, b, labels, exp, i, j)
  {
  }

  /** After the backward pass, column j of the buffer is column j of dZ. */
  lemma DeltaColumns(X: Matrix, W: Matrix, b: Matrix, labels: seq<u64>, exp: real -> real, P: Matrix, dZ: Matrix)
    requires Shapes(X, W, b) && ExpPositive(exp) && LabelsInRange(labels, X.rows, W.cols)
    requires P.Backed() && P.rows == X.rows && P.cols == W.cols
    requires forall i: nat, j: nat :: i < X.rows && j < W.cols ==> Get(P, i, j) == Prob(X, W, b, exp, i, j)
    requires dZ == Backward(P, labels).m
    ensures dZ.Backed() && dZ.rows == X.rows && dZ.cols == W.cols
    ensures forall j: nat :: j < W.cols ==> Col(dZ, j) == DeltaCol(X, W, b, labels, exp, j)
  {
    DeltaEntries(X, W, b, labels, exp, P, dZ);
    forall j: nat | j < W.cols
      ensures Col(dZ, j) == DeltaCol(X, W, b, labels, exp, j)
    {
    }
  }

  /** M := M - lr G: Matrix_mut_Scalar scales G in place, then
      Matrix_minus_Matrix_inplace subtracts it from M. */
  function Descent(M: Matrix, G: Matrix, lr: real): (M': Matrix)
    requires M.Backed() && G.Backed() && M.rows == G.rows && M.cols == G.cols && M.rows > 0 && M.cols > 0
    ensures SameBuffer(M', M)
    ensures forall i: nat, j: nat :: i < M.rows && j < M.cols ==> Get(M', i, j) == Get(M, i, j) - Get(G, i, j) * lr
  {
    MinusInPlace(M, MulScalar(G, lr).m).m
  }
}
