/** The behaviour of `ml_validation_local_task` and `ml_validation_stream_task` as functions
    from the collaborators' state and plan to the final state and the returned status. The
    methods of `MlValidation` are proved to compute exactly these functions; the lemmas in
    `LocalProps` and `StreamProps` state what the functions guarantee. */
module ValidationSpec {
  import opened ResultCodes
  import opened Collaborators

  datatype Option<T> = None | Some(value: T)

  /** SUCCESS_RATE: the accuracy, in percent, a local run needs for PASS. */
  const SuccessThreshold: real := 98.0

  /** The regression data header: number of examples, elements per example, time steps. */
  datatype Header = Header(numSamples: nat, inputSize: int, tsSize: int)

  /** The counters of a completed local run and the verdict printed from them. */
  datatype Stats = Stats(correct: nat, total: nat) {
    /** success_rate: 0 without examples, otherwise 100 * correct / total (exactly). */
    function Rate(): real {
      if total == 0 then 0.0 else (correct as real) * 100.0 / (total as real)
    }

    /** test_result: PASS when the success rate reaches SUCCESS_RATE. */
    predicate Passed() {
      Rate() >= SuccessThreshold
    }
  }

  /** C's `/` on int: truncation toward zero. */
  function CDiv(a: int, b: int): (q: int)
    requires b != 0
    ensures a >= 0 && b > 0 ==> q == a / b
  {
    var m := (if a < 0 then -a else a) / (if b < 0 then -b else b);
    if (a < 0) == (b < 0) then m else -m
  }

  lemma MulMono(a: int, b: int, c: nat)
    requires a <= b
    ensures a * c <= b * c
  {
    assert b * c - a * c == (b - a) * c;
  }

  lemma MulSucc(a: int, c: int)
    ensures (a + 1) * c == a * c + c
  {
  }

  /** Inputs of the local run: the build mode, the data header, the model input size w and
      output size o, and the flat input (x) and expected-output (y) regression buffers. */
  datatype LocalEnv = LocalEnv(recurrent: bool, hdr: Header, w: nat, o: nat, xs: seq<int>, ys: seq<int>) {
    /** The regression buffers hold as many examples as the header announces. */
    predicate Valid() {
      hdr.numSamples * hdr.inputSize <= |xs| && hdr.numSamples * o <= |ys|
    }
  }

  /** The size check of the local run rejects the data. */
  predicate SizeMismatch(env: LocalEnv) {
    if env.recurrent then
      env.hdr.tsSize <= 0 || CDiv(env.hdr.inputSize, env.hdr.tsSize) != env.w
    else
      env.hdr.inputSize != env.w
  }

  /** Example j of the input buffer: the elements from input_reference = j * file_input_size.
      A size that is not positive makes an empty example (nothing is read from it). */
  function Example(env: LocalEnv, j: nat): (x: seq<int>)
    requires env.Valid() && j < env.hdr.numSamples
    ensures env.hdr.inputSize > 0 ==> |x| == env.hdr.inputSize
  {
    var f := env.hdr.inputSize;
    if f <= 0 then []
    else
      MulMono(j + 1, env.hdr.numSamples, f);
      env.xs[j * f .. (j + 1) * f]
  }

  /** The expected output of example j: from output_reference = j * model_output_size. */
  function Expected(env: LocalEnv, j: nat): (y: seq<int>)
    requires env.Valid() && j < env.hdr.numSamples
    ensures |y| == env.o
  {
    MulMono(j + 1, env.hdr.numSamples, env.o);
    env.ys[j * env.o .. (j + 1) * env.o]
  }

  /** Example j sits at input_reference = j * file_input_size of the input buffer whenever
      the model reads anything from it. */
  lemma ExampleIn(env: LocalEnv, j: nat)
    requires env.Valid() && !SizeMismatch(env) && j < env.hdr.numSamples
    ensures var f, x := env.hdr.inputSize, Example(env, j);
      (env.w > 0 || !env.recurrent) ==>
        0 <= j * f && j * f + |x| <= |env.xs| && x == env.xs[j * f .. j * f + |x|]
        && (!env.recurrent ==> |x| == env.w)
  {
    var f, n := env.hdr.inputSize, env.hdr.numSamples;
    if f > 0 {
      MulMono(j + 1, n, f);
      MulSucc(j, f);
      MulMono(0, j, f);
    } else if env.recurrent {
      CDivNonPositive(f, env.hdr.tsSize);
    } else {
      MulZero(j);
    }
  }

  /** C division truncates toward zero: negating either operand negates the quotient, the
      product of quotient and divisor lies between 0 and the dividend, and what is left over
      is smaller in magnitude than the divisor. */
  lemma CDivTruncates(a: int, b: int)
    requires b != 0
    ensures CDiv(-a, b) == -CDiv(a, b) && CDiv(a, -b) == -CDiv(a, b)
    ensures a >= 0 ==> 0 <= CDiv(a, b) * b <= a && a - CDiv(a, b) * b < (if b < 0 then -b else b)
    ensures a < 0 ==> a <= CDiv(a, b) * b <= 0 && CDiv(a, b) * b - a < (if b < 0 then -b else b)
  {
    var x, y := if a < 0 then -a else a, if b < 0 then -b else b;
    if a == 0 {
      assert 0 / y == 0;
    }
    DivBounds(x, y);
    SignedProduct(x / y, y, b, a < 0);
  }

  lemma DivBounds(x: int, y: int)
    requires x >= 0 && y > 0
    ensures 0 <= (x / y) * y <= x < (x / y) * y + y
  {
  }

  lemma SignedProduct(m: int, y: int, b: int, neg: bool)
    requires b != 0 && y == (if b < 0 then -b else b)
    ensures (if neg == (b < 0) then m else -m) * b == (if neg then -(m * y) else m * y)
  {
    if b < 0 {
      assert m * b == -(m * y);
    }
  }

  lemma CDivNonPositive(a: int, b: int)
    requires a <= 0 < b
    ensures CDiv(a, b) <= 0
  {
    if a == 0 {
      assert 0 / b == 0;
    }
  }

  lemma MulZero(a: int)
    ensures a * 0 == 0
  {
  }

  /** ts windows of w elements fit in an example that passed the recurrent size check. */
  lemma RecurrentWindowsFit(env: LocalEnv, j: nat)
    requires env.Valid() && j < env.hdr.numSamples
    requires env.recurrent && !SizeMismatch(env)
    ensures env.hdr.tsSize * env.w <= |Example(env, j)|
  {
    var f, ts := env.hdr.inputSize, env.hdr.tsSize;
    if f <= 0 {
      assert env.w == 0;
    } else {
      assert env.w == f / ts;
      assert ts * (f / ts) <= f;
    }
  }

  /** Time steps i .. ts-1 of a recurrent inference over x: step i runs the engine on the
      window x[i*w .. (i+1)*w]; the first failing run stops the steps and its status is kept. */
  function RnnRuns(p: Plan, s: St, x: seq<int>, i: nat, ts: int, w: nat): (St, Status)
    requires ts * w <= |x|
    decreases ts - i
  {
    if i >= ts then (s, Success)
    else
      MulMono(i + 1, ts, w);
      var s1 := RunStep(p, s, x[i * w .. (i + 1) * w]);
      if Answer(p, s1) != Success then (s1, Answer(p, s1))
      else RnnRuns(p, s1, x, i + 1, ts, w)
  }

  datatype LocalRun = LocalRun(state: St, status: Status, stats: Option<Stats>)

  /** The inference for example j (lines 200-235): a recurrent reset and ts windowed runs, or
      one run over the whole example. The status is what the task returns on failure. */
  function LocalExample(p: Plan, s: St, env: LocalEnv, j: nat): (St, Status)
    requires env.Valid() && !SizeMismatch(env) && j < env.hdr.numSamples
  {
    var x := Example(env, j);
    if env.recurrent then
      var s1 := Call(s, Reset);
      if Answer(p, s1) != Success then (s1, InferenceError)
      else
        RecurrentWindowsFit(env, j);
        RnnRuns(p, s1, x, 0, env.hdr.tsSize, env.w)
    else
      var s1 := RunStep(p, s, x);
      (s1, Answer(p, s1))
  }

  /** The example loop from example j on, with `correct` matches so far (lines 197-287). */
  function LocalLoop(p: Plan, s: St, env: LocalEnv, j: nat, correct: nat): LocalRun
    requires env.Valid() && !SizeMismatch(env) && j <= env.hdr.numSamples
    decreases env.hdr.numSamples - j
  {
    if j == env.hdr.numSamples then
      var s1 := if env.recurrent then FreeStep(s, InputSlice) else s;
      LocalRun(Call(s1, ProfileLog), Success, Some(Stats(correct, j)))
    else
      var (s1, st) := LocalExample(p, s, env, j);
      if st != Success then
        LocalRun(if env.recurrent then FreeStep(s1, InputSlice) else s1, st, None)
      else
        var hit := p.findMax(s1.out) == p.findMax(Expected(env, j));
        LocalLoop(p, s1, env, j + 1, if hit then correct + 1 else correct)
  }

  /** ml_validation_local_task from collaborator state s. */
  function LocalSpec(p: Plan, s: St, env: LocalEnv): LocalRun
    requires env.Valid()
  {
    if SizeMismatch(env) then LocalRun(s, MismatchDataType, None)
    else if env.recurrent then
      var s1 := AllocStep(p, s, InputSlice);
      if Answer(p, s1) != Success then LocalRun(s1, AllocErr, None)
      else LocalLoop(p, s1, env, 0, 0)
    else LocalLoop(p, s, env, 0, 0)
  }

  /** Inputs of the streaming run: the build mode and the model input size w. */
  datatype StreamEnv = StreamEnv(recurrent: bool, w: nat)

  /** The host's frames hold ts windows of w elements (never checked by the source). */
  predicate StreamFits(p: Plan, env: StreamEnv) {
    env.recurrent ==> p.session.tsSize * env.w <= p.session.inputSize
  }

  datatype StreamRun = StreamRun(state: St, status: Status)

  /** After the sample loop (lines 400-415): free the buffers, emit the profile log and tell
      the host the run is done. */
  function StreamFinish(p: Plan, s: St, env: StreamEnv): StreamRun {
    var s1 := FreeStep(s, RxBuf);
    var s2 := if env.recurrent then FreeStep(s1, InputSlice) else s1;
    var s3 := Call(s2, ProfileLog);
    if Answer(p, s3) != Success then StreamRun(s3, BadModel)
    else
      var s4 := Call(s3, Done);
      StreamRun(s4, Answer(p, s4))
  }

  /** The engine runs on a received frame: ts windowed runs for a recurrent model, one run
      over the whole frame otherwise. */
  function SampleRuns(p: Plan, s: St, env: StreamEnv, frame: seq<int>): (St, Status)
    requires env.recurrent ==> p.session.tsSize * env.w <= |frame|
  {
    if env.recurrent then RnnRuns(p, s, frame, 0, p.session.tsSize, env.w)
    else var r := RunStep(p, s, frame); (r, Answer(p, r))
  }

  /** How one sample of the streaming loop ends: with the state for the next sample, with a
      failed receive that leaves the loop (`break`), or with a return from the task. */
  datatype SampleEnd = Continue(next: St) | Break(at: St) | Return(run: StreamRun)

  /** One sample (lines 341-397): reset the recurrent state, receive a frame, run the engine
      on it (in windows for a recurrent model) and send the engine output back. */
  function StreamSample(p: Plan, s: St, env: StreamEnv): SampleEnd
    requires StreamFits(p, env)
  {
    var s1 := if env.recurrent then Call(s, Reset) else s;
    if env.recurrent && Answer(p, s1) != Success then
      Return(StreamRun(FreeStep(FreeStep(s1, InputSlice), RxBuf), InferenceError))
    else
      var s2 := Call(s1, Recv);
      if Answer(p, s2) != Success then Break(s2)
      else SampleTail(p, s2, env)
  }

  /** The rest of a sample after a successful receive (lines 359-397): the engine runs on the
      received frame, then the send of the output. */
  function SampleTail(p: Plan, s2: St, env: StreamEnv): SampleEnd
    requires StreamFits(p, env)
  {
    var (s3, st) := SampleRuns(p, s2, env, Data(p, s2.trace, p.session.inputSize));
    if st != Success then
      Return(StreamRun(if env.recurrent then FreeStep(FreeStep(s3, RxBuf), InputSlice)
                       else FreeStep(s3, RxBuf), st))
    else
      var s4 := Call(s3, Send(s3.out));
      if Answer(p, s4) != Success then Return(StreamRun(FreeStep(s4, RxBuf), AllocErr))
      else Continue(s4)
  }

  /** The sample loop from sample i on, then what follows it (lines 338-415). */
  function StreamLoop(p: Plan, s: St, env: StreamEnv, i: nat): StreamRun
    requires StreamFits(p, env)
    decreases p.session.numSamples - i
  {
    if i >= p.session.numSamples then StreamFinish(p, s, env)
    else
      match StreamSample(p, s, env)
      case Continue(s4) => StreamLoop(p, s4, env, i + 1)
      case Break(s2) => StreamFinish(p, s2, env)
      case Return(r) => r
  }

  /** The stream handshake and the receive buffer allocation both succeed from trace t, so
      that the source goes on to set up the recurrent time steps. */
  predicate StreamBuffersRequested(p: Plan, t: seq<Event>) {
    p.status(t + [StreamInit]) == Success && p.status(t + [StreamInit, Alloc(RxBuf)]) == Success
  }

  /** ml_validation_stream_task from collaborator state s. */
  function StreamSpec(p: Plan, s: St, env: StreamEnv): StreamRun
    requires StreamFits(p, env)
  {
    var s1 := Call(s, StreamInit);
    if Answer(p, s1) != Success then StreamRun(s1, Answer(p, s1))
    else
      var s2 := AllocStep(p, s1, RxBuf);
      if Answer(p, s2) != Success then StreamRun(s2, AllocErr)
      else if env.recurrent then
        var s3 := AllocStep(p, s2, InputSlice);
        if Answer(p, s3) != Success then StreamRun(FreeStep(s3, RxBuf), AllocErr)
        else StreamLoop(p, s3, env, 0)
      else StreamLoop(p, s2, env, 0)
  }
}
