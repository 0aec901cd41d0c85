/** ml_validation.c: the validation harness. The module-level state (`model_obj`,
    `result_buffer`, `model_output_size`) is the state of a `Validation` object; the engine,
    the transport and the heap are the `Platform` it caches. */
module MlValidation {
  import opened ResultCodes
  import opened Collaborators
  import opened ValidationSpec

  class Validation {
    /** model_obj */
    var model: Platform?
    /** result_buffer: the engine's output buffer, read in place. */
    var resultBuffer: array?<int>
    /** model_output_size */
    var modelOutputSize: int

    /** The state ml_validation_init leaves behind on success. */
    ghost predicate Ready()
      reads this
    {
      model != null && resultBuffer == model.output && modelOutputSize == model.output.Length
    }

    /** The static initialisers: no model, no buffer, size 0. */
    constructor ()
      ensures model == null && resultBuffer == null && modelOutputSize == 0
    {
      model := null;
      resultBuffer := null;
      modelOutputSize := 0;
    }

    /** ml_validation_init: initialises the engine and caches the model handle, its output
        buffer and the output size. A failing engine initialisation is returned unchanged
        and caches nothing. */
    method Init(platform: Platform) returns (st: Status)
      modifies this, platform`trace
      ensures platform.trace == old(platform.trace) + [ModelInit]
      ensures st == platform.plan.status(platform.trace)
      ensures st == Success ==> model == platform && Ready()
      ensures st != Success ==>
        model == old(model) && resultBuffer == old(resultBuffer) && modelOutputSize == old(modelOutputSize)
    {
      st := platform.ModelInit();
      if st != Success {
        return;
      }
      model := platform;
      resultBuffer := platform.output;
      modelOutputSize := platform.output.Length;
    }

    /** The recurrent slicer (lines 209-225 and 362-378): for each of the
        model_obj->recurrent_ts_size time steps, copy the window of input size elements at
        `base + i * w` of `src` into the slice buffer and run the engine on it; the first
        failing run ends the steps and its status is returned. `x` names the elements from
        `base` on that the windows cover. */
    method RunTimeSteps(src: seq<int>, base: int, ghost x: seq<int>, slice: array<int>)
      returns (st: Status)
      requires Ready() && slice != model.output && slice.Length == model.inputSize
      requires model.recurrentTsSize * model.inputSize <= |x|
      requires model.inputSize > 0 ==> 0 <= base && base + |x| <= |src| && x == src[base .. base + |x|]
      modifies model`trace, model.output, slice
      ensures (model.State(), st) == RnnRuns(model.plan, old(model.State()), x, 0, model.recurrentTsSize, model.inputSize)
    {
      var m := model;
      var w := m.inputSize;
      ghost var ts := m.recurrentTsSize;
      ghost var s0 := m.State();
      var i: nat := 0;
      while i < m.recurrentTsSize
        invariant i <= ts || ts <= 0
        invariant RnnRuns(m.plan, m.State(), x, i, ts, w) == RnnRuns(m.plan, s0, x, 0, ts, w)
      {
        MulMono(i + 1, ts, w);
        MulMono(0, i, w);
        MulSucc(i, w);
        for z := 0 to w
          invariant slice[..z] == x[i * w .. i * w + z]
          modifies slice
        {
          slice[z] := src[base + i * w + z];
          assert slice[..z + 1] == slice[..z] + [slice[z]];
        }
        assert slice[..] == x[i * w .. (i + 1) * w];
        st := m.Run(slice[..]);
        if st != Success {
          return;
        }
        i := i + 1;
      }
      st := Success;
    }

    /** The inference for example j of the local run (lines 200-235), reading the example
        at input_reference = `inputReference` of the input buffer. Returns what the task
        returns when this inference fails. */
    method RunExample(recurrent: bool, xs: seq<int>, fileInputSize: int, inputReference: int,
                      inputSlice: array?<int>, ghost env: LocalEnv, j: nat)
      returns (st: Status)
      requires Ready() && env.Valid() && !SizeMismatch(env) && j < env.hdr.numSamples
      requires env.recurrent == recurrent && env.w == model.inputSize
      requires env.xs == xs && env.hdr.inputSize == fileInputSize
      requires inputReference == j * env.hdr.inputSize
      requires recurrent ==> model.recurrentTsSize == env.hdr.tsSize
      requires recurrent ==> inputSlice != null && inputSlice != model.output && inputSlice.Length == model.inputSize
      modifies model`trace, model.output, inputSlice
      ensures (model.State(), st) == LocalExample(model.plan, old(model.State()), env, j)
    {
      var m := model;
      ExampleIn(env, j);
      if recurrent {
        st := m.Notify(Reset);
        if st != Success {
          return InferenceError;
        }
        RecurrentWindowsFit(env, j);
        st := RunTimeSteps(xs, inputReference, Example(env, j), inputSlice);
      } else {
        st := m.Run(xs[inputReference .. inputReference + fileInputSize]);
      }
    }

    /** The size checks of the local run and the allocation of the recurrent input slice
        (lines 157-194). `proceed` is false when the task returns `st` at this point. */
    method CheckLocalSizes(recurrent: bool, hdr: Header, ghost env: LocalEnv)
      returns (proceed: bool, st: Status, inputSlice: array?<int>)
      requires Ready() && env.Valid()
      requires env == LocalEnv(recurrent, hdr, model.inputSize, modelOutputSize, env.xs, env.ys)
      modifies model`trace, model`live, model`recurrentTsSize
      ensures model.recurrentTsSize == if recurrent then hdr.tsSize else old(model.recurrentTsSize)
      ensures !proceed ==> LocalSpec(model.plan, old(model.State()), env) == LocalRun(model.State(), st, None)
      ensures proceed ==> !SizeMismatch(env)
      ensures proceed ==> LocalSpec(model.plan, old(model.State()), env) == LocalLoop(model.plan, model.State(), env, 0, 0)
      ensures inputSlice != null ==> fresh(inputSlice)
      ensures proceed && recurrent ==> inputSlice != null
      ensures proceed && recurrent ==> inputSlice.Length == model.inputSize && InputSlice in model.live
    {
      var m := model;
      var fileInputSize := hdr.inputSize;
      var modelInputSize := m.inputSize;
      proceed, st, inputSlice := false, MismatchDataType, null;
      if recurrent {
        m.recurrentTsSize := hdr.tsSize;
        if m.recurrentTsSize <= 0 {
          return;
        }
        if CDiv(fileInputSize, m.recurrentTsSize) != modelInputSize {
          return;
        }
        var ok := m.Malloc(InputSlice);
        if !ok {
          st := AllocErr;
          return;
        }
        inputSlice := new int[modelInputSize];
      } else if fileInputSize != modelInputSize {
        return;
      }
      proceed, st := true, Success;
    }

    /** The example loop of the local run and what follows it (lines 196-287). */
    method RunLocalExamples(recurrent: bool, hdr: Header, xs: seq<int>, ys: seq<int>,
                            inputSlice: array?<int>, ghost env: LocalEnv)
      returns (st: Status, stats: Option<Stats>)
      requires Ready() && env.Valid() && !SizeMismatch(env)
      requires env == LocalEnv(recurrent, hdr, model.inputSize, modelOutputSize, xs, ys)
      requires recurrent ==> model.recurrentTsSize == hdr.tsSize && InputSlice in model.live
      requires recurrent ==> inputSlice != null && inputSlice != model.output && inputSlice.Length == model.inputSize
      modifies model`trace, model`live, model.output, inputSlice
      ensures LocalLoop(model.plan, old(model.State()), env, 0, 0) == LocalRun(model.State(), st, stats)
    {
      var m := model;
      var p := m.plan;
      ghost var s0 := m.State();
      var numLoop := hdr.numSamples;
      var fileInputSize := hdr.inputSize;
      var modelOutputSize := this.modelOutputSize;
      var inputReference := 0;
      var outputReference := 0;
      var correctResult: nat := 0;
      var totalCount: nat := 0;
      var j: nat := 0;
      while j < numLoop
        invariant j <= numLoop && totalCount == j
        invariant inputReference == j * fileInputSize && outputReference == j * modelOutputSize
        invariant LocalLoop(p, m.State(), env, j, correctResult) == LocalLoop(p, s0, env, 0, 0)
        invariant recurrent ==> InputSlice in m.live
      {
        var rr := RunExample(recurrent, xs, fileInputSize, inputReference, inputSlice, env, j);
        if rr != Success {
          if recurrent {
            m.Free(InputSlice);
          }
          return rr, None;
        }
        MulMono(j + 1, numLoop, modelOutputSize);
        MulMono(0, j, modelOutputSize);
        MulSucc(j, modelOutputSize);
        MulSucc(j, fileInputSize);
        assert ys[outputReference .. outputReference + modelOutputSize] == Expected(env, j);
        if p.findMax(resultBuffer[..]) == p.findMax(ys[outputReference .. outputReference + modelOutputSize]) {
          correctResult := correctResult + 1;
        }
        inputReference := inputReference + fileInputSize;
        outputReference := outputReference + modelOutputSize;
        totalCount := totalCount + 1;
        j := j + 1;
      }

      if recurrent {
        m.Free(InputSlice);
      }
      var _ := m.Notify(ProfileLog);
      st, stats := Success, Some(Stats(correctResult, totalCount));
    }

    /** ml_validation_local_task over the regression data `hdr`, `xs` (inputs, after the
        header) and `ys` (expected outputs). Besides the status it returns the counters that
        the source prints, on a run that completes. */
    method LocalTask(recurrent: bool, hdr: Header, xs: seq<int>, ys: seq<int>)
      returns (st: Status, stats: Option<Stats>)
      requires Ready()
      requires hdr.numSamples * hdr.inputSize <= |xs| && hdr.numSamples * modelOutputSize <= |ys|
      modifies model, model.output
      ensures LocalSpec(model.plan, old(model.State()),
                        LocalEnv(recurrent, hdr, model.inputSize, modelOutputSize, xs, ys))
              == LocalRun(model.State(), st, stats)
      ensures model.recurrentTsSize == if recurrent then hdr.tsSize else old(model.recurrentTsSize)
    {
      ghost var env := LocalEnv(recurrent, hdr, model.inputSize, modelOutputSize, xs, ys);
      var proceed, inputSlice;
      proceed, st, inputSlice := CheckLocalSizes(recurrent, hdr, env);
      if !proceed {
        return st, None;
      }
      st, stats := RunLocalExamples(recurrent, hdr, xs, ys, inputSlice, env);
    }

    /** The stream handshake, the receive buffer and, for recurrent models, the input slice
        (lines 305-336). `proceed` is false when the task returns `st` at this point. */
    method StartStream(recurrent: bool, ghost env: StreamEnv)
      returns (proceed: bool, st: Status, iface: Session, rxBuf: array<int>, inputSlice: array?<int>)
      requires Ready() && env == StreamEnv(recurrent, model.inputSize) && StreamFits(model.plan, env)
      modifies model`trace, model`live, model`recurrentTsSize
      ensures iface == model.plan.session && fresh(rxBuf) && (inputSlice != null ==> fresh(inputSlice))
      ensures !proceed ==> StreamSpec(model.plan, old(model.State()), env) == StreamRun(model.State(), st)
      ensures proceed ==> StreamSpec(model.plan, old(model.State()), env) == StreamLoop(model.plan, model.State(), env, 0)
      ensures proceed ==> rxBuf.Length == iface.inputSize && RxBuf in model.live && rxBuf != model.output
      ensures proceed && recurrent ==> model.recurrentTsSize == iface.tsSize
      ensures inputSlice != null ==> inputSlice != model.output && inputSlice != rxBuf
      ensures proceed && recurrent ==> inputSlice != null && inputSlice.Length == model.inputSize && InputSlice in model.live
      ensures model.recurrentTsSize ==
        if recurrent && StreamBuffersRequested(model.plan, old(model.trace)) then iface.tsSize
        else old(model.recurrentTsSize)
    {
      var m := model;
      proceed, inputSlice, rxBuf := false, null, new int[0];
      ghost var t0 := m.trace;
      st, iface := m.OpenStream();
      assert m.trace == t0 + [StreamInit];
      if st != Success {
        return;
      }
      var rxOk := m.Malloc(RxBuf);
      assert m.trace == t0 + [StreamInit, Alloc(RxBuf)];
      if !rxOk {
        st := AllocErr;
        return;
      }
      rxBuf := new int[iface.inputSize];
      if recurrent {
        m.recurrentTsSize := iface.tsSize;
        var ok := m.Malloc(InputSlice);
        if !ok {
          m.Free(RxBuf);
          st := AllocErr;
          return;
        }
        inputSlice := new int[m.inputSize];
      }
      proceed, st := true, Success;
    }

    /** One pass of the sample loop (lines 341-397). `broke` says that the receive failed
        and the loop is left; otherwise `proceed` false says that the task returns `st`. */
    method RunStreamSample(recurrent: bool, iface: Session, rxBuf: array<int>, inputSlice: array?<int>,
                           ghost env: StreamEnv)
      returns (proceed: bool, broke: bool, st: Status)
      requires Ready() && env == StreamEnv(recurrent, model.inputSize) && StreamFits(model.plan, env)
      requires iface == model.plan.session
      requires rxBuf != model.output && rxBuf.Length == iface.inputSize && RxBuf in model.live
      requires recurrent ==> model.recurrentTsSize == iface.tsSize && InputSlice in model.live
      requires recurrent ==> inputSlice != null && inputSlice != model.output && inputSlice != rxBuf
      requires recurrent ==> inputSlice.Length == model.inputSize
      modifies model`trace, model`live, model.output, rxBuf, inputSlice
      ensures var e := StreamSample(model.plan, old(model.State()), env);
        (proceed <==> e.Continue?) && (broke <==> e.Break?)
        && (proceed ==> model.State() == e.next)
        && (broke ==> model.State() == e.at)
        && (e.Return? ==> StreamRun(model.State(), st) == e.run)
      ensures proceed || broke ==> RxBuf in model.live && (recurrent ==> InputSlice in model.live)
    {
      var m := model;
      proceed, broke := false, false;
      if recurrent {
        st := m.Notify(Reset);
        if st != Success {
          m.Free(InputSlice);
          m.Free(RxBuf);
          return false, false, InferenceError;
        }
      }
      st := m.Receive(rxBuf);
      if st != Success {
        return false, true, st;
      }
      proceed, st := InferAndSend(recurrent, iface, rxBuf, inputSlice, env);
    }

    /** The engine runs on the received frame and the send of the output (lines 359-397).
        `proceed` false says that the task returns `st`. */
    method InferAndSend(recurrent: bool, iface: Session, rxBuf: array<int>, inputSlice: array?<int>,
                        ghost env: StreamEnv)
      returns (proceed: bool, st: Status)
      requires Ready() && env == StreamEnv(recurrent, model.inputSize) && StreamFits(model.plan, env)
      requires iface == model.plan.session
      requires rxBuf != model.output && rxBuf.Length == iface.inputSize && RxBuf in model.live
      requires rxBuf[..] == Data(model.plan, model.trace, iface.inputSize)
      requires recurrent ==> model.recurrentTsSize == iface.tsSize && InputSlice in model.live
      requires recurrent ==> inputSlice != null && inputSlice != model.output && inputSlice != rxBuf
      requires recurrent ==> inputSlice.Length == model.inputSize
      modifies model`trace, model`live, model.output, inputSlice
      ensures var e := SampleTail(model.plan, old(model.State()), env);
        (proceed <==> e.Continue?) && (proceed ==> model.State() == e.next)
        && (e.Return? ==> StreamRun(model.State(), st) == e.run)
      ensures proceed ==> RxBuf in model.live && (recurrent ==> InputSlice in model.live)
    {
      var m := model;
      proceed := false;
      if recurrent {
        st := RunTimeSteps(rxBuf[..], 0, rxBuf[..], inputSlice);
        if st != Success {
          m.Free(RxBuf);
          m.Free(InputSlice);
          return;
        }
      } else {
        st := m.Run(rxBuf[..]);
        if st != Success {
          m.Free(RxBuf);
          return;
        }
      }
      st := m.SendOutput();
      if st != Success {
        m.Free(RxBuf);
        return false, AllocErr;
      }
      proceed := true;
    }

    /** The sample loop of the streaming run and what follows it (lines 338-415). */
    method RunStreamSamples(recurrent: bool, iface: Session, rxBuf: array<int>, inputSlice: array?<int>,
                            ghost env: StreamEnv)
      returns (st: Status)
      requires Ready() && env == StreamEnv(recurrent, model.inputSize) && StreamFits(model.plan, env)
      requires iface == model.plan.session
      requires rxBuf != model.output && rxBuf.Length == iface.inputSize && RxBuf in model.live
      requires recurrent ==> model.recurrentTsSize == iface.tsSize && InputSlice in model.live
      requires recurrent ==> inputSlice != null && inputSlice != model.output && inputSlice != rxBuf
      requires recurrent ==> inputSlice.Length == model.inputSize
      modifies model`trace, model`live, model.output, rxBuf, inputSlice
      ensures StreamLoop(model.plan, old(model.State()), env, 0) == StreamRun(model.State(), st)
    {
      var m := model;
      var p := m.plan;
      ghost var s0 := m.State();
      var i: nat := 0;
      while i < iface.numSamples
        invariant i <= iface.numSamples
        invariant StreamLoop(p, m.State(), env, i) == StreamLoop(p, s0, env, 0)
        invariant RxBuf in m.live && (recurrent ==> InputSlice in m.live)
      {
        var proceed, broke;
        proceed, broke, st := RunStreamSample(recurrent, iface, rxBuf, inputSlice, env);
        if broke {
          break;
        }
        if !proceed {
          return;
        }
        i := i + 1;
      }
      st := FinishStream(recurrent, env);
    }

    /** What follows the sample loop (lines 400-415): the frees, the profile log, whose
        failure makes the task return BadModel, and the completion notice. */
    method FinishStream(recurrent: bool, ghost env: StreamEnv) returns (st: Status)
      requires Ready() && env.recurrent == recurrent
      requires RxBuf in model.live && (recurrent ==> InputSlice in model.live)
      modifies model`trace, model`live
      ensures StreamFinish(model.plan, old(model.State()), env) == StreamRun(model.State(), st)
    {
      var m := model;
      m.Free(RxBuf);
      if recurrent {
        m.Free(InputSlice);
      }
      st := m.Notify(ProfileLog);
      if st != Success {
        return BadModel;
      }
      st := m.Notify(Done);
    }

    /** ml_validation_stream_task. The host's frames must hold recurrent_ts_size windows of
        the model input size, which the source does not check. */
    method StreamTask(recurrent: bool) returns (st: Status)
      requires Ready() && StreamFits(model.plan, StreamEnv(recurrent, model.inputSize))
      modifies model, model.output
      ensures StreamSpec(model.plan, old(model.State()), StreamEnv(recurrent, model.inputSize))
              == StreamRun(model.State(), st)
      ensures model.recurrentTsSize ==
        if recurrent && StreamBuffersRequested(model.plan, old(model.trace)) then model.plan.session.tsSize
        else old(model.recurrentTsSize)
    {
      ghost var env := StreamEnv(recurrent, model.inputSize);
      var proceed, iface, rxBuf, inputSlice;
      proceed, st, iface, rxBuf, inputSlice := StartStream(recurrent, env);
      if !proceed {
        return;
      }
      st := RunStreamSamples(recurrent, iface, rxBuf, inputSlice, env);
    }
  }
}
