/** What `ml_validation_stream_task` guarantees: the exact order of calls when every call
    succeeds, and, for each call that can fail first, the status returned, the events that
    still follow and the buffers left allocated. */
module StreamProps {
  import opened ResultCodes
  import opened Collaborators
  import opened Traces
  import opened ValidationSpec
  import opened LocalProps

  /** The frees after the sample loop: the receive buffer, then the recurrent input slice. */
  function Frees(recurrent: bool): seq<Event> {
    [Free(RxBuf)] + (if recurrent then [Free(InputSlice)] else [])
  }

  /** The buffers held during the sample loop. */
  function Held(recurrent: bool): multiset<Buf> {
    multiset{RxBuf} + (if recurrent then multiset{InputSlice} else multiset{})
  }

  lemma HeldCancel(base: multiset<Buf>, recurrent: bool)
    ensures base + Held(recurrent) - Held(recurrent) == base
  {
  }

  /** The number of engine runs per sample: recurrent_ts_size for a recurrent model (none
      when it is not positive, since the source never checks it), one otherwise. */
  function RunsPerSample(env: StreamEnv, ts: int): nat {
    if !env.recurrent then 1 else if ts > 0 then ts else 0
  }

  /** The calls of one sample with their data erased: reset (recurrent only), receive, the
      engine runs, send. */
  function Sample(env: StreamEnv, ts: int): seq<Event> {
    (if env.recurrent then [Reset] else []) + [Recv] + Repeat([Run([])], RunsPerSample(env, ts)) + [Send([])]
  }

  /** The calls after the last sample: the frees, the profile log, the completion notice. */
  function Finale(recurrent: bool): seq<Event> {
    Frees(recurrent) + [ProfileLog, Done]
  }

  /** The calls before the first sample: the handshake and the buffer allocations. */
  function Opening(recurrent: bool): seq<Event> {
    [StreamInit, Alloc(RxBuf)] + (if recurrent then [Alloc(InputSlice)] else [])
  }

  /** Every call of a streaming run in which nothing fails, with the data they carry erased. */
  function HappyTrace(p: Plan, env: StreamEnv): seq<Event> {
    Opening(env.recurrent) + (Repeat(Sample(env, p.session.tsSize), p.session.numSamples) + Finale(env.recurrent))
  }

  /** What remains of the happy trace from sample i on: the samples left and the finale. */
  function Remaining(p: Plan, env: StreamEnv, i: nat): seq<Event>
    requires i <= p.session.numSamples
  {
    Repeat(Sample(env, p.session.tsSize), p.session.numSamples - i) + Finale(env.recurrent)
  }

  /** Sample i is the head of what remains from sample i. */
  lemma RemainingStep(p: Plan, env: StreamEnv, i: nat)
    requires i < p.session.numSamples
    ensures Remaining(p, env, i) == Sample(env, p.session.tsSize) + Remaining(p, env, i + 1)
  {
    RepeatStep(Sample(env, p.session.tsSize), p.session.numSamples - i, p.session.numSamples - (i + 1),
               Finale(env.recurrent));
  }

  /** The collaborator state after the handshake and the buffer allocations. */
  function Opened(p: Plan, s: St, env: StreamEnv): St {
    var s2 := AllocStep(p, Call(s, StreamInit), RxBuf);
    if env.recurrent then AllocStep(p, s2, InputSlice) else s2
  }

  /** The events after a failed receive: the frees and the profile log, and the completion
      notice unless the profile log failed; BadModel in that case, the status of the
      completion notice otherwise. The receive error itself is never returned. */
  predicate FinishedAfter(p: Plan, env: StreamEnv, u: seq<Event>, rest: seq<Event>, st: Status) {
    var v := Frees(env.recurrent) + [ProfileLog];
    if p.status(u + v) != Success then rest == v && st == BadModel
    else rest == v + [Done] && st == p.status(u + rest)
  }

  /** The exit table of the streaming run. u ends with the call that failed first, rest is
      what follows it; st is the status returned, live the buffers left allocated and base
      those live before the task. */
  ghost predicate Row(p: Plan, env: StreamEnv, u: seq<Event>, rest: seq<Event>, st: Status,
                      live: multiset<Buf>, base: multiset<Buf>)
    requires |u| > 0
  {
    match u[|u| - 1]
    case StreamInit => st == p.status(u) && rest == [] && live == base
    case Alloc(b) =>
      st == AllocErr && rest == (if b == RxBuf then [] else [Free(RxBuf)]) && live == base
    case Reset => st == InferenceError && rest == [Free(InputSlice), Free(RxBuf)] && live == base
    case Recv => FinishedAfter(p, env, u, rest, st) && live == base
    case Run(_) => st == p.status(u) && rest == Frees(env.recurrent) && live == base
    case Send(_) =>
      st == AllocErr && rest == [Free(RxBuf)]
      && live == base + (if env.recurrent then multiset{InputSlice} else multiset{})
    case ProfileLog => st == BadModel && rest == [] && live == base
    case Done => st == p.status(u) && rest == [] && live == base
    case _ => false
  }

  /** Some call at or after a failed, and the run ended as the exit table says for the first. */
  ghost predicate Stops(p: Plan, env: StreamEnv, t: seq<Event>, a: nat, st: Status,
                        live: multiset<Buf>, base: multiset<Buf>)
    requires a <= |t|
  {
    var k := FirstFailure(p, t, a);
    k < |t| && Row(p, env, t[..k + 1], t[k + 1..], st, live, base)
  }

  /** A failed call preceded only by successes, followed by what its row of the exit table
      says, is how the run stops. */
  lemma StopsRow(p: Plan, env: StreamEnv, u: seq<Event>, rest: seq<Event>, a: nat, st: Status,
                 live: multiset<Buf>, base: multiset<Buf>)
    requires a < |u| && OkSince(p, u[..|u| - 1], a)
    requires IsCall(u[|u| - 1]) && p.status(u) != Success
    requires Row(p, env, u, rest, st, live, base)
    ensures a <= |u + rest| && Stops(p, env, u + rest, a, st, live, base)
  {
    StopsAt(p, u, rest, a);
  }

  /** A run that stops at a failed call is not one in which every call succeeded. */
  lemma StopsNotOk(p: Plan, env: StreamEnv, t: seq<Event>, a: nat, st: Status,
                   live: multiset<Buf>, base: multiset<Buf>)
    requires a <= |t| && Stops(p, env, t, a, st, live, base)
    ensures !OkSince(p, t, a)
  {
    if OkSince(p, t, a) {
      NoFailure(p, t, a);
    }
  }

  lemma OkSinceFrees(p: Plan, t: seq<Event>, a: nat, recurrent: bool)
    requires a <= |t| && OkSince(p, t, a)
    ensures OkSince(p, t + Frees(recurrent), a)
  {
    var t1 := t + [Free(RxBuf)];
    OkSinceStep(p, t, a, Free(RxBuf));
    if recurrent {
      OkSinceStep(p, t1, a, Free(InputSlice));
      assert t + Frees(recurrent) == t1 + [Free(InputSlice)];
    } else {
      assert t + Frees(recurrent) == t1;
    }
  }

  /** A failed call that was preceded only by successes is the first failure of any
      continuation. */
  lemma StopsAt(p: Plan, u: seq<Event>, rest: seq<Event>, a: nat)
    requires a < |u| && OkSince(p, u[..|u| - 1], a)
    requires IsCall(u[|u| - 1]) && p.status(u) != Success
    ensures FirstFailure(p, u + rest, a) == |u| - 1
    ensures (u + rest)[..|u|] == u && (u + rest)[|u|..] == rest && (u + rest)[|u| - 1] == u[|u| - 1]
  {
    var t := u + rest;
    assert t[..|u|] == u;
    FirstFailureAtEnd(p, t, u, a);
  }

  /** A trace holding a failed call at or after a is not a run in which every call succeeded. */
  lemma FailedCallBlocks(p: Plan, u: seq<Event>, rest: seq<Event>, a: nat)
    requires a < |u| && IsCall(u[|u| - 1]) && p.status(u) != Success
    ensures !OkSince(p, u + rest, a)
  {
    var t := u + rest;
    assert t[..|u|] == u;
    assert u[..|u|] == u;
    FailedAtPrefix(p, t, u, |u| - 1);
  }

  lemma {:induction false} ErasedWindows(x: seq<int>, w: nat, a: nat, b: nat)
    requires a <= b && b * w <= |x|
    ensures Erased(Windows(x, w, a, b)) == Repeat([Run([])], b - a)
    decreases b - a
  {
    if a < b {
      WindowsHead(x, w, a, b);
      ErasedWindows(x, w, a + 1, b);
      assert Repeat([Run([])], b - a) == [Run([])] + Repeat([Run([])], b - (a + 1));
    }
  }

  /** The first window erases to a bare run. */
  lemma WindowsHead(x: seq<int>, w: nat, a: nat, b: nat)
    requires a < b && b * w <= |x|
    ensures Erased(Windows(x, w, a, b)) == [Run([])] + Erased(Windows(x, w, a + 1, b))
  {
    MulMono(a + 1, b, w);
    var h := x[a * w .. (a + 1) * w];
    assert Windows(x, w, a, b) == [Run(h)] + Windows(x, w, a + 1, b);
    ErasedConcat([Run(h)], Windows(x, w, a + 1, b));
    ErasedOne(Run(h));
  }

  /** The end of the streaming run: the frees, the profile log and, unless it failed, the
      completion notice, whose status is returned. */
  lemma StreamFinishShape(p: Plan, s: St, env: StreamEnv)
    ensures var r := StreamFinish(p, s, env); var v := s.trace + (Frees(env.recurrent) + [ProfileLog]);
      r.state.live == s.live - Held(env.recurrent)
      && (p.status(v) != Success ==> r.state.trace == v && r.status == BadModel)
      && (p.status(v) == Success ==> r.state.trace == v + [Done] && r.status == p.status(r.state.trace))
  {
    var s1 := FreeStep(s, RxBuf);
    var s2 := if env.recurrent then FreeStep(s1, InputSlice) else s1;
    assert s2.trace == s.trace + Frees(env.recurrent);
    assert s2.trace + [ProfileLog] == s.trace + (Frees(env.recurrent) + [ProfileLog]);
    if env.recurrent {
      assert s2.live == s.live - multiset{RxBuf} - multiset{InputSlice};
    }
  }

  /** The engine runs of one sample either all succeed, recording RunsPerSample runs, or
      stop at the first failing run, whose status is kept. */
  lemma SampleRunsOutcome(p: Plan, s: St, env: StreamEnv, frame: seq<int>, a: nat)
    requires env.recurrent ==> p.session.tsSize * env.w <= |frame|
    requires a <= |s.trace| && OkSince(p, s.trace, a)
    ensures var (r, st) := SampleRuns(p, s, env, frame);
      r.live == s.live && Extends(r.trace, s.trace)
      && (st == Success ==>
            OkSince(p, r.trace, a)
            && Erased(r.trace[|s.trace|..]) == Repeat([Run([])], RunsPerSample(env, p.session.tsSize)))
      && (st != Success ==>
            |r.trace| > |s.trace| && r.trace[|r.trace| - 1].Run? && p.status(r.trace) != Success
            && st == p.status(r.trace) && OkSince(p, r.trace[..|r.trace| - 1], a))
  {
    var ts := p.session.tsSize;
    var (r, st) := SampleRuns(p, s, env, frame);
    if env.recurrent {
      if ts > 0 {
        RecurrentRunsOutcome(p, s, frame, ts, env.w, a);
      } else {
        assert r == s;
      }
    } else {
      assert r.trace[..|r.trace| - 1] == s.trace;
      if st == Success {
        OkSinceStep(p, s.trace, a, Run(frame));
        assert r.trace[|s.trace|..] == [Run(frame)];
      }
    }
  }

  lemma RecurrentRunsOutcome(p: Plan, s: St, frame: seq<int>, ts: int, w: nat, a: nat)
    requires 0 < ts && ts * w <= |frame|
    requires a <= |s.trace| && OkSince(p, s.trace, a)
    ensures var (r, st) := RnnRuns(p, s, frame, 0, ts, w);
      r.live == s.live && Extends(r.trace, s.trace)
      && (st == Success ==> OkSince(p, r.trace, a) && Erased(r.trace[|s.trace|..]) == Repeat([Run([])], ts))
      && (st != Success ==>
            |r.trace| > |s.trace| && r.trace[|r.trace| - 1].Run? && p.status(r.trace) != Success
            && st == p.status(r.trace) && OkSince(p, r.trace[..|r.trace| - 1], a))
  {
    var (r, st) := RnnRuns(p, s, frame, 0, ts, w);
    RnnRunsOutcome(p, s, frame, 0, ts, w, a);
    RnnRunsShape(p, s, frame, 0, ts, w);
    var m := |r.trace| - |s.trace|;
    MulMono(m, ts, w);
    assert r.trace[|s.trace|..] == Windows(frame, w, 0, m);
    if st == Success {
      ErasedWindows(frame, w, 0, ts);
    }
  }

  /** One sample that goes through: its calls, erased, are one Sample block, they all
      succeeded, and the buffers are unchanged. */
  lemma SampleContinues(p: Plan, s: St, env: StreamEnv, a: nat)
    requires StreamFits(p, env) && a <= |s.trace| && OkSince(p, s.trace, a)
    requires StreamSample(p, s, env).Continue?
    ensures var s4 := StreamSample(p, s, env).next;
      Extends(s4.trace, s.trace) && Erased(s4.trace[|s.trace|..]) == Sample(env, p.session.tsSize)
      && OkSince(p, s4.trace, a) && s4.live == s.live
  {
    var s1 := if env.recurrent then Call(s, Reset) else s;
    if env.recurrent {
      OkSinceStep(p, s.trace, a, Reset);
    }
    var s2 := Call(s1, Recv);
    OkSinceStep(p, s1.trace, a, Recv);
    var frame := Data(p, s2.trace, p.session.inputSize);
    SampleRunsOutcome(p, s2, env, frame, a);
    var s3 := SampleRuns(p, s2, env, frame).0;
    var s4 := Call(s3, Send(s3.out));
    OkSinceStep(p, s3.trace, a, Send(s3.out));
    var R := if env.recurrent then [Reset] else [];
    var pre := R + [Recv];
    var runs := s3.trace[|s2.trace|..];
    assert s1.trace == s.trace + R;
    AppendAssoc(s.trace, R, [Recv]);
    assert s3.trace == s2.trace + runs;
    TailSlice(s.trace, pre, runs, [Send(s3.out)]);
    ErasedConcat(pre + runs, [Send(s3.out)]);
    ErasedConcat(pre, runs);
    ErasedOne(Send(s3.out));
    ErasedPrefix(env.recurrent);
  }

  /** One sample that goes through, with its data: the engine runs on the frame the receive
      delivered (in the recurrent mode run i on window i of it) and the send carries the
      output of the last run, or the output buffer as it was when no run took place. */
  lemma SampleCarriesData(p: Plan, s: St, env: StreamEnv)
    requires StreamFits(p, env) && StreamSample(p, s, env).Continue?
    ensures var s2 := Call(if env.recurrent then Call(s, Reset) else s, Recv);
      var frame := Data(p, s2.trace, p.session.inputSize);
      var runs := if env.recurrent then Windows(frame, env.w, 0, RunsPerSample(env, p.session.tsSize))
                  else [Run(frame)];
      var sent := if runs == [] then s.out else Data(p, s2.trace + runs, |s.out|);
      StreamSample(p, s, env).next.trace == s2.trace + runs + [Send(sent)]
  {
    var ts := p.session.tsSize;
    var s2 := Call(if env.recurrent then Call(s, Reset) else s, Recv);
    var frame := Data(p, s2.trace, p.session.inputSize);
    var s3 := SampleRuns(p, s2, env, frame).0;
    if env.recurrent && ts > 0 {
      RnnRunsOutcome(p, s2, frame, 0, ts, env.w, |s2.trace|);
      RnnRunsShape(p, s2, frame, 0, ts, env.w);
    } else if env.recurrent {
      assert s3 == s2;
      assert Windows(frame, env.w, 0, 0) == [];
    }
  }

  lemma TailSlice(t: seq<Event>, x: seq<Event>, y: seq<Event>, z: seq<Event>)
    ensures |t| <= |t + x + y + z| && (t + x + y + z)[..|t|] == t && (t + x + y + z)[|t|..] == x + y + z
  {
  }

  lemma ErasedPrefix(recurrent: bool)
    ensures var pre := (if recurrent then [Reset] else []) + [Recv]; Erased(pre) == pre
  {
    var pre := (if recurrent then [Reset] else []) + [Recv];
    ErasedOne(Recv);
    if recurrent {
      ErasedOne(Reset);
      ErasedConcat([Reset], [Recv]);
    } else {
      assert pre == [Recv];
    }
  }

  /** One sample whose receive fails: the calls before it succeeded and nothing was freed. */
  lemma SampleBreaks(p: Plan, s: St, env: StreamEnv, a: nat)
    requires StreamFits(p, env) && a <= |s.trace| && OkSince(p, s.trace, a)
    requires StreamSample(p, s, env).Break?
    ensures var s2 := StreamSample(p, s, env).at;
      |s.trace| < |s2.trace| && s2.trace[|s2.trace| - 1] == Recv && p.status(s2.trace) != Success
      && OkSince(p, s2.trace[..|s2.trace| - 1], a) && s2.live == s.live
  {
    var s1 := if env.recurrent then Call(s, Reset) else s;
    if env.recurrent {
      OkSinceStep(p, s.trace, a, Reset);
    }
    var s2 := Call(s1, Recv);
    assert s2.trace[..|s2.trace| - 1] == s1.trace;
  }

  /** One sample that makes the task return: a failed reset, run or send, with the exit
      table's status, trailing frees and live buffers. */
  lemma SampleReturns(p: Plan, s: St, env: StreamEnv, a: nat, base: multiset<Buf>)
    requires StreamFits(p, env) && a <= |s.trace| && OkSince(p, s.trace, a)
    requires s.live == base + Held(env.recurrent)
    requires StreamSample(p, s, env).Return?
    ensures var r := StreamSample(p, s, env).run;
      a <= |r.state.trace| && Stops(p, env, r.state.trace, a, r.status, r.state.live, base)
  {
    var s1 := if env.recurrent then Call(s, Reset) else s;
    if env.recurrent && Answer(p, s1) != Success {
      ResetFails(p, s, env, a, base);
      return;
    }
    if env.recurrent {
      OkSinceStep(p, s.trace, a, Reset);
    }
    var s2 := Call(s1, Recv);
    OkSinceStep(p, s1.trace, a, Recv);
    var frame := Data(p, s2.trace, p.session.inputSize);
    SampleRunsOutcome(p, s2, env, frame, a);
    var (s3, st) := SampleRuns(p, s2, env, frame);
    if st != Success {
      RunFails(p, s3, env, a, base);
    } else {
      SampleSendFails(p, s3, env, a, base);
    }
  }

  lemma ResetFails(p: Plan, s: St, env: StreamEnv, a: nat, base: multiset<Buf>)
    requires env.recurrent
    requires a <= |s.trace| && OkSince(p, s.trace, a) && s.live == base + Held(true)
    requires Answer(p, Call(s, Reset)) != Success
    ensures var r := FreeStep(FreeStep(Call(s, Reset), InputSlice), RxBuf);
      a <= |r.trace| && Stops(p, env, r.trace, a, InferenceError, r.live, base)
  {
    var s1 := Call(s, Reset);
    var rest := [Free(InputSlice), Free(RxBuf)];
    assert s1.trace[..|s1.trace| - 1] == s.trace;
    assert base + Held(true) - multiset{InputSlice} - multiset{RxBuf} == base;
    StopsRow(p, env, s1.trace, rest, a, InferenceError, base, base);
    assert FreeStep(FreeStep(s1, InputSlice), RxBuf).trace == s1.trace + rest;
  }

  lemma RunFails(p: Plan, s3: St, env: StreamEnv, a: nat, base: multiset<Buf>)
    requires a < |s3.trace| && s3.trace[|s3.trace| - 1].Run? && p.status(s3.trace) != Success
    requires OkSince(p, s3.trace[..|s3.trace| - 1], a) && s3.live == base + Held(env.recurrent)
    ensures var r := if env.recurrent then FreeStep(FreeStep(s3, RxBuf), InputSlice) else FreeStep(s3, RxBuf);
      a <= |r.trace| && Stops(p, env, r.trace, a, p.status(s3.trace), r.live, base)
  {
    var r := if env.recurrent then FreeStep(FreeStep(s3, RxBuf), InputSlice) else FreeStep(s3, RxBuf);
    assert r.trace == s3.trace + Frees(env.recurrent);
    if env.recurrent {
      assert base + Held(true) - multiset{RxBuf} - multiset{InputSlice} == base;
    }
    StopsRow(p, env, s3.trace, Frees(env.recurrent), a, p.status(s3.trace), base, base);
  }

  lemma SampleSendFails(p: Plan, s3: St, env: StreamEnv, a: nat, base: multiset<Buf>)
    requires a <= |s3.trace| && OkSince(p, s3.trace, a) && s3.live == base + Held(env.recurrent)
    requires Answer(p, Call(s3, Send(s3.out))) != Success
    ensures var r := FreeStep(Call(s3, Send(s3.out)), RxBuf);
      a <= |r.trace| && Stops(p, env, r.trace, a, AllocErr, r.live, base)
  {
    var s4 := Call(s3, Send(s3.out));
    assert s4.trace[..|s4.trace| - 1] == s3.trace;
    var leaked := base + (if env.recurrent then multiset{InputSlice} else multiset{});
    assert base + Held(env.recurrent) - multiset{RxBuf} == leaked;
    StopsRow(p, env, s4.trace, [Free(RxBuf)], a, AllocErr, leaked, base);
  }

  /** After a failed receive: the finish makes it the first failure with FinishedAfter's
      events and status, and every buffer is freed. */
  lemma BreakStops(p: Plan, s2: St, env: StreamEnv, a: nat, base: multiset<Buf>)
    requires a < |s2.trace| && s2.trace[|s2.trace| - 1] == Recv && p.status(s2.trace) != Success
    requires OkSince(p, s2.trace[..|s2.trace| - 1], a) && s2.live == base + Held(env.recurrent)
    ensures var r := StreamFinish(p, s2, env);
      a <= |r.state.trace| && Stops(p, env, r.state.trace, a, r.status, r.state.live, base)
  {
    StreamFinishShape(p, s2, env);
    var r := StreamFinish(p, s2, env);
    var u := s2.trace;
    var v := Frees(env.recurrent) + [ProfileLog];
    var rest := if p.status(u + v) != Success then v else v + [Done];
    AppendAssoc(u, v, [Done]);
    assert r.state.trace == u + rest;
    assert FinishedAfter(p, env, u, rest, r.status);
    HeldCancel(base, env.recurrent);
    RecvRow(p, env, u, rest, r.status, r.state.live, base);
    StopsRow(p, env, u, rest, a, r.status, r.state.live, base);
  }

  lemma RecvRow(p: Plan, env: StreamEnv, u: seq<Event>, rest: seq<Event>, st: Status,
                live: multiset<Buf>, base: multiset<Buf>)
    requires |u| > 0 && u[|u| - 1] == Recv && FinishedAfter(p, env, u, rest, st) && live == base
    ensures Row(p, env, u, rest, st, live, base)
  {
  }

  /** The finish after a full loop in which every call succeeded: a failure, if any, is the
      profile log (BadModel) or the completion notice (its status). */
  lemma FinishStops(p: Plan, s: St, env: StreamEnv, a: nat, base: multiset<Buf>)
    requires a <= |s.trace| && OkSince(p, s.trace, a) && s.live == base + Held(env.recurrent)
    ensures var r := StreamFinish(p, s, env);
      a <= |r.state.trace| && r.state.live == base
      && (FirstFailure(p, r.state.trace, a) < |r.state.trace| ==>
            Stops(p, env, r.state.trace, a, r.status, r.state.live, base))
  {
    StreamFinishShape(p, s, env);
    HeldCancel(base, env.recurrent);
    var f := s.trace + Frees(env.recurrent);
    OkSinceFrees(p, s.trace, a, env.recurrent);
    var v := f + [ProfileLog];
    AppendAssoc(s.trace, Frees(env.recurrent), [ProfileLog]);
    if p.status(v) != Success {
      ProfileLogFails(p, f, env, a, base);
    } else {
      OkSinceStep(p, f, a, ProfileLog);
      FinishDone(p, v, env, a, base);
    }
  }

  lemma ProfileLogFails(p: Plan, f: seq<Event>, env: StreamEnv, a: nat, base: multiset<Buf>)
    requires a <= |f| && OkSince(p, f, a) && p.status(f + [ProfileLog]) != Success
    ensures Stops(p, env, f + [ProfileLog], a, BadModel, base, base)
  {
    var v := f + [ProfileLog];
    assert v[..|v| - 1] == f;
    StopsRow(p, env, v, [], a, BadModel, base, base);
    assert v + [] == v;
  }

  lemma FinishDone(p: Plan, v: seq<Event>, env: StreamEnv, a: nat, base: multiset<Buf>)
    requires a <= |v| && OkSince(p, v, a)
    ensures var d := v + [Done];
      FirstFailure(p, d, a) < |d| ==> Stops(p, env, d, a, p.status(d), base, base)
  {
    var d := v + [Done];
    assert d[..|d| - 1] == v;
    if p.status(d) != Success {
      StopsRow(p, env, d, [], a, p.status(d), base, base);
      assert d + [] == d;
    } else {
      OkSinceStep(p, v, a, Done);
      NoFailure(p, d, a);
    }
  }

  /** The sample loop from sample i on: if a call at or after a failed, the run ended as the
      exit table says. */
  lemma {:induction false} StreamLoopStops(p: Plan, s: St, env: StreamEnv, i: nat, a: nat, base: multiset<Buf>)
    requires StreamFits(p, env) && a <= |s.trace| && OkSince(p, s.trace, a)
    requires s.live == base + Held(env.recurrent)
    ensures var r := StreamLoop(p, s, env, i);
      a <= |r.state.trace|
      && (FirstFailure(p, r.state.trace, a) < |r.state.trace| ==>
            Stops(p, env, r.state.trace, a, r.status, r.state.live, base))
    decreases p.session.numSamples - i
  {
    if i >= p.session.numSamples {
      FinishStops(p, s, env, a, base);
    } else {
      match StreamSample(p, s, env)
      case Continue(s4) =>
        SampleContinues(p, s, env, a);
        StreamLoopStops(p, s4, env, i + 1, a, base);
      case Break(s2) =>
        SampleBreaks(p, s, env, a);
        BreakStops(p, s2, env, a, base);
      case Return(r) =>
        SampleReturns(p, s, env, a, base);
    }
  }

  /** The sample loop from sample i on, when every call at or after a succeeded: the
      remaining samples' calls, the frees, the profile log and the completion notice, in
      this order; Success (the notice's status) is returned and every buffer is freed. */
  lemma {:induction false} StreamLoopHappy(p: Plan, s: St, env: StreamEnv, i: nat, a: nat, base: multiset<Buf>)
    requires StreamFits(p, env) && i <= p.session.numSamples
    requires a <= |s.trace| && OkSince(p, s.trace, a) && s.live == base + Held(env.recurrent)
    ensures var r := StreamLoop(p, s, env, i);
      OkSince(p, r.state.trace, a) ==>
        Extends(r.state.trace, s.trace) && Erased(r.state.trace[|s.trace|..]) == Remaining(p, env, i)
        && r.status == Success && r.state.live == base
    decreases p.session.numSamples - i, 1
  {
    if i == p.session.numSamples {
      FinaleHappy(p, s, env, a, base);
      assert Remaining(p, env, i) == Finale(env.recurrent) by {
        assert Repeat(Sample(env, p.session.tsSize), 0) + Finale(env.recurrent) == Finale(env.recurrent);
      }
    } else if StreamSample(p, s, env).Continue? {
      SampleContinues(p, s, env, a);
      LoopContinues(p, s, env, i);
      LoopHappyContinue(p, s, StreamSample(p, s, env).next, env, i, a, base);
    } else {
      LoopHappyExit(p, s, env, i, a, base);
    }
  }

  /** A sample that went through from s to s4: its Sample block, then the happy rest of the
      loop from the next sample. */
  lemma {:induction false} LoopHappyContinue(p: Plan, s: St, s4: St, env: StreamEnv, i: nat, a: nat,
                                             base: multiset<Buf>)
    requires StreamFits(p, env) && i < p.session.numSamples && a <= |s.trace|
    requires Extends(s4.trace, s.trace) && Erased(s4.trace[|s.trace|..]) == Sample(env, p.session.tsSize)
    requires OkSince(p, s4.trace, a) && s4.live == base + Held(env.recurrent)
    ensures var r := StreamLoop(p, s4, env, i + 1);
      OkSince(p, r.state.trace, a) ==>
        Extends(r.state.trace, s.trace) && Erased(r.state.trace[|s.trace|..]) == Remaining(p, env, i)
        && r.status == Success && r.state.live == base
    decreases p.session.numSamples - i, 0
  {
    RemainingStep(p, env, i);
    BlockThen(s.trace, s4.trace, StreamLoop(p, s4, env, i + 1).state.trace, Sample(env, p.session.tsSize),
              Remaining(p, env, i + 1), Remaining(p, env, i));
    StreamLoopHappy(p, s4, env, i + 1, a, base);
  }

  /** A block from t0 to t1, then more from t1 to t2, make block + more from t0 to t2. */
  lemma BlockThen(t0: seq<Event>, t1: seq<Event>, t2: seq<Event>, block: seq<Event>, more: seq<Event>,
                  h: seq<Event>)
    requires Extends(t1, t0) && Erased(t1[|t0|..]) == block && h == block + more
    ensures Extends(t2, t1) && Erased(t2[|t1|..]) == more ==> Extends(t2, t0) && Erased(t2[|t0|..]) == h
  {
    if Extends(t2, t1) && Erased(t2[|t1|..]) == more {
      SliceJoin(t0, t1, t2);
      ErasedConcat(t1[|t0|..], t2[|t1|..]);
    }
  }

  lemma LoopContinues(p: Plan, s: St, env: StreamEnv, i: nat)
    requires StreamFits(p, env) && i < p.session.numSamples && StreamSample(p, s, env).Continue?
    ensures StreamLoop(p, s, env, i) == StreamLoop(p, StreamSample(p, s, env).next, env, i + 1)
  {
  }

  /** A sample that breaks the loop or returns leaves a failed call behind. */
  lemma LoopHappyExit(p: Plan, s: St, env: StreamEnv, i: nat, a: nat, base: multiset<Buf>)
    requires StreamFits(p, env) && i < p.session.numSamples
    requires a <= |s.trace| && OkSince(p, s.trace, a) && s.live == base + Held(env.recurrent)
    requires !StreamSample(p, s, env).Continue?
    ensures !OkSince(p, StreamLoop(p, s, env, i).state.trace, a)
  {
    match StreamSample(p, s, env)
    case Break(s2) =>
      SampleBreaks(p, s, env, a);
      BreakStops(p, s2, env, a, base);
      var r := StreamFinish(p, s2, env);
      StopsNotOk(p, env, r.state.trace, a, r.status, r.state.live, base);
    case Return(r) =>
      SampleReturns(p, s, env, a, base);
      StopsNotOk(p, env, r.state.trace, a, r.status, r.state.live, base);
  }

  /** The part of t2 after t0 is the part of t1 after t0, then the part of t2 after t1. */
  lemma SliceJoin(t0: seq<Event>, t1: seq<Event>, t2: seq<Event>)
    requires Extends(t1, t0) && Extends(t2, t1)
    ensures Extends(t2, t0) && t2[|t0|..] == t1[|t0|..] + t2[|t1|..]
  {
  }

  /** RepeatThen with the smaller count named. */
  lemma RepeatStep(block: seq<Event>, n: nat, m: nat, fin: seq<Event>)
    requires n == m + 1
    ensures Repeat(block, n) + fin == block + (Repeat(block, m) + fin)
  {
    assert Repeat(block, n) == block + Repeat(block, m);
    AppendAssoc(block, Repeat(block, m), fin);
  }

  lemma RepeatThen(block: seq<Event>, k: nat, fin: seq<Event>)
    requires k > 0
    ensures Repeat(block, k) + fin == block + (Repeat(block, k - 1) + fin)
  {
    AppendAssoc(block, Repeat(block, k - 1), fin);
  }

  /** The finish after the last sample when every call succeeded: the frees, the profile log
      and the completion notice, whose Success is returned, and no buffer is left. */
  lemma FinaleHappy(p: Plan, s: St, env: StreamEnv, a: nat, base: multiset<Buf>)
    requires a <= |s.trace| && OkSince(p, s.trace, a) && s.live == base + Held(env.recurrent)
    ensures var r := StreamFinish(p, s, env);
      OkSince(p, r.state.trace, a) ==>
        Extends(r.state.trace, s.trace) && Erased(r.state.trace[|s.trace|..]) == Finale(env.recurrent)
        && r.status == Success && r.state.live == base
  {
    var r := StreamFinish(p, s, env);
    StreamFinishShape(p, s, env);
    HeldCancel(base, env.recurrent);
    if OkSince(p, r.state.trace, a) {
      FinaleAllSucceed(p, s, env, a);
    }
  }

  lemma FinaleAllSucceed(p: Plan, s: St, env: StreamEnv, a: nat)
    requires a <= |s.trace| && OkSince(p, StreamFinish(p, s, env).state.trace, a)
    ensures var r := StreamFinish(p, s, env);
      Extends(r.state.trace, s.trace) && Erased(r.state.trace[|s.trace|..]) == Finale(env.recurrent)
      && r.status == Success
  {
    var r := StreamFinish(p, s, env);
    var t := r.state.trace;
    StreamFinishShape(p, s, env);
    var v := s.trace + (Frees(env.recurrent) + [ProfileLog]);
    assert t[..|t|] == t;
    assert !FailedAt(p, t, |t| - 1);
    if p.status(v) == Success {
      FinaleSlice(s.trace, t, env.recurrent);
      FinaleErased(env.recurrent);
    }
  }

  lemma FinaleSlice(x: seq<Event>, t: seq<Event>, recurrent: bool)
    requires t == (x + (Frees(recurrent) + [ProfileLog])) + [Done]
    ensures Extends(t, x) && t[|x|..] == Finale(recurrent)
  {
    AppendAssoc(x, Frees(recurrent) + [ProfileLog], [Done]);
    AppendAssoc(Frees(recurrent), [ProfileLog], [Done]);
  }


  lemma FinaleErased(recurrent: bool)
    ensures Erased(Finale(recurrent)) == Finale(recurrent)
  {
    var f := Finale(recurrent);
    if recurrent {
      assert f == [Free(RxBuf), Free(InputSlice), ProfileLog, Done];
    } else {
      assert f == [Free(RxBuf), ProfileLog, Done];
    }
  }

  /** A streaming run in which every call succeeded got past the handshake and both
      allocations, then ran the sample loop. */
  lemma OpenedOk(p: Plan, s: St, env: StreamEnv)
    requires StreamFits(p, env)
    ensures var r := StreamSpec(p, s, env); var o := Opened(p, s, env);
      o.trace == s.trace + Opening(env.recurrent)
      && (OkSince(p, r.state.trace, |s.trace|) ==>
            r == StreamLoop(p, o, env, 0) && OkSince(p, o.trace, |s.trace|)
            && o.live == s.live + Held(env.recurrent))
  {
    var a := |s.trace|;
    var r := StreamSpec(p, s, env);
    assert OkSince(p, s.trace, a);
    var s1 := Call(s, StreamInit);
    var s2 := AllocStep(p, s1, RxBuf);
    assert s2.trace == s.trace + [StreamInit, Alloc(RxBuf)];
    if Answer(p, s1) != Success {
      FailedCallBlocks(p, s1.trace, [], a);
      assert r.state.trace == s1.trace + [];
      return;
    }
    OkSinceStep(p, s.trace, a, StreamInit);
    if Answer(p, s2) != Success {
      FailedCallBlocks(p, s2.trace, [], a);
      assert r.state.trace == s2.trace + [];
      return;
    }
    OkSinceStep(p, s1.trace, a, Alloc(RxBuf));
    if env.recurrent {
      var s3 := AllocStep(p, s2, InputSlice);
      if Answer(p, s3) != Success {
        FailedCallBlocks(p, s3.trace, [Free(RxBuf)], a);
        assert r.state.trace == s3.trace + [Free(RxBuf)];
        return;
      }
      OkSinceStep(p, s2.trace, a, Alloc(InputSlice));
    }
  }

  /** The opening calls in front of the rest of a run, erased data aside. */
  lemma OpeningCompose(t0: seq<Event>, t1: seq<Event>, t2: seq<Event>, recurrent: bool, rest: seq<Event>)
    requires t1 == t0 + Opening(recurrent)
    requires Extends(t2, t1) && Erased(t2[|t1|..]) == rest
    ensures |t0| <= |t2| && Erased(t2[|t0|..]) == Opening(recurrent) + rest
  {
    var o, x := Opening(recurrent), t2[|t1|..];
    assert t2[|t0|..] == o + x;
    ErasedConcat(o, x);
    assert Erased(o) == o;
  }

  /** When every call of the streaming run succeeds, its calls are exactly HappyTrace (the
      data they carry aside), Success is returned and every buffer allocated is freed. */
  lemma StreamHappyPath(p: Plan, s: St, env: StreamEnv)
    requires StreamFits(p, env)
    ensures var r := StreamSpec(p, s, env);
      OkSince(p, r.state.trace, |s.trace|) ==>
        |s.trace| <= |r.state.trace| && Erased(r.state.trace[|s.trace|..]) == HappyTrace(p, env)
        && r.status == Success && r.state.live == s.live
  {
    var r := StreamSpec(p, s, env);
    var o := Opened(p, s, env);
    OpenedOk(p, s, env);
    if OkSince(p, r.state.trace, |s.trace|) {
      StreamLoopHappy(p, o, env, 0, |s.trace|, s.live);
      OpeningCompose(s.trace, o.trace, r.state.trace, env.recurrent, Remaining(p, env, 0));
      assert HappyTrace(p, env) == Opening(env.recurrent) + Remaining(p, env, 0);
    }
  }

  /** When a call of the streaming run fails, the first failed call decides everything, as
      the exit table says: a failed handshake returns its own status, a failed allocation
      AllocErr, a failed reset InferenceError, a failed run its own status, a failed send
      AllocErr (leaving the recurrent input slice allocated), a failed profile log BadModel;
      a failed receive leaves the loop and still logs and notifies completion. */
  lemma StreamFailurePaths(p: Plan, s: St, env: StreamEnv)
    requires StreamFits(p, env)
    ensures var r := StreamSpec(p, s, env);
      |s.trace| <= |r.state.trace|
      && (FirstFailure(p, r.state.trace, |s.trace|) < |r.state.trace| ==>
            Stops(p, env, r.state.trace, |s.trace|, r.status, r.state.live, s.live))
  {
    var r := StreamSpec(p, s, env);
    var o := Opened(p, s, env);
    OpenedStops(p, s, env);
    if !OpenedStopped(p, s, env, r) {
      StreamLoopStops(p, o, env, 0, |s.trace|, s.live);
    }
  }

  /** A streaming run either stops at a failed handshake or allocation as the exit table
      says, or gets past them with every call succeeded and runs the sample loop. */
  lemma OpenedStops(p: Plan, s: St, env: StreamEnv)
    requires StreamFits(p, env)
    ensures var r := StreamSpec(p, s, env); var o := Opened(p, s, env);
      OpenedStopped(p, s, env, r)
      || (r == StreamLoop(p, o, env, 0) && |s.trace| <= |o.trace| && OkSince(p, o.trace, |s.trace|)
          && o.live == s.live + Held(env.recurrent))
  {
    var a := |s.trace|;
    var r := StreamSpec(p, s, env);
    var s1 := Call(s, StreamInit);
    if Answer(p, s1) != Success {
      InitFails(p, s, env);
      return;
    }
    assert OkSince(p, s.trace, a);
    OkSinceStep(p, s.trace, a, StreamInit);
    var s2 := AllocStep(p, s1, RxBuf);
    if Answer(p, s2) != Success {
      RxAllocFails(p, s, env);
      return;
    }
    OkSinceStep(p, s1.trace, a, Alloc(RxBuf));
    if env.recurrent {
      var s3 := AllocStep(p, s2, InputSlice);
      if Answer(p, s3) != Success {
        SliceAllocFails(p, s, env);
        return;
      }
      OkSinceStep(p, s2.trace, a, Alloc(InputSlice));
      assert Opened(p, s, env) == s3 && r == StreamLoop(p, s3, env, 0);
      assert s3.live == s.live + Held(true);
    } else {
      assert Opened(p, s, env) == s2;
      assert r == StreamLoop(p, s2, env, 0);
      assert s2.live == s.live + Held(false);
    }
  }

  /** The run r from s stopped, as the exit table says, at a call that failed first. */
  ghost predicate OpenedStopped(p: Plan, s: St, env: StreamEnv, r: StreamRun) {
    |s.trace| <= |r.state.trace| && FirstFailure(p, r.state.trace, |s.trace|) < |r.state.trace|
    && Stops(p, env, r.state.trace, |s.trace|, r.status, r.state.live, s.live)
  }

  lemma InitFails(p: Plan, s: St, env: StreamEnv)
    requires StreamFits(p, env) && Answer(p, Call(s, StreamInit)) != Success
    ensures OpenedStopped(p, s, env, StreamSpec(p, s, env))
  {
    var a := |s.trace|;
    var r := StreamSpec(p, s, env);
    var s1 := Call(s, StreamInit);
    assert OkSince(p, s.trace, a);
    assert s1.trace[..|s1.trace| - 1] == s.trace;
    StopsAt(p, s1.trace, [], a);
    assert r.state.trace == s1.trace + [];
  }

  lemma RxAllocFails(p: Plan, s: St, env: StreamEnv)
    requires StreamFits(p, env) && Answer(p, Call(s, StreamInit)) == Success
    requires Answer(p, AllocStep(p, Call(s, StreamInit), RxBuf)) != Success
    ensures OpenedStopped(p, s, env, StreamSpec(p, s, env))
  {
    var a := |s.trace|;
    var r := StreamSpec(p, s, env);
    var s1 := Call(s, StreamInit);
    var s2 := AllocStep(p, s1, RxBuf);
    assert OkSince(p, s.trace, a);
    OkSinceStep(p, s.trace, a, StreamInit);
    assert s2.trace[..|s2.trace| - 1] == s1.trace;
    StopsAt(p, s2.trace, [], a);
    assert r.state.trace == s2.trace + [];
  }

  lemma SliceAllocFails(p: Plan, s: St, env: StreamEnv)
    requires StreamFits(p, env) && env.recurrent && Answer(p, Call(s, StreamInit)) == Success
    requires Answer(p, AllocStep(p, Call(s, StreamInit), RxBuf)) == Success
    requires Answer(p, AllocStep(p, AllocStep(p, Call(s, StreamInit), RxBuf), InputSlice)) != Success
    ensures OpenedStopped(p, s, env, StreamSpec(p, s, env))
  {
    var a := |s.trace|;
    var r := StreamSpec(p, s, env);
    var s1 := Call(s, StreamInit);
    var s2 := AllocStep(p, s1, RxBuf);
    var s3 := AllocStep(p, s2, InputSlice);
    assert OkSince(p, s.trace, a);
    OkSinceStep(p, s.trace, a, StreamInit);
    OkSinceStep(p, s1.trace, a, Alloc(RxBuf));
    assert s3.trace[..|s3.trace| - 1] == s2.trace;
    assert r == StreamRun(FreeStep(s3, RxBuf), AllocErr);
    assert r.state.live == s.live + multiset{RxBuf} - multiset{RxBuf} == s.live;
    assert Row(p, env, s3.trace, [Free(RxBuf)], r.status, r.state.live, s.live);
    StopsRow(p, env, s3.trace, [Free(RxBuf)], a, r.status, r.state.live, s.live);
  }

  /** The calls a streaming run made up to and including its first failed call, with their
      data erased, are the start of HappyTrace: the opening calls, some complete samples, and
      the calls of the next sample (or of the finale) up to the failed one. */
  lemma StreamCallsBeforeFailure(p: Plan, s: St, env: StreamEnv)
    requires StreamFits(p, env)
    ensures var t := StreamSpec(p, s, env).state.trace;
      Extends(t, s.trace)
      && var k := FirstFailure(p, t, |s.trace|);
      k < |t| ==> Erased(t[|s.trace|..k + 1]) <= HappyTrace(p, env)
  {
    var t := StreamSpec(p, s, env).state.trace;
    if !StreamBuffersRequested(p, s.trace) || (env.recurrent && p.status(s.trace + Opening(true)) != Success) {
      OpeningFailPrefix(p, s, env);
    } else {
      OpenedPrefix(p, s, env);
    }
    assert ErasedUpToFailure(p, t, |s.trace|, |s.trace|, HappyTrace(p, env));
  }

  /** A failed handshake or allocation: the calls up to it begin the opening. */
  lemma OpeningFailPrefix(p: Plan, s: St, env: StreamEnv)
    requires StreamFits(p, env)
    requires !StreamBuffersRequested(p, s.trace) || (env.recurrent && p.status(s.trace + Opening(true)) != Success)
    ensures var t := StreamSpec(p, s, env).state.trace;
      Extends(t, s.trace) && ErasedUpToFailure(p, t, |s.trace|, |s.trace|, HappyTrace(p, env))
  {
    if p.status(s.trace + [StreamInit]) != Success {
      InitFailPrefix(p, s, env);
    } else if p.status(s.trace + [StreamInit, Alloc(RxBuf)]) != Success {
      RxAllocFailPrefix(p, s, env);
    } else {
      SliceAllocFailPrefix(p, s, env);
    }
  }

  lemma InitFailPrefix(p: Plan, s: St, env: StreamEnv)
    requires StreamFits(p, env) && p.status(s.trace + [StreamInit]) != Success
    ensures var t := StreamSpec(p, s, env).state.trace;
      Extends(t, s.trace) && ErasedUpToFailure(p, t, |s.trace|, |s.trace|, HappyTrace(p, env))
  {
    var x := [StreamInit];
    assert StreamSpec(p, s, env).state.trace == (s.trace + x) + [];
    assert (s.trace + x)[..|s.trace + x| - 1] == s.trace;
    assert OkSince(p, s.trace, |s.trace|);
    OpeningCallFails(p, s, env, x, []);
  }

  lemma RxAllocFailPrefix(p: Plan, s: St, env: StreamEnv)
    requires StreamFits(p, env) && p.status(s.trace + [StreamInit]) == Success
    requires p.status(s.trace + [StreamInit, Alloc(RxBuf)]) != Success
    ensures var t := StreamSpec(p, s, env).state.trace;
      Extends(t, s.trace) && ErasedUpToFailure(p, t, |s.trace|, |s.trace|, HappyTrace(p, env))
  {
    var x := [StreamInit, Alloc(RxBuf)];
    assert StreamSpec(p, s, env).state.trace == (s.trace + x) + [] by {
      assert Call(s, StreamInit).trace + [Alloc(RxBuf)] == s.trace + x;
    }
    assert (s.trace + x)[..|s.trace + x| - 1] == s.trace + [StreamInit];
    assert OkSince(p, s.trace + [StreamInit], |s.trace|) by {
      assert OkSince(p, s.trace, |s.trace|);
      OkSinceStep(p, s.trace, |s.trace|, StreamInit);
    }
    OpeningCallFails(p, s, env, x, []);
  }

  lemma SliceAllocFailPrefix(p: Plan, s: St, env: StreamEnv)
    requires StreamFits(p, env) && StreamBuffersRequested(p, s.trace)
    requires env.recurrent && p.status(s.trace + Opening(true)) != Success
    ensures var t := StreamSpec(p, s, env).state.trace;
      Extends(t, s.trace) && ErasedUpToFailure(p, t, |s.trace|, |s.trace|, HappyTrace(p, env))
  {
    var x := Opening(true);
    SliceAllocFailShape(p, s, env);
    assert (s.trace + x)[..|s.trace + x| - 1] == s.trace + [StreamInit, Alloc(RxBuf)];
    assert OkSince(p, s.trace + [StreamInit, Alloc(RxBuf)], |s.trace|) by {
      assert OkSince(p, s.trace, |s.trace|);
      OkSinceStep(p, s.trace, |s.trace|, StreamInit);
      assert s.trace + [StreamInit] + [Alloc(RxBuf)] == s.trace + [StreamInit, Alloc(RxBuf)];
      OkSinceStep(p, s.trace + [StreamInit], |s.trace|, Alloc(RxBuf));
    }
    OpeningCallFails(p, s, env, x, [Free(RxBuf)]);
  }

  lemma SliceAllocFailShape(p: Plan, s: St, env: StreamEnv)
    requires StreamFits(p, env) && StreamBuffersRequested(p, s.trace)
    requires env.recurrent && p.status(s.trace + Opening(true)) != Success
    ensures StreamSpec(p, s, env).state.trace == (s.trace + Opening(true)) + [Free(RxBuf)]
  {
    assert Call(s, StreamInit).trace + [Alloc(RxBuf)] == s.trace + [StreamInit, Alloc(RxBuf)];
    assert s.trace + [StreamInit, Alloc(RxBuf)] + [Alloc(InputSlice)] == s.trace + Opening(true);
  }

  /** The opening's calls up to a failed one, x, followed by rest. */
  lemma OpeningCallFails(p: Plan, s: St, env: StreamEnv, x: seq<Event>, rest: seq<Event>)
    requires StreamFits(p, env)
    requires x == [StreamInit] || x == [StreamInit, Alloc(RxBuf)] || (env.recurrent && x == Opening(true))
    requires StreamSpec(p, s, env).state.trace == (s.trace + x) + rest
    requires OkSince(p, (s.trace + x)[..|s.trace + x| - 1], |s.trace|) && p.status(s.trace + x) != Success
    ensures var t := StreamSpec(p, s, env).state.trace;
      Extends(t, s.trace) && ErasedUpToFailure(p, t, |s.trace|, |s.trace|, HappyTrace(p, env))
  {
    OpeningFailUpTo(p, env, s.trace, x, rest);
  }

  /** OpeningCallFails on traces alone. */
  lemma OpeningFailUpTo(p: Plan, env: StreamEnv, t0: seq<Event>, x: seq<Event>, rest: seq<Event>)
    requires x == [StreamInit] || x == [StreamInit, Alloc(RxBuf)] || (env.recurrent && x == Opening(true))
    requires OkSince(p, (t0 + x)[..|t0 + x| - 1], |t0|) && p.status(t0 + x) != Success
    ensures Extends((t0 + x) + rest, t0) && ErasedUpToFailure(p, (t0 + x) + rest, |t0|, |t0|, HappyTrace(p, env))
  {
    var a, u := |t0|, t0 + x;
    var O := Opening(env.recurrent);
    var more := Repeat(Sample(env, p.session.tsSize), p.session.numSamples) + Finale(env.recurrent);
    assert HappyTrace(p, env) == O + more;
    assert u[a..] == x && IsCall(u[|u| - 1]);
    OpeningStarts(x, O, more);
    FailUpTo(p, u, rest, a, a, HappyTrace(p, env));
    assert (u + rest)[..a] == t0;
  }

  /** Past the opening, the sample loop's calls up to the first failure follow the opening. */
  lemma OpenedPrefix(p: Plan, s: St, env: StreamEnv)
    requires StreamFits(p, env)
    requires StreamBuffersRequested(p, s.trace) && (env.recurrent ==> p.status(s.trace + Opening(true)) == Success)
    ensures var t := StreamSpec(p, s, env).state.trace;
      Extends(t, s.trace) && ErasedUpToFailure(p, t, |s.trace|, |s.trace|, HappyTrace(p, env))
  {
    OpenedLoop(p, s, env);
    OpeningThenUpTo(p, env, s.trace, Opened(p, s, env).trace, StreamSpec(p, s, env).state.trace);
    StreamLoopPrefix(p, Opened(p, s, env), env, 0, |s.trace|, StreamSpec(p, s, env).state.trace);
  }

  /** The opening, then the loop's calls up to the first failure: together the start of the
      happy trace. */
  lemma OpeningThenUpTo(p: Plan, env: StreamEnv, t0: seq<Event>, t1: seq<Event>, t: seq<Event>)
    requires t1 == t0 + Opening(env.recurrent)
    ensures Extends(t, t1) && ErasedUpToFailure(p, t, |t1|, |t0|, Remaining(p, env, 0))
            ==> Extends(t, t0) && ErasedUpToFailure(p, t, |t0|, |t0|, HappyTrace(p, env))
  {
    var more := Remaining(p, env, 0);
    assert HappyTrace(p, env) == Opening(env.recurrent) + more;
    if Extends(t, t1) && ErasedUpToFailure(p, t, |t1|, |t0|, more) {
      ErasedOpening(env.recurrent);
      assert t1[|t0|..] == Opening(env.recurrent);
      assert t[..|t0|] == t1[..|t0|];
      ErasedJoinUpTo(p, t, t1, |t0|, |t0|, Opening(env.recurrent), more);
    }
  }

  /** A successful opening: its calls, all successful, then the sample loop from sample 0. */
  lemma OpenedLoop(p: Plan, s: St, env: StreamEnv)
    requires StreamFits(p, env)
    requires StreamBuffersRequested(p, s.trace) && (env.recurrent ==> p.status(s.trace + Opening(true)) == Success)
    ensures var o := Opened(p, s, env);
      o.trace == s.trace + Opening(env.recurrent) && OkSince(p, o.trace, |s.trace|)
      && StreamSpec(p, s, env).state.trace == StreamLoop(p, o, env, 0).state.trace
  {
    var a := |s.trace|;
    var s1 := Call(s, StreamInit);
    var s2 := AllocStep(p, s1, RxBuf);
    assert OkSince(p, s.trace, a);
    OkSinceStep(p, s.trace, a, StreamInit);
    assert s1.trace + [Alloc(RxBuf)] == s.trace + [StreamInit, Alloc(RxBuf)];
    OkSinceStep(p, s1.trace, a, Alloc(RxBuf));
    if env.recurrent {
      assert s2.trace + [Alloc(InputSlice)] == s.trace + Opening(true);
      OkSinceStep(p, s2.trace, a, Alloc(InputSlice));
    }
  }

  /** The opening calls carry no data. */
  lemma ErasedOpening(recurrent: bool)
    ensures Erased(Opening(recurrent)) == Opening(recurrent)
  {
    if recurrent {
      assert Opening(recurrent) == [StreamInit, Alloc(RxBuf), Alloc(InputSlice)];
    } else {
      assert Opening(recurrent) == [StreamInit, Alloc(RxBuf)];
    }
  }

  /** A handshake or allocation failure: the calls so far are the start of the opening. */
  lemma OpeningStarts(x: seq<Event>, o: seq<Event>, more: seq<Event>)
    requires o == Opening(false) || o == Opening(true)
    requires x == [StreamInit] || x == [StreamInit, Alloc(RxBuf)] || (o == Opening(true) && x == o)
    ensures Erased(x) <= o + more
  {
    assert o[..|x|] == x;
    assert Erased(x) == x;
    PrefixWithin(x, o, more);
  }

  /** The sample loop from sample i: up to the first failed call its calls, erased, are the
      start of the remaining samples and the finale. */
  lemma {:induction false} StreamLoopPrefix(p: Plan, s: St, env: StreamEnv, i: nat, a: nat, t: seq<Event>)
    requires StreamFits(p, env) && i <= p.session.numSamples
    requires a <= |s.trace| && OkSince(p, s.trace, a)
    requires t == StreamLoop(p, s, env, i).state.trace
    ensures Extends(t, s.trace)
      && ErasedUpToFailure(p, t, |s.trace|, a, Remaining(p, env, i))
    decreases p.session.numSamples - i, 1
  {
    if i == p.session.numSamples {
      LoopEndsTrace(p, s, env, i);
      FinishPrefix(p, s, env, a, t);
      assert Remaining(p, env, i) == Finale(env.recurrent) by {
        assert Repeat(Sample(env, p.session.tsSize), 0) + Finale(env.recurrent) == Finale(env.recurrent);
      }
    } else if StreamSample(p, s, env).Continue? {
      LoopContinuePrefix(p, s, env, i, a, t);
    } else if StreamSample(p, s, env).Break? {
      LoopBreaksTrace(p, s, env, i);
      LoopBreakPrefix(p, s, env, i, a, t);
    } else {
      LoopReturnsTrace(p, s, env, i);
      LoopReturnPrefix(p, s, env, i, a, t);
    }
  }

  /** A sample that completes: its calls, data erased, are one whole Sample block, and the
      rest of the loop is taken care of by StreamLoopPrefix. */
  lemma {:induction false} LoopContinuePrefix(p: Plan, s: St, env: StreamEnv, i: nat, a: nat, t: seq<Event>)
    requires StreamFits(p, env) && i < p.session.numSamples
    requires a <= |s.trace| && OkSince(p, s.trace, a)
    requires StreamSample(p, s, env).Continue? && t == StreamLoop(p, s, env, i).state.trace
    ensures Extends(t, s.trace)
      && ErasedUpToFailure(p, t, |s.trace|, a, Remaining(p, env, i))
    decreases p.session.numSamples - i, 0
  {
    var s4 := StreamSample(p, s, env).next;
    assert Extends(s4.trace, s.trace) && Erased(s4.trace[|s.trace|..]) == Sample(env, p.session.tsSize)
           && OkSince(p, s4.trace, a) by {
      SampleContinues(p, s, env, a);
    }
    LoopContinuesTrace(p, s, env, i);
    RemainingStep(p, env, i);
    BlockThenUpToImp(p, s.trace, s4.trace, t, a, Sample(env, p.session.tsSize), Remaining(p, env, i),
                     Remaining(p, env, i + 1));
    StreamLoopPrefix(p, s4, env, i + 1, a, t);
  }

  /** One whole block from t0 to t1, then the rest of t up to its first failure: stated as an
      implication, so that it can be had before the rest of t is known. */
  lemma BlockThenUpToImp(p: Plan, t0: seq<Event>, t1: seq<Event>, t: seq<Event>, a: nat,
                         block: seq<Event>, h: seq<Event>, more: seq<Event>)
    requires a <= |t0| && Extends(t1, t0) && Erased(t1[|t0|..]) == block && h == block + more
    ensures Extends(t, t1) && ErasedUpToFailure(p, t, |t1|, a, more) ==>
            Extends(t, t0) && ErasedUpToFailure(p, t, |t0|, a, h)
  {
    if Extends(t, t1) && ErasedUpToFailure(p, t, |t1|, a, more) {
      assert t[..|t0|] == t1[..|t0|];
      ErasedJoinUpTo(p, t, t1, |t0|, a, block, more);
    }
  }

  /** A failed receive: it is the first failure, and the calls of its sample up to it begin a
      Sample block. */
  lemma LoopBreakPrefix(p: Plan, s: St, env: StreamEnv, i: nat, a: nat, t: seq<Event>)
    requires StreamFits(p, env) && i < p.session.numSamples && a <= |s.trace| && OkSince(p, s.trace, a)
    requires StreamSample(p, s, env).Break? && t == StreamFinish(p, StreamSample(p, s, env).at, env).state.trace
    ensures Extends(t, s.trace)
      && ErasedUpToFailure(p, t, |s.trace|, a, Remaining(p, env, i))
  {
    var s2 := StreamSample(p, s, env).at;
    var S, n, F := Sample(env, p.session.tsSize), p.session.numSamples - i, Finale(env.recurrent);
    assert Remaining(p, env, i) == Repeat(S, n) + F;
    assert |s.trace| < |s2.trace| && IsCall(s2.trace[|s2.trace| - 1]) && p.status(s2.trace) != Success
           && OkSince(p, s2.trace[..|s2.trace| - 1], a)
           && Extends(s2.trace, s.trace) && Erased(s2.trace[|s.trace|..]) <= S by {
      SampleBreaks(p, s, env, a);
      SampleBreakPrefix(p, s, env);
    }
    FinishSplit(p, s2, env);
    BreakUpTo(p, s.trace, s2.trace, t[|s2.trace|..], a, S, n, F);
  }

  /** A failed call ending u2, whose events after u0, erased, begin one Sample block. */
  lemma BreakUpTo(p: Plan, u0: seq<Event>, u2: seq<Event>, rest: seq<Event>, a: nat,
                  block: seq<Event>, n: nat, fin: seq<Event>)
    requires a <= |u0| < |u2| && IsCall(u2[|u2| - 1]) && p.status(u2) != Success
    requires OkSince(p, u2[..|u2| - 1], a) && Extends(u2, u0) && Erased(u2[|u0|..]) <= block && n > 0
    ensures Extends(u2 + rest, u0) && ErasedUpToFailure(p, u2 + rest, |u0|, a, Repeat(block, n) + fin)
  {
    SampleThenRest(Erased(u2[|u0|..]), block, n, fin);
    FailUpTo(p, u2, rest, |u0|, a, Repeat(block, n) + fin);
    ExtendsAppend(u2, u0, rest);
  }

  /** A sample that returns from the task: its calls up to the first failure begin a Sample
      block, and so the remaining samples and the finale. */
  lemma LoopReturnPrefix(p: Plan, s: St, env: StreamEnv, i: nat, a: nat, t: seq<Event>)
    requires StreamFits(p, env) && i < p.session.numSamples && a <= |s.trace| && OkSince(p, s.trace, a)
    requires StreamSample(p, s, env).Return? && t == StreamSample(p, s, env).run.state.trace
    ensures Extends(t, s.trace)
      && ErasedUpToFailure(p, t, |s.trace|, a, Remaining(p, env, i))
  {
    var S := Sample(env, p.session.tsSize);
    assert Remaining(p, env, i) == Repeat(S, p.session.numSamples - i) + Finale(env.recurrent);
    SampleReturnPrefix(p, s, env, a);
    SampleThenRest(S, S, p.session.numSamples - i, Finale(env.recurrent));
    UpToFailureWithin(p, t, |s.trace|, a, S, Repeat(S, p.session.numSamples - i) + Finale(env.recurrent));
  }

  /** The trace of the loop past a sample that goes through. */
  lemma LoopContinuesTrace(p: Plan, s: St, env: StreamEnv, i: nat)
    requires StreamFits(p, env) && i < p.session.numSamples && StreamSample(p, s, env).Continue?
    ensures StreamLoop(p, s, env, i).state.trace == StreamLoop(p, StreamSample(p, s, env).next, env, i + 1).state.trace
  {
  }

  /** The trace of the loop when a sample's receive fails. */
  lemma LoopBreaksTrace(p: Plan, s: St, env: StreamEnv, i: nat)
    requires StreamFits(p, env) && i < p.session.numSamples && StreamSample(p, s, env).Break?
    ensures StreamLoop(p, s, env, i).state.trace == StreamFinish(p, StreamSample(p, s, env).at, env).state.trace
  {
  }

  /** The trace of the loop once every sample has been taken. */
  lemma LoopEndsTrace(p: Plan, s: St, env: StreamEnv, i: nat)
    requires StreamFits(p, env) && i == p.session.numSamples
    ensures StreamLoop(p, s, env, i).state.trace == StreamFinish(p, s, env).state.trace
  {
  }

  /** The trace of the loop when a sample returns from the task. */
  lemma LoopReturnsTrace(p: Plan, s: St, env: StreamEnv, i: nat)
    requires StreamFits(p, env) && i < p.session.numSamples && StreamSample(p, s, env).Return?
    ensures StreamLoop(p, s, env, i).state.trace == StreamSample(p, s, env).run.state.trace
  {
  }

  /** The start of one Sample block is the start of n > 0 blocks and what follows them. */
  lemma SampleThenRest(x: seq<Event>, block: seq<Event>, n: nat, fin: seq<Event>)
    requires x <= block && n > 0
    ensures x <= Repeat(block, n) + fin
  {
    RepeatThen(block, n, fin);
    PrefixWithin(x, block, Repeat(block, n - 1) + fin);
  }

  /** The calls of a sample whose receive failed: the reset, if any, and the receive. */
  lemma SampleBreakPrefix(p: Plan, s: St, env: StreamEnv)
    requires StreamFits(p, env) && StreamSample(p, s, env).Break?
    ensures var s2 := StreamSample(p, s, env).at;
      Extends(s2.trace, s.trace) && Erased(s2.trace[|s.trace|..]) <= Sample(env, p.session.tsSize)
  {
    var s2 := StreamSample(p, s, env).at;
    var pre := (if env.recurrent then [Reset] else []) + [Recv];
    assert s2.trace == s.trace + pre;
    assert s2.trace[|s.trace|..] == pre;
    ErasedPrefix(env.recurrent);
    PrefixWithin(pre, pre, Repeat([Run([])], RunsPerSample(env, p.session.tsSize)));
    PrefixWithin(pre, pre + Repeat([Run([])], RunsPerSample(env, p.session.tsSize)), [Send([])]);
  }

  /** The end of the run after the last sample: up to the first failure its calls begin the
      finale. */
  lemma FinishPrefix(p: Plan, s: St, env: StreamEnv, a: nat, t: seq<Event>)
    requires a <= |s.trace| && OkSince(p, s.trace, a) && t == StreamFinish(p, s, env).state.trace
    ensures Extends(t, s.trace) && ErasedUpToFailure(p, t, |s.trace|, a, Finale(env.recurrent))
  {
    var F := Finale(env.recurrent);
    var v := Frees(env.recurrent) + [ProfileLog];
    var rest := if p.status(s.trace + v) != Success then v else v + [Done];
    FinaleRest(v, rest, env.recurrent);
    assert t == s.trace + rest by {
      StreamFinishShape(p, s, env);
      if p.status(s.trace + v) == Success {
        AppendAssoc(s.trace, v, [Done]);
      }
    }
    ErasedTailPrefix(p, s.trace, rest, F, a);
  }

  /** The finish only appends to the trace. */
  lemma FinishSplit(p: Plan, s: St, env: StreamEnv)
    ensures var t := StreamFinish(p, s, env).state.trace;
      |s.trace| <= |t| && t == s.trace + t[|s.trace|..]
  {
    var v := Frees(env.recurrent) + [ProfileLog];
    var rest := if p.status(s.trace + v) != Success then v else v + [Done];
    assert StreamFinish(p, s, env).state.trace == s.trace + rest by {
      StreamFinishShape(p, s, env);
      if p.status(s.trace + v) == Success {
        AppendAssoc(s.trace, v, [Done]);
      }
    }
  }

  /** What the finish records after the loop, up to the end, begins the finale. */
  lemma FinaleRest(v: seq<Event>, rest: seq<Event>, recurrent: bool)
    requires v == Frees(recurrent) + [ProfileLog] && (rest == v || rest == v + [Done])
    ensures Erased(rest) <= Finale(recurrent)
  {
    var F := Finale(recurrent);
    AppendAssoc(Frees(recurrent), [ProfileLog], [Done]);
    FinaleErased(recurrent);
    PrefixWithin(v, v, [Done]);
    ErasedMono(rest, F);
  }

  /** The engine runs of a sample, up to the first failing one, begin its runs, data erased. */
  lemma SampleRunsPrefix(p: Plan, s: St, env: StreamEnv, frame: seq<int>)
    requires env.recurrent ==> p.session.tsSize * env.w <= |frame|
    ensures var r := SampleRuns(p, s, env, frame).0;
      Extends(r.trace, s.trace) && Erased(r.trace[|s.trace|..]) <= Repeat([Run([])], RunsPerSample(env, p.session.tsSize))
  {
    var ts := p.session.tsSize;
    var r := SampleRuns(p, s, env, frame).0;
    if env.recurrent {
      if ts > 0 {
        RnnRunsShape(p, s, frame, 0, ts, env.w);
        var m := |r.trace| - |s.trace|;
        MulMono(m, ts, env.w);
        assert r.trace[|s.trace|..] == Windows(frame, env.w, 0, m);
        ErasedWindows(frame, env.w, 0, m);
        RepeatPrefix([Run([])], m, ts);
      } else {
        assert r == s;
        assert r.trace[|s.trace|..] == [];
      }
    } else {
      assert r.trace[|s.trace|..] == [Run(frame)];
      assert Repeat([Run([])], 1) == [Run([])];
    }
  }

  /** A sample that returns from the task has a first failure, and its calls up to it, data
      erased, begin a Sample block. */
  lemma SampleReturnPrefix(p: Plan, s: St, env: StreamEnv, a: nat)
    requires StreamFits(p, env) && a <= |s.trace| && OkSince(p, s.trace, a)
    requires StreamSample(p, s, env).Return?
    ensures var t := StreamSample(p, s, env).run.state.trace;
      Extends(t, s.trace) && FirstFailure(p, t, a) < |t|
      && ErasedUpToFailure(p, t, |s.trace|, a, Sample(env, p.session.tsSize))
  {
    var s1 := if env.recurrent then Call(s, Reset) else s;
    if env.recurrent && Answer(p, s1) != Success {
      ResetFailPrefix(p, s, env, a);
      return;
    }
    if env.recurrent {
      OkSinceStep(p, s.trace, a, Reset);
    }
    var s2 := Call(s1, Recv);
    OkSinceStep(p, s1.trace, a, Recv);
    var pre := (if env.recurrent then [Reset] else []) + [Recv];
    assert s2.trace == s.trace + pre;
    RunOrSendFailPrefix(p, s, s2, env, a);
  }

  lemma ResetFailPrefix(p: Plan, s: St, env: StreamEnv, a: nat)
    requires StreamFits(p, env) && a <= |s.trace| && OkSince(p, s.trace, a)
    requires env.recurrent && Answer(p, Call(s, Reset)) != Success
    ensures var t := StreamSample(p, s, env).run.state.trace;
      Extends(t, s.trace) && FirstFailure(p, t, a) < |t|
      && ErasedUpToFailure(p, t, |s.trace|, a, Sample(env, p.session.tsSize))
  {
    var s1 := Call(s, Reset);
    var t := StreamSample(p, s, env).run.state.trace;
    assert t == s1.trace + [Free(InputSlice), Free(RxBuf)];
    assert s1.trace[..|s1.trace| - 1] == s.trace;
    FailPrefix(p, s1.trace, [Free(InputSlice), Free(RxBuf)], |s.trace|, a);
    assert s1.trace[|s.trace|..] == [Reset];
    var S := Sample(env, p.session.tsSize);
    assert S[0] == Reset;
    assert S[..1] == [Reset];
  }

  /** After a successful receive that ends pre: a failed run or a failed send is the first
      failure, and the calls up to it begin the Sample block. */
  lemma RunOrSendFailPrefix(p: Plan, s: St, s2: St, env: StreamEnv, a: nat)
    requires StreamFits(p, env) && a <= |s.trace|
    requires s2.trace == s.trace + ((if env.recurrent then [Reset] else []) + [Recv])
    requires OkSince(p, s2.trace, a) && SampleTail(p, s2, env).Return?
    ensures var t := SampleTail(p, s2, env).run.state.trace;
      Extends(t, s.trace) && FirstFailure(p, t, a) < |t|
      && ErasedUpToFailure(p, t, |s.trace|, a, Sample(env, p.session.tsSize))
  {
    var ts := p.session.tsSize;
    var pre := (if env.recurrent then [Reset] else []) + [Recv];
    var reps := Repeat([Run([])], RunsPerSample(env, ts));
    var frame := Data(p, s2.trace, p.session.inputSize);
    var (s3, st) := SampleRuns(p, s2, env, frame);
    var t := SampleTail(p, s2, env).run.state.trace;
    assert Sample(env, ts) == pre + reps + [Send([])];
    assert Erased(s2.trace[|s.trace|..]) == pre by {
      ErasedPrefix(env.recurrent);
      assert s2.trace[|s.trace|..] == pre;
    }
    if st != Success {
      assert Extends(s3.trace, s2.trace) && |s2.trace| < |s3.trace|
             && OkSince(p, s3.trace[..|s3.trace| - 1], a) && s3.trace[|s3.trace| - 1].Run?
             && p.status(s3.trace) != Success && Erased(s3.trace[|s2.trace|..]) <= reps by {
        SampleRunsOutcome(p, s2, env, frame, a);
        SampleRunsPrefix(p, s2, env, frame);
      }
      assert t == s3.trace + Frees(env.recurrent);
      RunFailPrefix(p, s.trace, s2.trace, s3.trace, Frees(env.recurrent), pre, reps, a);
    } else {
      assert Extends(s3.trace, s2.trace) && OkSince(p, s3.trace, a)
             && Erased(s3.trace[|s2.trace|..]) == reps by {
        SampleRunsOutcome(p, s2, env, frame, a);
      }
      assert t == (s3.trace + [Send(s3.out)]) + [Free(RxBuf)];
      SendFailPrefix(p, s.trace, s2.trace, s3.trace, s3.out, [Free(RxBuf)], pre, reps, a);
    }
  }

  /** A failed engine run after the successful calls pre: the calls up to it are pre and
      the start of the runs. */
  lemma RunFailPrefix(p: Plan, u0: seq<Event>, u2: seq<Event>, u3: seq<Event>, rest: seq<Event>,
                      pre: seq<Event>, reps: seq<Event>, a: nat)
    requires a <= |u0| && Extends(u2, u0) && Extends(u3, u2) && |u2| < |u3|
    requires OkSince(p, u3[..|u3| - 1], a) && u3[|u3| - 1].Run? && p.status(u3) != Success
    requires Erased(u2[|u0|..]) == pre && Erased(u3[|u2|..]) <= reps
    ensures var t := u3 + rest;
      Extends(t, u0) && FirstFailure(p, t, a) < |t|
      && ErasedUpToFailure(p, t, |u0|, a, pre + reps + [Send([])])
  {
    RunBlockErased(u0, u2, u3, pre, reps);
    FailUpTo(p, u3, rest, |u0|, a, pre + reps + [Send([])]);
    ExtendsAppend(u3, u0, rest);
  }

  /** The calls of a sample up to a failed run: cut from a whole Sample block, data erased. */
  lemma RunBlockErased(u0: seq<Event>, u2: seq<Event>, u3: seq<Event>, pre: seq<Event>, reps: seq<Event>)
    requires Extends(u2, u0) && Extends(u3, u2)
    requires Erased(u2[|u0|..]) == pre && Erased(u3[|u2|..]) <= reps
    ensures Extends(u3, u0) && Erased(u3[|u0|..]) <= pre + reps + [Send([])]
  {
    assert u3[..|u0|] == u2[..|u0|];
    assert u3[|u0|..] == u2[|u0|..] + u3[|u2|..];
    ErasedConcat(u2[|u0|..], u3[|u2|..]);
    PrefixAfter(pre, Erased(u3[|u2|..]), reps);
    PrefixWithin(Erased(u3[|u0|..]), pre + reps, [Send([])]);
  }

  /** A failed send after the successful calls pre and runs: the calls up to it are a whole
      Sample block, data erased. */
  lemma SendFailPrefix(p: Plan, u0: seq<Event>, u2: seq<Event>, u3: seq<Event>, d: seq<int>,
                       rest: seq<Event>, pre: seq<Event>, reps: seq<Event>, a: nat)
    requires a <= |u0| && Extends(u2, u0) && Extends(u3, u2)
    requires OkSince(p, u3, a) && p.status(u3 + [Send(d)]) != Success
    requires Erased(u2[|u0|..]) == pre && Erased(u3[|u2|..]) == reps
    ensures var t := (u3 + [Send(d)]) + rest;
      Extends(t, u0) && FirstFailure(p, t, a) < |t|
      && ErasedUpToFailure(p, t, |u0|, a, pre + reps + [Send([])])
  {
    var u4 := u3 + [Send(d)];
    assert u4[..|u4| - 1] == u3;
    SendBlockErased(u0, u2, u3, d, pre, reps);
    FailUpTo(p, u4, rest, |u0|, a, pre + reps + [Send([])]);
    ExtendsAppend(u4, u0, rest);
  }

  /** The calls of a sample through its send: a whole Sample block, data erased. */
  lemma SendBlockErased(u0: seq<Event>, u2: seq<Event>, u3: seq<Event>, d: seq<int>, pre: seq<Event>, reps: seq<Event>)
    requires Extends(u2, u0) && Extends(u3, u2)
    requires Erased(u2[|u0|..]) == pre && Erased(u3[|u2|..]) == reps
    ensures Extends(u3 + [Send(d)], u0) && Erased((u3 + [Send(d)])[|u0|..]) <= pre + reps + [Send([])]
  {
    var u4 := u3 + [Send(d)];
    assert u4[..|u0|] == u2[..|u0|];
    assert u4[|u0|..] == (u2[|u0|..] + u3[|u2|..]) + [Send(d)];
    ErasedConcat(u2[|u0|..] + u3[|u2|..], [Send(d)]);
    ErasedConcat(u2[|u0|..], u3[|u2|..]);
    ErasedOne(Send(d));
  }
}
