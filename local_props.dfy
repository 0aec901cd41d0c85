/** What `ml_validation_local_task` guarantees: the size check, the exact call sequence of a
    successful run, the reference count of argmax matches behind the statistics, where each
    failure ends the run and which status it returns, and the buffer discipline. */
module LocalProps {
  import opened ResultCodes
  import opened Collaborators
  import opened Traces
  import opened ValidationSpec

  /** The engine runs of time steps a .. b-1 over x: step i reads x[i*w .. (i+1)*w]. */
  function Windows(x: seq<int>, w: nat, a: nat, b: nat): (r: seq<Event>)
    requires a <= b && b * w <= |x|
    ensures |r| == b - a
    decreases b - a
  {
    if a == b then []
    else
      MulMono(a + 1, b, w);
      [Run(x[a * w .. (a + 1) * w])] + Windows(x, w, a + 1, b)
  }

  /** The i-th run of a recurrent inference receives elements [i*w, (i+1)*w) of its input. */
  lemma {:induction false} WindowAt(x: seq<int>, w: nat, a: nat, b: nat, i: nat)
    requires a <= i < b && b * w <= |x|
    ensures (i + 1) * w <= |x|
    ensures Windows(x, w, a, b)[i - a] == Run(x[i * w .. (i + 1) * w])
    decreases b - a
  {
    MulMono(i + 1, b, w);
    MulMono(a + 1, b, w);
    if i > a {
      WindowAt(x, w, a + 1, b, i);
    }
  }

  /** Every element the recurrent slicer reads, at i * w + z of an example, lies inside the
      example, because the size check let only ts * w <= file_input_size through. */
  lemma RecurrentReadInBounds(env: LocalEnv, i: int, z: int)
    requires env.Valid() && env.recurrent && !SizeMismatch(env)
    requires 0 <= i < env.hdr.tsSize && 0 <= z < env.w
    ensures 0 <= i * env.w + z < env.hdr.inputSize
  {
    var f, ts, w := env.hdr.inputSize, env.hdr.tsSize, env.w;
    assert f > 0;
    DivFits(f, ts);
    ReadBound(f, ts, w, i, z);
  }

  lemma DivFits(f: int, ts: int)
    requires f > 0 && ts > 0
    ensures ts * CDiv(f, ts) <= f
  {
    assert CDiv(f, ts) == f / ts;
  }

  lemma ReadBound(f: int, ts: int, w: nat, i: int, z: int)
    requires ts * w <= f && 0 <= i < ts && 0 <= z < w
    ensures 0 <= i * w + z < f
  {
    MulMono(i + 1, ts, w);
    MulSucc(i, w);
    MulMono(0, i, w);
  }

  lemma WindowsCons(x: seq<int>, w: nat, i: nat, m: nat)
    requires (i + 1 + m) * w <= |x|
    ensures (i + 1) * w <= |x|
    ensures Windows(x, w, i, i + 1 + m) == [Run(x[i * w .. (i + 1) * w])] + Windows(x, w, i + 1, i + 1 + m)
  {
    MulMono(i + 1, i + 1 + m, w);
  }

  /** Time steps i .. ts-1 record, in order, the windows they run, at most ts - i of them,
      and allocate or free nothing. */
  lemma {:induction false} RnnRunsShape(p: Plan, s: St, x: seq<int>, i: nat, ts: int, w: nat)
    requires ts * w <= |x| && i <= ts
    ensures var r := RnnRuns(p, s, x, i, ts, w).0;
      r.live == s.live && |r.out| == |s.out|
      && |s.trace| <= |r.trace| <= |s.trace| + ts - i
      && r.trace == s.trace + Windows(x, w, i, i + |r.trace| - |s.trace|)
    decreases ts - i
  {
    if i < ts {
      MulMono(i + 1, ts, w);
      var s1 := RunStep(p, s, x[i * w .. (i + 1) * w]);
      var r := RnnRuns(p, s, x, i, ts, w).0;
      if Answer(p, s1) == Success {
        RnnRunsShape(p, s1, x, i + 1, ts, w);
        assert r == RnnRuns(p, s1, x, i + 1, ts, w).0;
        var m := |r.trace| - |s1.trace|;
        assert i + 1 + m <= ts;
        MulMono(i + 1 + m, ts, w);
        WindowsCons(x, w, i, m);
        assert r.trace == s.trace + Windows(x, w, i, i + 1 + m);
      } else {
        assert r == s1;
        WindowsCons(x, w, i, 0);
      }
    }
  }

  /** Time steps i .. ts-1 either all succeed, each run answered with success and the output
      left by the last one, or stop at the first failing run, whose status they return. */
  lemma {:induction false} RnnRunsOutcome(p: Plan, s: St, x: seq<int>, i: nat, ts: int, w: nat, a: nat)
    requires ts * w <= |x| && i <= ts
    requires a <= |s.trace| && OkSince(p, s.trace, a)
    ensures var (r, st) := RnnRuns(p, s, x, i, ts, w);
      (st == Success ==>
         |r.trace| - |s.trace| == ts - i && OkSince(p, r.trace, a)
         && (i < ts ==> r.out == Data(p, r.trace, |s.out|)))
      && (st != Success ==>
            |r.trace| > |s.trace| && r.trace[|r.trace| - 1].Run? && st == p.status(r.trace)
            && OkSince(p, r.trace[..|r.trace| - 1], a))
    decreases ts - i
  {
    if i < ts {
      MulMono(i + 1, ts, w);
      var s1 := RunStep(p, s, x[i * w .. (i + 1) * w]);
      assert s1.trace[..|s1.trace| - 1] == s.trace;
      if Answer(p, s1) == Success {
        OkSinceStep(p, s.trace, a, Run(x[i * w .. (i + 1) * w]));
        RnnRunsOutcome(p, s1, x, i + 1, ts, w, a);
        RnnRunsShape(p, s1, x, i + 1, ts, w);
      }
    }
  }

  /** The calls of example j in a successful run: a reset and ts windowed runs for a recurrent
      model, one run over the whole example otherwise. */
  function Block(env: LocalEnv, j: nat): (b: seq<Event>)
    requires env.Valid() && !SizeMismatch(env) && j < env.hdr.numSamples
    ensures |b| > 0
  {
    var x := Example(env, j);
    if env.recurrent then
      RecurrentWindowsFit(env, j);
      [Reset] + Windows(x, env.w, 0, env.hdr.tsSize)
    else [Run(x)]
  }

  /** The calls of examples a .. b-1, in order. */
  function Blocks(env: LocalEnv, a: nat, b: nat): seq<Event>
    requires env.Valid() && !SizeMismatch(env) && a <= b <= env.hdr.numSamples
    decreases b - a
  {
    if a == b then [] else Block(env, a) + Blocks(env, a + 1, b)
  }

  lemma {:induction false} BlocksSnoc(env: LocalEnv, a: nat, b: nat)
    requires env.Valid() && !SizeMismatch(env) && a <= b < env.hdr.numSamples
    ensures Blocks(env, a, b + 1) == Blocks(env, a, b) + Block(env, b)
    decreases b - a
  {
    if a < b {
      BlocksSnoc(env, a + 1, b);
    }
  }

  /** The allocation of the input slice that a recurrent run makes first. */
  function Prologue(env: LocalEnv): seq<Event> {
    if env.recurrent then [Alloc(InputSlice)] else []
  }

  /** The free of the input slice that ends a recurrent run. */
  function SliceFree(recurrent: bool): seq<Event> {
    if recurrent then [Free(InputSlice)] else []
  }

  /** The calls that end a completed local run: the slice free, then the profile log. */
  function Epilogue(recurrent: bool): seq<Event> {
    SliceFree(recurrent) + [ProfileLog]
  }

  /** Every call of a local run in which nothing fails: the slice allocation, the examples in
      order, the slice free and the profile log. */
  function LocalTrace(env: LocalEnv): seq<Event>
    requires env.Valid() && !SizeMismatch(env)
  {
    Prologue(env) + Blocks(env, 0, env.hdr.numSamples) + Epilogue(env.recurrent)
  }

  /** Example j matches: the argmax of the output left by its last run (on a trace whose
      example calls begin after u) equals the argmax of its expected output. */
  predicate Hit(p: Plan, u: seq<Event>, n: nat, env: LocalEnv, j: nat)
    requires env.Valid() && !SizeMismatch(env) && j < env.hdr.numSamples
  {
    p.findMax(Data(p, u + Blocks(env, 0, j + 1), n)) == p.findMax(Expected(env, j))
  }

  /** The number of matching examples among a .. b-1. */
  function Hits(p: Plan, u: seq<Event>, n: nat, env: LocalEnv, a: nat, b: nat): (h: nat)
    requires env.Valid() && !SizeMismatch(env) && a <= b <= env.hdr.numSamples
    ensures h <= b - a
    decreases b - a
  {
    if a == b then 0 else (if Hit(p, u, n, env, a) then 1 else 0) + Hits(p, u, n, env, a + 1, b)
  }

  /** Example j either succeeds, recording exactly its block and leaving the output of its
      last run, or ends at its first failing call: a reset (InferenceError) or a run (that
      run's status). */
  lemma LocalExampleOutcome(p: Plan, s: St, env: LocalEnv, j: nat, a: nat)
    requires env.Valid() && !SizeMismatch(env) && j < env.hdr.numSamples
    requires a <= |s.trace| && OkSince(p, s.trace, a)
    ensures var (r, st) := LocalExample(p, s, env, j);
      r.live == s.live && |r.out| == |s.out| && Extends(r.trace, s.trace) && |r.trace| > |s.trace|
      && (st == Success ==>
            r.trace == s.trace + Block(env, j) && OkSince(p, r.trace, a)
            && r.out == Data(p, r.trace, |s.out|))
      && (st != Success ==>
            OkSince(p, r.trace[..|r.trace| - 1], a) && p.status(r.trace) != Success
            && ((r.trace[|r.trace| - 1] == Reset && st == InferenceError)
                || (r.trace[|r.trace| - 1].Run? && st == p.status(r.trace))))
  {
    var x := Example(env, j);
    if env.recurrent {
      var s1 := Call(s, Reset);
      assert s1.trace[..|s1.trace| - 1] == s.trace;
      if Answer(p, s1) == Success {
        OkSinceStep(p, s.trace, a, Reset);
        RecurrentWindowsFit(env, j);
        RnnRunsOutcome(p, s1, x, 0, env.hdr.tsSize, env.w, a);
        RnnRunsShape(p, s1, x, 0, env.hdr.tsSize, env.w);
      }
    } else {
      var s1 := RunStep(p, s, x);
      assert s1.trace[..|s1.trace| - 1] == s.trace;
      if Answer(p, s1) == Success {
        OkSinceStep(p, s.trace, a, Run(x));
      }
    }
  }

  /** A completed example loop from example j on: the run succeeds, has recorded the blocks of
      examples j .. num-1, the slice free and the profile log, counts c plus the matches among
      those examples, and reports num examples in total. Only the profile log may have failed. */
  lemma {:induction false} LocalLoopSuccess(p: Plan, u: seq<Event>, n: nat, s: St, env: LocalEnv,
                                           j: nat, c: nat, a: nat, r: LocalRun)
    requires env.Valid() && !SizeMismatch(env) && j <= env.hdr.numSamples
    requires s.trace == u + Blocks(env, 0, j) && |s.out| == n
    requires a <= |s.trace| && OkSince(p, s.trace, a) && r == LocalLoop(p, s, env, j, c)
    ensures (r.status == Success <==> r.stats.Some?)
      && (r.status == Success ==>
            r.stats == Some(Stats(c + Hits(p, u, n, env, j, env.hdr.numSamples), env.hdr.numSamples))
            && r.state.trace == s.trace + Blocks(env, j, env.hdr.numSamples) + Epilogue(env.recurrent)
            && OkSince(p, r.state.trace[..|r.state.trace| - 1], a))
    decreases env.hdr.numSamples - j
  {
    var num := env.hdr.numSamples;
    if j == num {
      var s1 := if env.recurrent then FreeStep(s, InputSlice) else s;
      if env.recurrent {
        OkSinceStep(p, s.trace, a, Free(InputSlice));
      }
      var t := Call(s1, ProfileLog).trace;
      assert t[..|t| - 1] == s1.trace;
    } else {
      LocalExampleOutcome(p, s, env, j, a);
      var (s1, st) := LocalExample(p, s, env, j);
      if st == Success {
        LocalLoopSuccessStep(p, u, n, s, s1, env, j, c, a, r);
      }
    }
  }

  lemma {:induction false} LocalLoopSuccessStep(p: Plan, u: seq<Event>, n: nat, s: St, s1: St, env: LocalEnv,
                                               j: nat, c: nat, a: nat, r: LocalRun)
    requires env.Valid() && !SizeMismatch(env) && j < env.hdr.numSamples
    requires s.trace == u + Blocks(env, 0, j) && |s.out| == n
    requires a <= |s.trace| && OkSince(p, s.trace, a)
    requires LocalExample(p, s, env, j) == (s1, Success)
    requires s1.trace == s.trace + Block(env, j) && OkSince(p, s1.trace, a)
    requires s1.out == Data(p, s1.trace, n) && r == LocalLoop(p, s, env, j, c)
    ensures (r.status == Success <==> r.stats.Some?)
      && (r.status == Success ==>
            r.stats == Some(Stats(c + Hits(p, u, n, env, j, env.hdr.numSamples), env.hdr.numSamples))
            && r.state.trace == s.trace + Blocks(env, j, env.hdr.numSamples) + Epilogue(env.recurrent)
            && OkSince(p, r.state.trace[..|r.state.trace| - 1], a))
    decreases env.hdr.numSamples - j, 0
  {
    LocalLoopUnfold(p, u, n, s, s1, env, j, c);
    HitsStep(p, u, n, env, j, c);
    BlocksCons(s.trace, s1.trace, r.state.trace, env, j, Epilogue(env.recurrent));
    LocalLoopSuccess(p, u, n, s1, env, j + 1, if Hit(p, u, n, env, j) then c + 1 else c, a, r);
  }

  /** The count from example j is the count from j + 1, raised by one when example j matched. */
  lemma HitsStep(p: Plan, u: seq<Event>, n: nat, env: LocalEnv, j: nat, c: nat)
    requires env.Valid() && !SizeMismatch(env) && j < env.hdr.numSamples
    ensures c + Hits(p, u, n, env, j, env.hdr.numSamples)
            == (if Hit(p, u, n, env, j) then c + 1 else c) + Hits(p, u, n, env, j + 1, env.hdr.numSamples)
  {
  }

  /** One successful example: the loop goes on from the next example with the count raised
      exactly when this example matched. */
  lemma LocalLoopUnfold(p: Plan, u: seq<Event>, n: nat, s: St, s1: St, env: LocalEnv, j: nat, c: nat)
    requires env.Valid() && !SizeMismatch(env) && j < env.hdr.numSamples
    requires s.trace == u + Blocks(env, 0, j)
    requires LocalExample(p, s, env, j) == (s1, Success)
    requires s1.trace == s.trace + Block(env, j) && s1.out == Data(p, s1.trace, n)
    ensures s1.trace == u + Blocks(env, 0, j + 1)
    ensures LocalLoop(p, s, env, j, c) == LocalLoop(p, s1, env, j + 1, if Hit(p, u, n, env, j) then c + 1 else c)
  {
    BlocksSnoc(env, 0, j);
    var b0, b := Blocks(env, 0, j), Block(env, j);
    AppendAssoc(u, b0, b);
    assert Hit(p, u, n, env, j) == (p.findMax(s1.out) == p.findMax(Expected(env, j)));
    assert LocalLoop(p, s, env, j, c)
           == LocalLoop(p, s1, env, j + 1, if p.findMax(s1.out) == p.findMax(Expected(env, j)) then c + 1 else c);
  }

  lemma BlocksCons(t: seq<Event>, t1: seq<Event>, t2: seq<Event>, env: LocalEnv, j: nat, epi: seq<Event>)
    requires env.Valid() && !SizeMismatch(env) && j < env.hdr.numSamples
    requires t1 == t + Block(env, j)
    ensures t2 == t1 + Blocks(env, j + 1, env.hdr.numSamples) + epi ==> t2 == t + Blocks(env, j, env.hdr.numSamples) + epi
  {
    assert Blocks(env, j, env.hdr.numSamples) == Block(env, j) + Blocks(env, j + 1, env.hdr.numSamples);
    AppendAssoc(t, Block(env, j), Blocks(env, j + 1, env.hdr.numSamples));
  }



  /** Where a failed local run stopped: its first failed call is a recurrent reset
      (InferenceError) or an engine run (whose status is returned unchanged), and the only
      event after it is the free of the input slice in a recurrent run. */
  ghost predicate LocalLoopFailed(p: Plan, env: LocalEnv, t: seq<Event>, a: nat, st: Status)
    requires a <= |t|
  {
    var k := FirstFailure(p, t, a);
    k < |t|
    && ((t[k] == Reset && st == InferenceError) || (t[k].Run? && st == p.status(t[..k + 1])))
    && t == t[..k + 1] + SliceFree(env.recurrent)
  }

  lemma {:induction false} LocalLoopFailure(p: Plan, s: St, env: LocalEnv, j: nat, c: nat, a: nat, r: LocalRun)
    requires env.Valid() && !SizeMismatch(env) && j <= env.hdr.numSamples
    requires a <= |s.trace| && OkSince(p, s.trace, a) && r == LocalLoop(p, s, env, j, c)
    ensures Extends(r.state.trace, s.trace)
      && (r.status != Success ==> r.stats == None && LocalLoopFailed(p, env, r.state.trace, a, r.status))
    decreases env.hdr.numSamples - j
  {
    if j < env.hdr.numSamples {
      LocalExampleOutcome(p, s, env, j, a);
      var (s1, st) := LocalExample(p, s, env, j);
      if st != Success {
        var t := r.state.trace;
        var u := s1.trace;
        assert t == u + SliceFree(env.recurrent);
        FirstFailureAtEnd(p, t, u, a);
        assert t[..|u|] == u;
      } else {
        var hit := p.findMax(s1.out) == p.findMax(Expected(env, j));
        LocalLoopFailure(p, s1, env, j + 1, if hit then c + 1 else c, a, r);
      }
    }
  }

  lemma {:induction false} LocalLoopLive(p: Plan, s: St, env: LocalEnv, j: nat, c: nat)
    requires env.Valid() && !SizeMismatch(env) && j <= env.hdr.numSamples
    ensures LocalLoop(p, s, env, j, c).state.live ==
            if env.recurrent then s.live - multiset{InputSlice} else s.live
    decreases env.hdr.numSamples - j
  {
    if j < env.hdr.numSamples {
      LocalExampleOutcome(p, s, env, j, |s.trace|);
      var (s1, st) := LocalExample(p, s, env, j);
      if st == Success {
        var hit := p.findMax(s1.out) == p.findMax(Expected(env, j));
        LocalLoopLive(p, s1, env, j + 1, if hit then c + 1 else c);
      }
    }
  }

  /** A size mismatch is exactly the case in which the task makes no call at all (no
      allocation, no reset, no run, no profile log) and returns MismatchDataType. */
  lemma LocalMismatchMakesNoCalls(p: Plan, s: St, env: LocalEnv)
    requires env.Valid()
    ensures var r := LocalSpec(p, s, env);
      (SizeMismatch(env) <==> r.state.trace == s.trace)
      && (SizeMismatch(env) ==> r.status == MismatchDataType && r.stats == None)
  {
    if !SizeMismatch(env) {
      LocalSucceeds(p, s, env);
      LocalFails(p, s, env);
    }
  }

  /** A successful local run has made exactly the calls of LocalTrace, all of them answered
      with success except possibly the final profile log, and its statistics count every
      example and exactly the examples whose argmax matched. Any completed run returns
      Success, whether the verdict is PASS or FAIL. */
  lemma LocalSucceeds(p: Plan, s: St, env: LocalEnv)
    requires env.Valid() && !SizeMismatch(env)
    ensures var r := LocalSpec(p, s, env);
      (r.status == Success <==> r.stats.Some?)
      && (r.status == Success ==>
            r.state.trace == s.trace + LocalTrace(env)
            && OkSince(p, r.state.trace[..|r.state.trace| - 1], |s.trace|)
            && r.stats == Some(Stats(Hits(p, s.trace + Prologue(env), |s.out|, env, 0, env.hdr.numSamples),
                                     env.hdr.numSamples))
            && r.stats.value.correct <= r.stats.value.total)
  {
    var a := |s.trace|;
    assert OkSince(p, s.trace, a);
    var s1 := if env.recurrent then AllocStep(p, s, InputSlice) else s;
    if !env.recurrent || Answer(p, s1) == Success {
      if env.recurrent {
        OkSinceStep(p, s.trace, a, Alloc(InputSlice));
      }
      assert LocalSpec(p, s, env) == LocalLoop(p, s1, env, 0, 0);
      LocalSucceedsFrom(p, s, s1, env, LocalSpec(p, s, env));
    }
  }

  /** LocalSucceeds once the input slice, if any, is allocated. */
  lemma LocalSucceedsFrom(p: Plan, s: St, s1: St, env: LocalEnv, r: LocalRun)
    requires env.Valid() && !SizeMismatch(env)
    requires s1.trace == s.trace + Prologue(env) && |s1.out| == |s.out| && OkSince(p, s1.trace, |s.trace|)
    requires r == LocalLoop(p, s1, env, 0, 0)
    ensures (r.status == Success <==> r.stats.Some?)
      && (r.status == Success ==>
            r.state.trace == s.trace + LocalTrace(env)
            && OkSince(p, r.state.trace[..|r.state.trace| - 1], |s.trace|)
            && r.stats == Some(Stats(Hits(p, s.trace + Prologue(env), |s.out|, env, 0, env.hdr.numSamples),
                                     env.hdr.numSamples))
            && r.stats.value.correct <= r.stats.value.total)
  {
    BlocksNone(env);
    LocalTraceSplit(s.trace, s1.trace, env);
    LocalLoopSuccess(p, s1.trace, |s.out|, s1, env, 0, 0, |s.trace|, r);
  }

  lemma BlocksNone(env: LocalEnv)
    requires env.Valid() && !SizeMismatch(env)
    ensures Blocks(env, 0, 0) == []
  {
  }

  /** The local trace is the prologue, then the blocks and the epilogue. */
  lemma LocalTraceSplit(t: seq<Event>, t1: seq<Event>, env: LocalEnv)
    requires env.Valid() && !SizeMismatch(env) && t1 == t + Prologue(env)
    ensures t1 + Blocks(env, 0, env.hdr.numSamples) + Epilogue(env.recurrent) == t + LocalTrace(env)
  {
    AppendAssoc(t, Prologue(env), Blocks(env, 0, env.hdr.numSamples));
    AppendAssoc(t, Prologue(env) + Blocks(env, 0, env.hdr.numSamples), Epilogue(env.recurrent));
  }


  /** A local run that passed the size check and failed ended at its first failed call: the
      slice allocation (AllocErr, nothing after it), a recurrent reset (InferenceError) or an
      engine run (its own status), followed only by the free of the input slice in a
      recurrent run. No statistics are reported. */
  lemma LocalFails(p: Plan, s: St, env: LocalEnv)
    requires env.Valid() && !SizeMismatch(env)
    ensures var r := LocalSpec(p, s, env); var t := r.state.trace;
      Extends(t, s.trace)
      && (r.status != Success ==>
            r.stats == None
            && var k := FirstFailure(p, t, |s.trace|);
            k < |t|
            && ((t[k] == Alloc(InputSlice) && r.status == AllocErr && t == t[..k + 1])
                || (t[k] == Reset && r.status == InferenceError && t == t[..k + 1] + SliceFree(env.recurrent))
                || (t[k].Run? && r.status == p.status(t[..k + 1]) && t == t[..k + 1] + SliceFree(env.recurrent))))
  {
    var a := |s.trace|;
    assert OkSince(p, s.trace, a);
    if env.recurrent {
      var s1 := AllocStep(p, s, InputSlice);
      if Answer(p, s1) == Success {
        OkSinceStep(p, s.trace, a, Alloc(InputSlice));
        LocalLoopFailure(p, s1, env, 0, 0, a, LocalSpec(p, s, env));
      } else {
        assert s1.trace[..|s1.trace| - 1] == s.trace;
        FirstFailureAtEnd(p, s1.trace, s1.trace, a);
        assert s1.trace[..|s1.trace|] == s1.trace;
      }
    } else {
      LocalLoopFailure(p, s, env, 0, 0, a, LocalSpec(p, s, env));
    }
  }

  /** The calls a local run made up to and including its first failed call are the start of
      the calls of a run in which nothing fails: the slice allocation, the complete examples
      before the failing one, then the calls of that example up to its failed reset or run. */
  lemma LocalCallsBeforeFailure(p: Plan, s: St, env: LocalEnv)
    requires env.Valid() && !SizeMismatch(env)
    ensures var t := LocalSpec(p, s, env).state.trace;
      Extends(t, s.trace)
      && var k := FirstFailure(p, t, |s.trace|); k < |t| ==> t[|s.trace|..k + 1] <= LocalTrace(env)
  {
    var t := LocalSpec(p, s, env).state.trace;
    if env.recurrent && Answer(p, AllocStep(p, s, InputSlice)) != Success {
      SliceAllocPrefix(p, s, env);
    } else {
      LocalLoopFrom(p, s, env);
    }
    assert UpToFailure(p, t, |s.trace|, |s.trace|, LocalTrace(env));
  }

  /** A failed slice allocation is the first call and the only one. */
  lemma SliceAllocPrefix(p: Plan, s: St, env: LocalEnv)
    requires env.Valid() && !SizeMismatch(env)
    requires env.recurrent && Answer(p, AllocStep(p, s, InputSlice)) != Success
    ensures var t := LocalSpec(p, s, env).state.trace;
      Extends(t, s.trace) && UpToFailure(p, t, |s.trace|, |s.trace|, LocalTrace(env))
  {
    var a := |s.trace|;
    var s1 := AllocStep(p, s, InputSlice);
    var P, B, E := Prologue(env), Blocks(env, 0, env.hdr.numSamples), Epilogue(env.recurrent);
    assert LocalSpec(p, s, env).state.trace == s1.trace + [];
    assert s1.trace[..|s1.trace| - 1] == s.trace;
    assert OkSince(p, s.trace, a);
    assert s1.trace[a..] == P;
    PrefixWithin(P, P, B);
    PrefixWithin(P, P + B, E);
    ExactFailUpTo(p, s1.trace, [], a, a, LocalTrace(env));
  }

  /** Past the slice allocation, the example loop's calls up to the first failure follow the
      prologue. */
  lemma LocalLoopFrom(p: Plan, s: St, env: LocalEnv)
    requires env.Valid() && !SizeMismatch(env)
    requires env.recurrent ==> Answer(p, AllocStep(p, s, InputSlice)) == Success
    ensures var t := LocalSpec(p, s, env).state.trace;
      Extends(t, s.trace) && UpToFailure(p, t, |s.trace|, |s.trace|, LocalTrace(env))
  {
    var a := |s.trace|;
    var P, B, E := Prologue(env), Blocks(env, 0, env.hdr.numSamples), Epilogue(env.recurrent);
    var s1 := if env.recurrent then AllocStep(p, s, InputSlice) else s;
    assert s1.trace == s.trace + P && OkSince(p, s1.trace, a)
           && LocalSpec(p, s, env) == LocalLoop(p, s1, env, 0, 0) by {
      assert OkSince(p, s.trace, a);
      if env.recurrent {
        OkSinceStep(p, s.trace, a, Alloc(InputSlice));
      }
    }
    var t := LocalSpec(p, s, env).state.trace;
    LocalLoopPrefix(p, s1, env, 0, 0, a);
    assert s1.trace[a..] == P;
    JoinUpTo(p, t, s1.trace, a, a, P, B + E);
    AppendAssoc(P, B, E);
  }

  /** The example loop from example j: up to the first failed call it makes the calls of
      examples j .. num-1 and of the epilogue, in order, or the start of them. */
  lemma {:induction false} LocalLoopPrefix(p: Plan, s: St, env: LocalEnv, j: nat, c: nat, a: nat)
    requires env.Valid() && !SizeMismatch(env) && j <= env.hdr.numSamples
    requires a <= |s.trace| && OkSince(p, s.trace, a)
    ensures var t := LocalLoop(p, s, env, j, c).state.trace;
      Extends(t, s.trace)
      && UpToFailure(p, t, |s.trace|, a, Blocks(env, j, env.hdr.numSamples) + Epilogue(env.recurrent))
    decreases env.hdr.numSamples - j
  {
    if j == env.hdr.numSamples {
      LoopEndPrefix(p, s, env, c, a);
    } else if LocalExample(p, s, env, j).1 != Success {
      LoopFailPrefix(p, s, env, j, c, a);
    } else {
      var s1 := LocalExample(p, s, env, j).0;
      var hit := p.findMax(s1.out) == p.findMax(Expected(env, j));
      var c' := if hit then c + 1 else c;
      assert s1.trace == s.trace + Block(env, j) && OkSince(p, s1.trace, a) by {
        LocalExampleOutcome(p, s, env, j, a);
      }
      LocalLoopPrefix(p, s1, env, j + 1, c', a);
      LoopOkPrefix(p, s, s1, env, j, c, c', a);
    }
  }

  /** Example j succeeded: its block in front of the rest of the loop. */
  lemma LoopOkPrefix(p: Plan, s: St, s1: St, env: LocalEnv, j: nat, c: nat, c': nat, a: nat)
    requires env.Valid() && !SizeMismatch(env) && j < env.hdr.numSamples && a <= |s.trace|
    requires LocalExample(p, s, env, j) == (s1, Success)
    requires c' == if p.findMax(s1.out) == p.findMax(Expected(env, j)) then c + 1 else c
    requires s1.trace == s.trace + Block(env, j)
    requires var t := LocalLoop(p, s1, env, j + 1, c').state.trace;
      Extends(t, s1.trace)
      && UpToFailure(p, t, |s1.trace|, a, Blocks(env, j + 1, env.hdr.numSamples) + Epilogue(env.recurrent))
    ensures var t := LocalLoop(p, s, env, j, c).state.trace;
      Extends(t, s.trace)
      && UpToFailure(p, t, |s.trace|, a, Blocks(env, j, env.hdr.numSamples) + Epilogue(env.recurrent))
  {
    var t := LocalLoop(p, s1, env, j + 1, c').state.trace;
    assert LocalLoop(p, s, env, j, c) == LocalLoop(p, s1, env, j + 1, c');
    assert s1.trace[|s.trace|..] == Block(env, j);
    JoinUpTo(p, t, s1.trace, |s.trace|, a, Block(env, j),
             Blocks(env, j + 1, env.hdr.numSamples) + Epilogue(env.recurrent));
    BlocksThen(env, j, Epilogue(env.recurrent));
  }

  lemma LoopEndPrefix(p: Plan, s: St, env: LocalEnv, c: nat, a: nat)
    requires env.Valid() && !SizeMismatch(env)
    requires a <= |s.trace| && OkSince(p, s.trace, a)
    ensures var t := LocalLoop(p, s, env, env.hdr.numSamples, c).state.trace;
      Extends(t, s.trace)
      && UpToFailure(p, t, |s.trace|, a, Blocks(env, env.hdr.numSamples, env.hdr.numSamples) + Epilogue(env.recurrent))
  {
    var E := Epilogue(env.recurrent);
    assert LocalLoop(p, s, env, env.hdr.numSamples, c).state.trace == s.trace + E;
    TailUpTo(p, s.trace, E, a);
    assert Blocks(env, env.hdr.numSamples, env.hdr.numSamples) + E == E;
  }

  lemma LoopFailPrefix(p: Plan, s: St, env: LocalEnv, j: nat, c: nat, a: nat)
    requires env.Valid() && !SizeMismatch(env) && j < env.hdr.numSamples
    requires a <= |s.trace| && OkSince(p, s.trace, a)
    requires LocalExample(p, s, env, j).1 != Success
    ensures var t := LocalLoop(p, s, env, j, c).state.trace;
      Extends(t, s.trace)
      && UpToFailure(p, t, |s.trace|, a, Blocks(env, j, env.hdr.numSamples) + Epilogue(env.recurrent))
  {
    var u := LocalExample(p, s, env, j).0.trace;
    var more := Blocks(env, j + 1, env.hdr.numSamples) + Epilogue(env.recurrent);
    assert a <= |s.trace| < |u| && OkSince(p, u[..|u| - 1], a) && IsCall(u[|u| - 1])
           && p.status(u) != Success && Extends(u, s.trace) && u[|s.trace|..] <= Block(env, j) by {
      LocalExampleOutcome(p, s, env, j, a);
      LocalExamplePrefix(p, s, env, j);
    }
    assert LocalLoop(p, s, env, j, c).state.trace == u + SliceFree(env.recurrent);
    FailInBlock(p, u, SliceFree(env.recurrent), |s.trace|, a, Block(env, j), more);
    BlocksThen(env, j, Epilogue(env.recurrent));
    ExtendsAppend(u, s.trace, SliceFree(env.recurrent));
  }

  /** A failed call ending u, whose events from b begin blk. */
  lemma FailInBlock(p: Plan, u: seq<Event>, rest: seq<Event>, b: nat, a: nat, blk: seq<Event>, more: seq<Event>)
    requires a <= b < |u| && OkSince(p, u[..|u| - 1], a)
    requires IsCall(u[|u| - 1]) && p.status(u) != Success && u[b..] <= blk
    ensures UpToFailure(p, u + rest, b, a, blk + more)
  {
    PrefixWithin(u[b..], blk, more);
    ExactFailUpTo(p, u, rest, b, a, blk + more);
  }

  lemma BlocksThen(env: LocalEnv, j: nat, e: seq<Event>)
    requires env.Valid() && !SizeMismatch(env) && j < env.hdr.numSamples
    ensures Blocks(env, j, env.hdr.numSamples) + e == Block(env, j) + (Blocks(env, j + 1, env.hdr.numSamples) + e)
  {
    AppendAssoc(Block(env, j), Blocks(env, j + 1, env.hdr.numSamples), e);
  }

  /** The calls of example j, up to its first failed call, begin its block. */
  lemma LocalExamplePrefix(p: Plan, s: St, env: LocalEnv, j: nat)
    requires env.Valid() && !SizeMismatch(env) && j < env.hdr.numSamples
    ensures var r := LocalExample(p, s, env, j).0;
      Extends(r.trace, s.trace) && r.trace[|s.trace|..] <= Block(env, j)
  {
    var x := Example(env, j);
    var r := LocalExample(p, s, env, j).0;
    if env.recurrent {
      var s1 := Call(s, Reset);
      var ts, w := env.hdr.tsSize, env.w;
      RecurrentWindowsFit(env, j);
      if Answer(p, s1) == Success {
        RnnRunsShape(p, s1, x, 0, ts, w);
        var m := |r.trace| - |s1.trace|;
        MulMono(m, ts, w);
        WindowsPrefix(x, w, 0, m, ts);
        assert r.trace[|s.trace|..] == [Reset] + Windows(x, w, 0, m);
        PrefixAfter([Reset], Windows(x, w, 0, m), Windows(x, w, 0, ts));
      } else {
        assert r.trace[|s.trace|..] == [Reset];
        PrefixWithin([Reset], [Reset], Windows(x, w, 0, ts));
      }
    } else {
      assert r.trace[|s.trace|..] == [Run(x)];
    }
  }

  /** The runs of time steps a .. m-1 begin the runs of a .. b-1. */
  lemma {:induction false} WindowsPrefix(x: seq<int>, w: nat, a: nat, m: nat, b: nat)
    requires a <= m <= b && b * w <= |x|
    ensures m * w <= |x| && Windows(x, w, a, m) <= Windows(x, w, a, b)
    decreases m - a
  {
    MulMono(m, b, w);
    if a < m {
      MulMono(a + 1, b, w);
      WindowsPrefix(x, w, a + 1, m, b);
      PrefixAfter([Run(x[a * w .. (a + 1) * w])], Windows(x, w, a + 1, m), Windows(x, w, a + 1, b));
    }
  }

  /** The local run hands back every buffer it allocated: whatever the outcome, the live
      buffers are those it started with. */
  lemma LocalFreesWhatItAllocates(p: Plan, s: St, env: LocalEnv)
    requires env.Valid()
    ensures LocalSpec(p, s, env).state.live == s.live
  {
    if !SizeMismatch(env) {
      if env.recurrent {
        var s1 := AllocStep(p, s, InputSlice);
        if Answer(p, s1) == Success {
          LocalLoopLive(p, s1, env, 0, 0);
          assert s1.live - multiset{InputSlice} == s.live;
        }
      } else {
        LocalLoopLive(p, s, env, 0, 0);
      }
    }
  }
}
