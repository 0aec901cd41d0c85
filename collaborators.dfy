/** The collaborators the validation harness drives: the inference engine
    (`mtb_ml_model_*`, `mtb_ml_utils_find_max`), the streaming transport (`mtb_ml_stream_*`,
    `mtb_ml_inform_host_done`) and the heap (`malloc`/`free`). Every call is recorded in a
    trace of events; the answer to a call is decided by a caller-supplied `Plan` as a function
    of the whole trace up to and including that call, so every success/failure pattern of
    the collaborators is one choice of `Plan`. */
module Collaborators {
  import opened ResultCodes

  /** The two transient work buffers of the harness. */
  datatype Buf = RxBuf | InputSlice

  datatype Event =
    | ModelInit                 // mtb_ml_model_init
    | StreamInit                // mtb_ml_stream_init
    | Alloc(buf: Buf)           // malloc attempt for a work buffer
    | Free(buf: Buf)            // free of a work buffer
    | Reset                     // mtb_ml_model_rnn_reset_all_parameters
    | Run(input: seq<int>)      // mtb_ml_model_run, with the elements it is given
    | Recv                      // mtb_ml_stream_input_data
    | Send(output: seq<int>)    // mtb_ml_stream_output_data, with the output buffer sent
    | ProfileLog                // mtb_ml_model_profile_log
    | Done                      // mtb_ml_inform_host_done

  /** What the host announces during the streaming handshake (`iface->input_size`,
      `iface->x_data_info.recurrent_ts_size`, `iface->x_data_info.num_of_samples`). */
  datatype Session = Session(inputSize: nat, tsSize: int, numSamples: nat)

  /** The behaviour of the collaborators. `status(t)` answers the call that is the last event
      of `t` (for `Alloc`, `Success` means the buffer was obtained); `data(t, i)` is element i
      of what that call produced (the engine output after a `Run`, the frame after a `Recv`);
      `findMax` is the engine's argmax utility. */
  datatype Plan = Plan(
    status: seq<Event> -> Status,
    data: (seq<Event>, nat) -> int,
    findMax: seq<int> -> int,
    session: Session)

  /** The observable state of the collaborators: the call trace, the contents of the engine's
      output buffer and the multiset of work buffers that are allocated and not yet freed. */
  datatype St = St(trace: seq<Event>, out: seq<int>, live: multiset<Buf>)

  /** The n elements produced by the call that ends trace t. */
  function Data(p: Plan, t: seq<Event>, n: nat): (d: seq<int>)
    ensures |d| == n
    ensures forall i :: 0 <= i < n ==> d[i] == p.data(t, i)
  {
    seq(n, i requires 0 <= i => p.data(t, i))
  }

  /** The answer to the last call recorded in s. */
  function Answer(p: Plan, s: St): Status
    requires |s.trace| > 0
  {
    p.status(s.trace)
  }

  /** A call that changes nothing but the trace. */
  function Call(s: St, e: Event): (r: St)
    ensures r.trace == s.trace + [e] && r.out == s.out && r.live == s.live
  {
    s.(trace := s.trace + [e])
  }

  /** malloc of a work buffer: the buffer becomes live when the plan grants it. */
  function AllocStep(p: Plan, s: St, b: Buf): (r: St)
    ensures r.trace == s.trace + [Alloc(b)] && r.out == s.out
    ensures r.live == if p.status(r.trace) == Success then s.live + multiset{b} else s.live
  {
    var t := s.trace + [Alloc(b)];
    St(t, s.out, if p.status(t) == Success then s.live + multiset{b} else s.live)
  }

  /** free of a work buffer. */
  function FreeStep(s: St, b: Buf): (r: St)
    ensures r.trace == s.trace + [Free(b)] && r.out == s.out
    ensures r.live == s.live - multiset{b}
  {
    St(s.trace + [Free(b)], s.out, s.live - multiset{b})
  }

  /** One engine run: the output buffer then holds what the plan says the run produced. */
  function RunStep(p: Plan, s: St, x: seq<int>): (r: St)
    ensures r.trace == s.trace + [Run(x)] && r.live == s.live
    ensures r.out == Data(p, r.trace, |s.out|)
  {
    var t := s.trace + [Run(x)];
    St(t, Data(p, t, |s.out|), s.live)
  }

  /** The engine, the transport and the heap as one object. The engine's output buffer is an
      array the harness reads in place (`model_obj->output`, cached as `result_buffer`). */
  class Platform {
    const plan: Plan
    /** model_obj->input_size, as reported by mtb_ml_model_get_input_size. */
    const inputSize: nat
    /** model_obj->output; its length is the model output size. */
    const output: array<int>
    /** model_obj->recurrent_ts_size, written by the harness. */
    var recurrentTsSize: int
    var trace: seq<Event>
    ghost var live: multiset<Buf>

    ghost function State(): St
      reads this, output
    {
      St(trace, output[..], live)
    }

    constructor (plan: Plan, inputSize: nat, outputSize: nat)
      ensures this.plan == plan && this.inputSize == inputSize && output.Length == outputSize
      ensures trace == [] && live == multiset{} && fresh(output)
    {
      this.plan := plan;
      this.inputSize := inputSize;
      output := new int[outputSize];
      recurrentTsSize := 0;
      trace := [];
      live := multiset{};
    }

    method ModelInit() returns (st: Status)
      modifies this`trace
      ensures trace == old(trace) + [Event.ModelInit] && st == plan.status(trace)
    {
      trace := trace + [Event.ModelInit];
      st := plan.status(trace);
    }

    method Malloc(b: Buf) returns (ok: bool)
      modifies this`trace, this`live
      ensures State() == AllocStep(plan, old(State()), b)
      ensures ok == (plan.status(trace) == Success)
    {
      trace := trace + [Alloc(b)];
      ok := plan.status(trace) == Success;
      if ok {
        live := live + multiset{b};
      }
    }

    method Free(b: Buf)
      requires b in live
      modifies this`trace, this`live
      ensures State() == FreeStep(old(State()), b)
    {
      trace := trace + [Event.Free(b)];
      live := live - multiset{b};
    }

    /** A call that carries no data: Reset, ProfileLog or Done. */
    method Notify(e: Event) returns (st: Status)
      requires e == Reset || e == ProfileLog || e == Done
      modifies this`trace
      ensures State() == Call(old(State()), e) && st == plan.status(trace)
    {
      trace := trace + [e];
      st := plan.status(trace);
    }

    /** mtb_ml_stream_init: the handshake that fills in the stream interface. */
    method OpenStream() returns (st: Status, session: Session)
      modifies this`trace
      ensures State() == Call(old(State()), StreamInit) && st == plan.status(trace)
      ensures session == plan.session
    {
      trace := trace + [Event.StreamInit];
      st := plan.status(trace);
      session := plan.session;
    }

    method Run(x: seq<int>) returns (st: Status)
      modifies this`trace, output
      ensures State() == RunStep(plan, old(State()), x) && st == plan.status(trace)
    {
      trace := trace + [Event.Run(x)];
      forall i | 0 <= i < output.Length {
        output[i] := plan.data(trace, i);
      }
      assert output[..] == Data(plan, trace, output.Length);
      st := plan.status(trace);
    }

    /** Receives one frame from the host into buf. */
    method Receive(buf: array<int>) returns (st: Status)
      requires buf != output
      modifies this`trace, buf
      ensures State() == Call(old(State()), Recv) && st == plan.status(trace)
      ensures buf[..] == Data(plan, trace, buf.Length)
    {
      trace := trace + [Recv];
      forall i | 0 <= i < buf.Length {
        buf[i] := plan.data(trace, i);
      }
      assert buf[..] == Data(plan, trace, buf.Length);
      st := plan.status(trace);
    }

    /** Sends the engine's output buffer to the host. */
    method SendOutput() returns (st: Status)
      modifies this`trace
      ensures State() == Call(old(State()), Send(old(output[..]))) && st == plan.status(trace)
    {
      trace := trace + [Send(output[..])];
      st := plan.status(trace);
    }
  }
}
