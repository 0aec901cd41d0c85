# ML profiler validation harness and elapsed timer, in Dafny

This project models the firmware core of the PSoC Edge ML profiler example. It covers two parts.

- **The validation harness** (`shared_src/ml_validation.c`):
  - `ml_validation_init` initialises the inference engine and caches the model handle, its output buffer and the output size.
  - `ml_validation_local_task` runs the model over a regression dataset held in memory:
    - it checks the data header against the model input size;
    - it runs every example, in `recurrent_ts_size` windows for a recurrent model, after a state reset;
    - it counts the examples whose output argmax equals the expected argmax;
    - it derives the success rate and the PASS/FAIL verdict (threshold 98%).
  - `ml_validation_stream_task` serves frames sent by a host. Per sample it does a recurrent reset, receives a frame, runs the engine (in windows for a recurrent model) and sends the output. It then frees its buffers, emits the profile log and tells the host it is done. Every failing call has its own exit: its own returned status and its own set of buffers freed.
- **The elapsed timer** (`shared_src/elapsed_timer.c`): a 64-bit software count of SysTick wrap-arounds, combined with the 24-bit down-counter into one tick count.

## How it is modelled

- **Collaborators** (`collaborators.dfy`). The inference engine, the stream transport and the heap are one `Platform` object. It records each engine, transport and heap call as an `Event` on its `trace`: the engine initialisation, `malloc` and `free`, the recurrent reset, each engine run, the stream handshake, each receive and send, the profile log and the completion notice. Three library calls are not events. `mtb_ml_utils_find_max` is the pure function `Plan.findMax`. `mtb_ml_model_get_input_size` and `mtb_ml_model_get_output` are read from the `Platform` fields `inputSize` and `output`. The outcome of each call is supplied by a `Plan`, a function from the trace so far to a status. The data a call produces (the engine output after a run, the frame after a receive) also comes from the plan. So every statement about call order and error paths is a statement over all possible collaborator behaviours. `malloc` is an `Alloc` event whose success the plan decides; the live buffers are a multiset.
- **Build modes.** The compile-time switch `RNN_STREAMING` is the runtime parameter `recurrent`. The local and streaming tasks are separate methods, so `USE_STREAM_DATA` only picks which one a caller uses.
- **Specification functions** (`validation_spec.dfy`). `LocalSpec` and `StreamSpec` state what each task does, as functions from the collaborator state to the final state and the returned status. The loops are `LocalLoop` and `StreamLoop`; one streaming sample is `StreamSample`.
- **Imperative methods** (`ml_validation.dfy`). The class `Validation` holds the module state `model_obj`, `result_buffer` and `model_output_size`. Its methods keep the source's loops, pointer offsets, counters and in-place fills of the input slice. Each method is proved, through loop invariants, to compute its specification function.
- **Lemmas** (`local_props.dfy`, `stream_props.dfy`, `verdict.dfy`). They state what the specification functions guarantee:
  - the exact call sequences of successful runs;
  - the argmax count;
  - the exit table of the failure paths;
  - buffer release;
  - the verdict arithmetic.
- **The timer** (`elapsed_timer.dfy`). The timer is a class with the overflow counter as its field. The tick formula is a pure function in unsigned 64-bit arithmetic, with lemmas about its bounds and its monotonicity.
- **Integer division.** C's truncating `/` is `CDiv`. The recurrent size check is modelled as written: `file_input_size / recurrent_ts_size != model_input_size`. A data file whose size is not a multiple of the time steps therefore passes the check.
- **Success rate.** It is an exact rational (`Stats.Rate`). `Verdict.PassedIff` shows that, for a run with at least one example, the verdict is the same as comparing `100 * correct` with `98 * total`. A run without examples has rate 0 and fails.

The model follows the code on three points where the code does not free every work buffer on every exit, does not always attempt the completion notice, or does not check its inputs:

- **Send failure (lines 392-397).**
  - It returns `MTB_ML_RESULT_ALLOC_ERR`.
  - It frees only `rx_buf`, so in recurrent mode `input_slice` stays allocated.
  - It sends no completion notice.
- **Receive failure (lines 354-359).** It leaves the loop and is not returned. The status comes from the profile log or the completion notice.
- **Unchecked frame size.** The streaming task never checks that `recurrent_ts_size * input_size` elements fit in `rx_buf`. It also never checks that `recurrent_ts_size` is positive; a value of zero or less makes no runs per sample.

## Model

| member | source | states |
|---|---|---|
| MlValidation.Validation.constructor | shared_src/ml_validation.c:65-72 | before initialisation there is no model handle, no result buffer and an output size of 0 |
| MlValidation.Validation.Init | shared_src/ml_validation.c:88-111 | exactly one engine initialisation is traced and its status returned; on success the model handle, its output buffer and output size are cached, on failure nothing cached changes |
| MlValidation.Validation.RunTimeSteps | shared_src/ml_validation.c:209-225 | filling the input slice element by element and running the engine on it, step by step, computes RnnRuns: step i runs on window i of the example, the first failing run stops the steps and its status is returned |
| MlValidation.Validation.RunExample | shared_src/ml_validation.c:200-235 | the inference for example j, read at input_reference = j * file_input_size, computes LocalExample: a reset (InferenceError on failure) and the windowed runs, or one run over the example |
| MlValidation.Validation.CheckLocalSizes | shared_src/ml_validation.c:157-194 | the size checks and the input slice allocation either end the task as LocalSpec says or lead into the example loop with the slice allocated; recurrent_ts_size is taken from the header |
| MlValidation.Validation.RunLocalExamples | shared_src/ml_validation.c:196-287 | the example loop, with its pointer offsets, match counter and example counter, computes LocalLoop, including the frees on each exit and the profile log |
| MlValidation.Validation.LocalTask | shared_src/ml_validation.c:126-288 | the local task, with the counters it reports, computes LocalSpec exactly |
| MlValidation.Validation.StartStream | shared_src/ml_validation.c:305-336 | the stream handshake and the buffer allocations end the task as StreamSpec says, or lead into the sample loop with the receive buffer (and the recurrent input slice) allocated |
| MlValidation.Validation.RunStreamSample | shared_src/ml_validation.c:341-397 | one pass of the sample loop ends exactly as StreamSample says: next sample, break on a failed receive, or return with that exit's status |
| MlValidation.Validation.InferAndSend | shared_src/ml_validation.c:361-397 | the engine runs on the received frame and the send of its output end exactly as SampleTail says |
| MlValidation.Validation.RunStreamSamples | shared_src/ml_validation.c:338-415 | the sample loop and what follows it compute StreamLoop |
| MlValidation.Validation.FinishStream | shared_src/ml_validation.c:400-415 | after the loop: both buffers freed, BadModel if the profile log fails, otherwise the status of the completion notice |
| MlValidation.Validation.StreamTask | shared_src/ml_validation.c:303-416 | the streaming task computes StreamSpec exactly |
| ValidationSpec.CDiv | shared_src/ml_validation.c:170 | C division agrees with mathematical division on a non-negative dividend and a positive divisor |
| ValidationSpec.CDivTruncates | shared_src/ml_validation.c:170 | C division truncates toward zero for every sign: negating either operand negates the quotient, and quotient times divisor lies between 0 and the dividend, less than one divisor away from it |
| ValidationSpec.ExampleIn | shared_src/ml_validation.c:245 | beyond Example's definition as the slice starting at j * file_input_size: that slice lies within the input buffer, and in the ordinary mode it is exactly model_input_size long |
| ValidationSpec.RecurrentWindowsFit | shared_src/ml_validation.c:170 | after the division check, ts windows of model_input_size elements fit in one example |
| LocalProps.RecurrentReadInBounds | shared_src/ml_validation.c:209-215 | every index i * model_input_size + z that the recurrent slicer reads is below file_input_size |
| LocalProps.WindowAt | shared_src/ml_validation.c:212-217 | the i-th run of a recurrent inference receives elements [i*w, (i+1)*w) of the example |
| LocalProps.RnnRunsShape | shared_src/ml_validation.c:209-225 | the time steps record their windows in order, at most ts of them, and allocate or free nothing |
| LocalProps.RnnRunsOutcome | shared_src/ml_validation.c:217-224 | the time steps either all succeed (exactly ts runs, the output is that of the last run) or stop at the first failing run, whose status is kept |
| LocalProps.LocalExampleOutcome | shared_src/ml_validation.c:200-235 | one example either succeeds, recording exactly one reset and ts runs (or one run), or ends at a failed reset (InferenceError) or a failed run (its status) |
| LocalProps.Hits | shared_src/ml_validation.c:238-242 | the reference count of matching examples is at most the number of examples |
| LocalProps.LocalLoopUnfold | shared_src/ml_validation.c:237-249 | one successful example appends its call block and raises the count exactly on a match |
| LocalProps.LocalLoopSuccess | shared_src/ml_validation.c:197-253 | a completed loop reports total = num_of_samples and correct = the reference count of matches, after exactly the examples' calls, the slice free and the profile log |
| LocalProps.LocalLoopFailure | shared_src/ml_validation.c:197-235 | a failed loop ended at its first failed call (a reset or a run) with the matching status, followed only by the free of the input slice |
| LocalProps.LocalLoopLive | shared_src/ml_validation.c:205-252 | the example loop frees the input slice on every exit in recurrent mode and nothing else |
| LocalProps.LocalMismatchMakesNoCalls | shared_src/ml_validation.c:157-194 | the size check rejects the data exactly when the task makes no call at all, and then it returns MismatchDataType without statistics |
| LocalProps.LocalSucceeds | shared_src/ml_validation.c:196-287 | a run returns Success exactly when it reports statistics; then every call succeeded except possibly the profile log, the trace is LocalTrace, total = num_of_samples and correct = the matches, at most total |
| LocalProps.LocalSucceedsFrom | shared_src/ml_validation.c:196-287 | LocalSucceeds from the point where the input slice is allocated |
| LocalProps.LocalFails | shared_src/ml_validation.c:177-235 | a failed run stopped at its first failed call: the slice allocation (AllocErr), a reset (InferenceError) or a run (its own status), followed only by the slice free |
| LocalProps.LocalCallsBeforeFailure | shared_src/ml_validation.c:177-235 | the calls up to and including the first failed one are a prefix of LocalTrace, the calls of a run in which nothing fails |
| LocalProps.LocalFreesWhatItAllocates | shared_src/ml_validation.c:177-253 | whatever the outcome, the local task leaves the same buffers live as before |
| Verdict.PassedIff | shared_src/ml_validation.c:262-271 | with no examples the rate is 0 and the run fails; otherwise PASS exactly when 100 * correct >= 98 * total |
| Verdict.RateIsPercentage | shared_src/ml_validation.c:262-269 | the success rate lies between 0 and 100 |
| Verdict.ThresholdIsInclusive | shared_src/ml_validation.c:57 | two instances pin the inclusive threshold: 49/50 (98%) passes and 97/99 fails; the general rule is PassedIff |
| StreamProps.StreamFinishShape | shared_src/ml_validation.c:400-415 | after the loop: the frees and the profile log, then the completion notice unless the log failed (BadModel), whose status is returned; the held buffers are released |
| StreamProps.SampleRunsOutcome | shared_src/ml_validation.c:361-388 | the runs of one sample either all succeed (ts windowed runs or one run) or stop at the first failing run with its status |
| StreamProps.RecurrentRunsOutcome | shared_src/ml_validation.c:362-378 | with positive ts the windowed runs of a frame are exactly ts runs, or stop at the first failing one |
| StreamProps.ErasedWindows | shared_src/ml_validation.c:362-378 | the windowed runs are, data aside, a run repeated once per time step |
| StreamProps.SampleContinues | shared_src/ml_validation.c:341-397 | a sample that goes through makes, in order, the reset (recurrent), the receive, the runs and the send, all successful, and changes no buffer |
| StreamProps.SampleCarriesData | shared_src/ml_validation.c:361-397 | in a sample that goes through, each run receives the frame the receive delivered (window i of it in the recurrent mode) and the send carries the output of the last run, or the unchanged output buffer when no run took place |
| StreamProps.SampleBreaks | shared_src/ml_validation.c:353-359 | a sample whose receive fails leaves the loop right after it, with nothing freed yet |
| StreamProps.SampleReturns | shared_src/ml_validation.c:342-397 | a sample that makes the task return stops as the exit table says |
| StreamProps.ResetFails | shared_src/ml_validation.c:343-350 | a failed reset returns InferenceError after freeing the input slice and the receive buffer |
| StreamProps.RunFails | shared_src/ml_validation.c:370-386 | a failed run returns its own status after freeing both buffers (the receive buffer only, in the ordinary mode) |
| StreamProps.SampleSendFails | shared_src/ml_validation.c:391-397 | a failed send returns AllocErr after freeing only the receive buffer, with no completion notice |
| StreamProps.BreakStops | shared_src/ml_validation.c:354-415 | after a failed receive the buffers are freed and the profile log follows, then the completion notice unless the log failed (BadModel); the receive error is not returned |
| StreamProps.FinishStops | shared_src/ml_validation.c:400-415 | after a loop in which everything succeeded, a failure can only be the profile log (BadModel) or the completion notice (its status) |
| StreamProps.ProfileLogFails | shared_src/ml_validation.c:408-413 | a failed profile log returns BadModel and nothing follows it |
| StreamProps.FinishDone | shared_src/ml_validation.c:415 | a failed completion notice returns its own status |
| StreamProps.StreamLoopStops | shared_src/ml_validation.c:339-415 | if a call of the sample loop or what follows it fails, the run ended as the exit table says for the first failed call |
| StreamProps.StreamLoopHappy | shared_src/ml_validation.c:339-415 | when every call succeeds, the remaining samples' call blocks, the frees, the profile log and the completion notice follow in this order, and Success is returned |
| StreamProps.FinaleHappy | shared_src/ml_validation.c:400-415 | when every call succeeds after the loop, exactly the frees, the profile log and the completion notice follow |
| StreamProps.OpenedOk | shared_src/ml_validation.c:305-336 | a run in which every call succeeded passed the handshake and the allocations, holding the receive buffer and, if recurrent, the input slice |
| StreamProps.OpenedStops | shared_src/ml_validation.c:305-336 | the run either stopped at a failed handshake or allocation as the exit table says, or entered the sample loop with every call so far successful |
| StreamProps.InitFails | shared_src/ml_validation.c:308-313 | a failed handshake returns its own status and makes no further call |
| StreamProps.RxAllocFails | shared_src/ml_validation.c:316-321 | a failed receive buffer allocation returns AllocErr and makes no further call |
| StreamProps.SliceAllocFails | shared_src/ml_validation.c:328-335 | a failed input slice allocation returns AllocErr after freeing the receive buffer |
| StreamProps.StreamHappyPath | shared_src/ml_validation.c:303-416 | when every call succeeds, the calls are, data aside, the handshake and allocations, then per sample [Reset] (recurrent), Recv, ts or 1 Runs, Send, then the frees, ProfileLog and Done; Success is returned and every buffer is freed |
| StreamProps.StreamFailurePaths | shared_src/ml_validation.c:303-416 | when a call fails, the first failed call decides the status returned, the events still made after it and the buffers left live, as the exit table says |
| StreamProps.StopsNotOk | shared_src/ml_validation.c:303-416 | a run that stopped at a failed call is not one in which every call succeeded, so the two path lemmas are disjoint |
| StreamProps.StreamCallsBeforeFailure | shared_src/ml_validation.c:303-416 | the calls up to and including the first failed one are, data aside, a prefix of HappyTrace |
| ElapsedTimer.Tick | shared_src/elapsed_timer.c:118 | the tick is (SYSTICK_MAX_CNT - v) + ov * 2^24 reduced modulo 2^64 |
| ElapsedTimer.NoWrapIff | shared_src/elapsed_timer.c:118 | for a counter value the hardware can hold, the formula stays below 2^64 exactly when ov < 2^40 |
| ElapsedTimer.TickIsExact | shared_src/elapsed_timer.c:118 | below 2^40 overflows the stored tick is the exact value of the formula |
| ElapsedTimer.TickInPeriod | shared_src/elapsed_timer.c:118 | below 2^40 overflows, ov * 2^24 <= tick <= ov * 2^24 + 0xFFFFFF |
| ElapsedTimer.TickIncreasesAsCounterFalls | shared_src/elapsed_timer.c:118 | for every overflow count, with ov fixed the tick strictly increases as the counter counts down |
| ElapsedTimer.TickReduced | shared_src/elapsed_timer.c:118 | for every overflow count, the u64 product wraps to (ov mod 2^40) * 2^24 and the sum does not wrap again, so the tick is (0xFFFFFF - v) + (ov mod 2^40) * 2^24 |
| ElapsedTimer.OverflowAddsPeriod | shared_src/elapsed_timer.c:118 | one more overflow adds exactly 2^24 at the same counter value |
| ElapsedTimer.TickContinuousAcrossWrap | shared_src/elapsed_timer.c:118 | from (ov, 0) to (ov + 1, 0xFFFFFF) the tick rises by exactly 1 |
| ElapsedTimer.TickMonotone | shared_src/elapsed_timer.c:118 | below 2^40 overflows, a later reading never gives a smaller tick |
| ElapsedTimer.TickWrapsAtLimit | shared_src/elapsed_timer.c:118 | at 2^40 overflows and v = 0xFFFFFF the unsigned formula gives 0 (in general Tick(2^40, v) = 0xFFFFFF - v) |
| ElapsedTimer.Timer.constructor | shared_src/elapsed_timer.c:58 | the overflow counter starts at RESET_VAL |
| ElapsedTimer.Timer.Init | shared_src/elapsed_timer.c:92-101 | initialisation resets the overflow counter to 0 and returns success |
| ElapsedTimer.Timer.OnOverflow | shared_src/elapsed_timer.c:74-77 | the interrupt handler adds one to the overflow counter, modulo 2^64 |
| ElapsedTimer.Timer.GetTick | shared_src/elapsed_timer.c:116-121 | the stored tick is Tick(ov, v) for the counter value v read, and success is returned |

## Left out

- `mtb_ml_model_profile_config` and `mtb_ml_utils_print_model_info` (lines 103 and 108) are not modelled: they configure profiling and print, and the task logic never reads what they do.
- The model handle stored by a failed `mtb_ml_model_init` is not modelled. The model caches nothing on failure, and the tasks require a successful initialisation.
- `printf` diagnostics and the `%3.2f` formatting are not modelled. The PASS/FAIL verdict is the predicate `Stats.Passed`, and `LocalTask` returns the counters it is computed from.
- Stats.Rate: the success rate is an exact rational, not a 32-bit `float` value. IEEE rounding is not modelled.
- The 5000 ms timeouts of the stream calls are not modelled. Each stream call is a success or failure outcome supplied by the plan.
- The internals of the engine and the transport are not modelled. That covers `mtb_ml_model_init/run/get_output`, `mtb_ml_utils_find_max`, the profile log and `mtb_ml_stream_*`. For `find_max` no tie-breaking rule is assumed: it is an arbitrary function of the buffer.
- MlValidation.Validation.LocalTask: it requires that the regression buffers hold `num_of_samples` examples. The source reads them through fixed arrays whose sizes come from the same data files.
- MlValidation.Validation.StreamTask: it requires that the host's frames hold `recurrent_ts_size` windows of the model input size. The source never checks this, and reads past `rx_buf` otherwise. In the ordinary mode the engine runs on the whole received frame of `iface->input_size` elements (line 381). Nothing checks that this equals the model input size. The model records that run over the whole frame and does not model an engine reading past its end.
- `correct_result` and `total_count` (`uint32_t`) and the example index `j` (`int`) are unbounded naturals in the model, so their 2^32 wrap-around is not modelled. It would need more than 2^31 examples, which data held in memory cannot supply.
- `MTB_ML_DATA_T` buffer elements are `int` in the model. The code only copies them and passes them to the engine and to `find_max`, so their width and signedness do not matter.
- Plan.session: the session negotiated by `mtb_ml_stream_init` is one constant of the plan. Repeated streaming runs on one platform (the endless loop in `proj_cm33_ns/main.c`) therefore all see the same input size, time steps and sample count. Only the handshake's status may differ from run to run.
- `elapsed_timer_ov` is `volatile` and written by an interrupt handler. Torn reads and concurrency with the reader are not modelled: `OnOverflow` is an ordinary call between readings.
- ElapsedTimer.Timer.GetTick: the SysTick hardware is not modelled. Its counter value is a parameter, and `Cy_SysTick_Init` / `Cy_SysTick_SetCallback` are left out.
- `proj_cm33_ns/main.c` (board start-up, the CM55 boot, delays) and `shared_src/app_common.c` (UART set-up, `handle_error`) are not part of this model.
