# profile-ebpf-clone, modelled in Dafny

profile-ebpf-clone is a CPU-stack sampling profiler. At each sampling interrupt, a BPF program on every CPU fills that CPU's scratch `StackTraceEvent`. It records the task id, the CPU, the task name, and a kernel and a user stack capture. It then pushes the record to a perf output channel. In userspace, a handler turns each record into log lines. It skips samples that have neither stack, and otherwise writes a header, then the kernel section, then the user section. Each section is either symbolized frames or a "No ... Stack" line.

The project has four modules:

- `Outcome` (`outcome.dfy`): Rust's `Result`.
- `Common` (`common.dfy`): the shared record. Its fixed sizes are subset types, so every record has a 16-byte `comm` and two 128-entry stacks. It also holds the checked `u32` narrowing behind `kstack_size` / `ustack_size`.
- `Probe` (`probe.dfy`): the sampling program. The class `PerfEventProgram` holds the `SCRATCH` map as an `array` with one record per CPU, and the `EVENTS` channel as a `seq` of records.
  - `TryEbpfExample` fills the slot in place, field by field, in the source's order.
  - It is proved equal to the pure function `Step`. Properties of one invocation are proved about `Step`.
  - The kernel helpers are inputs. `Helpers` holds what the pid/tgid, processor-id and task-name helpers return. A `StackWalker` function stands for `bpf_get_stack`: it takes a request (buffer, byte capacity, flags) and gives back a return value and the buffer's new contents.
- `Report` (`report.dfy`): the userspace handler.
  - `EventHandler` is a pure function from a record to a `Report`: the lines logged, and `Ok` or the error passed up by `?`. Lines logged before an error stay in the report.
  - `ShowStackTrace` keeps the source's `for` loop and is proved equal to `StackTraceLines`.
  - The symbolization service is a function parameter. It takes a `Source` (the kernel, or one process) and a batch of addresses. It returns a sequence of `Resolved`/`Unknown` results, or fails for the whole batch. The library's promise of one result per address is the predicate `OnePerAddress`, required only by the lemmas that bound a report's length.

Two behaviours of the code are worth knowing:

- `event_handler` passes all 128 entries of each stack to the symbolizer, whatever `kstack_sz`/`ustack_sz` say (`KernelFrames`, `UserFrames`).
- A pid above `i32::MAX` makes the handler fail after "Userspace:" is logged (`PidOverflowOnlyOnUserPath`).

## Model

| member | source | states |
|---|---|---|
| `Common.EventShape` | profile-ebpf-clone-common/src/lib.rs:25-40 | every record has a 16-byte `comm` and two 128-entry stacks, whatever its size fields say |
| `Common.StackBufferSize` | profile-ebpf-clone-common/src/lib.rs:47 | the narrowed byte size of a `[u64; depth]` buffer is `Err(1)` exactly when `depth * 8` exceeds `u32::MAX`, and otherwise `Ok(depth * 8)` |
| `Common.KstackSize` | profile-ebpf-clone-common/src/lib.rs:46-48 | `kstack_size()` is `Ok(MAX_STACK_DEPTH * 8)`, that is `Ok(1024)`; the error branch is unreachable with these constants |
| `Common.UstackSize` | profile-ebpf-clone-common/src/lib.rs:52-54 | `ustack_size()` gives the same result as `kstack_size()` |
| `Probe.PidIsLowHalf` | profile-ebpf-clone-ebpf/src/main.rs:39-40 | the recorded pid (`pid_tgid as u32`) is the low half of the packed pid/tgid, the task's own id |
| `Probe.TransmuteComm` | profile-ebpf-clone-ebpf/src/main.rs:46-47 | the `u8`-to-`i8` transmute of the task name keeps every byte bit for bit, and zero bytes in place |
| `Probe.Step` | profile-ebpf-clone-ebpf/src/main.rs:33-71 | one invocation changes only the invoking CPU's slot. With no slot it changes nothing and returns `Ok(0)`. If the task name cannot be read it returns `Err(1)`, emits nothing, and leaves the slot with only pid and cpu id rewritten. Otherwise it returns `Ok(0)` and appends exactly one record, equal to the filled slot |
| `Probe.EmittedRecord` | profile-ebpf-clone-ebpf/src/main.rs:39-67 | the emitted record holds the low 32 bits of pid/tgid, the invoking CPU, the transmuted name, and what the two walks returned. Both walks are given the slot's buffer and 1024 bytes; only the user walk passes `BPF_F_USER_STACK` |
| `Probe.EmitsWithoutStacks` | profile-ebpf-clone-ebpf/src/main.rs:52-67 | the record is emitted even when both walks return a size of zero or less |
| `Probe.StepReadsOwnSlotOnly` | profile-ebpf-clone-ebpf/src/main.rs:36-67 | an invocation's result, output and new slot depend only on its own CPU's slot, never on another CPU's |
| `Probe.StepsOnDistinctCpusCommute` | profile-ebpf-clone-ebpf/src/main.rs:22-23 | invocations on two different CPUs leave the same scratch records in either order |
| `Probe.PerfEventProgram.constructor` | profile-ebpf-clone-ebpf/src/main.rs:19-23 | the maps start with one zeroed record per CPU and an empty channel |
| `Probe.PerfEventProgram.TryEbpfExample` | profile-ebpf-clone-ebpf/src/main.rs:33-71 | filling the slot in place and pushing it gives exactly the new state and result that `Step` gives |
| `Probe.PerfEventProgram.EbpfExample` | profile-ebpf-clone-ebpf/src/main.rs:25-31 | the entry point returns 1 when the task name could not be read and 0 on the success and no-slot paths |
| `Report.CommName` | profile-ebpf-clone/src/lib.rs:41 | the header's name is a prefix of `comm` with no NUL, ending at a NUL or at the buffer's end, so never longer than 16 bytes |
| `Report.CommNameStopsAtFirstNul` | profile-ebpf-clone/src/lib.rs:41 | the name is exactly the bytes before the first NUL |
| `Report.CommNameWithoutNul` | profile-ebpf-clone/src/lib.rs:41 | a buffer with no NUL is shown whole: exactly 16 bytes |
| `Report.FrameLines` | profile-ebpf-clone/src/lib.rs:22-29 | the loop writes only frame lines, at most one per symbolized result |
| `Report.FrameLinesAppend` | profile-ebpf-clone/src/lib.rs:22-29 | the loop's output over two batches is the first batch's output followed by the second's (input order is kept) |
| `Report.FrameLinesMembership` | profile-ebpf-clone/src/lib.rs:22-29 | a symbol appears as a frame exactly when some result is that resolved symbol |
| `Report.FrameLinesAllResolved` | profile-ebpf-clone/src/lib.rs:22-29 | when every result is resolved, frame `i` is the symbol of result `i` |
| `Report.FrameLinesAllUnknown` | profile-ebpf-clone/src/lib.rs:22-29 | unresolved results produce no output |
| `Report.SourceOf` | profile-ebpf-clone/src/lib.rs:16-18 | building the process source fails with a conversion error exactly for a negative pid; the kernel scope always gives the kernel source |
| `Report.StackTraceLines` | profile-ebpf-clone/src/lib.rs:15-32 | `show_stack_trace` writes only frame lines, nothing when it fails, and fails exactly when the source cannot be built or the batch cannot be symbolized, passing the symbolizer's error up |
| `Report.StackTraceLinesBound` | profile-ebpf-clone/src/lib.rs:20-29 | with one result per address, a stack yields at most as many frames as it has addresses |
| `Report.ShowStackTrace` | profile-ebpf-clone/src/lib.rs:15-32 | `show_stack_trace` fails on a negative pid or a failed symbolization, writing nothing. Otherwise its loop writes one frame per resolved symbol, in input order |
| `Report.EventHandler` | profile-ebpf-clone/src/lib.rs:35-59 | the handler writes no line, and succeeds, exactly when both sizes are zero or less. Otherwise the first line is the header (name, pid, cpu id), and the second is "Kernel:" when `kstack_sz > 0` and "No Kernel Stack" otherwise |
| `Report.ReportLayout` | profile-ebpf-clone/src/lib.rs:41-56 | a successful report is the header, then a whole kernel section, then a whole user section. The user section starts at the first user-section line ("Userspace:" when `ustack_sz > 0`, "No Userspace Stack" otherwise) |
| `Report.KernelFrames` | profile-ebpf-clone/src/lib.rs:44-46 | the kernel stack's 128 addresses are resolved in the kernel's scope, and their frames follow "Kernel:" |
| `Report.UserFrames` | profile-ebpf-clone/src/lib.rs:51-53 | the user stack's 128 addresses are resolved in the scope of the sample's pid, and "Userspace:" and those frames close a successful report |
| `Report.PidOverflowOnlyOnUserPath` | profile-ebpf-clone/src/lib.rs:51-53 | the pid-conversion error happens exactly when the kernel section succeeded, a user stack is present and the pid exceeds `i32::MAX`. By then the header, the kernel section and "Userspace:" have been written |
| `Report.KernelSymbolizeFails` | profile-ebpf-clone/src/lib.rs:44-46 | a failed kernel symbolization ends the report at the header and "Kernel:" with the symbolizer's error; no user section is written |
| `Report.UserSymbolizeFails` | profile-ebpf-clone/src/lib.rs:51-53 | a failed user symbolization ends the report at "Userspace:" with the symbolizer's error, after the header and the whole kernel section |
| `Report.HandlerSucceeds` | profile-ebpf-clone/src/lib.rs:35-59 | the handler succeeds exactly when the sample is skipped, or when the kernel stack (if present) symbolizes and the user stack (if present) has a pid within `i32` and symbolizes |
| `Report.ReportBound` | profile-ebpf-clone/src/lib.rs:41-56 | with one result per address, a report has at most 3 + 2 * 128 lines |
| `Report.WorkerSample` | profile-ebpf-clone/src/lib.rs:35-59 | a sample from "worker" (pid 42, CPU 1) with `kstack_sz = 16` and `ustack_sz = 0` gives the header, "Kernel:" with its frames, then "No Userspace Stack" |

## Left out

- profile-ebpf-clone/src/main.rs is not part of this model. It is the loader: it raises the memlock limit, loads and attaches the program on every CPU, spawns one reader task per CPU, and waits for Ctrl-C. All of it is I/O and concurrency.
- Decoding a record from raw bytes (`read_unaligned`) is left out. `StackTraceEvent` is not `#[repr(C)]`, so the source defines no byte layout to round-trip.
- The kernel helpers' internals (pid/tgid, processor id, task name, stack walk) are left out. Their results are inputs.
- The symbolization library's internals are left out; it is a function parameter. A `Sym` keeps only a name and an address, not file and line.
- The source builds the kernel-stack source with `NonZero::new_unchecked(0)`, which is undefined behaviour. The model uses a separate kernel source instead. A user pid of 0 reaches the same unchecked constructor; the model passes it on as `Process(0)`.
- `CStr::from_ptr` on a name with no NUL would read past the 16-byte buffer. The model stops at the buffer's end.
- `to_string_lossy` (UTF-8 decoding with replacement characters) is left out. The header carries the raw name bytes.
- The text formatting of `info!` / `dbg!` and the logging backends are left out. A line is a `Line` value.
- The BPF panic handler (an endless loop) is left out.
- The per-CPU perf rings are kept as one `events` sequence. Each record carries the CPU it came from.
- The perf output call (`EVENTS.output`) is assumed never to drop a record. Its result is ignored in the source, and a full ring loses the sample; ring capacity and lost samples are not modelled, so the single append stated by `Step` and `TryEbpfExample` holds by construction.
- Real concurrency between CPUs is left out. Per-CPU isolation is stated sequentially, as a frame condition on the slot array (`Step`, `StepReadsOwnSlotOnly`, `StepsOnDistinctCpusCommute`).
- The per-CPU scratch map is an array indexed by CPU. "Slot absent" is modelled as a CPU index beyond the array.
