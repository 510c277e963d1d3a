/** The sampling program that runs on every CPU at each sampling interrupt
    (profile-ebpf-clone-ebpf/src/main.rs). It fills the invoking CPU's scratch
    record field by field and pushes the record to the output channel.

    The kernel helpers are inputs: `Helpers` holds what the pid/tgid, processor
    id and task-name helpers return during one invocation, and `StackWalker`
    stands for `bpf_get_stack` on the interrupted context. */
module Probe {
  import opened Outcome
  import opened Common

  /** Flags passed to `bpf_get_stack`: 0 walks the kernel stack, and
      `BPF_F_USER_STACK` (bit 8) walks the user stack. */
  const KERNEL_STACK: u64 := 0
  const BPF_F_USER_STACK: u64 := 0x100

  /** What `bpf_get_current_comm` returns: 16 unsigned bytes. */
  type CommBytes = s: seq<u8> | |s| == TASK_COMM_LEN witness seq(TASK_COMM_LEN, _ => 0)

  /** Results of the kernel helpers for one invocation. `cpu` is the CPU the
      program runs on: the processor id helper returns it, and the per-CPU
      scratch map resolves to that CPU's slot. */
  datatype Helpers = Helpers(pidTgid: u64, cpu: u32, comm: Result<CommBytes, i64>)

  /** One call of `bpf_get_stack`: the buffer it may write into, the capacity
      it is given in bytes, and its flags. */
  datatype StackRequest = StackRequest(buf: StackTrace, size: u32, flags: u64)
  /** What the call leaves: its return value (a byte count, or a negative error)
      and the buffer's new contents. */
  datatype StackCapture = StackCapture(ret: i64, buf: StackTrace)
  type StackWalker = StackRequest -> StackCapture

  /** `x as u32` for a `u64`: keeps the low 32 bits. */
  function Low32(x: u64): u32 {
    x % 0x1_0000_0000
  }

  /** The pid/tgid helper packs the thread-group id above the task's own id, so
      the recorded `pid` is the id of the interrupted task. */
  lemma PidIsLowHalf(tgid: u32, tid: u32)
    ensures 0 <= tgid * 0x1_0000_0000 + tid < 0x1_0000_0000_0000_0000
    ensures Low32(tgid * 0x1_0000_0000 + tid) == tid
  {
    var packed := tgid * 0x1_0000_0000 + tid;
    assert packed < 0x1_0000_0000_0000_0000 by {
      assert tgid * 0x1_0000_0000 <= 0xFFFF_FFFF * 0x1_0000_0000;
    }
    assert packed / 0x1_0000_0000 == tgid;
  }

  /** `core::mem::transmute::<[u8; 16], [i8; 16]>`: each byte is kept bit for
      bit, so zero bytes stay exactly where they were. */
  function TransmuteComm(bytes: CommBytes): (c: Comm)
    ensures forall i | 0 <= i < TASK_COMM_LEN :: c[i] as int % 0x100 == bytes[i]
    ensures forall i | 0 <= i < TASK_COMM_LEN :: c[i] == 0 <==> bytes[i] == 0
  {
    seq(TASK_COMM_LEN, i requires 0 <= i < TASK_COMM_LEN =>
      if bytes[i] < 0x80 then bytes[i] else bytes[i] as int - 0x100)
  }

  /** The two maps as values: one scratch record per CPU, and every record
      pushed to the output channel so far. */
  datatype AgentState = AgentState(scratch: seq<StackTraceEvent>, events: seq<StackTraceEvent>)
  datatype StepResult = StepResult(state: AgentState, ret: Result<u32, u32>)

  /** One invocation of `try_ebpf_example`, as a function of the state before it. */
  function Step(st: AgentState, h: Helpers, walk: StackWalker): (o: StepResult)
    // only the invoking CPU's slot can change
    ensures |o.state.scratch| == |st.scratch|
    ensures forall c | 0 <= c < |st.scratch| && c != h.cpu :: o.state.scratch[c] == st.scratch[c]
    // no slot for this CPU: nothing happens
    ensures h.cpu >= |st.scratch| ==> o == StepResult(st, Ok(0))
    // the task name is unavailable: error 1, nothing emitted, pid and cpu id already written
    ensures h.cpu < |st.scratch| && h.comm.Err? ==>
      o.ret == Err(1) && o.state.events == st.events &&
      o.state.scratch[h.cpu] == st.scratch[h.cpu].(pid := Low32(h.pidTgid), cpuId := h.cpu)
    // otherwise: exactly one record is emitted, and it is the filled slot
    ensures h.cpu < |st.scratch| && h.comm.Ok? ==>
      o.ret == Ok(0) && o.state.events == st.events + [o.state.scratch[h.cpu]]
  {
    if h.cpu >= |st.scratch| then StepResult(st, Ok(0))
    else
      var slot := st.scratch[h.cpu].(pid := Low32(h.pidTgid)).(cpuId := h.cpu);
      match h.comm
      case Err(_) => StepResult(AgentState(st.scratch[h.cpu := slot], st.events), Err(1))
      case Ok(bytes) =>
        var named := slot.(comm := TransmuteComm(bytes));
        var afterName := st.scratch[h.cpu := named];
        match KstackSize()
        case Err(e) => StepResult(AgentState(afterName, st.events), Err(e))
        case Ok(kSize) =>
          var k := walk(StackRequest(named.kstack, kSize, KERNEL_STACK));
          var withKernel := named.(kstack := k.buf);
          var afterKernel := st.scratch[h.cpu := withKernel];
          match UstackSize()
          case Err(e) => StepResult(AgentState(afterKernel, st.events), Err(e))
          case Ok(uSize) =>
            var u := walk(StackRequest(withKernel.ustack, uSize, BPF_F_USER_STACK));
            var filled := withKernel.(ustack := u.buf, kstackSz := k.ret, ustackSz := u.ret);
            StepResult(AgentState(st.scratch[h.cpu := filled], st.events + [filled]), Ok(0))
  }

  /** `ebpf_example`: the result code, whichever side of the `Result` it is on. */
  function ExitCode(r: Result<u32, u32>): u32 {
    match r
    case Ok(code) => code
    case Err(code) => code
  }

  /** Every field of the emitted record: the task id, the invoking CPU, the task
      name, and what two stack walks returned. Both walks are given the full
      1024-byte buffer; only the second asks for the user stack. */
  lemma EmittedRecord(st: AgentState, h: Helpers, walk: StackWalker)
    requires h.cpu < |st.scratch| && h.comm.Ok?
    ensures var o := Step(st, h, walk);
      var e := o.state.events[|st.events|];
      var k := walk(StackRequest(st.scratch[h.cpu].kstack, 1024, KERNEL_STACK));
      var u := walk(StackRequest(st.scratch[h.cpu].ustack, 1024, BPF_F_USER_STACK));
      e == StackTraceEvent(Low32(h.pidTgid), h.cpu, TransmuteComm(h.comm.value), k.ret, u.ret, k.buf, u.buf)
  {
  }

  /** The record is emitted whatever the stack walks return: there is no check
      of the sizes between the capture and the output. */
  lemma EmitsWithoutStacks(st: AgentState, h: Helpers, walk: StackWalker)
    requires h.cpu < |st.scratch| && h.comm.Ok?
    requires forall req: StackRequest :: walk(req).ret <= 0
    ensures var o := Step(st, h, walk);
      |o.state.events| == |st.events| + 1 &&
      o.state.events[|st.events|].kstackSz <= 0 && o.state.events[|st.events|].ustackSz <= 0
  {
    var o := Step(st, h, walk);
    var e := o.state.events[|st.events|];
    EmittedRecord(st, h, walk);
    assert e.kstackSz == walk(StackRequest(st.scratch[h.cpu].kstack, 1024, KERNEL_STACK)).ret;
    assert e.ustackSz == walk(StackRequest(st.scratch[h.cpu].ustack, 1024, BPF_F_USER_STACK)).ret;
  }

  /** What a step does depends on its own CPU's slot only: two states that agree
      on that slot (and have the same number of slots) give the same result code,
      the same emitted records and the same new slot. */
  lemma StepReadsOwnSlotOnly(st1: AgentState, st2: AgentState, h: Helpers, walk: StackWalker)
    requires |st1.scratch| == |st2.scratch|
    requires h.cpu < |st1.scratch| ==> st1.scratch[h.cpu] == st2.scratch[h.cpu]
    ensures var o1, o2 := Step(st1, h, walk), Step(st2, h, walk);
      o1.ret == o2.ret &&
      o1.state.events[|st1.events|..] == o2.state.events[|st2.events|..] &&
      (h.cpu < |st1.scratch| ==> o1.state.scratch[h.cpu] == o2.state.scratch[h.cpu])
  {
    var o1, o2 := Step(st1, h, walk), Step(st2, h, walk);
    if h.cpu < |st1.scratch| && h.comm.Ok? {
      EmittedRecord(st1, h, walk);
      EmittedRecord(st2, h, walk);
      assert o1.state.events[|st1.events|..] == [o1.state.events[|st1.events|]];
      assert o2.state.events[|st2.events|..] == [o2.state.events[|st2.events|]];
    }
  }

  /** Invocations on two different CPUs leave the same scratch records in
      whichever order they run: neither touches the other's slot. */
  lemma StepsOnDistinctCpusCommute(st: AgentState, h1: Helpers, w1: StackWalker, h2: Helpers, w2: StackWalker)
    requires h1.cpu != h2.cpu
    ensures Step(Step(st, h1, w1).state, h2, w2).state.scratch
         == Step(Step(st, h2, w2).state, h1, w1).state.scratch
  {
    var a := Step(Step(st, h1, w1).state, h2, w2).state.scratch;
    var b := Step(Step(st, h2, w2).state, h1, w1).state.scratch;
    StepReadsOwnSlotOnly(st, Step(st, h2, w2).state, h1, w1);
    StepReadsOwnSlotOnly(st, Step(st, h1, w1).state, h2, w2);
    assert |a| == |b|;
    forall c | 0 <= c < |a|
      ensures a[c] == b[c]
    {
    }
  }

  /** The two maps of the program: `SCRATCH`, one record per CPU (the array
      reference itself never changes), and `EVENTS`, the output channel, as the
      sequence of records pushed to it. */
  class PerfEventProgram {
    const scratch: array<StackTraceEvent>
    var events: seq<StackTraceEvent>

    /** The maps as loaded: every slot zeroed and nothing emitted yet. */
    constructor (numCpus: nat)
      ensures scratch.Length == numCpus && fresh(scratch)
      ensures forall c | 0 <= c < numCpus :: scratch[c] == ZERO_EVENT
      ensures events == []
    {
      scratch := new StackTraceEvent[numCpus](_ => ZERO_EVENT);
      events := [];
    }

    function State(): AgentState
      reads this, scratch
    {
      AgentState(scratch[..], events)
    }

    /** `try_ebpf_example`: fills the invoking CPU's slot in place, field by
        field, then pushes it to the channel. */
    method TryEbpfExample(h: Helpers, walk: StackWalker) returns (r: Result<u32, u32>)
      modifies this, scratch
      ensures Step(old(State()), h, walk) == StepResult(State(), r)
    {
      if h.cpu >= scratch.Length {
        return Ok(0);
      }
      var c := h.cpu;
      scratch[c] := scratch[c].(pid := Low32(h.pidTgid));
      scratch[c] := scratch[c].(cpuId := h.cpu);
      if h.comm.Err? {
        return Err(1);
      }
      scratch[c] := scratch[c].(comm := TransmuteComm(h.comm.value));
      var kSizeResult := KstackSize();
      match kSizeResult {
        case Err(e) => return Err(e);
        case Ok(_) =>
      }
      var kSize := kSizeResult.value;
      var k := walk(StackRequest(scratch[c].kstack, kSize, KERNEL_STACK));
      scratch[c] := scratch[c].(kstack := k.buf);
      var uSizeResult := UstackSize();
      match uSizeResult {
        case Err(e) => return Err(e);
        case Ok(_) =>
      }
      var uSize := uSizeResult.value;
      var u := walk(StackRequest(scratch[c].ustack, uSize, BPF_F_USER_STACK));
      scratch[c] := scratch[c].(ustack := u.buf);
      scratch[c] := scratch[c].(kstackSz := k.ret);
      scratch[c] := scratch[c].(ustackSz := u.ret);
      events := events + [scratch[c]];
      return Ok(0);
    }

    /** `ebpf_example`: runs one invocation and returns 1 when the task name
        could not be read, 0 otherwise. */
    method EbpfExample(h: Helpers, walk: StackWalker) returns (code: u32)
      modifies this, scratch
      ensures State() == Step(old(State()), h, walk).state
      ensures code == (if h.cpu < scratch.Length && h.comm.Err? then 1 else 0)
    {
      var r := TryEbpfExample(h, walk);
      code := ExitCode(r);
    }
  }
}
