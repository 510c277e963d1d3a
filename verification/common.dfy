/** The record shared by the kernel-side sampler and the userspace reader
    (profile-ebpf-clone-common/src/lib.rs): its constants, its fixed shape and
    the two helpers that give the byte capacity of a stack buffer as a `u32`. */
module Common {
  import opened Outcome

  // Machine integers of the source, as ranges of the unbounded `int`.
  type u8 = x: int | 0 <= x < 0x100
  type i8 = x: int | -0x80 <= x < 0x80
  type u32 = x: int | 0 <= x < 0x1_0000_0000
  type i32 = x: int | -0x8000_0000 <= x < 0x8000_0000
  type u64 = x: int | 0 <= x < 0x1_0000_0000_0000_0000
  /** `c_long` on the 64-bit BPF target. */
  type i64 = x: int | -0x8000_0000_0000_0000 <= x < 0x8000_0000_0000_0000

  const U32_MAX: int := 0xFFFF_FFFF
  const I32_MAX: int := 0x7FFF_FFFF

  /** Length of a task name buffer, in bytes. */
  const TASK_COMM_LEN: nat := 16
  /** Number of return addresses a stack capture can hold. */
  const MAX_STACK_DEPTH: nat := 128
  /** `size_of::<u64>()`. */
  const U64_SIZE: nat := 8

  /** A task name: exactly `TASK_COMM_LEN` signed bytes, NUL-padded. */
  type Comm = s: seq<i8> | |s| == TASK_COMM_LEN witness seq(TASK_COMM_LEN, _ => 0)

  /** `StackTrace`: exactly `MAX_STACK_DEPTH` 64-bit addresses. */
  type StackTrace = s: seq<u64> | |s| == MAX_STACK_DEPTH witness seq(MAX_STACK_DEPTH, _ => 0)

  const NUL_COMM: Comm := seq(TASK_COMM_LEN, _ => 0)
  const EMPTY_STACK: StackTrace := seq(MAX_STACK_DEPTH, _ => 0)

  /** One sample. The sizes are byte counts returned by the stack walk; a value
      of zero or less means that stack is absent. */
  datatype StackTraceEvent = StackTraceEvent(
    pid: u32,
    cpuId: u32,
    comm: Comm,
    kstackSz: i64,
    ustackSz: i64,
    kstack: StackTrace,
    ustack: StackTrace)

  /** The all-zero record a freshly created map slot holds. */
  const ZERO_EVENT: StackTraceEvent := StackTraceEvent(0, 0, NUL_COMM, 0, 0, EMPTY_STACK, EMPTY_STACK)

  /** Every record has the same shape, whatever its size fields say. */
  lemma EventShape(e: StackTraceEvent)
    ensures |e.comm| == TASK_COMM_LEN == 16
    ensures |e.kstack| == MAX_STACK_DEPTH == 128
    ensures |e.ustack| == MAX_STACK_DEPTH == 128
  {
  }

  /** Rust's `TryFromIntError`. */
  datatype TryFromIntError = TryFromIntError

  /** `u32::try_from(n)`. */
  function TryIntoU32(n: int): (r: Result<u32, TryFromIntError>)
    ensures r.Ok? <==> 0 <= n <= U32_MAX
    ensures r.Ok? ==> r.value == n
  {
    if 0 <= n <= U32_MAX then Ok(n) else Err(TryFromIntError)
  }

  /** `i32::try_from(n)`. */
  function TryIntoI32(n: int): (r: Result<i32, TryFromIntError>)
    ensures r.Ok? <==> -I32_MAX - 1 <= n <= I32_MAX
    ensures r.Ok? ==> r.value == n
  {
    if -I32_MAX - 1 <= n <= I32_MAX then Ok(n) else Err(TryFromIntError)
  }

  /** `size_of::<[u64; depth]>().try_into().map_err(|_| 1)`: the byte capacity
      of a stack buffer of `depth` entries, narrowed to `u32`, or error code 1
      when it does not fit. */
  function StackBufferSize(depth: nat): (r: Result<u32, u32>)
    ensures r.Err? <==> depth * U64_SIZE > U32_MAX
    ensures r.Err? ==> r.error == 1
    ensures r.Ok? ==> r.value == depth * U64_SIZE
  {
    match TryIntoU32(depth * U64_SIZE)
    case Ok(n) => Ok(n)
    case Err(_) => Err(1)
  }

  /** `StackTraceEvent::kstack_size()`. */
  function KstackSize(): (r: Result<u32, u32>)
    ensures r == Ok(MAX_STACK_DEPTH * U64_SIZE) == Ok(1024)
  {
    StackBufferSize(MAX_STACK_DEPTH)
  }

  /** `StackTraceEvent::ustack_size()`: both helpers measure the same type. */
  function UstackSize(): (r: Result<u32, u32>)
    ensures r == KstackSize()
  {
    StackBufferSize(MAX_STACK_DEPTH)
  }
}
