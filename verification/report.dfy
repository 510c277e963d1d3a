/** The userspace handler that turns one decoded sample into report lines
    (profile-ebpf-clone/src/lib.rs): the skip rule, the header, then the kernel
    section and the user section, each either symbolized frames or a "no stack"
    line.

    The symbolization service is a parameter: given a source (the running
    kernel, or one process) and a batch of addresses it returns, per address,
    a resolved symbol or an "unknown" marker, or fails for the whole batch. */
module Report {
  import opened Outcome
  import opened Common

  datatype Sym = Sym(name: string, addr: u64)
  datatype Symbolized = Resolved(sym: Sym) | Unknown
  datatype Source = Kernel | Process(pid: u32)
  datatype SymbolizeError = SymbolizeError(reason: string)
  type Symbolizer = (Source, seq<u64>) -> Result<seq<Symbolized>, SymbolizeError>

  /** One line of the report. */
  datatype Line =
    | Header(comm: seq<i8>, pid: u32, cpuId: u32)  // "COMM: <comm> (pid=<pid>) @ CPU <cpu>"
    | KernelHeading                               // "Kernel:"
    | NoKernelStack                               // "No Kernel Stack"
    | UserHeading                                 // "Userspace:"
    | NoUserStack                                 // "No Userspace Stack"
    | Frame(sym: Sym)                             // one resolved symbol

  /** The two kinds of error the handler can pass up with `?`. */
  datatype HandlerError = IntConversion | Symbolize(cause: SymbolizeError)

  /** The lines written so far, and how the handler ended. Lines logged before
      an error stay logged. */
  datatype Report = Report(lines: seq<Line>, outcome: Result<(), HandlerError>)

  /** The task name as the header shows it: the bytes of `comm` up to its first
      NUL, and all of them when there is none. */
  function CommName(comm: seq<i8>): (name: seq<i8>)
    ensures |name| <= |comm| && name == comm[..|name|]
    ensures forall i | 0 <= i < |name| :: name[i] != 0
    ensures |name| < |comm| ==> comm[|name|] == 0
    decreases |comm|
  {
    if comm == [] || comm[0] == 0 then [] else [comm[0]] + CommName(comm[1..])
  }

  /** A task name buffer without any NUL is shown whole: 16 bytes, and nothing
      read beyond them. */
  lemma CommNameWithoutNul(comm: Comm)
    requires forall i | 0 <= i < |comm| :: comm[i] != 0
    ensures CommName(comm) == comm && |CommName(comm)| == TASK_COMM_LEN
  {
    assert comm[..|comm|] == comm;
  }

  /** The name ends exactly at the first NUL of the buffer. */
  lemma {:induction false} CommNameStopsAtFirstNul(comm: seq<i8>, n: nat)
    requires n < |comm| && comm[n] == 0
    requires forall j | 0 <= j < n :: comm[j] != 0
    ensures CommName(comm) == comm[..n]
    decreases n
  {
    if n > 0 {
      CommNameStopsAtFirstNul(comm[1..], n - 1);
      assert comm[..n] == [comm[0]] + comm[1..][..n - 1];
    }
  }

  /** The body of the loop in `show_stack_trace`: one line per resolved symbol,
      in order, and nothing for an unknown one. */
  function FrameLines(syms: seq<Symbolized>): (lines: seq<Line>)
    ensures |lines| <= |syms|
    ensures forall i | 0 <= i < |lines| :: lines[i].Frame?
    decreases |syms|
  {
    if syms == [] then [] else FrameOf(syms[0]) + FrameLines(syms[1..])
  }

  /** What the loop writes for one result. */
  function FrameOf(s: Symbolized): seq<Line> {
    match s
    case Resolved(sym) => [Frame(sym)]
    case Unknown => []
  }

  lemma {:induction false} FrameLinesAppend(a: seq<Symbolized>, b: seq<Symbolized>)
    ensures FrameLines(a + b) == FrameLines(a) + FrameLines(b)
    decreases |a|
  {
    if a == [] {
      assert a + b == b;
    } else {
      var ab := a + b;
      assert ab[0] == a[0] && ab[1..] == a[1..] + b;
      FrameLinesAppend(a[1..], b);
      calc {
        FrameLines(ab);
        FrameOf(a[0]) + FrameLines(a[1..] + b);
        FrameOf(a[0]) + (FrameLines(a[1..]) + FrameLines(b));
        (FrameOf(a[0]) + FrameLines(a[1..])) + FrameLines(b);
      }
    }
  }

  /** A symbol shows up as a frame exactly when some result resolved to it. */
  lemma {:induction false} FrameLinesMembership(syms: seq<Symbolized>, s: Sym)
    ensures Frame(s) in FrameLines(syms) <==> Resolved(s) in syms
    decreases |syms|
  {
    if syms != [] {
      FrameLinesMembership(syms[1..], s);
      assert syms == [syms[0]] + syms[1..];
    }
  }

  /** When every result is resolved, the frames are the symbols, one for one
      and in the order of the results. */
  lemma {:induction false} FrameLinesAllResolved(syms: seq<Symbolized>)
    requires forall i | 0 <= i < |syms| :: syms[i].Resolved?
    ensures |FrameLines(syms)| == |syms|
    ensures forall i | 0 <= i < |syms| :: FrameLines(syms)[i] == Frame(syms[i].sym)
    decreases |syms|
  {
    if syms != [] {
      FrameLinesAllResolved(syms[1..]);
    }
  }

  /** When no result is resolved, the section has no frames at all. */
  lemma {:induction false} FrameLinesAllUnknown(syms: seq<Symbolized>)
    requires forall i | 0 <= i < |syms| :: syms[i] == Unknown
    ensures FrameLines(syms) == []
    decreases |syms|
  {
    if syms != [] {
      FrameLinesAllUnknown(syms[1..]);
    }
  }

  /** Where a stack is resolved: the kernel's own symbols, or the process
      whose id `show_stack_trace` is given as an `i32`. */
  datatype Scope = KernelScope | ProcessScope(pid: i32)

  /** The symbolization source for a scope. The pid must convert to `u32`, so a
      negative one fails. */
  function SourceOf(scope: Scope): (r: Result<Source, HandlerError>)
    ensures r.Err? <==> scope.ProcessScope? && scope.pid < 0
    ensures r.Err? ==> r.error == IntConversion
    ensures r.Ok? && scope.ProcessScope? ==> r.value == Process(scope.pid)
    ensures scope == KernelScope ==> r == Ok(Kernel)
  {
    match scope
    case KernelScope => Ok(Kernel)
    case ProcessScope(pid) =>
      match TryIntoU32(pid)
      case Ok(p) => Ok(Process(p))
      case Err(_) => Err(IntConversion)
  }

  /** `show_stack_trace` as a function: build the source, symbolize the whole
      buffer, and keep the resolved frames. */
  function StackTraceLines(stack: seq<u64>, scope: Scope, symbolize: Symbolizer): (rep: Report)
    // it writes frame lines only, and nothing at all when it fails
    ensures AllFrames(rep.lines)
    ensures rep.outcome.Err? ==> rep.lines == []
    // it fails exactly when the source cannot be built or the batch cannot be symbolized
    ensures rep.outcome.Ok? <==> SourceOf(scope).Ok? && symbolize(SourceOf(scope).value, stack).Ok?
    ensures SourceOf(scope).Ok? && symbolize(SourceOf(scope).value, stack).Err? ==>
      rep.outcome == Err(Symbolize(symbolize(SourceOf(scope).value, stack).error))
  {
    match SourceOf(scope)
    case Err(e) => Report([], Err(e))
    case Ok(src) =>
      match symbolize(src, stack)
      case Err(e) => Report([], Err(Symbolize(e)))
      case Ok(syms) => Report(FrameLines(syms), Ok(()))
  }

  /** The symbolization service as the library promises it: one result per
      address of a successful batch. */
  ghost predicate OnePerAddress(symbolize: Symbolizer) {
    forall src: Source, addrs: seq<u64> ::
      symbolize(src, addrs).Ok? ==> |symbolize(src, addrs).value| == |addrs|
  }

  /** With such a service, a stack never yields more frames than it has
      addresses. */
  lemma StackTraceLinesBound(stack: seq<u64>, scope: Scope, symbolize: Symbolizer)
    requires OnePerAddress(symbolize)
    ensures |StackTraceLines(stack, scope, symbolize).lines| <= |stack|
  {
    match SourceOf(scope)
    case Err(_) =>
    case Ok(src) =>
      match symbolize(src, stack)
      case Err(_) =>
      case Ok(syms) => assert |syms| == |stack|;
  }

  /** `show_stack_trace`, with its `for` loop over the symbolized results. */
  method ShowStackTrace(stack: seq<u64>, scope: Scope, symbolize: Symbolizer) returns (rep: Report)
    ensures rep == StackTraceLines(stack, scope, symbolize)
  {
    var src: Source;
    match scope {
      case KernelScope =>
        src := Kernel;
      case ProcessScope(pid) =>
        var p := TryIntoU32(pid);
        if p.Err? {
          return Report([], Err(IntConversion));
        }
        src := Process(p.value);
    }
    var result := symbolize(src, stack);
    if result.Err? {
      return Report([], Err(Symbolize(result.error)));
    }
    var syms := result.value;
    var lines := [];
    for i := 0 to |syms|
      invariant lines == FrameLines(syms[..i])
    {
      match syms[i] {
        case Resolved(s) =>
          lines := lines + [Frame(s)];
        case Unknown =>
      }
      FrameLinesAppend(syms[..i], [syms[i]]);
      assert syms[..i + 1] == syms[..i] + [syms[i]];
    }
    assert syms[..|syms|] == syms;
    return Report(lines, Ok(()));
  }

  /** Runs `rest` only when `first` succeeded, as `?` does. */
  function Then(first: Report, rest: Report): Report {
    if first.outcome.Err? then first else Report(first.lines + rest.lines, rest.outcome)
  }

  /** A heading line followed by what resolving one stack wrote. */
  function Headed(heading: Line, section: Report): Report {
    Report([heading] + section.lines, section.outcome)
  }

  /** The kernel half of `event_handler`. */
  function KernelSection(e: StackTraceEvent, symbolize: Symbolizer): Report {
    if e.kstackSz > 0 then Headed(KernelHeading, StackTraceLines(e.kstack, KernelScope, symbolize))
    else Report([NoKernelStack], Ok(()))
  }

  /** The user half of `event_handler`: "Userspace:" is logged before the pid
      is converted to `i32`, so a pid above `i32::MAX` fails after it. */
  function UserSection(e: StackTraceEvent, symbolize: Symbolizer): Report {
    if e.ustackSz > 0 then
      Headed(UserHeading,
        match TryIntoI32(e.pid)
        case Err(_) => Report([], Err(IntConversion))
        case Ok(pid) => StackTraceLines(e.ustack, ProcessScope(pid), symbolize))
    else Report([NoUserStack], Ok(()))
  }

  /** True when the sample carries neither stack and is dropped. */
  predicate Skipped(e: StackTraceEvent) {
    e.kstackSz <= 0 && e.ustackSz <= 0
  }

  /** `event_handler`. */
  function EventHandler(e: StackTraceEvent, symbolize: Symbolizer): (rep: Report)
    // the skip rule: no line at all exactly for samples without either stack
    ensures rep.lines == [] <==> Skipped(e)
    ensures Skipped(e) ==> rep.outcome == Ok(())
    // otherwise the header comes first, then the kernel section's first line
    ensures !Skipped(e) ==>
      |rep.lines| >= 2 &&
      rep.lines[0] == Header(CommName(e.comm), e.pid, e.cpuId) &&
      rep.lines[1] == (if e.kstackSz > 0 then KernelHeading else NoKernelStack)
  {
    if Skipped(e) then Report([], Ok(()))
    else
      Then(Report([Header(CommName(e.comm), e.pid, e.cpuId)], Ok(())),
           Then(KernelSection(e, symbolize), UserSection(e, symbolize)))
  }

  predicate IsUserMarker(l: Line) {
    l == UserHeading || l == NoUserStack
  }

  predicate AllFrames(lines: seq<Line>) {
    forall i | 0 <= i < |lines| :: lines[i].Frame?
  }

  /** A kernel section: "Kernel:" and frames, or the single "No Kernel Stack". */
  predicate KernelPart(lines: seq<Line>) {
    lines == [NoKernelStack] || (|lines| >= 1 && lines[0] == KernelHeading && AllFrames(lines[1..]))
  }

  /** A user section: "Userspace:" and frames, or the single "No Userspace Stack". */
  predicate UserPart(lines: seq<Line>) {
    lines == [NoUserStack] || (|lines| >= 1 && lines[0] == UserHeading && AllFrames(lines[1..]))
  }

  /** Index of the first line that opens a user section (`|lines|` if none). */
  function FirstUserMarker(lines: seq<Line>): (k: nat)
    ensures k <= |lines|
    ensures forall i | 0 <= i < k :: !IsUserMarker(lines[i])
    ensures k < |lines| ==> IsUserMarker(lines[k])
    decreases |lines|
  {
    if lines == [] then 0
    else if IsUserMarker(lines[0]) then 0
    else 1 + FirstUserMarker(lines[1..])
  }

  lemma {:induction false} FirstUserMarkerAfter(front: seq<Line>, back: seq<Line>)
    requires forall i | 0 <= i < |front| :: !IsUserMarker(front[i])
    requires back != [] && IsUserMarker(back[0])
    ensures FirstUserMarker(front + back) == |front|
    decreases |front|
  {
    if front != [] {
      assert (front + back)[1..] == front[1..] + back;
      FirstUserMarkerAfter(front[1..], back);
    }
  }

  /** A successful report is laid out as the header, then the whole kernel
      section, then the whole user section: the kernel section ends exactly
      where the first user-section line appears. */
  lemma ReportLayout(e: StackTraceEvent, symbolize: Symbolizer)
    requires !Skipped(e)
    requires EventHandler(e, symbolize).outcome.Ok?
    ensures var lines := EventHandler(e, symbolize).lines;
      var k := FirstUserMarker(lines);
      1 < k < |lines| &&
      lines[0] == Header(CommName(e.comm), e.pid, e.cpuId) &&
      KernelPart(lines[1..k]) && UserPart(lines[k..]) &&
      lines[k] == (if e.ustackSz > 0 then UserHeading else NoUserStack)
  {
    var ks, us := KernelSection(e, symbolize), UserSection(e, symbolize);
    var header := Header(CommName(e.comm), e.pid, e.cpuId);
    assert EventHandler(e, symbolize).lines == [header] + ks.lines + us.lines;
    KernelSectionShape(e, symbolize);
    UserSectionShape(e, symbolize);
    HeaderThenSections(header, ks.lines, us.lines);
  }

  lemma KernelSectionShape(e: StackTraceEvent, symbolize: Symbolizer)
    ensures KernelPart(KernelSection(e, symbolize).lines)
    ensures KernelSection(e, symbolize).lines[0] == (if e.kstackSz > 0 then KernelHeading else NoKernelStack)
  {
    if e.kstackSz > 0 {
      assert AllFrames(StackTraceLines(e.kstack, KernelScope, symbolize).lines);
    }
  }

  lemma UserSectionShape(e: StackTraceEvent, symbolize: Symbolizer)
    ensures UserPart(UserSection(e, symbolize).lines)
    ensures UserSection(e, symbolize).lines[0] == (if e.ustackSz > 0 then UserHeading else NoUserStack)
  {
    if e.ustackSz > 0 {
      match TryIntoI32(e.pid)
      case Err(_) =>
      case Ok(pid) => assert AllFrames(StackTraceLines(e.ustack, ProcessScope(pid), symbolize).lines);
    }
  }

  lemma HeaderThenSections(header: Line, ks: seq<Line>, us: seq<Line>)
    requires header.Header? && KernelPart(ks) && UserPart(us)
    ensures var lines := [header] + ks + us;
      FirstUserMarker(lines) == 1 + |ks| &&
      lines[1..1 + |ks|] == ks && lines[1 + |ks|..] == us
  {
    var front := [header] + ks;
    forall i | 0 <= i < |front|
      ensures !IsUserMarker(front[i])
    {
      if i > 0 {
        assert front[i] == ks[i - 1];
        if i > 1 {
          assert ks[i - 1] == ks[1..][i - 2];
        }
      }
    }
    FirstUserMarkerAfter(front, us);
    assert [header] + ks + us == front + us;
  }

  /** The kernel stack is resolved against the kernel's own symbols, with all
      128 recorded addresses, and its frames follow "Kernel:". */
  lemma KernelFrames(e: StackTraceEvent, symbolize: Symbolizer, syms: seq<Symbolized>)
    requires e.kstackSz > 0
    requires symbolize(Kernel, e.kstack) == Ok(syms)
    ensures var lines := EventHandler(e, symbolize).lines;
      |lines| >= 2 + |FrameLines(syms)| &&
      lines[1..2 + |FrameLines(syms)|] == [KernelHeading] + FrameLines(syms)
  {
    var header := Header(CommName(e.comm), e.pid, e.cpuId);
    var ks := KernelSection(e, symbolize);
    assert ks.lines == [KernelHeading] + FrameLines(syms);
    var lines := EventHandler(e, symbolize).lines;
    assert lines[..1 + |ks.lines|] == [header] + ks.lines;
  }

  /** The user stack is resolved in the scope of the sample's own process, with
      all 128 recorded addresses, and its frames close the report. */
  lemma UserFrames(e: StackTraceEvent, symbolize: Symbolizer, syms: seq<Symbolized>)
    requires e.ustackSz > 0 && e.pid <= I32_MAX
    requires KernelSection(e, symbolize).outcome.Ok?
    requires symbolize(Process(e.pid), e.ustack) == Ok(syms)
    ensures var rep := EventHandler(e, symbolize);
      rep.outcome == Ok(()) &&
      |rep.lines| >= 1 + |FrameLines(syms)| &&
      rep.lines[|rep.lines| - 1 - |FrameLines(syms)|..] == [UserHeading] + FrameLines(syms)
  {
    var us := UserSection(e, symbolize);
    assert us == Report([UserHeading] + FrameLines(syms), Ok(()));
  }

  /** The only way to get the pid conversion error: a user stack is present, the
      kernel section went through, and the pid does not fit in `i32`. The header,
      the kernel section and "Userspace:" are logged by then. */
  lemma PidOverflowOnlyOnUserPath(e: StackTraceEvent, symbolize: Symbolizer)
    ensures EventHandler(e, symbolize).outcome == Err(IntConversion) <==>
      !Skipped(e) && KernelSection(e, symbolize).outcome.Ok? && e.ustackSz > 0 && e.pid > I32_MAX
    ensures EventHandler(e, symbolize).outcome == Err(IntConversion) ==>
      EventHandler(e, symbolize).lines ==
        [Header(CommName(e.comm), e.pid, e.cpuId)] + KernelSection(e, symbolize).lines + [UserHeading]
  {
    var ks, us := KernelSection(e, symbolize), UserSection(e, symbolize);
    if e.ustackSz > 0 && e.pid <= I32_MAX {
      assert us.outcome != Err(IntConversion);
    }
  }

  /** A failed kernel symbolization ends the report right after "Kernel:": the
      error is passed up and no user section is written, not even
      "No Userspace Stack". */
  lemma KernelSymbolizeFails(e: StackTraceEvent, symbolize: Symbolizer, err: SymbolizeError)
    requires e.kstackSz > 0 && symbolize(Kernel, e.kstack) == Err(err)
    ensures EventHandler(e, symbolize) ==
      Report([Header(CommName(e.comm), e.pid, e.cpuId), KernelHeading], Err(Symbolize(err)))
  {
  }

  /** A failed user symbolization ends the report right after "Userspace:". */
  lemma UserSymbolizeFails(e: StackTraceEvent, symbolize: Symbolizer, err: SymbolizeError)
    requires e.kstackSz <= 0 || symbolize(Kernel, e.kstack).Ok?
    requires e.ustackSz > 0 && e.pid <= I32_MAX
    requires symbolize(Process(e.pid), e.ustack) == Err(err)
    ensures EventHandler(e, symbolize) ==
      Report([Header(CommName(e.comm), e.pid, e.cpuId)] + KernelSection(e, symbolize).lines + [UserHeading],
             Err(Symbolize(err)))
  {
    assert KernelSection(e, symbolize).outcome.Ok?;
    assert UserSection(e, symbolize) == Report([UserHeading], Err(Symbolize(err)));
  }

  /** The handler succeeds exactly when the sample is skipped, or when every
      section it writes goes through: the kernel stack (if any) symbolizes, and
      the user stack (if any) has a pid that fits in `i32` and symbolizes. */
  lemma HandlerSucceeds(e: StackTraceEvent, symbolize: Symbolizer)
    ensures EventHandler(e, symbolize).outcome.Ok? <==>
      Skipped(e) ||
      ((e.kstackSz <= 0 || symbolize(Kernel, e.kstack).Ok?) &&
       (e.ustackSz <= 0 || (e.pid <= I32_MAX && symbolize(Process(e.pid), e.ustack).Ok?)))
  {
    if e.ustackSz > 0 && e.pid <= I32_MAX {
      assert SourceOf(ProcessScope(e.pid)) == Ok(Process(e.pid));
    }
  }

  /** With a service that gives one result per address, a report has at most
      the header, two headings and one frame per recorded address. */
  lemma ReportBound(e: StackTraceEvent, symbolize: Symbolizer)
    requires OnePerAddress(symbolize)
    ensures |EventHandler(e, symbolize).lines| <= 3 + 2 * MAX_STACK_DEPTH
  {
    StackTraceLinesBound(e.kstack, KernelScope, symbolize);
    match TryIntoI32(e.pid)
    case Err(_) =>
    case Ok(pid) => StackTraceLinesBound(e.ustack, ProcessScope(pid), symbolize);
  }

  /** A sample with two kernel addresses and no user stack, from the task
      "worker" (pid 42, CPU 1): header, "Kernel:" and its frames, then
      "No Userspace Stack". */
  lemma WorkerSample(e: StackTraceEvent, symbolize: Symbolizer, syms: seq<Symbolized>)
    requires e.pid == 42 && e.cpuId == 1 && e.kstackSz == 16 && e.ustackSz == 0
    requires e.comm[..7] == [0x77, 0x6F, 0x72, 0x6B, 0x65, 0x72, 0]  // "worker\0"
    requires symbolize(Kernel, e.kstack) == Ok(syms)
    ensures EventHandler(e, symbolize) ==
      Report([Header([0x77, 0x6F, 0x72, 0x6B, 0x65, 0x72], 42, 1), KernelHeading]
             + FrameLines(syms) + [NoUserStack], Ok(()))
  {
    var name := CommName(e.comm);
    var worker: seq<i8> := [0x77, 0x6F, 0x72, 0x6B, 0x65, 0x72];
    forall j | 0 <= j < 7
      ensures e.comm[j] == (worker + [0])[j]
    {
      assert e.comm[j] == e.comm[..7][j];
    }
    CommNameStopsAtFirstNul(e.comm, 6);
    assert name == e.comm[..6] == worker;
    var ks := KernelSection(e, symbolize);
    assert ks == Report([KernelHeading] + FrameLines(syms), Ok(()));
    assert UserSection(e, symbolize) == Report([NoUserStack], Ok(()));
  }
}
