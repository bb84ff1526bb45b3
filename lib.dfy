/**
  Program termination and the command line (src/lib.rs): `exit`, `abort`,
  `exit_with`, and `parse_cmdline` over an 80-byte stack buffer.
 */
module Lib {

  import opened Outcomes
  import opened Protocol
  import opened Trap
  import Io
  import Calls

  /** `n` copies of the request `q`. */
  function Repeat(q: Request, n: nat): (qs: seq<Request>)
    ensures |qs| == n
    ensures forall i :: 0 <= i < n ==> qs[i] == q
  {
    if n == 0 then [] else Repeat(q, n - 1) + [q]
  }

  /**
    `exit_with`: report the exception, and report it again each time the
    host resumes the program. `resumes` is how often the host resumes it
    before it ends the program; the source loops for as long as the host
    keeps resuming.
   */
  method ExitWith(h: Host, reason: Exception, resumes: nat)
    modifies h
    ensures h.trace == old(h.trace) + Repeat(Io.ReportRequest(reason), resumes + 1)
  {
    var n := 0;
    while n <= resumes
      invariant n <= resumes + 1
      invariant h.trace == old(h.trace) + Repeat(Io.ReportRequest(reason), n)
    {
      var _ := Calls.ReportException(h, reason);
      n := n + 1;
    }
  }

  /** `exit`: a normal end, reported as `ApplicationExit`. */
  method Exit(h: Host, resumes: nat)
    modifies h
    ensures h.trace == old(h.trace) + Repeat(Io.ReportRequest(ApplicationExit), resumes + 1)
  {
    ExitWith(h, ApplicationExit, resumes);
  }

  /** `abort`: an abnormal end, reported as `InternalError`. */
  method Abort(h: Host, resumes: nat)
    modifies h
    ensures h.trace == old(h.trace) + Repeat(Io.ReportRequest(InternalError), resumes + 1)
  {
    ExitWith(h, InternalError, resumes);
  }

  /**
    Every request of an exit sequence carries the exception's code directly,
    and `exit` and `abort` send the codes 0x20026 and 0x20024.
   */
  lemma ExitReports(reason: Exception, n: nat)
    ensures forall i :: 0 <= i < n ==>
              Repeat(Io.ReportRequest(reason), n)[i] == Request(Syscall.ReportException, Direct(Num(ExceptionCode(reason))))
    ensures ExceptionCode(ApplicationExit) == 0x20026 && ExceptionCode(InternalError) == 0x20024
    ensures !IsHardwareReason(ApplicationExit) && !IsHardwareReason(InternalError)
  {
  }

  /** The size of `parse_cmdline`'s stack buffer. */
  const CMDLINE_CAPACITY: Word := 80

  /** The command-line request `parse_cmdline` sends. */
  const CMDLINE_REQUEST: Request := Io.CmdlineRequest(CMDLINE_CAPACITY)

  /**
    The host's answer keeps `len + 1` within the buffer, which the source
    marks unreachable: it either fails, or reports a length below 80.
   */
  ghost predicate CmdlineFits(o: Oracle, t: seq<Request>) {
    var t' := t + [CMDLINE_REQUEST];
    o.answer(t') == USIZE_MAX || Io.Slot(o.wordsOut(t'), 1, CMDLINE_CAPACITY) < CMDLINE_CAPACITY
  }

  /** The buffer as `parse_cmdline` allocates it; its unread bytes are taken as zero. */
  function Blank(): (b: seq<Byte>)
    ensures |b| == CMDLINE_CAPACITY
    ensures forall i :: 0 <= i < |b| ==> b[i] == 0
  {
    seq(CMDLINE_CAPACITY, _ => 0)
  }

  /**
    `parse_cmdline` with `f` the identity: the command line the host stored,
    with its terminating byte, as the `len + 1` first bytes of the buffer.
   */
  function ParseCmdlineRun(o: Oracle, t: seq<Request>): (r: Run<Result<seq<Byte>, ()>>)
    requires CmdlineFits(o, t)
    ensures r.trace == t + [CMDLINE_REQUEST]
    ensures r.value.Ok? <==> o.answer(r.trace) != USIZE_MAX
    ensures r.value.Ok? ==> |r.value.value| == Io.Slot(o.wordsOut(r.trace), 1, CMDLINE_CAPACITY) + 1 <= CMDLINE_CAPACITY
    ensures r.value.Ok? ==> forall i :: 0 <= i < |r.value.value| ==>
              r.value.value[i] == if i < |o.bytesOut(r.trace)| then o.bytesOut(r.trace)[i] else 0
  {
    var g := Io.GetCmdlineUnchecked(o, t, Blank(), CMDLINE_CAPACITY);
    match g.value.result
    case Err(_) => Run(g.trace, Err(()))
    case Ok(len) => Run(g.trace, Ok(g.value.buffer[..len + 1]))
  }

  /**
    A host that reports success and leaves all-ones in the block's length
    word. `map_res` only looks at the result word, so the library takes
    that length as valid, and `len + 1` wraps to 0 in a 32-bit word.
   */
  function OverflowHost(): Oracle {
    Oracle(hist => 0, hist => [], hist => [0, USIZE_MAX])
  }

  /** The length word all-ones is reachable through a successful answer, and `len + 1` then wraps. */
  lemma CmdlineOverflowReachable()
    ensures Io.GetCmdlineUnchecked(OverflowHost(), [], Blank(), CMDLINE_CAPACITY).value.result == Ok(USIZE_MAX)
    ensures (USIZE_MAX + 1) % WORD_MODULUS == 0
    ensures !CmdlineFits(OverflowHost(), [])
  {
    assert OverflowHost().wordsOut([CMDLINE_REQUEST]) == [0, USIZE_MAX];
  }

  /**
    `parse_cmdline` with the end index checked: a length the buffer cannot
    hold with its terminating byte is refused with `Err(())` instead of
    being sliced.
   */
  function ParseCmdlineChecked(o: Oracle, t: seq<Request>): (r: Run<Result<seq<Byte>, ()>>)
    ensures r.trace == t + [CMDLINE_REQUEST]
    ensures r.value.Ok? <==>
              o.answer(r.trace) != USIZE_MAX && Io.Slot(o.wordsOut(r.trace), 1, CMDLINE_CAPACITY) < CMDLINE_CAPACITY
    ensures r.value.Ok? ==> |r.value.value| == Io.Slot(o.wordsOut(r.trace), 1, CMDLINE_CAPACITY) + 1 <= CMDLINE_CAPACITY
    ensures r.value.Ok? ==> forall i :: 0 <= i < |r.value.value| ==>
              r.value.value[i] == if i < |o.bytesOut(r.trace)| then o.bytesOut(r.trace)[i] else 0
  {
    var g := Io.GetCmdlineUnchecked(o, t, Blank(), CMDLINE_CAPACITY);
    match g.value.result
    case Err(_) => Run(g.trace, Err(()))
    case Ok(len) =>
      if len < CMDLINE_CAPACITY then Run(g.trace, Ok(g.value.buffer[..len + 1]))
      else Run(g.trace, Err(()))
  }

  /** Wherever the source's own assumption holds, the checked form is the source's. */
  lemma CheckedAgrees(o: Oracle, t: seq<Request>)
    requires CmdlineFits(o, t)
    ensures ParseCmdlineChecked(o, t) == ParseCmdlineRun(o, t)
  {
  }

  /** `parse_cmdline` over a buffer in memory, with `f` the identity and the end index checked. */
  method ParseCmdline(h: Host) returns (r: Result<seq<Byte>, ()>)
    modifies h
    ensures h.trace == ParseCmdlineChecked(h.oracle, old(h.trace)).trace
    ensures r == ParseCmdlineChecked(h.oracle, old(h.trace)).value
  {
    var buffer := new Byte[CMDLINE_CAPACITY](_ => 0);
    assert buffer[..] == Blank();
    var m := Calls.GetCmdlineUnchecked(h, buffer, CMDLINE_CAPACITY);
    match m {
      case Err(_) =>
        r := Err(());
      case Ok(len) =>
        if len < CMDLINE_CAPACITY {
          r := Ok(buffer[..len + 1]);
        } else {
          r := Err(());
        }
    }
  }
}
