/** Result and option types shared by every layer of the semihosting model. */
module Outcomes {

  datatype Option<+T> = None | Some(value: T)

  datatype Result<+T, +E> = Ok(value: T) | Err(error: E)
}

/**
  The fixed numbers of the ARM semihosting protocol: operation codes, exception
  reason codes and open-mode bits, together with the machine-word conventions
  the library relies on (a 32-bit `usize`, the all-ones failure word and the
  reinterpretation of a word as `isize`).
 */
module Protocol {

  import opened Outcomes

  /** 2^32: the targets are 32-bit ARM and Thumb cores, so `usize` has 32 bits. */
  const WORD_MODULUS: int := 0x1_0000_0000
  /** `usize::MAX`, the word by which the host reports a failed operation. */
  const USIZE_MAX: int := 0xFFFF_FFFF
  const ISIZE_MIN: int := -0x8000_0000
  const ISIZE_MAX: int := 0x7FFF_FFFF

  /** A machine word as passed in a register or in an argument block. */
  type Word = w: int | 0 <= w <= USIZE_MAX
  type Byte = b: int | 0 <= b < 256

  /** `NonZeroUsize`: the descriptor that a successful open returns. */
  type Fd = w: Word | w != 0 witness 1

  /** The `as isize` cast: a word read as a two's-complement signed number. */
  function AsIsize(w: Word): (i: int)
    ensures ISIZE_MIN <= i <= ISIZE_MAX
    ensures i % WORD_MODULUS == w
    ensures w == USIZE_MAX ==> i == -1
  {
    if w <= ISIZE_MAX then w else w - WORD_MODULUS
  }

  /** The `as u8` cast: the low eight bits of a word. */
  function LowByte(w: Word): (b: Byte)
    ensures (w - b) % 256 == 0
  {
    w % 256
  }

  /** The operation codes of the first version of the protocol. */
  datatype Syscall =
    | Open | Close | WriteC | Write0 | Write | Read | ReadC | IsError | IsTTY | Seek
    | FLen | TmpNam | Remove | Rename | Clock | Time | System | Errno
    | GetCmdline | HeapInfo
    | EnterSVC | ReportException
    | Elapsed | TickFreq

  /** `From<Syscall> for usize`: the enum discriminant. */
  function SyscallCode(s: Syscall): (n: Word)
    ensures 1 <= n <= 49
    ensures n != 11 && n != 20 && !(25 <= n <= 47)
  {
    match s
    case Open => 1
    case Close => 2
    case WriteC => 3
    case Write0 => 4
    case Write => 5
    case Read => 6
    case ReadC => 7
    case IsError => 8
    case IsTTY => 9
    case Seek => 10
    case FLen => 12
    case TmpNam => 13
    case Remove => 14
    case Rename => 15
    case Clock => 16
    case Time => 17
    case System => 18
    case Errno => 19
    case GetCmdline => 21
    case HeapInfo => 22
    case EnterSVC => 23
    case ReportException => 24
    case Elapsed => 48
    case TickFreq => 49
  }

  /** The operation that a code names, if any: the inverse of `SyscallCode`. */
  function SyscallOfCode(n: int): (r: Option<Syscall>)
    ensures r.Some? ==> SyscallCode(r.value) == n
  {
    match n
    case 1 => Some(Open)
    case 2 => Some(Close)
    case 3 => Some(WriteC)
    case 4 => Some(Write0)
    case 5 => Some(Write)
    case 6 => Some(Read)
    case 7 => Some(ReadC)
    case 8 => Some(IsError)
    case 9 => Some(IsTTY)
    case 10 => Some(Seek)
    case 12 => Some(FLen)
    case 13 => Some(TmpNam)
    case 14 => Some(Remove)
    case 15 => Some(Rename)
    case 16 => Some(Clock)
    case 17 => Some(Time)
    case 18 => Some(System)
    case 19 => Some(Errno)
    case 21 => Some(GetCmdline)
    case 22 => Some(HeapInfo)
    case 23 => Some(EnterSVC)
    case 24 => Some(ReportException)
    case 48 => Some(Elapsed)
    case 49 => Some(TickFreq)
    case _ => None
  }

  /**
    Decoding undoes encoding, so no two operations share a code and every
    code the enumeration assigns is found again.
   */
  lemma SyscallCodeRoundTrip(s: Syscall)
    ensures SyscallOfCode(SyscallCode(s)) == Some(s)
  {
  }

  /** Exception and exit reasons reported with `ReportException`. */
  datatype Exception =
    // hardware vector reasons
    | BranchThroughZero | UndefinedInstr | SoftwareInterrupt | PrefetchAbort
    | DataAbort | AddressException | IRQ | FIQ
    // software reasons
    | BreakPoint | WatchPoint | StepComplete | RunTimeErrorUnknown | InternalError
    | UserInterruption | ApplicationExit | StackOverflow | DivisionByZero | OSSpecific

  predicate IsHardwareReason(e: Exception) {
    e.BranchThroughZero? || e.UndefinedInstr? || e.SoftwareInterrupt? || e.PrefetchAbort?
    || e.DataAbort? || e.AddressException? || e.IRQ? || e.FIQ?
  }

  /** `From<Exception> for usize`: the enum discriminant. */
  function ExceptionCode(e: Exception): (n: Word)
    ensures IsHardwareReason(e) <==> 0x20000 <= n <= 0x20007
    ensures !IsHardwareReason(e) <==> 0x20020 <= n <= 0x20029
  {
    match e
    case BranchThroughZero => 0x20000
    case UndefinedInstr => 0x20001
    case SoftwareInterrupt => 0x20002
    case PrefetchAbort => 0x20003
    case DataAbort => 0x20004
    case AddressException => 0x20005
    case IRQ => 0x20006
    case FIQ => 0x20007
    case BreakPoint => 0x20020
    case WatchPoint => 0x20021
    case StepComplete => 0x20022
    case RunTimeErrorUnknown => 0x20023
    case InternalError => 0x20024
    case UserInterruption => 0x20025
    case ApplicationExit => 0x20026
    case StackOverflow => 0x20027
    case DivisionByZero => 0x20028
    case OSSpecific => 0x20029
  }

  /** The reason that a code names, if any: the inverse of `ExceptionCode`. */
  function ExceptionOfCode(n: int): (r: Option<Exception>)
    ensures r.Some? ==> ExceptionCode(r.value) == n
    ensures forall e :: ExceptionCode(e) == n ==> r == Some(e)
  {
    if 0x20000 <= n <= 0x20007 then
      Some([BranchThroughZero, UndefinedInstr, SoftwareInterrupt, PrefetchAbort,
            DataAbort, AddressException, IRQ, FIQ][n - 0x20000])
    else if 0x20020 <= n <= 0x20029 then
      Some([BreakPoint, WatchPoint, StepComplete, RunTimeErrorUnknown, InternalError,
            UserInterruption, ApplicationExit, StackOverflow, DivisionByZero, OSSpecific][n - 0x20020])
    else None
  }

  /** The `Mode` bit set that `open` passes to the host. */
  datatype Mode = Mode(bits: bv32)

  const BINARY: Mode := Mode(1)
  const MODE_READ_ONLY: Mode := Mode(0)
  const MODE_READ_WRITE: Mode := Mode(4)
  const MODE_APPEND: Mode := Mode(8)

  /** `Mode::bits()` widened to the word placed in the argument block. */
  function ModeWord(m: Mode): (w: Word)
    ensures w as bv32 == m.bits
  {
    m.bits as int
  }
}
