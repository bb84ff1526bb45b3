/**
  The result decoder, the error-detail strategies and the operation catalogue
  of `src/io.rs`, as functions of the host and of the request history.
  Each operation sends one request with a fixed code and an ordered argument
  block, and decodes the host's result word by its own rule.
 */
module Io {

  import opened Outcomes
  import opened Protocol
  import opened Trap

  /** A byte slice: its length fits in a word. */
  type Buf = s: seq<Byte> | |s| <= USIZE_MAX
  /** A `CStr`: its bytes without the terminating NUL, none of them NUL. */
  type CStr = s: seq<Byte> | |s| < USIZE_MAX && 0 !in s

  /** The error type `E: Errno` the caller picks: `()` or `isize`. */
  datatype Strategy = Unit | Isize

  /** An error value: `()`, or the `isize` that the host's errno reported. */
  datatype Error = NoDetail | ErrnoCode(code: int)

  /** The host's answer together with the caller's buffer as the host left it. */
  datatype Filled<T> = Filled(result: T, buffer: seq<Byte>)

  /** The words of the heap-info block; a zero word stands for `None`. */
  datatype HeapInfo = HeapInfo(heapBase: Option<Word>, heapLimit: Option<Word>,
                               stackBase: Option<Word>, stackLimit: Option<Word>)

  const ERRNO_REQUEST: Request := Request(Syscall.Errno, NO_MESSAGE)

  /** A NUL-terminated string as the host reads it through the pointer. */
  function WithNul(s: CStr): seq<Byte> { s + [0] }

  /** A word the host may have overwritten in a memory block, or its old value. */
  function Slot(ws: seq<Word>, i: nat, default: Word): (w: Word)
    ensures i < |ws| ==> w == ws[i]
    ensures i >= |ws| ==> w == default
  {
    if i < |ws| then ws[i] else default
  }

  /*** The error channel ***/

  /** `errno()`: one `Errno` request with message zero, its word read as `isize`. */
  function LastErrno(o: Oracle, t: seq<Request>): (r: Run<int>)
    ensures r.trace == t + [ERRNO_REQUEST]
    ensures ISIZE_MIN <= r.value <= ISIZE_MAX
    ensures r.value % WORD_MODULUS == o.answer(r.trace)
  {
    var w := Exchange(o, t, ERRNO_REQUEST);
    Run(w.trace, AsIsize(w.value))
  }

  /** `E::last_error()`: nothing for `()`, one errno query for `isize`. */
  function LastError(o: Oracle, t: seq<Request>, s: Strategy): (r: Run<Error>)
    ensures s == Unit ==> r.trace == t && r.value == NoDetail
    ensures s == Isize ==> r.trace == t + [ERRNO_REQUEST] && r.value.ErrnoCode?
    ensures s == Isize ==> r.value.code % WORD_MODULUS == o.answer(r.trace)
  {
    match s
    case Unit => Run(t, NoDetail)
    case Isize =>
      var e := LastErrno(o, t);
      Run(e.trace, ErrnoCode(e.value))
  }

  /** `map_res`: the all-ones word is a failure with the strategy's detail; any other word passes through. */
  function MapRes(o: Oracle, t: seq<Request>, s: Strategy, res: Word): (r: Run<Result<Word, Error>>)
    ensures r.value.Ok? <==> res != USIZE_MAX
    ensures r.value.Ok? ==> r.value.value == res && r.trace == t
    ensures r.value.Err? ==> r.trace == LastError(o, t, s).trace && r.value.error == LastError(o, t, s).value
  {
    if res == USIZE_MAX then
      var e := LastError(o, t, s);
      Run(e.trace, Err(e.value))
    else Run(t, Ok(res))
  }

  /**
    What `map_res` makes of the host's answer to `q`: any word but all-ones is
    `Ok` of that word with nothing more asked; all-ones is `Err` of the
    strategy's detail, after the strategy's own queries.
   */
  ghost predicate Decoded(o: Oracle, t: seq<Request>, q: Request, s: Strategy, r: Run<Result<Word, Error>>) {
    var t' := t + [q];
    && (o.answer(t') != USIZE_MAX ==> r == Run(t', Ok(o.answer(t'))))
    && (o.answer(t') == USIZE_MAX ==> r == Run(LastError(o, t', s).trace, Err(LastError(o, t', s).value)))
  }

  /** `Decoded`, for an operation that keeps only success or failure. */
  ghost predicate DecodedUnit(o: Oracle, t: seq<Request>, q: Request, s: Strategy, r: Run<Result<(), Error>>) {
    var t' := t + [q];
    && (o.answer(t') != USIZE_MAX ==> r == Run(t', Ok(())))
    && (o.answer(t') == USIZE_MAX ==> r == Run(LastError(o, t', s).trace, Err(LastError(o, t', s).value)))
  }

  /** One request whose result word goes through `map_res`. */
  function Transact(o: Oracle, t: seq<Request>, q: Request, s: Strategy): (r: Run<Result<Word, Error>>)
    ensures SentNext(t, r.trace, q)
    ensures r.value.Ok? <==> o.answer(t + [q]) != USIZE_MAX
    ensures r.value.Ok? ==> r.value.value == o.answer(t + [q]) && r.trace == t + [q]
    ensures s == Unit ==> r.trace == t + [q]
    ensures s == Unit && r.value.Err? ==> r.value.error == NoDetail
    ensures s == Isize && r.value.Err? ==> r.trace == t + [q, ERRNO_REQUEST]
    ensures s == Isize && r.value.Err? ==> r.value.error.ErrnoCode?
    ensures Decoded(o, t, q, s, r)
  {
    var w := Exchange(o, t, q);
    assert w.trace[..|t| + 1] == t + [q];
    MapRes(o, w.trace, s, w.value)
  }

  /** `.map(drop)`: only success or failure is kept. */
  function Discard(r: Run<Result<Word, Error>>): (d: Run<Result<(), Error>>)
    ensures d.trace == r.trace
    ensures d.value.Ok? <==> r.value.Ok?
    ensures d.value.Err? ==> d.value.error == r.value.error
  {
    match r.value
    case Ok(_) => Run(r.trace, Ok(()))
    case Err(e) => Run(r.trace, Err(e))
  }

  /*** The operation catalogue ***/

  function OpenRequest(path: CStr, mode: Mode): Request {
    Request(Syscall.Open, Block([In(WithNul(path)), Num(ModeWord(mode)), Num(|path|)]))
  }

  /**
    `open`: block `[path, mode bits, path length]`. A zero success word breaks
    the protocol and is declared unreachable, so the host must not give it.
   */
  function Open(o: Oracle, t: seq<Request>, path: CStr, mode: Mode, s: Strategy): (r: Run<Result<Fd, Error>>)
    requires o.answer(t + [OpenRequest(path, mode)]) != 0
    ensures SentNext(t, r.trace, OpenRequest(path, mode))
    ensures r.value.Ok? <==> o.answer(t + [OpenRequest(path, mode)]) != USIZE_MAX
    ensures r.value.Ok? ==> r.value.value == o.answer(t + [OpenRequest(path, mode)]) && r.trace == t + [OpenRequest(path, mode)]
    ensures r.value.Err? ==> r.trace == LastError(o, t + [OpenRequest(path, mode)], s).trace
                             && r.value.error == LastError(o, t + [OpenRequest(path, mode)], s).value
  {
    var m := Transact(o, t, OpenRequest(path, mode), s);
    match m.value
    case Ok(fd) => Run(m.trace, Ok(fd))
    case Err(e) => Run(m.trace, Err(e))
  }

  function CloseRequest(fd: Word): Request {
    Request(Syscall.Close, Block([Num(fd)]))
  }

  /** `close`: block `[fd]`; only success or failure is returned. */
  function Close(o: Oracle, t: seq<Request>, fd: Word, s: Strategy): (r: Run<Result<(), Error>>)
    ensures SentNext(t, r.trace, CloseRequest(fd))
    ensures r.value.Ok? <==> o.answer(t + [CloseRequest(fd)]) != USIZE_MAX
    ensures DecodedUnit(o, t, CloseRequest(fd), s, r)
  {
    Discard(Transact(o, t, CloseRequest(fd), s))
  }

  function WriteRequest(fd: Word, data: Buf): Request {
    Request(Syscall.Write, Block([Num(fd), In(data), Num(|data|)]))
  }

  /** `write`: block `[fd, data, length]`; the word is the count of bytes NOT written. */
  function Write(o: Oracle, t: seq<Request>, fd: Word, data: Buf, s: Strategy): (r: Run<Result<Word, Error>>)
    ensures SentNext(t, r.trace, WriteRequest(fd, data))
    ensures Decoded(o, t, WriteRequest(fd, data), s, r)
  {
    Transact(o, t, WriteRequest(fd, data), s)
  }

  function ReadRequest(fd: Word, len: Word): Request {
    Request(Syscall.Read, Block([Num(fd), Out(len), Num(len)]))
  }

  /**
    `read`: block `[fd, buffer, length]`; the word is the count of bytes NOT
    read, and the host may store bytes into the buffer.
   */
  function Read(o: Oracle, t: seq<Request>, fd: Word, data: Buf, s: Strategy): (r: Run<Filled<Result<Word, Error>>>)
    ensures SentNext(t, r.trace, ReadRequest(fd, |data|))
    ensures Decoded(o, t, ReadRequest(fd, |data|), s, Run(r.trace, r.value.result))
    ensures r.value.buffer == Store(o.bytesOut(t + [ReadRequest(fd, |data|)]), data, |data|)
  {
    var q := ReadRequest(fd, |data|);
    var m := Transact(o, t, q, s);
    Run(m.trace, Filled(m.value, Store(o.bytesOut(t + [q]), data, |data|)))
  }

  function SeekRequest(fd: Word, offset: Word): Request {
    Request(Syscall.Seek, Block([Num(fd), Num(offset)]))
  }

  /** `seek` to an absolute offset: block `[fd, offset]`; only success or failure is returned. */
  function Seek(o: Oracle, t: seq<Request>, fd: Word, offset: Word, s: Strategy): (r: Run<Result<(), Error>>)
    ensures SentNext(t, r.trace, SeekRequest(fd, offset))
    ensures r.value.Ok? <==> o.answer(t + [SeekRequest(fd, offset)]) != USIZE_MAX
    ensures DecodedUnit(o, t, SeekRequest(fd, offset), s, r)
  {
    Discard(Transact(o, t, SeekRequest(fd, offset), s))
  }

  /** `f_len`: block `[fd]`; the word is the file length. */
  function FLen(o: Oracle, t: seq<Request>, fd: Word, s: Strategy): (r: Run<Result<Word, Error>>)
    ensures SentNext(t, r.trace, Request(Syscall.FLen, Block([Num(fd)])))
    ensures Decoded(o, t, Request(Syscall.FLen, Block([Num(fd)])), s, r)
  {
    Transact(o, t, Request(Syscall.FLen, Block([Num(fd)])), s)
  }

  function IsTtyRequest(fd: Word): Request {
    Request(Syscall.IsTTY, Block([Num(fd)]))
  }

  /**
    `is_tty`: block `[fd]`. Only the word 1 is success; every other word,
    the "not a terminal" 0 included, goes to the error channel.
   */
  function IsTty(o: Oracle, t: seq<Request>, fd: Word, s: Strategy): (r: Run<Result<(), Error>>)
    ensures SentNext(t, r.trace, IsTtyRequest(fd))
    ensures r.value.Ok? <==> o.answer(t + [IsTtyRequest(fd)]) == 1
    ensures r.value.Ok? ==> r.trace == t + [IsTtyRequest(fd)]
    ensures r.value.Err? ==> r.trace == LastError(o, t + [IsTtyRequest(fd)], s).trace
    ensures r.value.Err? ==> r.value.error == LastError(o, t + [IsTtyRequest(fd)], s).value
  {
    var w := Exchange(o, t, IsTtyRequest(fd));
    assert w.trace[..|t| + 1] == t + [IsTtyRequest(fd)];
    if w.value == 1 then Run(w.trace, Ok(()))
    else
      var e := LastError(o, w.trace, s);
      Run(e.trace, Err(e.value))
  }

  /** `system`: block `[command, command length]`; the word is the command's exit status. */
  function System(o: Oracle, t: seq<Request>, cmd: CStr, s: Strategy): (r: Run<Result<Word, Error>>)
    ensures Decoded(o, t, Request(Syscall.System, Block([In(WithNul(cmd)), Num(|cmd|)])), s, r)
  {
    Transact(o, t, Request(Syscall.System, Block([In(WithNul(cmd)), Num(|cmd|)])), s)
  }

  function TmpNamRequest(id: Byte, len: Word): Request {
    Request(Syscall.TmpNam, Block([Out(len), Num(id), Num(len)]))
  }

  /** `tmpnam`: block `[buffer, id, buffer length]`, errors without detail; the host may fill the buffer. */
  function TmpNam(o: Oracle, t: seq<Request>, id: Byte, buffer: Buf): (r: Run<Filled<Result<(), Error>>>)
    ensures r.trace == t + [TmpNamRequest(id, |buffer|)]
    ensures r.value.result.Ok? <==> o.answer(r.trace) != USIZE_MAX
    ensures r.value.result.Err? ==> r.value.result.error == NoDetail
    ensures r.value.buffer == Store(o.bytesOut(r.trace), buffer, |buffer|)
  {
    var q := TmpNamRequest(id, |buffer|);
    var m := Discard(Transact(o, t, q, Unit));
    Run(m.trace, Filled(m.value, Store(o.bytesOut(t + [q]), buffer, |buffer|)))
  }

  /** `remove`: block `[path, path length]`. */
  function Remove(o: Oracle, t: seq<Request>, path: CStr, s: Strategy): (r: Run<Result<Word, Error>>)
    ensures Decoded(o, t, Request(Syscall.Remove, Block([In(WithNul(path)), Num(|path|)])), s, r)
  {
    Transact(o, t, Request(Syscall.Remove, Block([In(WithNul(path)), Num(|path|)])), s)
  }

  function RenameRequest(src: CStr, dest: CStr): Request {
    Request(Syscall.Rename, Block([In(WithNul(src)), Num(|src|), In(WithNul(dest)), Num(|dest|)]))
  }

  /** `rename`: block `[source, source length, destination, destination length]`. */
  function Rename(o: Oracle, t: seq<Request>, src: CStr, dest: CStr, s: Strategy): (r: Run<Result<Word, Error>>)
    ensures SentNext(t, r.trace, RenameRequest(src, dest))
    ensures Decoded(o, t, RenameRequest(src, dest), s, r)
  {
    Transact(o, t, RenameRequest(src, dest), s)
  }

  /** `time`: seconds since the epoch; the word is returned undecoded, all-ones included. */
  function Time(o: Oracle, t: seq<Request>): (r: Run<Word>)
    ensures r.trace == t + [Request(Syscall.Time, NO_MESSAGE)]
    ensures r.value == o.answer(r.trace)
  {
    Exchange(o, t, Request(Syscall.Time, NO_MESSAGE))
  }

  /** `clock`: centiseconds, errors without detail. */
  function Clock(o: Oracle, t: seq<Request>): (r: Run<Result<Word, Error>>)
    ensures r.trace == t + [Request(Syscall.Clock, NO_MESSAGE)]
    ensures r.value.Ok? <==> o.answer(r.trace) != USIZE_MAX
    ensures r.value.Ok? ==> r.value.value == o.answer(r.trace)
    ensures r.value.Err? ==> r.value.error == NoDetail
  {
    Transact(o, t, Request(Syscall.Clock, NO_MESSAGE), Unit)
  }

  /** `tick_freq`: ticks per second of the elapsed-time counter, errors without detail. */
  function TickFreq(o: Oracle, t: seq<Request>): (r: Run<Result<Word, Error>>)
    ensures r.trace == t + [Request(Syscall.TickFreq, NO_MESSAGE)]
    ensures r.value.Ok? <==> o.answer(r.trace) != USIZE_MAX
    ensures r.value.Ok? ==> r.value.value == o.answer(r.trace)
    ensures r.value.Err? ==> r.value.error == NoDetail
  {
    Transact(o, t, Request(Syscall.TickFreq, NO_MESSAGE), Unit)
  }

  function CmdlineRequest(len: Word): Request {
    Request(Syscall.GetCmdline, Block([Out(len), Num(len)]))
  }

  /**
    `get_cmdline_unchecked`: block `[buffer, length]`, errors without detail.
    On success the result is the length the host left in the block's second
    slot; the result word itself is discarded. The caller vouches that the
    buffer holds `len` bytes.
   */
  function GetCmdlineUnchecked(o: Oracle, t: seq<Request>, buffer: seq<Byte>, len: Word): (r: Run<Filled<Result<Word, Error>>>)
    requires len <= |buffer|
    ensures r.trace == t + [CmdlineRequest(len)]
    ensures r.value.result.Ok? <==> o.answer(r.trace) != USIZE_MAX
    ensures r.value.result.Ok? ==> r.value.result.value == Slot(o.wordsOut(r.trace), 1, len)
    ensures r.value.result.Err? ==> r.value.result.error == NoDetail
    ensures r.value.buffer == Store(o.bytesOut(r.trace), buffer, len)
  {
    var q := CmdlineRequest(len);
    var m := Transact(o, t, q, Unit);
    var block1 := Slot(o.wordsOut(m.trace), 1, len);
    var result := match m.value case Ok(_) => Ok(block1) case Err(e) => Err(e);
    Run(m.trace, Filled(result, Store(o.bytesOut(m.trace), buffer, len)))
  }

  /** `get_cmdline`: the unchecked form over a whole slice. */
  function GetCmdline(o: Oracle, t: seq<Request>, buffer: Buf): (r: Run<Filled<Result<Word, Error>>>)
    ensures r.trace == t + [CmdlineRequest(|buffer|)]
    ensures r.value.result.Ok? <==> o.answer(r.trace) != USIZE_MAX
    ensures r.value.result.Ok? ==> r.value.result.value == Slot(o.wordsOut(r.trace), 1, |buffer|)
    ensures r.value.result.Err? ==> r.value.result.error == NoDetail
    ensures r.value.buffer == Store(o.bytesOut(r.trace), buffer, |buffer|)
  {
    GetCmdlineUnchecked(o, t, buffer, |buffer|)
  }

  /** `is_error`: block `[res]`; any nonzero word means "is an error". */
  function IsError(o: Oracle, t: seq<Request>, res: Word): (r: Run<bool>)
    ensures r.trace == t + [Request(Syscall.IsError, Block([Num(res)]))]
    ensures r.value <==> o.answer(r.trace) != 0
  {
    var w := Exchange(o, t, Request(Syscall.IsError, Block([Num(res)])));
    Run(w.trace, w.value != 0)
  }

  /** `read_char`: the low byte of the word. */
  function ReadChar(o: Oracle, t: seq<Request>): (r: Run<Byte>)
    ensures r.trace == t + [Request(Syscall.ReadC, NO_MESSAGE)]
    ensures (o.answer(r.trace) - r.value) % 256 == 0
  {
    var w := Exchange(o, t, Request(Syscall.ReadC, NO_MESSAGE));
    Run(w.trace, LowByte(w.value))
  }

  function WriteCharRequest(c: Byte): Request {
    Request(Syscall.WriteC, Direct(In([c])))
  }

  /** `write_char`: a pointer to the one byte; the word is ignored. */
  function WriteChar(o: Oracle, t: seq<Request>, c: Byte): (r: seq<Request>)
    ensures r == t + [WriteCharRequest(c)]
  {
    Exchange(o, t, WriteCharRequest(c)).trace
  }

  /** `write_cstr`: a pointer to the NUL-terminated string; the word is ignored. */
  function WriteCStr(o: Oracle, t: seq<Request>, s: CStr): (r: seq<Request>)
    ensures r == t + [Request(Syscall.Write0, Direct(In(WithNul(s))))]
  {
    Exchange(o, t, Request(Syscall.Write0, Direct(In(WithNul(s))))).trace
  }

  function ReportRequest(reason: Exception): Request {
    Request(Syscall.ReportException, Direct(Num(ExceptionCode(reason))))
  }

  /** `report_exception`: the reason code itself is the message; the word is returned as is. */
  function ReportException(o: Oracle, t: seq<Request>, reason: Exception): (r: Run<Word>)
    ensures r.trace == t + [ReportRequest(reason)]
    ensures r.value == o.answer(r.trace)
  {
    Exchange(o, t, ReportRequest(reason))
  }

  function NonZero(w: Word): (r: Option<Word>)
    ensures r.None? <==> w == 0
    ensures r.Some? ==> r.value == w
  {
    if w == 0 then None else Some(w)
  }

  /**
    `heapinfo`: a pointer to a four-word block the host fills; each word
    becomes `Option<NonZeroU32>`. Words the host leaves unwritten read as 0.
   */
  function HeapInfoOp(o: Oracle, t: seq<Request>): (r: Run<HeapInfo>)
    ensures r.trace == t + [Request(Syscall.HeapInfo, Direct(Out(16)))]
    ensures r.value.heapBase == NonZero(Slot(o.wordsOut(r.trace), 0, 0))
    ensures r.value.heapLimit == NonZero(Slot(o.wordsOut(r.trace), 1, 0))
    ensures r.value.stackBase == NonZero(Slot(o.wordsOut(r.trace), 2, 0))
    ensures r.value.stackLimit == NonZero(Slot(o.wordsOut(r.trace), 3, 0))
  {
    var w := Exchange(o, t, Request(Syscall.HeapInfo, Direct(Out(16))));
    var ws := o.wordsOut(w.trace);
    Run(w.trace, HeapInfo.HeapInfo(NonZero(Slot(ws, 0, 0)), NonZero(Slot(ws, 1, 0)),
                          NonZero(Slot(ws, 2, 0)), NonZero(Slot(ws, 3, 0))))
  }

  /*** Properties of the decoder ***/

  /** A successful `open` never yields descriptor 0, and the all-ones word never yields a descriptor. */
  lemma OpenNeverZero(o: Oracle, t: seq<Request>, path: CStr, mode: Mode, s: Strategy)
    requires o.answer(t + [OpenRequest(path, mode)]) != 0
    ensures Open(o, t, path, mode, s).value.Ok? ==> Open(o, t, path, mode, s).value.value != 0
    ensures o.answer(t + [OpenRequest(path, mode)]) == USIZE_MAX ==> Open(o, t, path, mode, s).value.Err?
  {
  }

  /**
    The two strategies agree on success and failure and differ only in the
    detail: `()` asks nothing more, `isize` asks exactly one errno query.
   */
  lemma StrategiesAgree(o: Oracle, t: seq<Request>, q: Request)
    ensures Transact(o, t, q, Unit).value.Ok? <==> Transact(o, t, q, Isize).value.Ok?
    ensures Transact(o, t, q, Unit).value.Ok? ==> Transact(o, t, q, Unit) == Transact(o, t, q, Isize)
    ensures Transact(o, t, q, Unit).value.Err? ==>
      |Transact(o, t, q, Isize).trace| == |Transact(o, t, q, Unit).trace| + 1
  {
  }
}
