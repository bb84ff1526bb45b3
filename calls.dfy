/**
  The operations of `src/io.rs` that the stateful parts of the library run
  against the host: each issues its requests through `Host.Call` and ends in
  the state and value that the catalogue function of the same name in `Io`
  gives.
 */
module Calls {

  import opened Outcomes
  import opened Protocol
  import opened Trap
  import Io

  /** `E::last_error()`. */
  method LastError(h: Host, s: Io.Strategy) returns (e: Io.Error)
    modifies h
    ensures h.trace == Io.LastError(h.oracle, old(h.trace), s).trace
    ensures e == Io.LastError(h.oracle, old(h.trace), s).value
  {
    match s {
      case Unit =>
        e := Io.NoDetail;
      case Isize =>
        var w := h.Call0(Syscall.Errno);
        e := Io.ErrnoCode(AsIsize(w));
    }
  }

  /** `map_res`. */
  method MapRes(h: Host, s: Io.Strategy, res: Word) returns (r: Result<Word, Io.Error>)
    modifies h
    ensures h.trace == Io.MapRes(h.oracle, old(h.trace), s, res).trace
    ensures r == Io.MapRes(h.oracle, old(h.trace), s, res).value
  {
    if res == USIZE_MAX {
      var e := LastError(h, s);
      r := Err(e);
    } else {
      r := Ok(res);
    }
  }

  /** `write`. */
  method Write(h: Host, fd: Word, data: Io.Buf, s: Io.Strategy) returns (r: Result<Word, Io.Error>)
    modifies h
    ensures h.trace == Io.Write(h.oracle, old(h.trace), fd, data, s).trace
    ensures r == Io.Write(h.oracle, old(h.trace), fd, data, s).value
  {
    var res := h.Call(Syscall.Write, Block([Num(fd), In(data), Num(|data|)]));
    r := MapRes(h, s, res);
  }

  /** `open`; the zero descriptor is unreachable, as in the catalogue. */
  method Open(h: Host, path: Io.CStr, mode: Mode, s: Io.Strategy) returns (r: Result<Fd, Io.Error>)
    requires h.oracle.answer(h.trace + [Io.OpenRequest(path, mode)]) != 0
    modifies h
    ensures h.trace == Io.Open(h.oracle, old(h.trace), path, mode, s).trace
    ensures r == Io.Open(h.oracle, old(h.trace), path, mode, s).value
  {
    var res := h.Call(Syscall.Open, Block([In(Io.WithNul(path)), Num(ModeWord(mode)), Num(|path|)]));
    var m := MapRes(h, s, res);
    match m {
      case Ok(fd) => r := Ok(fd);
      case Err(e) => r := Err(e);
    }
  }

  /** `close`. */
  method Close(h: Host, fd: Word, s: Io.Strategy) returns (r: Result<(), Io.Error>)
    modifies h
    ensures h.trace == Io.Close(h.oracle, old(h.trace), fd, s).trace
    ensures r == Io.Close(h.oracle, old(h.trace), fd, s).value
  {
    var res := h.Call(Syscall.Close, Block([Num(fd)]));
    var m := MapRes(h, s, res);
    match m {
      case Ok(_) => r := Ok(());
      case Err(e) => r := Err(e);
    }
  }

  /** `write_char`. */
  method WriteChar(h: Host, c: Byte)
    modifies h
    ensures h.trace == Io.WriteChar(h.oracle, old(h.trace), c)
  {
    var _ := h.Call(Syscall.WriteC, Direct(In([c])));
  }

  /** `report_exception`. */
  method ReportException(h: Host, reason: Exception) returns (w: Word)
    modifies h
    ensures h.trace == Io.ReportException(h.oracle, old(h.trace), reason).trace
    ensures w == Io.ReportException(h.oracle, old(h.trace), reason).value
  {
    w := h.Call(Syscall.ReportException, Direct(Num(ExceptionCode(reason))));
  }

  /** `get_cmdline_unchecked` over a buffer in caller memory. */
  method GetCmdlineUnchecked(h: Host, buffer: array<Byte>, len: Word) returns (r: Result<Word, Io.Error>)
    requires len <= buffer.Length
    modifies h, buffer
    ensures h.trace == Io.GetCmdlineUnchecked(h.oracle, old(h.trace), old(buffer[..]), len).trace
    ensures r == Io.GetCmdlineUnchecked(h.oracle, old(h.trace), old(buffer[..]), len).value.result
    ensures buffer[..] == Io.GetCmdlineUnchecked(h.oracle, old(h.trace), old(buffer[..]), len).value.buffer
  {
    var res := h.Call(Syscall.GetCmdline, Block([Out(len), Num(len)]));
    h.StoreBytes(buffer, len);
    var block1 := Io.Slot(h.oracle.wordsOut(h.trace), 1, len);
    var m := MapRes(h, Io.Unit, res);
    match m {
      case Ok(_) => r := Ok(block1);
      case Err(e) => r := Err(e);
    }
  }
}
