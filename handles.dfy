/**
  `Handle`, its all-or-error bulk write, and `OwnedHandle`, which closes its
  handle exactly once when it goes out of scope (src/io.rs).

  `Handle::seek_set`, `close`, `write` and `read` are the catalogue operations
  `Io.Seek`, `Io.Close`, `Io.Write` and `Io.Read` applied to the handle's
  descriptor, and `Handle::open` is `Io.Open` wrapped in a `Handle`.
 */
module Handles {

  import opened Outcomes
  import opened Protocol
  import opened Trap
  import Io
  import Calls

  /** A capability for one open host descriptor; copying it opens nothing and closes nothing. */
  datatype Handle = Handle(fd: Fd)

  /** Why a bulk write stopped short. */
  datatype WriteAllError =
    | Io(error: Io.Error)   // the host reported a failure
    | Incomplete(left: Word) // a write made no progress; `left` bytes were not written
    | Invalid                // the host claimed more bytes unwritten than were sent

  /** `Handle::open`. */
  function OpenHandle(o: Oracle, t: seq<Request>, path: Io.CStr, mode: Mode, s: Io.Strategy): (r: Run<Result<Handle, Io.Error>>)
    requires o.answer(t + [Io.OpenRequest(path, mode)]) != 0
    ensures r.trace == Io.Open(o, t, path, mode, s).trace
    ensures r.value.Ok? <==> Io.Open(o, t, path, mode, s).value.Ok?
    ensures r.value.Ok? ==> r.value.value.fd == Io.Open(o, t, path, mode, s).value.value
    ensures r.value.Err? ==> r.value.error == Io.Open(o, t, path, mode, s).value.error
  {
    var m := Io.Open(o, t, path, mode, s);
    match m.value
    case Ok(fd) => Run(m.trace, Ok(Handle(fd)))
    case Err(e) => Run(m.trace, Err(e))
  }

  /** `usize::checked_sub`. */
  function CheckedSub(a: nat, b: nat): (r: Option<nat>)
    ensures r.Some? <==> b <= a
    ensures r.Some? ==> r.value + b == a
  {
    if b <= a then Some(a - b) else None
  }

  /**
    The run of `Handle::write_all` on descriptor `fd`: the requests it issues
    and its outcome.
   */
  function WriteAllRun(o: Oracle, t: seq<Request>, fd: Word, buffer: Io.Buf, s: Io.Strategy): (r: Run<Result<(), WriteAllError>>)
    ensures |t| <= |r.trace| <= |t| + |buffer| + 1
    ensures r.trace[..|t|] == t
    decreases |buffer|
  {
    if |buffer| == 0 then Run(t, Ok(()))
    else
      var w := Io.Write(o, t, fd, buffer, s);
      match w.value
      case Err(e) => Run(w.trace, Err(Io(e)))
      case Ok(left) =>
        if left == 0 then Run(w.trace, Ok(()))
        else if left == |buffer| then Run(w.trace, Err(Incomplete(left)))
        else
          match CheckedSub(|buffer|, left)
          case None => Run(w.trace, Err(Invalid))
          case Some(off) =>
            var rest := WriteAllRun(o, w.trace, fd, buffer[off..], s);
            assert rest.trace[..|t|] == w.trace[..|t|];
            rest
  }

  /** `Handle::write_all`: write until the host has taken every byte, or stop with the reason. */
  method WriteAll(h: Host, handle: Handle, buffer: Io.Buf, s: Io.Strategy) returns (r: Result<(), WriteAllError>)
    modifies h
    ensures h.trace == WriteAllRun(h.oracle, old(h.trace), handle.fd, buffer, s).trace
    ensures r == WriteAllRun(h.oracle, old(h.trace), handle.fd, buffer, s).value
  {
    var buf := buffer;
    while |buf| != 0
      invariant WriteAllRun(h.oracle, old(h.trace), handle.fd, buffer, s)
             == WriteAllRun(h.oracle, h.trace, handle.fd, buf, s)
      decreases |buf|
    {
      var w := Calls.Write(h, handle.fd, buf, s);
      match w {
        case Err(e) =>
          return Err(Io(e));
        case Ok(left) =>
          if left == 0 {
            return Ok(());
          } else if left == |buf| {
            return Err(Incomplete(left));
          }
          var off := CheckedSub(|buf|, left);
          match off {
            case None =>
              return Err(Invalid);
            case Some(k) =>
              buf := buf[k..];
          }
      }
    }
    return Ok(());
  }

  /*** What the host receives ***/

  /** The bytes a `Write` request handed over, given the host's count of bytes not written. */
  function Accepted(q: Request, left: Word): (b: seq<Byte>)
    ensures q.code != Syscall.Write ==> b == []
  {
    if q.code == Syscall.Write && q.msg.Block? && |q.msg.fields| == 3 && q.msg.fields[1].In?
       && left <= |q.msg.fields[1].bytes|
    then q.msg.fields[1].bytes[..|q.msg.fields[1].bytes| - left]
    else []
  }

  /** The bytes the host accepted from the requests of `tr[from..]`, in order. */
  function Received(o: Oracle, tr: seq<Request>, from: nat): seq<Byte>
    decreases |tr| - from
  {
    if from >= |tr| then []
    else Accepted(tr[from], o.answer(tr[..from + 1])) + Received(o, tr, from + 1)
  }

  predicate IsPrefix<T(==)>(a: seq<T>, b: seq<T>) {
    |a| <= |b| && b[..|a|] == a
  }

  lemma PrefixAfter<T>(a: seq<T>, x: seq<T>, y: seq<T>)
    requires IsPrefix(x, y)
    ensures IsPrefix(a + x, a + y)
  {
    assert (a + y)[..|a + x|] == a + y[..|x|];
  }

  /**
    The bytes the host receives from the run of `write_all` are a prefix of
    the buffer, and all of it when the run succeeds.
   */
  ghost predicate InOrder(o: Oracle, t: seq<Request>, fd: Word, buffer: Io.Buf, s: Io.Strategy) {
    var r := WriteAllRun(o, t, fd, buffer, s);
    && IsPrefix(Received(o, r.trace, |t|), buffer)
    && (r.value.Ok? ==> Received(o, r.trace, |t|) == buffer)
  }

  /** The first request past `t` contributes its accepted bytes, then the rest follow. */
  lemma ReceivedStep(o: Oracle, tr: seq<Request>, t: seq<Request>, q: Request)
    requires |tr| > |t| && tr[..|t| + 1] == t + [q]
    ensures Received(o, tr, |t|) == Accepted(q, o.answer(t + [q])) + Received(o, tr, |t| + 1)
  {
    assert tr[|t|] == q;
  }

  /** The first write of a nonempty buffer goes out right after `t`, and its bytes come first. */
  lemma FirstReceived(o: Oracle, t: seq<Request>, fd: Word, buffer: Io.Buf, s: Io.Strategy)
    requires |buffer| > 0
    ensures var q := Io.WriteRequest(fd, buffer); var tr := WriteAllRun(o, t, fd, buffer, s).trace;
            Received(o, tr, |t|) == Accepted(q, o.answer(t + [q])) + Received(o, tr, |t| + 1)
  {
    var q := Io.WriteRequest(fd, buffer);
    var r := WriteAllRun(o, t, fd, buffer, s);
    var w := Io.Write(o, t, fd, buffer, s);
    assert r.trace[..|t| + 1] == t + [q] by {
      assert w.trace[..|t| + 1] == t + [q];
      assert r.trace[..|w.trace|] == w.trace;
    }
    ReceivedStep(o, r.trace, t, q);
  }

  /** A `Write` whose reply leaves `left` bytes unwritten handed over all the others. */
  lemma AcceptedWrite(fd: Word, buffer: Io.Buf, left: Word)
    requires left <= |buffer|
    ensures Accepted(Io.WriteRequest(fd, buffer), left) == buffer[..|buffer| - left]
  {
  }

  /** Bytes received before a prefix of `rest` extend to a prefix of what comes before `rest`. */
  lemma ReceivedAfter(o: Oracle, tr: seq<Request>, t: seq<Request>, q: Request, rest: seq<Byte>)
    requires |tr| > |t| && tr[..|t| + 1] == t + [q]
    requires IsPrefix(Received(o, tr, |t| + 1), rest)
    ensures IsPrefix(Received(o, tr, |t|), Accepted(q, o.answer(t + [q])) + rest)
    ensures Received(o, tr, |t| + 1) == rest ==>
              Received(o, tr, |t|) == Accepted(q, o.answer(t + [q])) + rest
  {
    ReceivedStep(o, tr, t, q);
    PrefixAfter(Accepted(q, o.answer(t + [q])), Received(o, tr, |t| + 1), rest);
  }

  /** When the first reply ends `write_all`, the host keeps what that one write handed over. */
  lemma StopReceived(o: Oracle, t: seq<Request>, fd: Word, buffer: Io.Buf, s: Io.Strategy)
    requires |buffer| > 0
    requires var left := o.answer(t + [Io.WriteRequest(fd, buffer)]);
             left == USIZE_MAX || left == 0 || left >= |buffer|
    ensures InOrder(o, t, fd, buffer, s)
  {
    var q := Io.WriteRequest(fd, buffer);
    var left := o.answer(t + [q]);
    var r := WriteAllRun(o, t, fd, buffer, s);
    FirstReceived(o, t, fd, buffer, s);
    if left == USIZE_MAX && s == Io.Isize {
      assert r.trace == t + [q, Io.ERRNO_REQUEST];
      assert r.trace[..|t + [q]| + 1] == (t + [q]) + [Io.ERRNO_REQUEST];
      ReceivedStep(o, r.trace, t + [q], Io.ERRNO_REQUEST);
    } else {
      assert r.trace == t + [q];
    }
    assert Received(o, r.trace, |t|) == if left == 0 then buffer else [];
    assert r.value.Ok? ==> left == 0;
  }

  /** When the first reply leaves `left` bytes with `0 < left < |buffer|`, `write_all` goes on with the last `left`. */
  lemma ContinueRun(o: Oracle, t: seq<Request>, fd: Word, buffer: Io.Buf, s: Io.Strategy)
    requires var left := o.answer(t + [Io.WriteRequest(fd, buffer)]);
             0 < left < |buffer|
    ensures var q := Io.WriteRequest(fd, buffer); var left := o.answer(t + [q]);
            WriteAllRun(o, t, fd, buffer, s) == WriteAllRun(o, t + [q], fd, buffer[|buffer| - left..], s)
  {
    var q := Io.WriteRequest(fd, buffer);
    var left := o.answer(t + [q]);
    assert Io.Write(o, t, fd, buffer, s).trace == t + [q];
    assert Io.Write(o, t, fd, buffer, s).value == Ok(left);
    assert CheckedSub(|buffer|, left) == Some(|buffer| - left);
  }

  /** When the first reply asks for another round, the bytes of that round follow the first write's. */
  lemma ContinueReceived(o: Oracle, t: seq<Request>, fd: Word, buffer: Io.Buf, s: Io.Strategy)
    requires var left := o.answer(t + [Io.WriteRequest(fd, buffer)]);
             0 < left < |buffer|
    requires var q := Io.WriteRequest(fd, buffer); var left := o.answer(t + [q]);
             InOrder(o, t + [q], fd, buffer[|buffer| - left..], s)
    ensures InOrder(o, t, fd, buffer, s)
  {
    var q := Io.WriteRequest(fd, buffer);
    var left := o.answer(t + [q]);
    var rest := buffer[|buffer| - left..];
    ContinueRun(o, t, fd, buffer, s);
    var r := WriteAllRun(o, t + [q], fd, rest, s);
    AcceptedWrite(fd, buffer, left);
    assert buffer == buffer[..|buffer| - left] + rest;
    ReceivedAfter(o, r.trace, t, q, rest);
  }

  /**
    Whatever its outcome, `write_all` hands the host a prefix of the buffer,
    in order; on success it hands over the whole buffer.
   */
  lemma {:induction false} WriteAllInOrder(o: Oracle, t: seq<Request>, fd: Word, buffer: Io.Buf, s: Io.Strategy)
    ensures InOrder(o, t, fd, buffer, s)
    decreases |buffer|
  {
    if |buffer| > 0 {
      var q := Io.WriteRequest(fd, buffer);
      var left := o.answer(t + [q]);
      if left == USIZE_MAX || left == 0 || left >= |buffer| {
        StopReceived(o, t, fd, buffer, s);
      } else {
        WriteAllInOrder(o, t + [q], fd, buffer[|buffer| - left..], s);
        ContinueReceived(o, t, fd, buffer, s);
      }
    }
  }

  /**
    One step of `write_all` on a nonempty buffer, by the host's reply to its
    first `Write`: all-ones is an I/O error, 0 is success, the full length is
    `Incomplete`, more than the length is `Invalid`, and anything in between
    makes the next write carry exactly the last `left` bytes.
   */
  lemma WriteAllReplies(o: Oracle, t: seq<Request>, fd: Word, buffer: Io.Buf, s: Io.Strategy)
    ensures |buffer| == 0 ==> WriteAllRun(o, t, fd, buffer, s) == Run(t, Ok(()))
    ensures |buffer| > 0 ==> SentNext(t, WriteAllRun(o, t, fd, buffer, s).trace, Io.WriteRequest(fd, buffer))
    ensures var q := Io.WriteRequest(fd, buffer); var left := o.answer(t + [q]);
            var r := WriteAllRun(o, t, fd, buffer, s);
            |buffer| > 0 ==>
              && (left == USIZE_MAX ==> r.value == Err(Io(Io.LastError(o, t + [q], s).value))
                                        && r.trace == Io.LastError(o, t + [q], s).trace)
              && (left == 0 ==> r == Run(t + [q], Ok(())))
              && (left == |buffer| < USIZE_MAX ==> r == Run(t + [q], Err(Incomplete(left))))
              && (|buffer| < left < USIZE_MAX ==> r == Run(t + [q], Err(Invalid)))
              && (0 < left < |buffer| ==> r == WriteAllRun(o, t + [q], fd, buffer[|buffer| - left..], s))
  {
  }

  /** Every request of `tr` from index `from` on is a `Write` whose first field is `fd`. */
  ghost predicate WritesOn(tr: seq<Request>, from: nat, fd: Word) {
    forall i :: from <= i < |tr| ==>
      tr[i].code == Syscall.Write && tr[i].msg.Block?
      && |tr[i].msg.fields| == 3 && tr[i].msg.fields[0] == Num(fd)
  }

  /** Under the `()` strategy every request `write_all` issues is a `Write` on its descriptor. */
  lemma {:induction false} WriteAllOnlyWrites(o: Oracle, t: seq<Request>, fd: Word, buffer: Io.Buf)
    ensures WritesOn(WriteAllRun(o, t, fd, buffer, Io.Unit).trace, |t|, fd)
    decreases |buffer|
  {
    var r := WriteAllRun(o, t, fd, buffer, Io.Unit);
    if |buffer| > 0 {
      var q := Io.WriteRequest(fd, buffer);
      var left := o.answer(t + [q]);
      if 0 < left < |buffer| {
        var rest := buffer[|buffer| - left..];
        WriteAllOnlyWrites(o, t + [q], fd, rest);
        ContinueRun(o, t, fd, buffer, Io.Unit);
        assert r.trace[..|t| + 1] == (t + [q])[..|t| + 1];
        assert r.trace[|t|] == q;
      } else {
        assert r.trace == t + [q];
      }
    }
  }

  /*** A host that takes at most `k` bytes per write ***/

  /** The reply of such a host: of `n` bytes offered, `n - k` are left, or none. */
  function ChunkReply(k: nat, hist: seq<Request>): Word {
    if |hist| == 0 then USIZE_MAX
    else
      var q := hist[|hist| - 1];
      if q.code == Syscall.Write && q.msg.Block? && |q.msg.fields| == 3 && q.msg.fields[2].Num? then
        var n := q.msg.fields[2].n;
        if n > k then n - k else 0
      else USIZE_MAX
  }

  function ChunkHost(k: nat): Oracle {
    Oracle(hist => ChunkReply(k, hist), hist => [], hist => [])
  }

  /** The requests `write_all` sends to that host: one per chunk of `k` bytes, in order. */
  function ChunkWrites(fd: Word, buffer: Io.Buf, k: nat): seq<Request>
    requires k > 0
    decreases |buffer|
  {
    if |buffer| == 0 then []
    else if |buffer| <= k then [Io.WriteRequest(fd, buffer)]
    else [Io.WriteRequest(fd, buffer)] + ChunkWrites(fd, buffer[k..], k)
  }

  /** The number of chunks of `ChunkWrites` is ceil(n / k): the least `c` with `n <= c * k`. */
  lemma {:induction false} ChunkCount(fd: Word, buffer: Io.Buf, k: nat)
    requires k > 0
    ensures var c := |ChunkWrites(fd, buffer, k)|;
            |buffer| <= c * k && (c == 0 || (c - 1) * k < |buffer|)
    decreases |buffer|
  {
    if |buffer| > k {
      var c := |ChunkWrites(fd, buffer[k..], k)|;
      ChunkCount(fd, buffer[k..], k);
      assert (c + 1) * k == c * k + k;
    }
  }

  /** That host's reply to a write of `buffer`. */
  lemma ChunkAnswer(k: nat, t: seq<Request>, fd: Word, buffer: Io.Buf)
    ensures ChunkHost(k).answer(t + [Io.WriteRequest(fd, buffer)])
            == if |buffer| > k then |buffer| - k else 0
  {
    var q := Io.WriteRequest(fd, buffer);
    assert (t + [q])[|t + [q]| - 1] == q;
  }

  /** A first reply of 0 ends `write_all` with success after that one write. */
  lemma DoneRun(o: Oracle, t: seq<Request>, fd: Word, buffer: Io.Buf, s: Io.Strategy)
    requires |buffer| > 0 && o.answer(t + [Io.WriteRequest(fd, buffer)]) == 0
    ensures WriteAllRun(o, t, fd, buffer, s) == Run(t + [Io.WriteRequest(fd, buffer)], Ok(()))
  {
    var q := Io.WriteRequest(fd, buffer);
    assert Io.Write(o, t, fd, buffer, s).trace == t + [q];
    assert Io.Write(o, t, fd, buffer, s).value == Ok(0);
  }

  /** One chunk: after the first write, the rest of the run is the run on the buffer past `k`. */
  lemma ChunkStep(k: nat, t: seq<Request>, fd: Word, buffer: Io.Buf, s: Io.Strategy)
    requires 0 < k < |buffer|
    requires var q := Io.WriteRequest(fd, buffer);
             WriteAllRun(ChunkHost(k), t + [q], fd, buffer[k..], s)
             == Run(t + [q] + ChunkWrites(fd, buffer[k..], k), Ok(()))
    ensures WriteAllRun(ChunkHost(k), t, fd, buffer, s) == Run(t + ChunkWrites(fd, buffer, k), Ok(()))
  {
    var q := Io.WriteRequest(fd, buffer);
    var o := ChunkHost(k);
    ChunkAnswer(k, t, fd, buffer);
    var rest := buffer[k..];
    assert buffer[|buffer| - (|buffer| - k)..] == rest;
    ContinueRun(o, t, fd, buffer, s);
    var tail := ChunkWrites(fd, rest, k);
    assert ChunkWrites(fd, buffer, k) == [q] + tail;
    assert t + [q] + tail == t + ([q] + tail);
  }

  /**
    Against a host that takes `k > 0` bytes per write, `write_all` succeeds
    and sends one write per chunk, each carrying the rest of the buffer.
   */
  lemma {:induction false} ChunkedWriteAll(k: nat, t: seq<Request>, fd: Word, buffer: Io.Buf, s: Io.Strategy)
    requires k > 0
    ensures WriteAllRun(ChunkHost(k), t, fd, buffer, s) == Run(t + ChunkWrites(fd, buffer, k), Ok(()))
    decreases |buffer|
  {
    if |buffer| > k {
      ChunkedWriteAll(k, t + [Io.WriteRequest(fd, buffer)], fd, buffer[k..], s);
      ChunkStep(k, t, fd, buffer, s);
    } else if |buffer| > 0 {
      ChunkAnswer(k, t, fd, buffer);
      DoneRun(ChunkHost(k), t, fd, buffer, s);
    }
  }

  /** ... and the host receives the whole buffer, in order. */
  lemma ChunkedDelivery(k: nat, t: seq<Request>, fd: Word, buffer: Io.Buf, s: Io.Strategy)
    requires k > 0
    ensures Received(ChunkHost(k), t + ChunkWrites(fd, buffer, k), |t|) == buffer
  {
    ChunkedWriteAll(k, t, fd, buffer, s);
    WriteAllInOrder(ChunkHost(k), t, fd, buffer, s);
  }

  /*** OwnedHandle ***/

  /** Where an `OwnedHandle` is in its life: still owning, handed out by `into_handle`, or dropped. */
  datatype Ownership = Owning | Released | Dropped

  /** The number of `Close` requests in a history: zero exactly when the history holds none. */
  function Closes(tr: seq<Request>): (n: nat)
    ensures n <= |tr|
    ensures n == 0 <==> forall i :: 0 <= i < |tr| ==> tr[i].code != Syscall.Close
  {
    if tr == [] then 0
    else Closes(tr[..|tr| - 1]) + (if tr[|tr| - 1].code == Syscall.Close then 1 else 0)
  }

  /** A `Close` request at the end counts once. */
  lemma ClosesOne(t: seq<Request>, q: Request)
    requires q.code == Syscall.Close
    ensures Closes(t + [q]) == Closes(t) + 1
  {
    assert (t + [q])[..|t|] == t;
  }

  /** ... and so does a `Close` followed by an `Errno` query. */
  lemma ClosesTwo(t: seq<Request>, q: Request)
    requires q.code == Syscall.Close
    ensures Closes(t + [q, Io.ERRNO_REQUEST]) == Closes(t) + 1
  {
    assert (t + [q, Io.ERRNO_REQUEST])[..|t| + 1] == t + [q];
    ClosesOne(t, q);
  }

  /** A close issues exactly one `Close`, on the given descriptor, whatever the host answers. */
  lemma CloseIsOnce(o: Oracle, t: seq<Request>, fd: Word, s: Io.Strategy)
    ensures var r := Io.Close(o, t, fd, s);
            r.trace[|t|] == Io.CloseRequest(fd) && Closes(r.trace) == Closes(t) + 1
  {
    var tr := Io.Close(o, t, fd, s).trace;
    var q := Io.CloseRequest(fd);
    if tr == t + [q] {
      ClosesOne(t, q);
    } else {
      assert tr == t + [q, Io.ERRNO_REQUEST];
      ClosesTwo(t, q);
    }
  }

  class OwnedHandle {
    var handle: Handle
    var state: Ownership

    /** `OwnedHandle::from_handle`: takes ownership of an open handle. */
    constructor FromHandle(handle: Handle)
      ensures this.handle == handle && state == Owning
    {
      this.handle := handle;
      state := Owning;
    }

    /** `OwnedHandle::open`. */
    static method Open(h: Host, path: Io.CStr, mode: Mode, s: Io.Strategy) returns (r: Result<OwnedHandle, Io.Error>)
      requires h.oracle.answer(h.trace + [Io.OpenRequest(path, mode)]) != 0
      modifies h
      ensures h.trace == Io.Open(h.oracle, old(h.trace), path, mode, s).trace
      ensures r.Ok? <==> Io.Open(h.oracle, old(h.trace), path, mode, s).value.Ok?
      ensures r.Ok? ==> fresh(r.value) && r.value.state == Owning
                        && r.value.handle.fd == Io.Open(h.oracle, old(h.trace), path, mode, s).value.value
      ensures r.Err? ==> r.error == Io.Open(h.oracle, old(h.trace), path, mode, s).value.error
    {
      var m := Calls.Open(h, path, mode, s);
      if m.Ok? {
        var owned := new OwnedHandle.FromHandle(Handle(m.value));
        r := Ok(owned);
      } else {
        r := Err(m.error);
      }
    }

    /** Assignment through `DerefMut`: the owned handle is replaced, the old one is not closed. */
    method Replace(other: Handle)
      requires state == Owning
      modifies this
      ensures handle == other && state == Owning
    {
      handle := other;
    }

    /** `OwnedHandle::into_handle`: hands the handle out and disarms the close. */
    method IntoHandle() returns (hd: Handle)
      requires state == Owning
      modifies this
      ensures hd == old(handle) && handle == old(handle) && state == Released
    {
      hd := handle;
      state := Released;
    }

    /**
      `Drop for OwnedHandle`: one close of the owned descriptor, its error
      ignored. The strategy is `isize` in debug builds and `()` in release builds.
     */
    method Drop(h: Host, s: Io.Strategy)
      requires state == Owning
      modifies this, h
      ensures state == Dropped && handle == old(handle)
      ensures h.trace == Io.Close(h.oracle, old(h.trace), handle.fd, s).trace
      ensures h.trace[|old(h.trace)|] == Io.CloseRequest(handle.fd)
      ensures Closes(h.trace) == Closes(old(h.trace)) + 1
    {
      CloseIsOnce(h.oracle, h.trace, handle.fd, s);
      var _ := Calls.Close(h, handle.fd, s);
      state := Dropped;
    }
  }

  /**
    An owned handle that goes out of scope closes its descriptor once; one
    whose handle was taken out by `into_handle` closes nothing.
   */
  method Scope(h: Host, handle: Handle, release: bool) returns (out: Option<Handle>)
    modifies h
    ensures release ==> out == Some(handle) && h.trace == old(h.trace)
    ensures !release ==> out == None && Closes(h.trace) == Closes(old(h.trace)) + 1
    ensures !release ==> SentNext(old(h.trace), h.trace, Io.CloseRequest(handle.fd))
  {
    var owned := new OwnedHandle.FromHandle(handle);
    if release {
      var hd := owned.IntoHandle();
      out := Some(hd);
    } else {
      owned.Drop(h, Io.Isize);
      out := None;
    }
  }
}
