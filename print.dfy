/**
  Console output (src/print.rs): the byte-at-a-time `CharPrinter` and the
  lazily opened `GlobalLogger`, whose slot holds 0 until the console stream
  ":tt" has been opened and its descriptor afterwards.
 */
module Print {

  import opened Outcomes
  import opened Protocol
  import opened Trap
  import Io
  import Calls
  import opened Handles

  /** `fmt::Error`. */
  datatype FmtError = FmtError

  /** The path ":tt" of the host's console stream. */
  const TT: Io.CStr := [0x3A, 0x74, 0x74]

  /** The request that opens the console for appending. */
  const TT_OPEN: Request := Io.OpenRequest(TT, MODE_APPEND)

  /*** CharPrinter ***/

  /** The requests of `print_str`: one `WriteC` per byte, in order. */
  function WriteCRequests(s: seq<Byte>): (qs: seq<Request>)
    ensures |qs| == |s|
    ensures forall i :: 0 <= i < |s| ==> qs[i] == Io.WriteCharRequest(s[i])
  {
    if s == [] then []
    else WriteCRequests(s[..|s| - 1]) + [Io.WriteCharRequest(s[|s| - 1])]
  }

  /** `print_str`: writes the string's bytes one by one. */
  method PrintStr(h: Host, s: seq<Byte>)
    modifies h
    ensures h.trace == old(h.trace) + WriteCRequests(s)
  {
    for i := 0 to |s|
      invariant h.trace == old(h.trace) + WriteCRequests(s[..i])
    {
      Calls.WriteChar(h, s[i]);
      assert s[..i + 1][..i] == s[..i];
    }
    assert s[..|s|] == s;
  }

  /** `fmt::Write for &CharPrinter`: prints the string and never fails. */
  method CharPrinterWriteStr(h: Host, s: seq<Byte>) returns (r: Result<(), FmtError>)
    modifies h
    ensures r == Ok(())
    ensures h.trace == old(h.trace) + WriteCRequests(s)
  {
    PrintStr(h, s);
    r := Ok(());
  }

  /*** GlobalLogger ***/

  /** The slot after a lookup, and the handle it produced. */
  datatype Lookup = Lookup(slot: Word, handle: Option<Handle>)

  /** The slot after a `log`, and its result. */
  datatype Logged = Logged(slot: Word, result: Option<()>)

  /** `GlobalLogger::handle` from slot value `slot`. */
  function HandleRun(o: Oracle, t: seq<Request>, slot: Word): (r: Run<Lookup>)
    requires slot == 0 ==> o.answer(t + [TT_OPEN]) != 0
    ensures slot != 0 ==> r == Run(t, Lookup(slot, Some(Handle(slot))))
    ensures slot == 0 ==> r.trace == t + [TT_OPEN]
    ensures slot == 0 ==> (r.value.handle.Some? <==> o.answer(t + [TT_OPEN]) != USIZE_MAX)
    ensures r.value.handle.Some? ==> r.value.slot != 0 && r.value.handle == Some(Handle(r.value.slot))
    ensures slot == 0 && r.value.handle.Some? ==> r.value.slot == o.answer(t + [TT_OPEN])
    ensures r.value.handle.None? ==> r.value.slot == 0
  {
    if slot != 0 then Run(t, Lookup(slot, Some(Handle(slot))))
    else
      var m := Io.Open(o, t, TT, MODE_APPEND, Io.Unit);
      match m.value
      case Ok(fd) => Run(m.trace, Lookup(fd, Some(Handle(fd))))
      case Err(_) => Run(m.trace, Lookup(0, None))
  }

  /** `GlobalLogger::log`: obtain the handle, then `write_all` with `()` errors. */
  function LogRun(o: Oracle, t: seq<Request>, slot: Word, s: Io.Buf): (r: Run<Logged>)
    requires slot == 0 ==> o.answer(t + [TT_OPEN]) != 0
    ensures r.value.slot == HandleRun(o, t, slot).value.slot
    ensures r.value.result.Some? <==>
              && HandleRun(o, t, slot).value.handle.Some?
              && WriteAllRun(o, HandleRun(o, t, slot).trace, r.value.slot, s, Io.Unit).value.Ok?
    ensures HandleRun(o, t, slot).value.handle.None? ==> r.trace == HandleRun(o, t, slot).trace
    ensures HandleRun(o, t, slot).value.handle.Some? ==>
              r.trace == WriteAllRun(o, HandleRun(o, t, slot).trace, r.value.slot, s, Io.Unit).trace
  {
    var l := HandleRun(o, t, slot);
    match l.value.handle
    case None => Run(l.trace, Logged(l.value.slot, None))
    case Some(hd) =>
      var w := WriteAllRun(o, l.trace, hd.fd, s, Io.Unit);
      Run(w.trace, Logged(l.value.slot, if w.value.Ok? then Some(()) else None))
  }

  /**
    Once a lookup has produced a handle, the next lookup sends nothing and
    produces the same handle: every later call sees the first descriptor.
   */
  lemma HandleIsStable(o: Oracle, t: seq<Request>, slot: Word, t': seq<Request>)
    requires slot == 0 ==> o.answer(t + [TT_OPEN]) != 0
    requires HandleRun(o, t, slot).value.handle.Some?
    ensures HandleRun(o, t', HandleRun(o, t, slot).value.slot)
            == Run(t', HandleRun(o, t, slot).value)
  {
  }

  /** When `log` reports success, the host has received exactly the string's bytes. */
  lemma LogDelivers(o: Oracle, t: seq<Request>, slot: Word, s: Io.Buf)
    requires slot == 0 ==> o.answer(t + [TT_OPEN]) != 0
    ensures var l := HandleRun(o, t, slot); var r := LogRun(o, t, slot, s);
            r.value.result.Some? ==> Received(o, r.trace, |l.trace|) == s
  {
    var l := HandleRun(o, t, slot);
    if l.value.handle.Some? {
      WriteAllInOrder(o, l.trace, l.value.slot, s, Io.Unit);
      assert InOrder(o, l.trace, l.value.slot, s, Io.Unit);
    }
  }

  /** Everything `log` sends after the lookup is a `Write` on the stored descriptor. */
  lemma LogOnlyWrites(o: Oracle, t: seq<Request>, slot: Word, s: Io.Buf)
    requires slot == 0 ==> o.answer(t + [TT_OPEN]) != 0
    ensures var r := LogRun(o, t, slot, s);
            WritesOn(r.trace, |HandleRun(o, t, slot).trace|, r.value.slot)
  {
    var l := HandleRun(o, t, slot);
    if l.value.handle.Some? {
      WriteAllOnlyWrites(o, l.trace, l.value.slot, s);
    }
  }

  /** A nonzero `slot` is a descriptor the host gave for the console open at some point of `tr`. */
  ghost predicate OpenedIn(tr: seq<Request>, o: Oracle, slot: Word) {
    slot != 0 ==> exists i :: 0 <= i < |tr| && tr[i] == TT_OPEN && o.answer(tr[..i + 1]) == slot
  }

  lemma OpenedInExtends(tr: seq<Request>, tr': seq<Request>, o: Oracle, slot: Word)
    requires OpenedIn(tr, o, slot)
    requires |tr| <= |tr'| && tr'[..|tr|] == tr
    ensures OpenedIn(tr', o, slot)
  {
    if slot != 0 {
      var i :| 0 <= i < |tr| && tr[i] == TT_OPEN && o.answer(tr[..i + 1]) == slot;
      assert tr'[..i + 1] == tr[..i + 1];
      assert tr'[i] == TT_OPEN;
    }
  }

  class GlobalLogger {
    /** 0 while no console handle is known, its descriptor afterwards. */
    var slot: Word

    /** The stored descriptor was produced by the host for a ":tt" open in the history. */
    ghost predicate Valid(h: Host)
      reads this, h
    {
      OpenedIn(h.trace, h.oracle, slot)
    }

    /** `GlobalLogger::new`: no handle yet. */
    constructor ()
      ensures slot == 0
    {
      slot := 0;
    }

    /** `GlobalLogger::handle`. */
    method GetHandle(h: Host) returns (r: Option<Handle>)
      requires Valid(h)
      requires slot == 0 ==> h.oracle.answer(h.trace + [TT_OPEN]) != 0
      modifies this, h
      ensures Valid(h)
      ensures h.trace == HandleRun(h.oracle, old(h.trace), old(slot)).trace
      ensures slot == HandleRun(h.oracle, old(h.trace), old(slot)).value.slot
      ensures r == HandleRun(h.oracle, old(h.trace), old(slot)).value.handle
    {
      if slot == 0 {
        ghost var before := h.trace;
        var m := Calls.Open(h, TT, MODE_APPEND, Io.Unit);
        if m.Ok? {
          slot := m.value;
          r := Some(Handle(m.value));
          assert h.trace == before + [TT_OPEN];
          assert h.trace[..|before| + 1] == h.trace;
          assert h.trace[|before|] == TT_OPEN;
        } else {
          r := None;
        }
      } else {
        r := Some(Handle(slot));
      }
    }

    /** `GlobalLogger::log`: best effort; `None` for any failure. */
    method Log(h: Host, s: Io.Buf) returns (r: Option<()>)
      requires Valid(h)
      requires slot == 0 ==> h.oracle.answer(h.trace + [TT_OPEN]) != 0
      modifies this, h
      ensures Valid(h)
      ensures h.trace == LogRun(h.oracle, old(h.trace), old(slot), s).trace
      ensures slot == LogRun(h.oracle, old(h.trace), old(slot), s).value.slot
      ensures r == LogRun(h.oracle, old(h.trace), old(slot), s).value.result
    {
      var hd := GetHandle(h);
      match hd {
        case None =>
          r := None;
        case Some(handle) =>
          ghost var before := h.trace;
          var w := WriteAll(h, handle, s, Io.Unit);
          OpenedInExtends(before, h.trace, h.oracle, slot);
          r := if w.Ok? then Some(()) else None;
      }
    }

    /** `GlobalLogger::into_handle`: the handle, if any, owned so that dropping it closes it. */
    method IntoHandle(h: Host) returns (r: Option<OwnedHandle>)
      requires Valid(h)
      requires slot == 0 ==> h.oracle.answer(h.trace + [TT_OPEN]) != 0
      modifies this, h
      ensures h.trace == HandleRun(h.oracle, old(h.trace), old(slot)).trace
      ensures r.Some? <==> HandleRun(h.oracle, old(h.trace), old(slot)).value.handle.Some?
      ensures r.Some? ==> fresh(r.value) && r.value.state == Owning
                          && Some(r.value.handle) == HandleRun(h.oracle, old(h.trace), old(slot)).value.handle
    {
      var hd := GetHandle(h);
      if hd.Some? {
        var owned := new OwnedHandle.FromHandle(hd.value);
        r := Some(owned);
      } else {
        r := None;
      }
    }

    /** `fmt::Write for &GlobalLogger`: a failed `log` becomes `fmt::Error`. */
    method WriteStr(h: Host, s: Io.Buf) returns (r: Result<(), FmtError>)
      requires Valid(h)
      requires slot == 0 ==> h.oracle.answer(h.trace + [TT_OPEN]) != 0
      modifies this, h
      ensures Valid(h)
      ensures h.trace == LogRun(h.oracle, old(h.trace), old(slot), s).trace
      ensures slot == LogRun(h.oracle, old(h.trace), old(slot), s).value.slot
      ensures r.Ok? <==> LogRun(h.oracle, old(h.trace), old(slot), s).value.result.Some?
    {
      var l := Log(h, s);
      r := if l.Some? then Ok(()) else Err(FmtError);
    }
  }
}
