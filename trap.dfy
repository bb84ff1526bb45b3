/**
  The trap layer, seen from the library: every operation hands the host one
  request (an operation code and a message) and gets back one result word.
  The trap instruction itself is replaced by an abstract host, `Oracle`, whose
  answers may depend on everything it has been asked so far.
 */
module Trap {

  import opened Protocol

  /** One pointer-sized slot of an argument block. */
  datatype Field =
    | Num(n: Word)              // a plain number: descriptor, mode, length, offset
    | In(bytes: seq<Byte>)      // a pointer to caller memory that the host reads
    | Out(capacity: nat)        // a pointer to caller memory of this size that the host may fill

  /** What goes in the message register. */
  datatype Message =
    | Block(fields: seq<Field>) // the address of an argument block, fields in order
    | Direct(arg: Field)        // a single value or pointer passed as is

  datatype Request = Request(code: Syscall, msg: Message)

  /**
    The host. Each component is a function of the request history whose last
    element is the request being answered:
    `answer` gives the result word, `bytesOut` the bytes stored at the start of
    the request's output buffer, and `wordsOut` the words stored at the start of
    the memory block the message points to (the get-cmdline argument block, the
    heap-info block).
   */
  datatype Oracle = Oracle(
    answer: seq<Request> -> Word,
    bytesOut: seq<Request> -> seq<Byte>,
    wordsOut: seq<Request> -> seq<Word>)

  /** The request history after an operation, and the operation's value. */
  datatype Run<T> = Run(trace: seq<Request>, value: T)

  /** The message `syscall0` sends: zero. */
  const NO_MESSAGE: Message := Direct(Num(0))

  /** One request and its result word; the trace grows by exactly that request. */
  function Exchange(o: Oracle, t: seq<Request>, q: Request): (r: Run<Word>)
    ensures r.trace == t + [q] && r.value == o.answer(r.trace)
  {
    var t' := t + [q];
    Run(t', o.answer(t'))
  }

  /**
    Memory after the host stores `written` at its start: at most `cap` values
    are stored, and none past the end of the memory.
   */
  function Store<T>(written: seq<T>, before: seq<T>, cap: nat): (after: seq<T>)
    ensures |after| == |before|
    ensures forall i :: 0 <= i < |before| ==>
      after[i] == if i < cap && i < |written| then written[i] else before[i]
  {
    var n := if |written| < cap then |written| else cap;
    var n' := if n < |before| then n else |before|;
    written[..n'] + before[n'..]
  }

  /** `t'` begins with the history `t` followed by the request `q`. */
  ghost predicate SentNext(t: seq<Request>, t': seq<Request>, q: Request) {
    |t'| > |t| && t'[..|t| + 1] == t + [q]
  }

  /** The calling side of the trap: the requests issued so far. */
  class Host {
    const oracle: Oracle
    var trace: seq<Request>

    constructor (oracle: Oracle)
      ensures this.oracle == oracle && trace == []
    {
      this.oracle := oracle;
      trace := [];
    }

    /** `syscall(code, message)`: one request, one result word. */
    method Call(code: Syscall, msg: Message) returns (w: Word)
      modifies this
      ensures trace == old(trace) + [Request(code, msg)]
      ensures w == oracle.answer(trace)
    {
      trace := trace + [Request(code, msg)];
      w := oracle.answer(trace);
    }

    /** `syscall0(code)`: a request whose message is zero. */
    method Call0(code: Syscall) returns (w: Word)
      modifies this
      ensures trace == old(trace) + [Request(code, NO_MESSAGE)]
      ensures w == oracle.answer(trace)
    {
      w := Call(code, NO_MESSAGE);
    }

    /**
      The host's stores into the output buffer of the request just answered:
      the first `cap` bytes at most of what `bytesOut` gives.
     */
    method StoreBytes(buffer: array<Byte>, cap: nat)
      requires |trace| > 0
      modifies buffer
      ensures buffer[..] == Store(oracle.bytesOut(trace), old(buffer[..]), cap)
    {
      var after := Store(oracle.bytesOut(trace), buffer[..], cap);
      forall i | 0 <= i < buffer.Length {
        buffer[i] := after[i];
      }
    }
  }
}
