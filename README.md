# semihosting.rs, modelled in Dafny

This project models the library side of ARM semihosting as the Rust crate
`semihosting` implements it. A program that runs on a target board without
an operating system asks a debugger (the *host*) to do I/O for it. It does
this by trapping with an operation code in one register and a message in the
other. The message is either a single value or the address of a block of
pointer-sized arguments. The host answers with one result word, and it may
also store data into memory the message points to.

The model replaces the trap instruction with an abstract host, `Trap.Oracle`.
The oracle has three functions of the request history: the result word, the
bytes stored into the request's output buffer, and the words stored into the
memory block the message points to. The model's behaviour is all-quantified
over every oracle. The model comes in two forms:

- **Functions.** Each operation is a function from an oracle and a request
  history to `Run(trace, value)`: the history after the operation, and the
  operation's value (`Io`, `Handles.WriteAllRun`, `Print.HandleRun`,
  `Lib.ParseCmdlineRun`).
- **Methods.** Where the library changes state, a method does the same work.
  The state is a `Trap.Host` object whose `trace` grows by one request per
  trap, a `GlobalLogger` whose slot is set once, or an `OwnedHandle` that is
  dropped once. Each method's postcondition says it ends exactly where the
  function of the same name does.

The words are 32 bits wide. The all-ones word `0xFFFF_FFFF` is the host's
failure value. `map_res` turns it into an error whose detail depends on the
caller's *strategy* (`Io.Strategy`):

- the unit strategy `()` asks nothing more;
- the `isize` strategy sends one extra `Errno` request and reads its answer
  as a two's-complement `isize`.

Modules:

| module | file | contents |
|---|---|---|
| `Outcomes` | protocol.dfy | `Option`, `Result` |
| `Protocol` | protocol.dfy | word width, the operation codes (`Syscall`), the exit reasons (`Exception`), file modes (`Mode`) |
| `Trap` | trap.dfy | requests, the host oracle, the `Host` object that issues requests |
| `Io` | io.dfy | `map_res`, the error strategies, the whole operation catalogue of `src/io.rs` |
| `Calls` | calls.dfy | the operations the stateful parts use, as methods on a `Host` |
| `Handles` | handles.dfy | `Handle`, `write_all`, `OwnedHandle` and the proofs about them |
| `Print` | print.dfy | `print_str`, `CharPrinter`, `GlobalLogger` |
| `Lib` | lib.dfy | `exit`, `abort`, `exit_with`, `parse_cmdline` |

Main results:

- **`write_all`.**
  - When the loop succeeds, the host has accepted exactly the buffer's bytes,
    in order, across all the writes. When it stops early, the host has
    accepted a prefix of the buffer.
  - Each partial reply makes the next write carry exactly the rest of the
    buffer.
  - A host that takes `k` bytes per write gets ceil(n / k) writes.
- **`OwnedHandle`.** When it goes out of scope it sends exactly one `Close`,
  for its own descriptor; after `into_handle` it sends nothing.
- **`GlobalLogger`.** While opening the console `:tt` fails, every lookup
  tries again. Once an open succeeds, no further open is sent and every
  later lookup gives the same descriptor.
- **Protocol codes.** Each code encoding has a decoder, with round trips in
  both directions.

## Model

| member | source | states |
|---|---|---|
| Protocol.AsIsize | src/io.rs:166-169 | the errno word read as `isize`: the result lies in the `isize` range and is congruent to the word modulo 2^32 |
| Protocol.LowByte | src/io.rs:299-302 | `as u8`: the result is the word's residue modulo 256 |
| Protocol.SyscallCode | src/lib.rs:19-52 | every operation code is in 1..49 and falls in none of the unused gaps (11, 20, 25..47) |
| Protocol.SyscallOfCode | src/lib.rs:19-52 | decoding a word gives an operation only if that operation's code is the word |
| Protocol.SyscallCodeRoundTrip | src/lib.rs:80-84 | decoding the code of any operation gives that operation back |
| Protocol.ExceptionCode | src/lib.rs:54-78 | hardware reasons have codes 0x20000..0x20007 and software reasons 0x20020..0x20029 |
| Protocol.ExceptionOfCode | src/lib.rs:86-90 | decoding gives back the reason of any reason code, and a reason only for that reason's own code |
| Protocol.ModeWord | src/lib.rs:101-108 | the mode word sent to `open` is exactly the mode's bits |
| Trap.Store | src/io.rs:221-225 | the host's stores into caller memory: the length is kept, at most `cap` leading bytes change, the rest is untouched |
| Trap.Host.constructor | src/syscall.rs:17 | a fresh host has issued nothing |
| Trap.Host.Call | src/syscall.rs:17-71 | `syscall` appends its request to the history and returns the host's answer |
| Trap.Host.Call0 | src/syscall.rs:12-14 | `syscall0` sends message zero |
| Trap.Host.StoreBytes | src/io.rs:287-292 | the buffer afterwards is what `Store` says the host left in it |
| Io.LastErrno | src/io.rs:166-169 | `errno` sends one `Errno` request; its value is the answer as an `isize` |
| Io.LastError | src/io.rs:150-164 | the `()` strategy sends nothing; the `isize` strategy sends one errno query and returns its code |
| Io.MapRes | src/io.rs:171-177 | the result is `Ok` iff the word is not all-ones, and then `Ok` of that word; otherwise the strategy's error, after its queries |
| Io.Transact | src/io.rs:171-177 | one request then `map_res`: success iff the answer is not all-ones; under `isize` a failure adds exactly one errno query |
| Io.Open | src/io.rs:206-219 | block `[path, mode, length]`: `Ok` iff the answer is not all-ones, with a nonzero descriptor equal to the answer |
| Io.Close | src/io.rs:248-251 | block `[fd]`: `Ok(())` iff the answer is not all-ones, the strategy's error otherwise |
| Io.Write | src/io.rs:227-231 | block `[fd, data, length]`: the count of bytes not written, or the strategy's error |
| Io.Read | src/io.rs:221-225 | block `[fd, buffer, length]`: the count of bytes not read, and the buffer as the host filled it |
| Io.Seek | src/io.rs:233-241 | block `[fd, offset]`: success iff the answer is not all-ones |
| Io.FLen | src/io.rs:243-246 | block `[fd]`: the length, or the strategy's error |
| Io.IsTty | src/io.rs:253-259 | only the answer 1 is success; 0 and every other word go to the error channel |
| Io.System | src/io.rs:179-183 | block `[command, length]`: the exit status, or the strategy's error |
| Io.TmpNam | src/io.rs:185-190 | block `[buffer, id, length]`: success iff not all-ones, no error detail, the buffer filled by the host |
| Io.Remove | src/io.rs:192-196 | block `[path, length]`: decoded by `map_res` |
| Io.Rename | src/io.rs:198-204 | block `[source, length, destination, length]`: decoded by `map_res` |
| Io.Time | src/io.rs:261-265 | the answer is returned undecoded, all-ones included |
| Io.Clock | src/io.rs:267-271 | success iff not all-ones, no error detail |
| Io.TickFreq | src/io.rs:273-276 | success iff not all-ones, no error detail |
| Io.GetCmdlineUnchecked | src/io.rs:287-292 | block `[buffer, length]`: on success the length the host left in the block's second word, the result word itself dropped; the buffer as the host filled it |
| Io.GetCmdline | src/io.rs:278-285 | the unchecked form over the whole slice, with the same success, length and buffer; a failure carries no detail |
| Io.IsError | src/io.rs:294-297 | any nonzero answer means "is an error" |
| Io.ReadChar | src/io.rs:299-302 | the byte is the answer's low byte |
| Io.WriteChar | src/io.rs:304-307 | one `WriteC` request pointing at the byte |
| Io.WriteCStr | src/io.rs:309-312 | one `Write0` request pointing at the NUL-terminated string |
| Io.ReportException | src/io.rs:314-320 | the reason's code is the message itself; the answer is returned |
| Io.HeapInfoOp | src/io.rs:322-329 | the four fields are the block's four words, zero becoming `None` |
| Io.OpenNeverZero | src/io.rs:206-219 | a successful `open` never yields descriptor 0; an all-ones answer always fails |
| Io.StrategiesAgree | src/io.rs:150-177 | both strategies agree on success and failure and on the successful result; `isize` asks one request more on failure |
| Calls.LastError | src/io.rs:150-164 | the method ends where `Io.LastError` does |
| Calls.MapRes | src/io.rs:171-177 | the method ends where `Io.MapRes` does |
| Calls.Write | src/io.rs:227-231 | the method ends where `Io.Write` does |
| Calls.Open | src/io.rs:206-219 | the method ends where `Io.Open` does |
| Calls.Close | src/io.rs:248-251 | the method ends where `Io.Close` does |
| Calls.WriteChar | src/io.rs:304-307 | the method ends where `Io.WriteChar` does |
| Calls.ReportException | src/io.rs:314-320 | the method ends where `Io.ReportException` does |
| Calls.GetCmdlineUnchecked | src/io.rs:287-292 | the method, over an array, ends where `Io.GetCmdlineUnchecked` does, buffer included |
| Handles.OpenHandle | src/io.rs:38-41 | `Handle::open` succeeds iff `open` does, wrapping its descriptor, and fails with its error |
| Handles.WriteAllRun | src/io.rs:76-90 | the run keeps the history it started from and sends at most one write per byte, plus one |
| Handles.WriteAll | src/io.rs:76-90 | the loop ends where `WriteAllRun` does: same requests, same result |
| Handles.WriteAllReplies | src/io.rs:76-90 | the first write carries the whole buffer: all-ones is an I/O error, 0 is success, the full length is `Incomplete`, anything longer is `Invalid`, anything between makes the next write carry the last `left` bytes |
| Handles.WriteAllInOrder | src/io.rs:76-90 | the bytes the host accepted are a prefix of the buffer, and the whole buffer when `write_all` succeeds |
| Handles.WriteAllOnlyWrites | src/io.rs:76-90 | under `()`, every request `write_all` sends is a `Write` on its descriptor |
| Handles.ChunkCount | src/io.rs:76-90 | against a host taking `k` bytes per write, the number of writes is ceil(n / k) |
| Handles.ChunkedWriteAll | src/io.rs:76-90 | against that host `write_all` succeeds, sending one write per chunk, each carrying the rest of the buffer |
| Handles.ChunkedDelivery | src/io.rs:76-90 | against that host the host receives the whole buffer in order |
| Handles.Closes | src/io.rs:136-147 | the count of `Close` requests is at most the history's length, and zero exactly when the history holds no `Close` |
| Handles.CloseIsOnce | src/io.rs:248-251 | a close sends its `Close` first, on the given descriptor, and exactly one `Close` whatever the host answers |
| Handles.OwnedHandle.FromHandle | src/io.rs:106-112 | the new owner holds the handle and owns it |
| Handles.OwnedHandle.Open | src/io.rs:99-104 | succeeds iff `open` does, with a fresh owner of the descriptor; fails with its error |
| Handles.OwnedHandle.Replace | src/io.rs:130-134 | assignment through `DerefMut` replaces the handle without closing the old one |
| Handles.OwnedHandle.IntoHandle | src/io.rs:114-119 | hands out the handle and disarms the close |
| Handles.OwnedHandle.Drop | src/io.rs:136-147 | sends exactly one `Close`, first, for the owned descriptor, and ignores its result |
| Handles.Scope | src/io.rs:114-147 | an owned handle going out of scope closes once; one released by `into_handle` sends nothing and hands back the same handle |
| Print.WriteCRequests | src/print.rs:47-51 | one `WriteC` request per byte, in the string's order |
| Print.PrintStr | src/print.rs:47-51 | `print_str` sends exactly `WriteCRequests` of the string |
| Print.CharPrinterWriteStr | src/print.rs:11-24 | `CharPrinter` never fails, and prints the string |
| Print.HandleRun | src/print.rs:84-93 | a stored descriptor is reused with nothing sent; otherwise one open of `:tt` for appending, a success storing its descriptor and a failure leaving the slot 0 |
| Print.LogRun | src/print.rs:95-98 | `log` succeeds iff there is a handle and `write_all` on it succeeds; the slot is the one the lookup left |
| Print.HandleIsStable | src/print.rs:84-93 | once a handle is found, every later lookup sends nothing and gives the same handle |
| Print.LogDelivers | src/print.rs:95-98 | when `log` succeeds, the host has received exactly the string's bytes |
| Print.LogOnlyWrites | src/print.rs:95-98 | after the lookup, `log` sends only `Write` requests on the logger's descriptor |
| Print.OpenedInExtends | src/print.rs:84-93 | the provenance of the stored descriptor survives any later requests |
| Print.GlobalLogger.constructor | src/print.rs:77-82 | a new logger has no handle |
| Print.GlobalLogger.GetHandle | src/print.rs:84-93 | ends where `HandleRun` does, and keeps the slot a descriptor the host gave for `:tt` |
| Print.GlobalLogger.Log | src/print.rs:95-98 | ends where `LogRun` does, keeping the same invariant |
| Print.GlobalLogger.IntoHandle | src/print.rs:100-103 | an owned handle iff the lookup found one, for the same descriptor |
| Print.GlobalLogger.WriteStr | src/print.rs:106-111 | `fmt::Write` succeeds iff `log` does, and leaves the slot where `log` leaves it |
| Lib.Repeat | src/lib.rs:137-144 | `n` copies of one request |
| Lib.ExitWith | src/lib.rs:137-144 | reports the reason once, then once more every time the host resumes the program |
| Lib.Exit | src/lib.rs:125-127 | `exit` reports `ApplicationExit` |
| Lib.Abort | src/lib.rs:132-134 | `abort` reports `InternalError` |
| Lib.ExitReports | src/lib.rs:125-144 | every exit request carries the reason's code directly; `exit` and `abort` send 0x20026 and 0x20024, both software reasons |
| Lib.ParseCmdlineRun | src/lib.rs:146-173 | one command-line request for 80 bytes; success iff the answer is not all-ones, and then the first `len + 1` buffer bytes (the stored bytes, zeros past them) |
| Lib.CmdlineOverflowReachable | src/lib.rs:154-161 | a successful answer can leave all-ones as the length, which `map_res` does not catch, and `len + 1` then wraps to 0 |
| Lib.ParseCmdlineChecked | src/lib.rs:146-173 | one 80-byte request; success iff the answer is not all-ones and the length fits the buffer with its terminating byte, and then the first `len + 1` buffer bytes |
| Lib.CheckedAgrees | src/lib.rs:146-173 | wherever the host keeps `len + 1` within the buffer, the checked form gives exactly the source's result |
| Lib.ParseCmdline | src/lib.rs:146-173 | the method over a stack array ends where `ParseCmdlineChecked` does |

## Left out

- The trap instruction and its encodings (`svc`, `bkpt`, `hlt`) in `src/syscall.rs`. The `Oracle` stands in for the host.
- `features()` and the `Extensions` magic bytes, and the v2 `ReportExceptionExtended` request. They are behind a feature flag and are not part of this model.
- The printing macros (`src/macros.rs`, `src/umacros.rs`), `ufmt` `uWrite` impls of `CharPrinter` and `GlobalLogger`, and the `ConstDefault` impl. They only forward to the members modelled here.
- `Handle::from_fd`, `fd`, `seek_set`, `close`, `write` and `read`. They are modelled as `Io.Seek`, `Io.Close`, `Io.Write` and `Io.Read` applied to the handle's `fd`; `from_fd` is the `Handle` constructor.
- `Deref for OwnedHandle` (read access to `handle`) is a field read and has no member of its own.
- `Calls` has methods only for the operations the stateful parts run. The rest of the catalogue exists as `Io` functions only.
- Print.GlobalLogger: the slot is an `AtomicUsize` with relaxed loads and stores. The model makes it a plain field, so two callers racing on the first lookup (and opening `:tt` twice) are not modelled.
- Lib.ExitWith: follows the debug build, which loops forever while the host keeps resuming. The model takes the number of resumes as a parameter and stops after that many reports plus one. A release build reports once and then reaches `unreachable_unchecked`, which is `resumes == 0` here.
- Io.Open, Calls.Open, Print.GlobalLogger.GetHandle: a zero descriptor from the host is unreachable in the source. In debug builds it panics, in release builds it is undefined behaviour. The model requires the host not to answer 0.
- Lib.ParseCmdlineRun: the source treats a length whose `len + 1` exceeds the buffer as unreachable. This as-written form requires the host not to give one (`Lib.CmdlineFits`). That excludes a successful answer whose length word is all-ones, which the source wrongly believes `map_res` has already rejected (see Findings). `Lib.ParseCmdline` uses the checked form instead.
- Lib.ParseCmdlineChecked, Lib.ParseCmdline: the caller's closure `f` is taken to be the identity on the NUL-terminated bytes. Whether those bytes really end in NUL, as `from_bytes_with_nul_unchecked` assumes, depends on the host and is not promised.
- Lib.ParseCmdlineRun, Lib.ParseCmdlineChecked, Io.HeapInfoOp: the source's uninitialised memory is read as zeros.
- The heap-info request follows the source, which passes the block's own address as the message. ARM's definition of SYS_HEAPINFO is not part of this model, so the model does not check the request against it.
- Print.PrintStr: a `&str` is modelled as its UTF-8 bytes; no encoding is checked.
- Handles.OwnedHandle.Drop: the source picks the strategy by build profile (`isize` in debug, `()` in release). The model takes it as a parameter.

## Findings

| source | as written | input that shows it | evidently intended | confidence | as-written member | corrected member |
|---|---|---|---|---|---|---|
| src/lib.rs:154-161 | `len` is `block[1]`, which `map_res` never checks; the comment claims `usize::MAX` is impossible, then `len + 1` is computed unchecked | a host answering 0 with the length word 0xFFFF_FFFF: `len + 1` wraps to 0 (release) or panics (debug), and a `CStr` is built from an empty slice | a length the 80-byte buffer cannot hold with its NUL is refused, never sliced | not executed | Lib.CmdlineOverflowReachable | Lib.ParseCmdlineChecked |
