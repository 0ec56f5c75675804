# Fibonacci position service: a Dafny model

The service keeps one position in the Fibonacci sequence, the pair (previous, current) of
signed 64-bit integers, in a 16-byte data file. Three operations step back, read the current
term, or step forward; each reads the file, computes a reply (a number or an error code, with
an HTTP status) and the new pair, and writes the pair back. This project models that core of
`fib.go`:

- `goint64.dfy` (module `GoInt64`): the int64 range and Go's wrap-around `+` and `-` (`Wrap`).
- `engine.dfy` (module `Engine`): the error codes -1 and -2, the statuses 200, 409 and 507, the
  op codes 0, 1 and 2, the pair, the three operations as specification functions, and the
  class `Position` whose methods update the pair in place as `handle_previous`,
  `handle_current` and `handle_next` do through their pointers.
- `datafile.dfy` (module `Datafile`): the record as two big-endian two's-complement int64s,
  `Previous` first; the read rule (a short file or the pair (0,0) yields the start sentinel
  (-1,0)) and the write rule (the record overwrites the first 16 bytes).
- `fibonacci.dfy` (module `Fibonacci`): the positions reached from the start are
  (Fib(k-1), Fib(k)); stepping forward and back on them; overflow detection; the service holds
  92 terms.
- `store.dfy` (module `Store`): the class `Store` whose fields are the data file's bytes and
  the global record `nums`, with `readDatafile`, `writeDatafile` and `cli_handle_request` as
  methods, and lemmas that the file always holds the engine's latest position.

Integers are unbounded in Dafny; every int64 value is of the subset type `Int64`, and the two
int64 computations of the engine (`*current - *previous` and `*previous + *current`) are
written with `Wrap`. Overflow is exactly what the code tests, a negative wrapped sum, so a
corrupt pair read from the file whose wrapped sum is negative, such as (-5,2), also reports
overflow.

An unknown op code reaches none of the cases of the `switch` in `cli_handle_request`; the
model then replies (0, 0), Go's zero values, and writes the pair back unchanged.

Stepping back from (1,2) reports 1 and moves to (1,1), since the new previous is 2 - 1. The
next step back reports 1 and moves to (0,1). Only the third reports 0 and returns to (-1,0)
(`Store.Session`).

## Model

| member | source | states |
|---|---|---|
| GoInt64.Wrap | fib.go:176 | the result is an int64 congruent to the mathematical value modulo 2^64, and equals it when it is in range |
| GoInt64.OverflowIsSignFlip | fib.go:209-211 | for non-negative int64s the wrapped sum is negative exactly when the true sum exceeds the int64 maximum |
| Engine.Position.HandlePrevious | fib.go:153-182 | at previous = -1: reply -1 with 409 and pair (-1,0) whatever current was; at (0,1): reply 0 with 200 and pair (-1,0); otherwise reply the old previous with 200 and pair (old current - old previous wrapped, old previous) |
| Engine.Position.HandleCurrent | fib.go:184-192 | reply the current term with 200; the pair is untouched |
| Engine.Position.HandleNext | fib.go:194-225 | at previous = -1: pair (0,1), reply 1 with 200; when the wrapped sum is negative: reply -2 with 507 and the pair unchanged; otherwise reply the sum with 200 and pair (old current, sum) |
| Engine.Dispatch | fib.go:237-244 | only "previous" and "next" can move the position: "current" replies the current term with 200, and an op code matching no case leaves the pair alone and replies Go's zero values (0, 0) |
| Engine.DispatchAvoidsZeroPair | fib.go:237-244 | no operation turns a pair other than (0,0) into (0,0) |
| Engine.RepliesAreClassified | fib.go:30-35 | on non-negative pairs and the sentinel, every reply is a non-negative number with 200, or -1 with 409, or -2 with 507 |
| Engine.OverflowRepeats | fib.go:209-214 | an overflowing step leaves the pair as it was, so the next step overflows again with the same reply |
| Engine.CurrentIdempotent | fib.go:184-191 | reading the current term twice leaves the pair and the reply the same |
| Fibonacci.NextFromSentinel | fib.go:200-206 | from the start the first step forward gives pair (Fib(0), Fib(1)) and reply 1 |
| Fibonacci.NextOnTerms | fib.go:207-221 | on (Fib(k-1), Fib(k)) a step forward gives (Fib(k), Fib(k+1)) and reply Fib(k+1) when that fits in an int64, and otherwise the overflow reply with the pair kept |
| Fibonacci.PreviousOnTerms | fib.go:158-179 | on (Fib(k-1), Fib(k)) a step back reports Fib(k-1) with 200 and moves to (Fib(k-2), Fib(k-1)), or to the start when k = 1 |
| Fibonacci.NextsFromSentinel | fib.go:199-221 | from the start, k successful steps forward leave previous = Fib(k-1) and current = Fib(k) |
| Fibonacci.OverflowIsSticky | fib.go:209-214 | once the next term does not fit, any number of further steps forward leave the position where it is |
| Fibonacci.PreviousThenNext | fib.go:165-178 | on a reachable position a step back followed by a step forward restores it and reports the current term |
| Fibonacci.NextThenPrevious | fib.go:215-220 | on a reachable position whose next term fits, a step forward followed by a step back restores it and reports the term that was current |
| Fibonacci.Capacity | fib.go:34-35 | from the start the first 92 steps forward reach (Fib(91), Fib(92)); the 93rd and every later one report overflow and leave the position there |
| Datafile.DecodeEncodeInt64 | fib.go:138 | decoding the 8 big-endian bytes written for an int64 gives it back |
| Datafile.EncodeDecodeInt64 | fib.go:109 | every 8 bytes are the encoding of the int64 they decode to |
| Datafile.SignIsTopBit | fib.go:48-51 | a stored int64 is negative exactly when the top bit of its first byte is set |
| Datafile.EncodeRecord | fib.go:138 | the record `binary.Write` produces for `nums` is 16 bytes long |
| Datafile.DecodeRecord | fib.go:109 | the decoded previous is negative exactly when the top bit of the first byte is set |
| Datafile.DecodeEncodeRecord | fib.go:137-138 | decoding the 16-byte record written for a pair gives the pair back, whatever bytes follow |
| Datafile.EncodeDecodeRecord | fib.go:109 | every 16-byte record is the encoding of the pair it decodes to |
| Datafile.ReadRecord | fib.go:109-124 | the pair read from the file is never (0,0) |
| Datafile.WriteRecord | fib.go:137-138 | the file after a write is 16 bytes long, or as long as it was when it was longer |
| Datafile.WriteThenRead | fib.go:109-138 | a pair other than (0,0) reads back unchanged after it is written |
| Datafile.WriteZeroThenRead | fib.go:110-111 | a written (0,0) reads back as the start sentinel (-1,0) |
| Datafile.ReadIsStable | fib.go:109-138 | writing back the pair just read leaves what the file reads as unchanged |
| Datafile.SentinelBytes | fib.go:120-122 | the sentinel is stored as eight 0xFF bytes then eight zero bytes, and (0,1) as fifteen zero bytes then 1 |
| Store.CyclePersists | fib.go:235-246 | after one request the file reads back as exactly the pair the engine computed from the pair read |
| Store.CyclesPersist | fib.go:229-246 | after any series of requests the file reads back as the engine run over that series from the pair first read |
| Store.FreshFileNexts | fib.go:102-124 | from an empty file, k "next" requests leave (Fib(k-1), Fib(k)) in the file |
| Store.Store.constructor | fib.go:48-51 | a store over given file bytes, with `nums` at Go's zero value |
| Store.Store.ReadDatafile | fib.go:92-127 | the file is unchanged; a full record is decoded into `nums` and handed out unless it is (0,0); a short file leaves `nums` alone; a short file or (0,0) hands out (-1,0) |
| Store.Store.WriteDatafile | fib.go:131-148 | `nums` takes the pair; the first 16 bytes of the file become its encoding and any later bytes stay |
| Store.Store.HandleRequest | fib.go:229-253 | the reply is the engine's reply for the op code on the pair read, the file afterwards reads back as the engine's new pair, and `nums` holds it |
| Store.Session | fib.go:229-246 | from a new file: next, next, next, current, previous four times reply 1, 1, 2, 2, 1, 1, 0 with 200 and then -1 with 409, ending at (-1,0) |

## Left out

- api.go: the HTTP handlers repeat the read, handle, write cycle of `cli_handle_request` and
  add response writing; the memory-usage page, the bad-request page and the server setup are
  transport and runtime glue.
- The mutex around each read and write (fib.go:86, 100, 147): each cycle is taken as one
  atomic step; concurrency is not modelled.
- Opening, creating, seeking and closing the file, and the fatal exits when the file cannot be
  opened or written (fib.go:103-107, 137-144): the file is a byte sequence; any failed read is
  the short-read case, and writes never fail.
- `ToJson` and the printing of the result, the status and the JSON at the end of
  `cli_handle_request` (fib.go:64-74, 250-252): JSON marshalling and formatting are library
  code.
- `main` (fib.go:255-322): flag parsing, port and file-name checks, the CPU limit and the
  mapping of the arguments `p`, `c` and `n` to op codes.
- Debug output and log messages.
