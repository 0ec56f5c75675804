/** The request cycle of `cli_handle_request`: read the data file, dispatch on the op code,
    write the data file back. The global record `nums` and the file contents are the fields
    of a `Store`; each cycle is taken as one atomic step. */
module Store {
  import opened GoInt64
  import opened Engine
  import opened Datafile
  import opened Fibonacci

  /** The file contents after one request with op code `op`. */
  function Cycle(data: seq<Byte>, op: int): seq<Byte> {
    WriteRecord(data, Dispatch(op, ReadRecord(data)).pair)
  }

  /** The file contents after the requests `ops`, one after another. */
  function Cycles(data: seq<Byte>, ops: seq<int>): seq<Byte>
    decreases |ops|
  {
    if ops == [] then data else Cycle(Cycles(data, ops[..|ops| - 1]), ops[|ops| - 1])
  }

  /** After one request the file holds exactly the position the engine computed. */
  lemma CyclePersists(data: seq<Byte>, op: int)
    ensures ReadRecord(Cycle(data, op)) == Dispatch(op, ReadRecord(data)).pair
  {
    DispatchAvoidsZeroPair(op, ReadRecord(data));
    WriteThenRead(data, Dispatch(op, ReadRecord(data)).pair);
  }

  /** Over any series of requests the file behaves as the engine run on the pair first read:
      nothing is lost or reset between requests. */
  lemma {:induction false} CyclesPersist(data: seq<Byte>, ops: seq<int>)
    ensures ReadRecord(Cycles(data, ops)) == Run(ReadRecord(data), ops)
    decreases |ops|
  {
    if ops != [] {
      CyclesPersist(data, ops[..|ops| - 1]);
      CyclePersists(Cycles(data, ops[..|ops| - 1]), ops[|ops| - 1]);
    }
  }

  /** From a new, empty data file, k "next" requests leave (Fib(k-1), Fib(k)) in the file. */
  lemma FreshFileNexts(k: nat)
    requires 1 <= k && Fib(k) <= MaxInt64
    ensures ReadRecord(Cycles([], Nexts(k))) == FibPair(k)
  {
    CyclesPersist([], Nexts(k));
    NextsFromSentinel(k);
  }

  /** The data file and the global record `nums` it is read into and written from. */
  class Store {
    var data: seq<Byte>
    var Previous: Int64
    var Current: Int64

    constructor (data: seq<Byte>)
      ensures this.data == data && Previous == 0 && Current == 0
    {
      this.data := data;
      Previous, Current := 0, 0;
    }

    /** `readDatafile`: a full record is decoded into `nums`; a short file leaves `nums` as
        it was. A short file or the pair (0,0) yields the start sentinel. */
    method ReadDatafile() returns (previous: Int64, current: Int64)
      modifies this
      ensures data == old(data)
      ensures Pair(previous, current) == ReadRecord(data)
      ensures |data| < RecordSize ==>
        Pair(previous, current) == Sentinel && Previous == old(Previous) && Current == old(Current)
      ensures |data| >= RecordSize ==> Pair(Previous, Current) == DecodeRecord(data)
      ensures |data| >= RecordSize && Pair(Previous, Current) != ZeroPair ==>
        Pair(previous, current) == Pair(Previous, Current)
    {
      var restart := false;
      if |data| < RecordSize {
        restart := true;
      } else {
        var d := DecodeRecord(data);
        Previous, Current := d.previous, d.current;
        if Previous == 0 && Current == 0 {
          restart := true;
        }
      }
      previous, current := Previous, Current;
      if restart {
        previous, current := -1, 0;
      }
    }

    /** `writeDatafile`: `nums` takes the pair, which is encoded over the first 16 bytes. */
    method WriteDatafile(previous: Int64, current: Int64)
      modifies this
      ensures Previous == previous && Current == current
      ensures data == WriteRecord(old(data), Pair(previous, current))
      ensures data[..RecordSize] == EncodeRecord(Pair(previous, current))
      ensures |old(data)| > RecordSize ==> data[RecordSize..] == old(data)[RecordSize..]
    {
      Previous, Current := previous, current;
      data := WriteRecord(data, Pair(previous, current));
    }

    /** `cli_handle_request`: read, dispatch on `op`, write. The reply is the engine's, and the
        file afterwards reads back as the engine's new position. */
    method HandleRequest(op: int) returns (result: Int64, status: int)
      modifies this
      ensures var s := Dispatch(op, ReadRecord(old(data)));
        Reply(result, status) == s.reply && ReadRecord(data) == s.pair
      ensures data == Cycle(old(data), op)
      ensures Pair(Previous, Current) == ReadRecord(data)
    {
      var previous, current := ReadDatafile();
      var pos := new Position(previous, current);
      result, status := 0, 0;
      if op == GetPrevious {
        result, status := pos.HandlePrevious();
      } else if op == GetCurrent {
        result, status := pos.HandleCurrent();
      } else if op == GetNext {
        result, status := pos.HandleNext();
      }
      WriteDatafile(pos.Previous, pos.Current);
      CyclePersists(old(data), op);
    }
  }

  /** A client of the store: from a new file, "next" three times, "current" once, then
      "previous" four times, with the replies the code produces. Stepping back from (1,2)
      reports 1 and moves to (1,1); the start is reached only after 0 is reported. */
  method Session() returns (replies: seq<Reply>, final: Pair)
    ensures replies == [Reply(1, StatusOK), Reply(1, StatusOK), Reply(2, StatusOK),
                        Reply(2, StatusOK), Reply(1, StatusOK), Reply(1, StatusOK), Reply(0, StatusOK),
                        Reply(ApiErrorNoPrev, StatusConflict)]
    ensures final == Sentinel
  {
    var s := new Store([]);
    var r1, s1 := s.HandleRequest(GetNext);
    assert ReadRecord(s.data) == Pair(0, 1);
    var r2, s2 := s.HandleRequest(GetNext);
    assert ReadRecord(s.data) == Pair(1, 1);
    var r3, s3 := s.HandleRequest(GetNext);
    assert ReadRecord(s.data) == Pair(1, 2);
    var rc, sc := s.HandleRequest(GetCurrent);
    assert ReadRecord(s.data) == Pair(1, 2);
    var r4, s4 := s.HandleRequest(GetPrevious);
    assert ReadRecord(s.data) == Pair(1, 1);
    var r5, s5 := s.HandleRequest(GetPrevious);
    assert ReadRecord(s.data) == Pair(0, 1);
    var r6, s6 := s.HandleRequest(GetPrevious);
    assert ReadRecord(s.data) == Sentinel;
    var r7, s7 := s.HandleRequest(GetPrevious);
    replies := [Reply(r1, s1), Reply(r2, s2), Reply(r3, s3), Reply(rc, sc), Reply(r4, s4),
                Reply(r5, s5), Reply(r6, s6), Reply(r7, s7)];
    final := ReadRecord(s.data);
  }
}
