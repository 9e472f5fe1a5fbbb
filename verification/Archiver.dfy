/** One archiver thread: buffers are queued, cut into records of one second, and the records are stored. */
module Archiver {
  import opened Particulars

  type Buffer = seq<Byte>
  type Record = seq<Byte>

  datatype Offer = Accepted | Refused

  predicate WellFormed(b: Buffer) {
    |b| % UPMU_1SEC_BUF_LEN == 0
  }

  // The first `n` records of a buffer.
  function FirstRecords(b: Buffer, n: nat): (r: seq<Record>)
    requires n * UPMU_1SEC_BUF_LEN <= |b|
    ensures |r| == n
  {
    if n == 0 then []
    else FirstRecords(b, n - 1) + [b[(n - 1) * UPMU_1SEC_BUF_LEN..n * UPMU_1SEC_BUF_LEN]]
  }

  // All records of a buffer; a buffer that does not hold a whole number of them has none.
  function Records(b: Buffer): seq<Record> {
    if WellFormed(b) then FirstRecords(b, |b| / UPMU_1SEC_BUF_LEN) else []
  }

  function AllRecords(bs: seq<Buffer>): seq<Record> {
    if bs == [] then [] else AllRecords(bs[..|bs| - 1]) + Records(bs[|bs| - 1])
  }

  lemma {:induction false} AllRecordsAppend(a: seq<Buffer>, b: seq<Buffer>)
    ensures AllRecords(a + b) == AllRecords(a) + AllRecords(b)
    decreases |b|
  {
    if b == [] {
      assert a + b == a;
    } else {
      assert (a + b)[..|a + b| - 1] == a + b[..|b| - 1];
      AllRecordsAppend(a, b[..|b| - 1]);
    }
  }

  lemma {:induction false} FirstRecordsArePrefix(b: Buffer, m: nat, n: nat)
    requires m <= n && n * UPMU_1SEC_BUF_LEN <= |b|
    ensures FirstRecords(b, m) <= FirstRecords(b, n)
    decreases n
  {
    if m < n {
      FirstRecordsArePrefix(b, m, n - 1);
    }
  }

  lemma {:induction false} RecordAt(b: Buffer, n: nat, i: nat)
    requires n * UPMU_1SEC_BUF_LEN <= |b| && i < n
    ensures FirstRecords(b, n)[i] == b[i * 6312..(i + 1) * 6312] && |FirstRecords(b, n)[i]| == 6312
    decreases n
  {
    if i < n - 1 {
      RecordAt(b, n - 1, i);
    }
  }

  // The records of a well-formed buffer are its bytes, cut.
  function Flatten(rs: seq<Record>): seq<Byte> {
    if rs == [] then [] else Flatten(rs[..|rs| - 1]) + rs[|rs| - 1]
  }

  lemma {:induction false} FirstRecordsAreBytes(b: Buffer, n: nat)
    requires n * UPMU_1SEC_BUF_LEN <= |b|
    ensures Flatten(FirstRecords(b, n)) == b[..n * UPMU_1SEC_BUF_LEN]
  {
    if n > 0 {
      FirstRecordsAreBytes(b, n - 1);
      var rs := FirstRecords(b, n);
      assert rs[..n - 1] == FirstRecords(b, n - 1);
    }
  }

  lemma {:induction false} RecordsAreBytes(b: Buffer)
    requires WellFormed(b)
    ensures Flatten(Records(b)) == b
  {
    FirstRecordsAreBytes(b, |b| / UPMU_1SEC_BUF_LEN);
    assert |b| / UPMU_1SEC_BUF_LEN * UPMU_1SEC_BUF_LEN == |b|;
  }

  lemma {:induction false} MalformedHasNone(b: Buffer)
    ensures !WellFormed(b) ==> Records(b) == []
    ensures FirstRecords(b, 0) == []
  {
  }

  lemma {:induction false} Prefixes<T>(a: seq<T>, b: seq<T>, c: seq<T>, d: seq<T>)
    requires b <= c
    ensures a + b <= a + c + d
  {
  }

  // The first buffer of the queue moves to those taken.
  lemma {:induction false} OneTaken(taken: seq<Buffer>, queue: seq<Buffer>)
    requires queue != []
    ensures var t := taken + [queue[0]];
            && t[..|t| - 1] == taken && t[|t| - 1] == queue[0] && t + queue[1..] == taken + queue
            && AllRecords(t) == AllRecords(taken) + Records(queue[0])
  {
    hide Records;
    var t := taken + [queue[0]];
    assert t[..|t| - 1] == taken;
    assert t + queue[1..] == taken + queue;
  }

  class Archiver {
    var dataQueue: seq<Buffer>
    var dataBuf: Buffer
    var processing: bool
    var numRecords: int
    var nextRecord: nat
    var stored: seq<Record>          // what the database has been given
    ghost var accepted: seq<Buffer>  // every buffer accepted
    ghost var taken: seq<Buffer>     // those taken from the queue and not abandoned
    ghost var abandoned: nat         // those taken while the database was not connected
    ghost var skipped: nat           // records passed over for want of memory

    ghost predicate Valid()
      reads this
    {
      && |dataQueue| <= DATA_QUEUE_LEN
      && (abandoned == 0 ==> taken + dataQueue == accepted)
      && (if processing then
            && taken != [] && dataBuf == taken[|taken| - 1] && WellFormed(dataBuf)
            && numRecords == |dataBuf| / UPMU_1SEC_BUF_LEN && nextRecord <= numRecords
            && nextRecord * UPMU_1SEC_BUF_LEN <= |dataBuf|
            && (skipped == 0 ==> stored == AllRecords(taken[..|taken| - 1]) + FirstRecords(dataBuf, nextRecord))
          else skipped == 0 ==> stored == AllRecords(taken))
    }

    // At every moment, the records stored are the first ones of all the buffers accepted.
    lemma {:induction false} StoredIsPrefix()
      requires Valid() && abandoned == skipped == 0
      ensures stored <= AllRecords(accepted)
      ensures !processing && dataQueue == [] ==> stored == AllRecords(accepted)
    {
      AllRecordsAppend(taken, dataQueue);
      if processing {
        FirstRecordsArePrefix(dataBuf, nextRecord, numRecords);
        Prefixes(AllRecords(taken[..|taken| - 1]), FirstRecords(dataBuf, nextRecord), Records(dataBuf),
                 AllRecords(dataQueue));
        hide FirstRecords, Records;
      } else if dataQueue == [] {
        assert taken + dataQueue == taken;
      }
    }

    constructor ()
      ensures Valid() && accepted == [] && stored == [] && abandoned == skipped == 0 && !processing && dataQueue == []
    {
      dataQueue, dataBuf, processing := [], [], false;
      numRecords, nextRecord := 0, 0;
      stored, accepted, taken, abandoned, skipped := [], [], [], 0, 0;
    }

    method DataBufferOffer(b: Buffer) returns (r: Offer)
      requires Valid()
      modifies `dataQueue, `accepted
      ensures Valid()
      ensures r.Refused? <==> |old(dataQueue)| == 16
      ensures accepted == (if r.Accepted? then old(accepted) + [b] else old(accepted))
      ensures dataQueue == (if r.Accepted? then old(dataQueue) + [b] else old(dataQueue))
    {
      if DATA_QUEUE_LEN - |dataQueue| == 0 {
        return Refused;
      }
      dataQueue := dataQueue + [b];
      accepted := accepted + [b];
      r := Accepted;
    }

    // preProcessData
    method PreProcessData(connected: bool) returns (sts: int)
      modifies `numRecords, `nextRecord
      ensures sts > 0 <==> WellFormed(dataBuf) && connected
      ensures sts > 0 ==> numRecords == |dataBuf| / UPMU_1SEC_BUF_LEN && nextRecord == 0
    {
      if |dataBuf| % UPMU_1SEC_BUF_LEN != 0 {
        numRecords := -1;
        return -1;
      } else if !connected {
        numRecords := -1;
        return -1;
      } else {
        numRecords := |dataBuf| / UPMU_1SEC_BUF_LEN;
        nextRecord := 0;
        return 1;
      }
    }

    // processData: stores one record, inside the buffer; one that no memory can be had for is passed over.
    method ProcessData(connected: bool, memory: bool) returns (complete: bool)
      requires Valid() && processing
      modifies `nextRecord, `stored, `skipped
      ensures Valid() && (complete <==> old(nextRecord) == numRecords)
      ensures nextRecord == old(nextRecord) + if complete || !connected then 0 else 1
      ensures stored == old(stored) +
                        if complete || !connected || !memory then [] else [Records(dataBuf)[old(nextRecord)]]
      ensures skipped == old(skipped) + if complete || !connected || memory then 0 else 1
    {
      if nextRecord >= numRecords {
        return true;
      }
      complete := false;
      if connected {
        assert (nextRecord + 1) * UPMU_1SEC_BUF_LEN <= |dataBuf|;
        RecordAt(dataBuf, numRecords, nextRecord);
        if memory {
          stored := stored + [dataBuf[nextRecord * UPMU_1SEC_BUF_LEN..(nextRecord + 1) * UPMU_1SEC_BUF_LEN]];
        } else {
          skipped := skipped + 1;
        }
        nextRecord := nextRecord + 1;
      }
    }

    // One turn of the thread's loop.
    method Pass(connected: bool, memory: bool)
      requires Valid()
      modifies this
      ensures Valid() && accepted == old(accepted) && old(stored) <= stored
      ensures connected ==> abandoned == old(abandoned)
      ensures memory ==> skipped == old(skipped)
      ensures connected && old(processing) ==>
                && dataQueue == old(dataQueue)
                && (processing ==> numRecords - nextRecord == old(numRecords - nextRecord) - 1)
      ensures connected && !old(processing) ==> |dataQueue| == if old(dataQueue) == [] then 0 else |old(dataQueue)| - 1
    {
      if processing {
        var complete := ProcessData(connected, memory);
        processing := !complete;
      } else if dataQueue != [] {
        TakeBuffer(connected);
      }
    }

    // The first buffer of the queue is taken, and kept unless it has to be abandoned.
    method TakeBuffer(connected: bool)
      requires Valid() && !processing && dataQueue != []
      modifies `dataQueue, `dataBuf, `processing, `numRecords, `nextRecord, `taken, `abandoned
      ensures Valid() && dataQueue == old(dataQueue)[1..]
      ensures abandoned == if connected || !WellFormed(dataBuf) then old(abandoned) else old(abandoned) + 1
    {
      hide Records, WellFormed, AllRecords, FirstRecords;
      OneTaken(taken, dataQueue);
      dataBuf := dataQueue[0];
      dataQueue := dataQueue[1..];
      var sts := PreProcessData(connected);
      if sts > 0 || !WellFormed(dataBuf) {
        MalformedHasNone(dataBuf);
        taken := taken + [dataBuf];
      } else {
        abandoned := abandoned + 1;
      }
      processing := sts > 0;
    }

    // With the database connected and memory to be had, everything accepted is stored after finitely many turns: a
    // buffer takes as many turns as it has records left, and one more.
    method Drain()
      requires Valid() && abandoned == skipped == 0
      modifies this
      ensures Valid() && accepted == old(accepted) && stored == AllRecords(accepted)
    {
      while processing || dataQueue != []
        invariant Valid() && abandoned == skipped == 0 && accepted == old(accepted)
        decreases |dataQueue|, processing, numRecords - nextRecord
      {
        Pass(true, true);
      }
      StoredIsPrefix();
    }
  }
}
