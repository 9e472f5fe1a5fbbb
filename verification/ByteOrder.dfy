/** The byte order of a data file, detected from the year of its first record and corrected in place. */
module ByteOrder {
  import opened Particulars

  datatype Order = BigEndian | LittleEndian

  function Combined(a: int, b: int, c: int, d: int): int {
    ((a * 256 + b) * 256 + c) * 256 + d
  }

  // The 32-bit value at word position `k`, read in the given order.
  function Word(s: seq<Byte>, k: nat, order: Order): nat
    requires 4 * k + 4 <= |s|
  {
    var a, b, c, d := s[4 * k], s[4 * k + 1], s[4 * k + 2], s[4 * k + 3];
    if order.BigEndian? then Combined(a, b, c, d) else Combined(d, c, b, a)
  }

  // The data is taken for big-endian when the first two bytes of the year, the second word, are zero.
  function Detected(s: seq<Byte>): Order
    requires |s| >= 6
  {
    if s[4] == 0 && s[5] == 0 then BigEndian else LittleEndian
  }

  // Detection is right exactly for years that a big-endian file can store in its low half, and a little-endian one
  // does not leave zero there.
  lemma {:induction false} DetectedIff(s: seq<Byte>, order: Order)
    requires |s| >= 8
    ensures var year := Word(s, 1, order);
            Detected(s) == order <==> if order.BigEndian? then year < 65536 else year % 65536 != 0
  {
    var a, b, c, d := s[4], s[5], s[6], s[7];
    if order.BigEndian? {
      TwoHalves(a, b, c, d);
    } else {
      TwoHalves(d, c, b, a);
    }
  }

  // A little-endian file of the year 65536 is taken for a big-endian one of the year 256.
  lemma {:induction false} AYearIsMisread()
    ensures var s: seq<Byte> := [0, 0, 0, 0, 0, 0, 1, 0];
            Word(s, 1, LittleEndian) == 65536 && Detected(s) == BigEndian && Word(s, 1, BigEndian) == 256
  {
  }

  lemma {:induction false} TwoHalves(a: Byte, b: Byte, c: Byte, d: Byte)
    ensures var w := Combined(a, b, c, d);
            && (w < 65536 <==> a == 0 && b == 0)
            && (w % 65536 == 0 <==> c == 0 && d == 0)
  {
    var high: int, low: int := a, c;
    high, low := high * 256 + b, low * 256 + d;
    assert Combined(a, b, c, d) == high * 65536 + low;
    assert high == 0 <==> a == 0 && b == 0;
    assert low == 0 <==> c == 0 && d == 0;
    Halves(high, low);
    hide Combined;
  }

  lemma {:induction false} Halves(high: nat, low: nat)
    requires low < 65536
    ensures (high * 65536 + low < 65536 <==> high == 0) && (high * 65536 + low) % 65536 == low
  {
  }

  // The bytes of every word up to position `n` are reversed.
  function Reversed(s: seq<Byte>, n: nat): (r: seq<Byte>)
    requires 4 * n <= |s|
    ensures |r| == |s| && r[4 * n..] == s[4 * n..]
  {
    if n == 0 then s
    else
      var k := n - 1;
      Reversed(s, k)[..4 * k] + [s[4 * k + 3], s[4 * k + 2], s[4 * k + 1], s[4 * k]] + s[4 * n..]
  }

  lemma {:induction false} ReversedAt(s: seq<Byte>, n: nat, k: nat)
    requires 4 * n <= |s| && k < n
    ensures var r := Reversed(s, n);
            r[4 * k] == s[4 * k + 3] && r[4 * k + 1] == s[4 * k + 2]
            && r[4 * k + 2] == s[4 * k + 1] && r[4 * k + 3] == s[4 * k]
  {
    if k < n - 1 {
      ReversedAt(s, n - 1, k);
    }
  }

  function Other(order: Order): Order {
    if order.BigEndian? then LittleEndian else BigEndian
  }

  lemma {:induction false} ReversedWord(s: seq<Byte>, n: nat, k: nat, order: Order)
    requires 4 * n <= |s| && k < n
    ensures Word(Reversed(s, n), k, Other(order)) == Word(s, k, order)
  {
    ReversedAt(s, n, k);
    hide Reversed;
  }

  function SwappedAt(s: seq<Byte>, at: nat): seq<Byte>
    requires at + 4 <= |s|
  {
    s[..at] + [s[at + 3], s[at + 2], s[at + 1], s[at]] + s[at + 4..]
  }

  // swapBytesUint
  method SwapBytes(buffer: array<Byte>, at: nat)
    requires at + 4 <= buffer.Length
    modifies buffer
    ensures buffer[..] == SwappedAt(old(buffer[..]), at)
  {
    buffer[at], buffer[at + 1], buffer[at + 2], buffer[at + 3] :=
      buffer[at + 3], buffer[at + 2], buffer[at + 1], buffer[at];
  }

  lemma {:induction false} OneWord(s: seq<Byte>, k: nat)
    requires 4 * k + 4 <= |s|
    ensures Reversed(s, k + 1) == SwappedAt(Reversed(s, k), 4 * k)
  {
    var r := Reversed(s, k);
    var i := 4 * k;
    assert r[i..][0] == s[i] && r[i..][1] == s[i + 1] && r[i..][2] == s[i + 2] && r[i..][3] == s[i + 3];
    assert r[i + 4..] == r[i..][4..] == s[i..][4..] == s[i + 4..];
  }

  // One second of data.
  method SwapRecord(buffer: array<Byte>, dataPtr: nat, ghost was: seq<Byte>, ghost n: nat)
    requires |was| == buffer.Length && dataPtr == 4 * n && dataPtr + UPMU_1SEC_BUF_LEN <= buffer.Length
    requires buffer[..] == Reversed(was, n)
    modifies buffer
    ensures buffer[..] == Reversed(was, n + UPMU_1SEC_BUF_LEN / 4)
  {
    hide Reversed, SwappedAt;
    var tempDataPtr := dataPtr;
    ghost var k := n;
    while tempDataPtr < dataPtr + UPMU_1SEC_BUF_LEN
      invariant n <= k <= n + UPMU_1SEC_BUF_LEN / 4 && tempDataPtr == 4 * k
      invariant buffer[..] == Reversed(was, k)
    {
      OneWord(was, k);
      SwapBytes(buffer, tempDataPtr);
      tempDataPtr := tempDataPtr + 4;
      k := k + 1;
    }
  }

  // How far the loops reach for a file of `length` bytes: they step record by record, and look at the length only in
  // between.
  function Reach(length: nat): nat {
    (length + UPMU_1SEC_BUF_LEN - 1) / UPMU_1SEC_BUF_LEN * UPMU_1SEC_BUF_LEN
  }

  lemma {:induction false} ReachIsNextRecord(length: nat)
    ensures var r := Reach(length); r % UPMU_1SEC_BUF_LEN == 0 && length <= r < length + UPMU_1SEC_BUF_LEN
    ensures OnRecord(0, length)
  {
  }

  // They stay inside the file exactly when it holds whole records.
  lemma {:induction false} StaysInsideIff(length: nat)
    ensures Reach(length) <= length <==> length % UPMU_1SEC_BUF_LEN == 0
  {
    ReachIsNextRecord(length);
    var n := length / UPMU_1SEC_BUF_LEN;
    if length % UPMU_1SEC_BUF_LEN == 0 {
      assert length == n * UPMU_1SEC_BUF_LEN;
    }
  }

  // In a file of one byte more than a record the loops reach the end of the second one.
  lemma {:induction false} OneByteMore()
    ensures Reach(UPMU_1SEC_BUF_LEN + 1) == 2 * UPMU_1SEC_BUF_LEN
  {
  }

  // A multiple of the record length at or below the end of the reach.
  predicate OnRecord(dataPtr: nat, length: nat) {
    dataPtr % UPMU_1SEC_BUF_LEN == 0 && dataPtr <= Reach(length)
  }

  lemma {:induction false} RecordStep(dataPtr: nat, length: nat)
    requires OnRecord(dataPtr, length)
    ensures dataPtr < length ==> dataPtr + UPMU_1SEC_BUF_LEN <= Reach(length)
    ensures dataPtr < length ==> OnRecord(dataPtr + UPMU_1SEC_BUF_LEN, length)
    ensures dataPtr >= length ==> dataPtr == Reach(length)
  {
    ReachIsNextRecord(length);
    var r := Reach(length);
    hide Reach;
    var k, n := dataPtr / UPMU_1SEC_BUF_LEN, r / UPMU_1SEC_BUF_LEN;
    assert dataPtr == k * UPMU_1SEC_BUF_LEN && r == n * UPMU_1SEC_BUF_LEN;
  }

  // A file of `dataLen` bytes, in a buffer that is large enough for the loops.
  method SwapRecords(buffer: array<Byte>, dataLen: nat)
    requires Reach(dataLen) <= buffer.Length
    modifies buffer
    ensures 4 * (Reach(dataLen) / 4) <= buffer.Length
    ensures buffer[..] == Reversed(old(buffer[..]), Reach(dataLen) / 4)
  {
    hide Reversed, Reach, OnRecord;
    ReachIsNextRecord(dataLen);
    ghost var was := buffer[..];
    NothingReversed(was);
    var dataPtr := 0;
    ghost var k := 0;
    while dataPtr < dataLen
      invariant OnRecord(dataPtr, dataLen) && dataPtr == 4 * k <= buffer.Length
      invariant buffer[..] == Reversed(was, k)
    {
      RecordStep(dataPtr, dataLen);
      SwapRecord(buffer, dataPtr, was, k);
      dataPtr := dataPtr + UPMU_1SEC_BUF_LEN;
      k := k + UPMU_1SEC_BUF_LEN / 4;
    }
    RecordStep(dataPtr, dataLen);
  }

  // The first `n` words of `s` read as the same words of `t`, and what is behind them is the same.
  ghost predicate SameWords(s: seq<Byte>, order: Order, t: seq<Byte>, other: Order, n: nat) {
    && 4 * n <= |s| == |t| && s[4 * n..] == t[4 * n..]
    && forall k: nat :: k < n ==> Word(s, k, order) == Word(t, k, other)
  }

  lemma {:induction false} WordsReversed(s: seq<Byte>, order: Order, n: nat)
    requires 4 * n <= |s|
    ensures SameWords(Reversed(s, n), Other(order), s, order, n)
  {
    hide Word, Reversed;
    forall k: nat | k < n
      ensures Word(Reversed(s, n), k, Other(order)) == Word(s, k, order)
    {
      ReversedWord(s, n, k, order);
    }
  }

  // The first half of postProcessUPMUdata. Afterwards every word up to where the loops reach, and so every word of the
  // file, reads in the platform's order as it did before in the order that was detected.
  method CorrectOrder(buffer: array<Byte>, dataLen: nat, platform: Order)
    requires buffer.Length >= 6 && Reach(dataLen) <= buffer.Length
    modifies buffer
    ensures SameWords(buffer[..], platform, old(buffer[..]), Detected(old(buffer[..])), Reach(dataLen) / 4)
  {
    ghost var was := buffer[..];
    var dataBigEndian := buffer[4] == 0 && buffer[5] == 0;
    assert Detected(was) == if dataBigEndian then BigEndian else LittleEndian;
    hide Detected, Word, Reversed, Reach;
    if platform.BigEndian? != dataBigEndian {
      SwapRecords(buffer, dataLen);
      WordsReversed(was, Detected(was), Reach(dataLen) / 4);
      hide SameWords;
    }
  }

  lemma {:induction false} NothingReversed(s: seq<Byte>)
    ensures Reversed(s, 0) == s
  {
  }
}
