/**
 The sending side of a UDP download
 (src/Networker.Endpoint/UdpThroughputService.cs, SendDownloadAsync), with the
 32-bit arithmetic of the original.
 */
module UdpDownload {
  import opened UdpWire

  const CHUNK_SIZE := 1400
  const INT32_MAX := 0x7FFF_FFFF

  predicate IsInt32(x: int) {
    -INT32_MAX - 1 <= x <= INT32_MAX
  }

  /** Two's-complement truncation to 32 bits. */
  function ToInt32(x: int): (r: int)
    ensures IsInt32(r)
  {
    var m := x % U32;
    if m > INT32_MAX then m - U32 else m
  }

  function ToUint32(x: int): (r: nat)
    ensures r < U32
  {
    x % U32
  }

  /** Division that truncates toward zero. */
  function TruncDiv(x: int, y: int): int
    requires y > 0
  {
    if x >= 0 then x / y else -((-x) / y)
  }

  /** The 32-bit conversions keep a number up to multiples of 2^32; the division leaves a remainder of the dividend's sign. */
  lemma ConversionsAndDivision(x: int, y: int)
    requires y > 0
    ensures -0x8000_0000 <= ToInt32(x) < 0x8000_0000 && exists k :: ToInt32(x) == x + 0x1_0000_0000 * k
    ensures 0 <= ToUint32(x) < 0x1_0000_0000 && exists k :: ToUint32(x) == x + 0x1_0000_0000 * k
    ensures var r := x - y * TruncDiv(x, y); if x >= 0 then 0 <= r < y else -y < r <= 0
  {
    var q := -(x / U32);
    assert ToUint32(x) == x + 0x1_0000_0000 * q;
    assert ToInt32(x) == x + 0x1_0000_0000 * if x % U32 > INT32_MAX then q - 1 else q;
    if x < 0 {
      assert -x == y * (-x / y) + -x % y;
      assert y * -(-x / y) == -(y * (-x / y));
    }
  }

  /** The number of chunks as the program computes it. */
  function TotalSeqs(total: int): (n: nat)
    requires IsInt32(total)
    ensures n < U32
  {
    ToUint32(TruncDiv(ToInt32(total + CHUNK_SIZE - 1), CHUNK_SIZE))
  }

  function CeilDiv(total: nat): nat {
    (total + CHUNK_SIZE - 1) / CHUNK_SIZE
  }

  /** The largest request whose chunk count does not overflow. */
  const MAX_DOWNLOAD := INT32_MAX + 1 - CHUNK_SIZE

  /** The chunk count is right for exactly the requests that stay clear of the overflow. */
  lemma TotalSeqsExactIff(total: nat)
    requires IsInt32(total)
    ensures TotalSeqs(total) == CeilDiv(total) <==> total <= MAX_DOWNLOAD
  {
    var s := total + CHUNK_SIZE - 1;
    if total <= MAX_DOWNLOAD {
      assert ToInt32(s) == s;
      assert ToUint32(s / CHUNK_SIZE) == s / CHUNK_SIZE;
    } else {
      assert ToInt32(s) == s - U32 < 0;
      OverflowedCount(U32 - s);
      hide ToInt32, ToUint32;
    }
  }

  lemma OverflowedCount(m: int)
    requires INT32_MAX - CHUNK_SIZE <= m <= INT32_MAX + 1
    ensures ToUint32(TruncDiv(-m, CHUNK_SIZE)) > 2_000_000
  {
    var q := m / CHUNK_SIZE;
    assert 1 <= q < 2_000_000;
    assert TruncDiv(-m, CHUNK_SIZE) == -q;
    assert (U32 - q) % U32 == U32 - q && (-q) % U32 == U32 - q;
  }

  /** A negative request still ends in a DONE exactly down to -2798; below, the first chunk cannot be made. */
  lemma NegativeRequestFaultsIff(total: int)
    requires IsInt32(total) && total < 0
    ensures TotalSeqs(total) == 0 <==> total >= -2798
  {
    var s := total + CHUNK_SIZE - 1;
    assert ToInt32(s) == s;
    if s < 0 {
      var q := -s / CHUNK_SIZE;
      assert 0 <= q < U32 && (q == 0 <==> -s < CHUNK_SIZE);
      assert TruncDiv(s, CHUNK_SIZE) == -q;
      assert q > 0 ==> (-q) % U32 == U32 - q;
    } else {
      assert s / CHUNK_SIZE == 0;
    }
  }

  /** Bytes carried by chunk `i`. */
  function Payload(total: nat, i: nat): nat {
    if total - CHUNK_SIZE * i >= CHUNK_SIZE then CHUNK_SIZE
    else if total - CHUNK_SIZE * i > 0 then total - CHUNK_SIZE * i
    else 0
  }

  function Chunks(total: nat, n: nat, k: nat): (pkts: seq<seq<Byte>>)
    requires n < U32 && k <= n
    ensures |pkts| == k
    ensures forall i | 0 <= i < k :: pkts[i] == MakeData(i, n, Payload(total, i))
  {
    if k == 0 then [] else Chunks(total, n, k - 1) + [MakeData(k - 1, n, Payload(total, k - 1))]
  }

  function Carried(total: nat, k: nat): nat {
    if k == 0 then 0 else Carried(total, k - 1) + Payload(total, k - 1)
  }

  /**
   Send a download. `failAt` is the index of the first datagram the socket
   refuses; a fault is an exception that ends the task without a DONE.
   */
  method SendDownload(total: int, failAt: nat) returns (sent: seq<seq<Byte>>, faulted: bool)
    requires IsInt32(total)
    ensures total == 0 ==> !faulted && sent == [MakeCtrl(CMD_DONE, 0)]
    ensures total > 0 ==>
              var n := TotalSeqs(total);
              !faulted && sent == Chunks(total, n, if failAt < n then failAt else n) + [MakeCtrl(CMD_DONE, ToUint32(total))]
    ensures total < 0 ==>
              if TotalSeqs(total) == 0 then !faulted && sent == [MakeCtrl(CMD_DONE, ToUint32(total))]
              else faulted && sent == []
  {
    hide TotalSeqs, MakeData, MakeCtrl, ToUint32;
    if total == 0 {
      return [MakeCtrl(CMD_DONE, 0)], false;
    }
    var totalSeqs := TotalSeqs(total);
    var sentBytes := 0;
    sent := [];
    var number := 0;
    while number < totalSeqs
      invariant 0 <= number <= totalSeqs && number <= failAt
      invariant total < 0 ==> number == 0 && sent == [] && sentBytes == 0
      invariant total > 0 ==> sent == Chunks(total, totalSeqs, number)
      invariant total > 0 ==> sentBytes == if total < CHUNK_SIZE * number then total else CHUNK_SIZE * number
    {
      var payloadSize := if total - sentBytes < CHUNK_SIZE then total - sentBytes else CHUNK_SIZE;
      if payloadSize < 0 {
        return sent, true;  // a negative array length or slice
      }
      if number == failAt {
        break;
      }
      sent := sent + [MakeData(number, totalSeqs, payloadSize)];
      sentBytes := sentBytes + payloadSize;
      number := number + 1;
    }
    return sent + [MakeCtrl(CMD_DONE, ToUint32(total))], false;
  }

  lemma {:induction false} CarriedIsPrefix(total: nat, k: nat)
    ensures Carried(total, k) == if total < CHUNK_SIZE * k then total else CHUNK_SIZE * k
  {
    if k > 0 {
      CarriedIsPrefix(total, k - 1);
    }
  }

  /** Over the whole supported range the chunks carry 1 to 1400 bytes each and `total` together. */
  lemma DownloadIsComplete(total: nat)
    requires 0 < total <= MAX_DOWNLOAD
    ensures forall i | 0 <= i < TotalSeqs(total) :: 1 <= Payload(total, i) <= CHUNK_SIZE
    ensures Carried(total, TotalSeqs(total)) == total
  {
    TotalSeqsExactIff(total);
    CarriedIsPrefix(total, TotalSeqs(total));
  }

  /** Every data packet of a supported download is read back as that data packet. */
  lemma DownloadReadsAsData(total: nat, i: nat)
    requires 0 < total <= MAX_DOWNLOAD && i < TotalSeqs(total)
    ensures Parse(Chunks(total, TotalSeqs(total), TotalSeqs(total))[i]) == Data(i, Payload(total, i))
  {
    TotalSeqsExactIff(total);
    DownloadIsComplete(total);
    assert CeilDiv(total) <= MAGIC_AS_SEQ;
    DataRoundTrip(i, TotalSeqs(total), Payload(total, i));
  }
}
