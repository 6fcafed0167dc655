/**
 The wire format of the UDP throughput service
 (src/Networker.Endpoint/UdpThroughputService.cs). All integers are little-endian.
 */
module UdpWire {

  type Byte = b: int | 0 <= b < 256

  const U32 := 0x1_0000_0000
  const MAGIC: seq<Byte> := [0x4E, 0x57, 0x4B, 0x54]  // "NWKT"
  const CTRL_LEN := 12
  const DATA_HDR_LEN := 8

  const CMD_DOWNLOAD: Byte := 0x01
  const CMD_UPLOAD: Byte := 0x02
  const CMD_DONE: Byte := 0x04
  const CMD_ACK: Byte := 0x10
  const CMD_REPORT: Byte := 0x11

  /** What the magic reads as when it stands where data packets carry their number. */
  const MAGIC_AS_SEQ := 0x544B_574E

  function WriteU32(v: nat): (bytes: seq<Byte>)
    requires v < U32
    ensures |bytes| == 4
  {
    [v % 256, v / 256 % 256, v / 65536 % 256, v / 16777216]
  }

  function Digits(a: int, b: int, c: int, d: int): int {
    a + 256 * b + 65536 * c + 16777216 * d
  }

  function ReadU32(bytes: seq<Byte>): (v: nat)
    requires |bytes| == 4
    ensures v < U32
  {
    Digits(bytes[0], bytes[1], bytes[2], bytes[3])
  }

  lemma ReadsWhatWasWritten(v: nat)
    requires v < U32
    ensures ReadU32(WriteU32(v)) == v
  {
    var a, b, c := v / 256, v / 65536, v / 16777216;
    assert v == 256 * a + v % 256;
    assert b == a / 256 && a == 256 * b + a % 256;
    assert c == b / 256 && b == 256 * c + b % 256;
  }

  /** A four-byte field is determined by the number it reads as. */
  lemma WritesWhatWasRead(bytes: seq<Byte>)
    requires |bytes| == 4
    ensures WriteU32(ReadU32(bytes)) == bytes
  {
    DigitsSplit(bytes[0], bytes[1], bytes[2], bytes[3]);
  }

  lemma DigitsSplit(a: int, b: int, c: int, d: int)
    requires 0 <= a < 256 && 0 <= b < 256 && 0 <= c < 256 && 0 <= d < 256
    ensures var v := Digits(a, b, c, d);
            v % 256 == a && v / 256 % 256 == b && v / 65536 % 256 == c && v / 16777216 == d
  {
    var v := Digits(a, b, c, d);
    assert v / 256 == b + 256 * c + 65536 * d;
    assert v / 65536 == c + 256 * d;
  }

  /** The number that a sequence of bytes stands for, least significant byte first. */
  function LittleEndian(bytes: seq<Byte>): nat {
    if bytes == [] then 0 else bytes[0] + 256 * LittleEndian(bytes[1..])
  }

  lemma LittleEndianOfFour(bytes: seq<Byte>)
    requires |bytes| == 4
    ensures LittleEndian(bytes) == ReadU32(bytes)
  {
    var b, c, d := bytes[1..], bytes[1..][1..], bytes[1..][1..][1..];
    assert d[1..] == [];
    assert LittleEndian(d) == bytes[3];
    assert LittleEndian(c) == bytes[2] + 256 * LittleEndian(d);
    assert LittleEndian(b) == bytes[1] + 256 * LittleEndian(c);
  }

  function MakeCtrl(cmd: Byte, value: nat): (pkt: seq<Byte>)
    requires value < U32
    ensures |pkt| == CTRL_LEN
  {
    MAGIC + [cmd, 0, 0, 0] + WriteU32(value)
  }

  function MakeData(number: nat, totalSeqs: nat, payload: nat): (pkt: seq<Byte>)
    requires number < U32 && totalSeqs < U32
    ensures |pkt| == DATA_HDR_LEN + payload
  {
    WriteU32(number) + WriteU32(totalSeqs) + seq(payload, _ => 0)
  }

  /** How the server reads a datagram. */
  datatype Parsed =
    | Ctrl(cmd: Byte, value: nat)
    | Data(number: nat, payload: nat)
    | Ignored

  function Parse(pkt: seq<Byte>): (p: Parsed)
    ensures p.Ctrl? ==> p.value < U32
    ensures p.Data? ==> p.number < U32 && p.payload >= 1
  {
    if |pkt| == CTRL_LEN && pkt[..4] == MAGIC then Ctrl(pkt[4], ReadU32(pkt[8..12]))
    else if |pkt| > DATA_HDR_LEN then Data(ReadU32(pkt[..4]), |pkt| - DATA_HDR_LEN)
    else Ignored
  }

  lemma CtrlRoundTrip(cmd: Byte, value: nat)
    requires value < U32
    ensures Parse(MakeCtrl(cmd, value)) == Ctrl(cmd, value)
  {
    var pkt := MakeCtrl(cmd, value);
    assert pkt[..4] == MAGIC && pkt[8..12] == WriteU32(value);
    ReadsWhatWasWritten(value);
  }

  /**
   A data packet is read back as itself exactly when it has a payload and does
   not happen to be a control packet: four bytes numbered like the magic.
   */
  lemma DataRoundTrip(number: nat, totalSeqs: nat, payload: nat)
    requires number < U32 && totalSeqs < U32
    ensures Parse(MakeData(number, totalSeqs, payload)) == Data(number, payload)
            <==> payload >= 1 && !(payload == 4 && number == MAGIC_AS_SEQ)
  {
    var pkt := MakeData(number, totalSeqs, payload);
    assert pkt[..4] == WriteU32(number);
    ReadsWhatWasWritten(number);
    WritesWhatWasRead(MAGIC);
    assert ReadU32(MAGIC) == MAGIC_AS_SEQ;
  }

  /** What a request for 100000 bytes looks like on the wire, and where the other commands differ. */
  lemma CommandBytes()
    ensures MakeCtrl(CMD_DOWNLOAD, 100_000) == [0x4E, 0x57, 0x4B, 0x54, 0x01, 0, 0, 0, 0xA0, 0x86, 0x01, 0]
    ensures MakeCtrl(CMD_UPLOAD, 0)[4] == 0x02 && MakeCtrl(CMD_DONE, 0)[4] == 0x04
    ensures MakeCtrl(CMD_ACK, 0)[4] == 0x10 && MakeCtrl(CMD_REPORT, 0)[4] == 0x11
  {
  }

  /** Number and count of a data packet are its first two fields, and its payload is zeros. */
  lemma DataFields(number: nat, totalSeqs: nat, payload: nat)
    requires number < U32 && totalSeqs < U32
    ensures var pkt := MakeData(number, totalSeqs, payload);
            && |pkt| == 8 + payload
            && LittleEndian(pkt[..4]) == number && LittleEndian(pkt[4..8]) == totalSeqs
            && forall i :: 8 <= i < |pkt| ==> pkt[i] == 0
  {
    var pkt := MakeData(number, totalSeqs, payload);
    assert pkt[..4] == WriteU32(number) && pkt[4..8] == WriteU32(totalSeqs);
    ReadsWhatWasWritten(number);
    ReadsWhatWasWritten(totalSeqs);
    LittleEndianOfFour(pkt[..4]);
    LittleEndianOfFour(pkt[4..8]);
  }
}
