/** What clients of the UDP throughput service get, from the request on the wire to the last packet. */
module UdpService {
  import opened UdpWire
  import opened UdpDownload
  import opened UdpUpload

  // ---------- Downloads ----------

  /** The bytes that the data packets among `pkts` carry. */
  function DataBytes(pkts: seq<seq<Byte>>): nat {
    if pkts == [] then 0
    else
      var p := Parse(pkts[|pkts| - 1]);
      DataBytes(pkts[..|pkts| - 1]) + if p.Data? then p.payload else 0
  }

  /** An acknowledgement, data packets numbered 0, 1, ... that carry `total` bytes together, and a DONE that says so. */
  ghost predicate Serves(sent: seq<seq<Byte>>, total: nat) {
    && |sent| >= 2
    && Parse(sent[0]) == Ctrl(CMD_ACK, 0)
    && (forall i :: 0 < i < |sent| - 1 ==>
          && Parse(sent[i]).Data? && Parse(sent[i]).number == i - 1
          && 1 <= Parse(sent[i]).payload <= 1400
          && LittleEndian(sent[i][4..8]) == |sent| - 2)
    && DataBytes(sent) == total
    && Parse(sent[|sent| - 1]) == Ctrl(CMD_DONE, total)
  }

  lemma {:induction false} ChunksCarry(total: nat, k: nat)
    requires 0 < total <= MAX_DOWNLOAD && k <= TotalSeqs(total)
    ensures DataBytes([MakeCtrl(CMD_ACK, 0)] + Chunks(total, TotalSeqs(total), k)) == Carried(total, k)
  {
    hide Parse, MakeCtrl, MakeData, TotalSeqs, Payload;
    var ack, n := MakeCtrl(CMD_ACK, 0), TotalSeqs(total);
    if k == 0 {
      CtrlRoundTrip(CMD_ACK, 0);
      var one: seq<seq<Byte>> := [ack];
      assert one[..0] == [] && one + [] == one;
    } else {
      ChunksCarry(total, k - 1);
      ChunkIsData(total, k - 1);
      var all := [ack] + Chunks(total, n, k);
      assert all[..|all| - 1] == [ack] + Chunks(total, n, k - 1);
    }
  }

  lemma ChunkIsData(total: nat, i: nat)
    requires 0 < total <= MAX_DOWNLOAD && i < TotalSeqs(total)
    ensures var pkt := MakeData(i, TotalSeqs(total), Payload(total, i));
            && Parse(pkt) == Data(i, Payload(total, i)) && 1 <= Payload(total, i) <= 1400
            && LittleEndian(pkt[4..8]) == TotalSeqs(total)
  {
    DownloadReadsAsData(total, i);
    DownloadIsComplete(total);
    DataFields(i, TotalSeqs(total), Payload(total, i));
  }

  lemma DoneAddsNothing(pkts: seq<seq<Byte>>, total: nat)
    requires total < U32
    ensures DataBytes(pkts + [MakeCtrl(CMD_DONE, total)]) == DataBytes(pkts)
  {
    hide Parse, MakeCtrl;
    CtrlRoundTrip(CMD_DONE, total);
    assert (pkts + [MakeCtrl(CMD_DONE, total)])[..|pkts|] == pkts;
  }

  lemma DownloadServes(total: nat)
    requires 0 < total <= MAX_DOWNLOAD
    ensures var n := TotalSeqs(total);
            Serves([MakeCtrl(CMD_ACK, 0)] + Chunks(total, n, n) + [MakeCtrl(CMD_DONE, total)], total)
  {
    hide Parse, MakeCtrl, MakeData, TotalSeqs, Payload, DataBytes;
    var n := TotalSeqs(total);
    var sent := [MakeCtrl(CMD_ACK, 0)] + Chunks(total, n, n) + [MakeCtrl(CMD_DONE, total)];
    CtrlRoundTrip(CMD_ACK, 0);
    CtrlRoundTrip(CMD_DONE, total);
    forall i | 0 < i < |sent| - 1
      ensures Parse(sent[i]).Data? && Parse(sent[i]).number == i - 1
      ensures 1 <= Parse(sent[i]).payload <= 1400 && LittleEndian(sent[i][4..8]) == |sent| - 2
    {
      ChunkIsData(total, i - 1);
    }
    ChunksCarry(total, n);
    DownloadIsComplete(total);
    DoneAddsNothing([MakeCtrl(CMD_ACK, 0)] + Chunks(total, n, n), total);
  }

  /** A request for a download within the supported range. */
  predicate Asks(e: Event, total: nat) {
    0 < total <= MAX_DOWNLOAD && e.pkt == MakeCtrl(CMD_DOWNLOAD, total)
  }

  lemma SmallIsItself(total: nat)
    requires total <= MAX_DOWNLOAD
    ensures ToUint32(total) == ToInt32(total) == total
  {
  }

  /** Whatever the server has seen, a request it can answer starts a download of what was asked for. */
  lemma DownloadIsAnswered(s: State, e: Event, total: nat)
    requires Asks(e, total) && !s.ended && !e.sendFails
    ensures Answer(s, e) == AckAndDownload(total)
  {
    CtrlRoundTrip(CMD_DOWNLOAD, total);
    SmallIsItself(total);
    hide Parse, MakeCtrl, ToInt32, ToUint32, Dispatch, Sweep;
  }

  /** One datagram from its arrival to the last packet sent because of it; `failAt` as in SendDownload. */
  method Respond(server: Server, e: Event, failAt: nat) returns (sent: seq<seq<Byte>>)
    modifies server
    ensures server.Contents() == Next(old(server.Contents()), e)
    ensures Answer(old(server.Contents()), e) == None <==> sent == []
    ensures sent != [] ==> sent[0] == Packet(Answer(old(server.Contents()), e))
    ensures sent != [] && !Answer(old(server.Contents()), e).AckAndDownload? ==> |sent| == 1
    ensures forall total: nat | Asks(e, total) && TotalSeqs(total) <= failAt && !old(server.ended) && !e.sendFails ::
              Serves(sent, total)
  {
    ghost var s := server.Contents();
    var reply := server.Handle(e);
    ghost var asked := reply;
    hide Parse, MakeCtrl, MakeData, TotalSeqs, DataBytes, Answer, Next, Serves, ToInt32, ToUint32;
    sent := [];
    if reply != None {
      assert reply.Report? ==> reply.bytes < U32 by { ReplyIsRead(s, e); }
      sent := [Packet(reply)];
      if reply.AckAndDownload? {
        assert IsInt32(reply.total) by { DownloadsAreInt32(s, e); }
        var data, _ := SendDownload(reply.total, failAt);
        sent := sent + data;
      }
    }
    forall total: nat | Asks(e, total) && TotalSeqs(total) <= failAt && !s.ended && !e.sendFails
      ensures Serves(sent, total)
    {
      DownloadIsAnswered(s, e, total);
      DownloadServes(total);
      SmallIsItself(total);
      var n := TotalSeqs(total);
      assert sent == [MakeCtrl(CMD_ACK, 0)] + Chunks(total, n, n) + [MakeCtrl(CMD_DONE, total)];
    }
  }

  lemma DownloadsAreInt32(s: State, e: Event)
    ensures Answer(s, e).AckAndDownload? ==> IsInt32(Answer(s, e).total)
  {
    hide Parse;
  }

  // ---------- Who is answered, and whose session a datagram touches ----------

  /** The service is ended exactly by a command that wants a reply: a download, an upload, or the DONE of a session. */
  lemma BreaksIff(s: State, e: Event)
    ensures Breaks(s, e) <==>
            && !s.ended && e.sendFails
            && (IsCommand(e, CMD_DOWNLOAD) || IsCommand(e, CMD_UPLOAD) || (IsCommand(e, CMD_DONE) && e.src in s.uploads))
  {
    hide Parse;
  }

  /** Each kind of reply answers exactly one kind of command, of a server that can still send. */
  lemma AnswersIff(s: State, e: Event)
    ensures var can := !s.ended && !e.sendFails;
            && (Answer(s, e).AckAndDownload? <==> can && IsCommand(e, CMD_DOWNLOAD))
            && (Answer(s, e).Ack? <==> can && IsCommand(e, CMD_UPLOAD))
            && (Answer(s, e).Report? <==> can && IsCommand(e, CMD_DONE) && e.src in s.uploads)
  {
    hide Parse;
  }

  /** An upload request opens a session with nothing received; a DONE closes the session of its source. */
  lemma CommandsOpenAndClose(s: State, e: Event, expected: nat)
    requires !s.ended && expected < U32
    ensures e.pkt == MakeCtrl(CMD_UPLOAD, expected) ==>
              Dispatch(s.uploads, e) == s.uploads[e.src := Session(ToInt32(expected), {}, 0, e.created)]
    ensures e.pkt == MakeCtrl(CMD_DONE, expected) ==> Dispatch(s.uploads, e) == s.uploads - {e.src}
  {
    CtrlRoundTrip(CMD_UPLOAD, expected);
    CtrlRoundTrip(CMD_DONE, expected);
    hide Parse, MakeCtrl, ToInt32;
  }

  /**
   A datagram opens or closes no session but that of its own source, and changes
   no other; what it cannot be taken for, a command of the service or data of an
   open session, changes nothing.
   */
  lemma OnlyOwnSession(s: State, e: Event, src: Source)
    ensures src != e.src ==>
              (src in Dispatch(s.uploads, e) <==> src in s.uploads)
              && (src in s.uploads ==> Dispatch(s.uploads, e)[src] == s.uploads[src])
    ensures IsCommand(e, CMD_UPLOAD) || IsCommand(e, CMD_DONE) || (Parse(e.pkt).Data? && e.src in s.uploads)
            || Dispatch(s.uploads, e) == s.uploads
  {
    hide Parse;
  }

  // ---------- Sweeping ----------

  /** Until it ends the service counts its datagrams, as a 64-bit number. */
  lemma {:induction false} CountsDatagrams(trace: seq<Event>)
    requires !Play(START, trace).ended
    ensures Play(START, trace).pktCounter == |trace| % 0x1_0000_0000_0000_0000
    decreases |trace|
  {
    if trace != [] {
      hide Dispatch, Sweep, Breaks;
      CountsDatagrams(trace[..|trace| - 1]);
      CountsOn(|trace| - 1);
    }
  }

  lemma CountsOn(n: nat)
    ensures (n % U64 + 1) % U64 == (n + 1) % U64
  {
    var q, r := n / U64, n % U64;
    assert n + 1 == U64 * q + r + 1;
    assert r + 1 == U64 ==> n + 1 == U64 * (q + 1);
  }

  /**
   On every hundredth datagram exactly the sessions created 60 seconds ago or more
   are dropped; on every other none is.
   */
  lemma SweptIff(trace: seq<Event>, src: Source)
    requires trace != [] && !Play(START, trace).ended
    ensures var e := trace[|trace| - 1];
            var kept := Dispatch(Play(START, trace[..|trace| - 1]).uploads, e);
            && (src in Play(START, trace).uploads <==>
                  src in kept && !(|trace| % 0x1_0000_0000_0000_0000 % 100 == 0 && e.swept - kept[src].createdAt >= 60_000_000_000))
            && (src in Play(START, trace).uploads ==> Play(START, trace).uploads[src] == kept[src])
  {
    CountsDatagrams(trace);
    hide Dispatch, Breaks;
  }
}
