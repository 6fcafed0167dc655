/**
 The upload sessions of the UDP throughput service
 (src/Networker.Endpoint/UdpThroughputService.cs), over a network that loses,
 duplicates and reorders datagrams of any number of interleaved sources.
 */
module UdpUpload {
  import opened UdpWire
  import opened UdpDownload

  const TTL: int := 60_000_000_000
  const SWEEP_EVERY := 100
  const U64 := 0x1_0000_0000_0000_0000

  /** Socket addresses; the server only ever compares them. */
  type Source = nat

  datatype Session = Session(expectedBytes: int, receivedSeqs: set<nat>, receivedBytes: nat, createdAt: int)

  /**
   One received datagram with the clock readings taken while it is handled;
   `sendFails` says that a reply to it could not be sent.
   */
  datatype Event = Event(src: Source, pkt: seq<Byte>, created: int, swept: int, sendFails: bool)

  datatype Reply = None | Ack | AckAndDownload(total: int) | Report(bytes: nat)

  /** `ended`: an exception has left the receive loop and with it the service. */
  datatype State = State(uploads: map<Source, Session>, pktCounter: nat, ended: bool)

  const START := State(map[], 0, false)

  function Received(s: Session, number: nat, payload: nat): Session {
    if number in s.receivedSeqs then s
    else s.(receivedSeqs := s.receivedSeqs + {number}, receivedBytes := s.receivedBytes + payload)
  }

  function Dispatch(uploads: map<Source, Session>, e: Event): map<Source, Session> {
    match Parse(e.pkt)
    case Ctrl(cmd, value) =>
      if cmd == CMD_UPLOAD then uploads[e.src := Session(ToInt32(value), {}, 0, e.created)]
      else if cmd == CMD_DONE then uploads - {e.src}
      else uploads
    case Data(number, payload) =>
      if e.src in uploads then uploads[e.src := Received(uploads[e.src], number, payload)] else uploads
    case Ignored => uploads
  }

  function ReplyTo(uploads: map<Source, Session>, e: Event): Reply {
    match Parse(e.pkt)
    case Ctrl(cmd, value) =>
      if cmd == CMD_DOWNLOAD then AckAndDownload(ToInt32(value))
      else if cmd == CMD_UPLOAD then Ack
      else if cmd == CMD_DONE && e.src in uploads then Report(uploads[e.src].receivedBytes % U32)
      else None
    case Data(_, _) => None
    case Ignored => None
  }

  predicate Stale(s: Session, now: int) {
    now - s.createdAt >= TTL
  }

  function Sweep(uploads: map<Source, Session>, now: int): map<Source, Session> {
    map src | src in uploads && !Stale(uploads[src], now) :: uploads[src]
  }

  /** A reply that cannot be sent throws inside the receive loop. */
  predicate Breaks(s: State, e: Event) {
    !s.ended && e.sendFails && ReplyTo(s.uploads, e) != None
  }

  function Next(s: State, e: Event): State {
    if s.ended then s
    else
      var uploads := Dispatch(s.uploads, e);
      var n := (s.pktCounter + 1) % U64;
      if Breaks(s, e) then State(uploads, s.pktCounter, true)
      else State(if n % SWEEP_EVERY == 0 then Sweep(uploads, e.swept) else uploads, n, false)
  }

  /** What the client is really sent. */
  function Answer(s: State, e: Event): Reply {
    if s.ended || e.sendFails then None else ReplyTo(s.uploads, e)
  }

  /** The first packet of a reply. */
  function Packet(r: Reply): seq<Byte>
    requires r != None && (r.Report? ==> r.bytes < U32)
  {
    if r.Report? then MakeCtrl(CMD_REPORT, r.bytes) else MakeCtrl(CMD_ACK, 0)
  }

  /** Replies use the codec: the client reads the report that was made. */
  lemma ReplyIsRead(s: State, e: Event)
    requires Answer(s, e) != None
    ensures Answer(s, e).Report? ==> Answer(s, e).bytes < U32
    ensures Parse(Packet(Answer(s, e)))
         == if Answer(s, e).Report? then Ctrl(CMD_REPORT, Answer(s, e).bytes) else Ctrl(CMD_ACK, 0)
  {
    var r := Answer(s, e);
    hide Parse, MakeCtrl;
    if r.Report? {
      CtrlRoundTrip(CMD_REPORT, r.bytes);
    } else {
      CtrlRoundTrip(CMD_ACK, 0);
    }
  }

  /** The receive loop's state and the handling of one datagram. */
  class Server {
    var uploadStates: map<Source, Session>
    var pktCounter: nat
    var ended: bool

    ghost function Contents(): State
      reads this
    {
      State(uploadStates, pktCounter, ended)
    }

    constructor ()
      ensures Contents() == START
    {
      uploadStates := map[];
      pktCounter := 0;
      ended := false;
    }

    method Handle(e: Event) returns (sent: Reply)
      modifies this
      ensures sent == Answer(old(Contents()), e)
      ensures Contents() == Next(old(Contents()), e)
    {
      if ended {
        return None;
      }
      var reply := Receive(e);
      if reply != None && e.sendFails {
        ended := true;
        return None;
      }
      pktCounter := (pktCounter + 1) % U64;
      if pktCounter % SWEEP_EVERY == 0 {
        uploadStates := Sweep(uploadStates, e.swept);
      }
      sent := reply;
    }

    /** The dispatch on the datagram, up to the reply. */
    method Receive(e: Event) returns (reply: Reply)
      modifies this`uploadStates
      ensures reply == ReplyTo(old(uploadStates), e)
      ensures uploadStates == Dispatch(old(uploadStates), e)
    {
      reply := None;
      var n := |e.pkt|;
      if n == CTRL_LEN && e.pkt[..4] == MAGIC {
        var cmd, value := e.pkt[4], ReadU32(e.pkt[8..12]);
        if cmd == CMD_DOWNLOAD {
          reply := AckAndDownload(ToInt32(value));
        } else if cmd == CMD_UPLOAD {
          uploadStates := uploadStates[e.src := Session(ToInt32(value), {}, 0, e.created)];
          reply := Ack;
        } else if cmd == CMD_DONE {
          if e.src in uploadStates {
            var doneState := uploadStates[e.src];
            uploadStates := uploadStates - {e.src};
            reply := Report(doneState.receivedBytes % U32);
          } else {
            assert uploadStates == uploadStates - {e.src};
          }
        }
      } else if n > DATA_HDR_LEN {
        if e.src in uploadStates {
          var state := uploadStates[e.src];
          var number, dataLen := ReadU32(e.pkt[..4]), n - DATA_HDR_LEN;
          if number !in state.receivedSeqs {
            state := state.(receivedSeqs := state.receivedSeqs + {number},
                            receivedBytes := state.receivedBytes + dataLen);
          }
          uploadStates := uploadStates[e.src := state];
        }
      }
    }
  }

  // ---------- Runs ----------

  function Play(s: State, trace: seq<Event>): State {
    if trace == [] then s else Next(Play(s, trace[..|trace| - 1]), trace[|trace| - 1])
  }

  lemma {:induction false} PlayConcat(s: State, a: seq<Event>, b: seq<Event>)
    ensures Play(s, a + b) == Play(Play(s, a), b)
    decreases |b|
  {
    if b == [] {
      assert a + b == a;
    } else {
      assert (a + b)[..|a + b| - 1] == a + b[..|b| - 1];
      PlayConcat(s, a, b[..|b| - 1]);
    }
  }

  predicate BreaksAt(trace: seq<Event>, k: nat)
    requires k < |trace|
  {
    Breaks(Play(START, trace[..k]), trace[k])
  }

  ghost predicate EverBreaks(trace: seq<Event>) {
    exists k :: 0 <= k < |trace| && BreaksAt(trace, k)
  }

  lemma BreaksByTheLast(trace: seq<Event>)
    requires trace != []
    ensures var before, e := trace[..|trace| - 1], trace[|trace| - 1];
            EverBreaks(trace) <==> EverBreaks(before) || Breaks(Play(START, before), e)
  {
    hide Breaks, Play;
    var n := |trace| - 1;
    assert forall k: nat :: k <= n ==> trace[..n][..k] == trace[..k];
    if EverBreaks(trace) {
      var k :| 0 <= k < |trace| && BreaksAt(trace, k);
      assert k < n ==> BreaksAt(trace[..n], k);
    }
    if EverBreaks(trace[..n]) {
      var k :| 0 <= k < n && BreaksAt(trace[..n], k);
      assert BreaksAt(trace, k);
    }
    assert BreaksAt(trace, n) <==> Breaks(Play(START, trace[..n]), trace[n]);
  }

  lemma EndedNow(s: State, e: Event)
    ensures Next(s, e).ended <==> s.ended || Breaks(s, e)
  {
    hide Dispatch, Sweep, ReplyTo;
  }

  /**
   The service ends exactly at the first reply that cannot be sent, to whichever
   source, and then for all of them.
   */
  lemma {:induction false} EndsIff(trace: seq<Event>)
    ensures Play(START, trace).ended <==> exists k :: 0 <= k < |trace| && BreaksAt(trace, k)
    decreases |trace|
  {
    if trace != [] {
      hide Breaks, BreaksAt, Next;
      var n := |trace| - 1;
      EndsIff(trace[..n]);
      BreaksByTheLast(trace);
      EndedNow(Play(START, trace[..n]), trace[n]);
    }
  }

  /** Once ended, always ended. */
  lemma {:induction false} StaysEnded(s: State, trace: seq<Event>)
    requires s.ended
    ensures Play(s, trace) == s
    decreases |trace|
  {
    if trace != [] {
      StaysEnded(s, trace[..|trace| - 1]);
    }
  }

  // ---------- The reference: what arrived from one source ----------

  datatype Arrival = Arrival(number: nat, payload: nat)

  /** The data packets of `src` in the order of their arrival. */
  function Arrivals(trace: seq<Event>, src: Source): seq<Arrival> {
    if trace == [] then []
    else
      var e := trace[|trace| - 1];
      Arrivals(trace[..|trace| - 1], src)
      + if e.src == src && Parse(e.pkt).Data? then [Arrival(Parse(e.pkt).number, Parse(e.pkt).payload)] else []
  }

  function Numbers(a: seq<Arrival>): set<nat> {
    set x | x in a :: x.number
  }

  /** Payload of the first arrival of every distinct number. */
  function FirstArrivalBytes(a: seq<Arrival>): nat {
    if a == [] then 0
    else
      var init, x := a[..|a| - 1], a[|a| - 1];
      FirstArrivalBytes(init) + if x.number in Numbers(init) then 0 else x.payload
  }

  predicate IsCommand(e: Event, cmd: Byte) {
    Parse(e.pkt).Ctrl? && Parse(e.pkt).cmd == cmd
  }

  /** Between its UPLOAD and its DONE a source sends neither. */
  ghost predicate NoOwnControl(trace: seq<Event>, src: Source) {
    forall e | e in trace && e.src == src :: !IsCommand(e, CMD_UPLOAD) && !IsCommand(e, CMD_DONE)
  }

  /** No clock reading along the way is a TTL or more after the session's creation. */
  ghost predicate Young(trace: seq<Event>, created: int) {
    forall e | e in trace :: e.swept - created < TTL
  }

  function SessionOf(expected: int, a: seq<Arrival>, created: int): Session {
    Session(expected, Numbers(a), FirstArrivalBytes(a), created)
  }

  lemma StepKeepsSession(s: State, e: Event, src: Source, a: seq<Arrival>, expected: int, created: int)
    requires !s.ended && src in s.uploads && s.uploads[src] == SessionOf(expected, a, created)
    requires e.src == src ==> !IsCommand(e, CMD_UPLOAD) && !IsCommand(e, CMD_DONE)
    requires e.swept - created < TTL
    ensures var b := a + if e.src == src && Parse(e.pkt).Data?
                         then [Arrival(Parse(e.pkt).number, Parse(e.pkt).payload)] else [];
            src in Next(s, e).uploads && Next(s, e).uploads[src] == SessionOf(expected, b, created)
  {
    hide Parse, FirstArrivalBytes;
    if e.src == src && Parse(e.pkt).Data? {
      ArrivalGrows(a, Arrival(Parse(e.pkt).number, Parse(e.pkt).payload));
    } else {
      assert a + [] == a;
    }
  }

  lemma ArrivalGrows(a: seq<Arrival>, x: Arrival)
    ensures Numbers(a + [x]) == Numbers(a) + {x.number}
    ensures FirstArrivalBytes(a + [x])
            == FirstArrivalBytes(a) + if x.number in Numbers(a) then 0 else x.payload
  {
    assert (a + [x])[..|a|] == a;
  }

  lemma {:induction false} SessionTracksArrivals(
    s: State, mid: seq<Event>, src: Source, expected: int, created: int)
    requires src in s.uploads && s.uploads[src] == SessionOf(expected, [], created)
    requires NoOwnControl(mid, src) && Young(mid, created)
    requires !Play(s, mid).ended
    ensures src in Play(s, mid).uploads
    ensures Play(s, mid).uploads[src] == SessionOf(expected, Arrivals(mid, src), created)
    decreases |mid|
  {
    if mid != [] {
      var init, e := mid[..|mid| - 1], mid[|mid| - 1];
      assert mid == init + [e];
      assert e in mid && forall x | x in init :: x in mid;
      assert !Play(s, init).ended;
      SessionTracksArrivals(s, init, src, expected, created);
      StepKeepsSession(Play(s, init), e, src, Arrivals(init, src), expected, created);
    }
  }

  /**
   The report of an upload: whatever came before, and whatever other sources
   send meanwhile, a DONE is answered with the bytes of the first arrival of
   every distinct packet the source delivered since its UPLOAD (as a 32-bit
   value), unless the service has ended or this very reply cannot be sent.
   */
  lemma ReportCountsFirstArrivals(before: seq<Event>, upload: Event, mid: seq<Event>, done: Event)
    requires IsCommand(upload, CMD_UPLOAD) && IsCommand(done, CMD_DONE) && done.src == upload.src
    requires NoOwnControl(mid, upload.src)
    requires Young([upload] + mid, upload.created)
    ensures var now := Play(START, before + [upload] + mid);
            Answer(now, done) == if now.ended || done.sendFails then None
                                 else Report(FirstArrivalBytes(Arrivals(mid, upload.src)) % U32)
  {
    var s := Play(START, before + [upload]);
    PlayConcat(START, before + [upload], mid);
    assert (before + [upload])[..|before|] == before;
    assert upload in [upload] + mid && forall e | e in mid :: e in [upload] + mid;
    hide Parse;
    if s.ended {
      StaysEnded(s, mid);
    } else if !Play(s, mid).ended {
      var expected := ToInt32(Parse(upload.pkt).value);
      assert Numbers([]) == {};
      assert s.uploads[upload.src] == SessionOf(expected, [], upload.created);
      SessionTracksArrivals(s, mid, upload.src, expected, upload.created);
    }
  }

  /** Once handled, a session is gone: another DONE is not answered. */
  lemma DoneIsAnsweredOnce(s: State, done: Event, again: Event)
    requires IsCommand(done, CMD_DONE) && IsCommand(again, CMD_DONE) && done.src == again.src
    ensures Answer(Next(s, done), again) == None
  {
    hide Parse;
  }

  // ---------- What the report means to the client ----------

  /** Sizes of the chunks the client cut its upload into; chunk numbers are indices. */
  function Total(sizes: seq<nat>): nat {
    if sizes == [] then 0 else Total(sizes[..|sizes| - 1]) + sizes[|sizes| - 1]
  }

  function TotalOf(sizes: seq<nat>, delivered: set<nat>): nat {
    if sizes == [] then 0
    else TotalOf(sizes[..|sizes| - 1], delivered)
         + if |sizes| - 1 in delivered then sizes[|sizes| - 1] else 0
  }

  /** The network delivers chunks unchanged, in any order and any number of times. */
  ghost predicate Delivers(sizes: seq<nat>, a: seq<Arrival>) {
    forall x | x in a :: x.number < |sizes| && x.payload == sizes[x.number]
  }

  lemma {:induction false} TotalOfAdds(sizes: seq<nat>, delivered: set<nat>, k: nat)
    requires k !in delivered
    ensures TotalOf(sizes, delivered + {k}) == TotalOf(sizes, delivered) + if k < |sizes| then sizes[k] else 0
  {
    if sizes != [] {
      TotalOfAdds(sizes[..|sizes| - 1], delivered, k);
    }
  }

  lemma {:induction false} TotalOfNone(sizes: seq<nat>)
    ensures TotalOf(sizes, {}) == 0
  {
    if sizes != [] {
      TotalOfNone(sizes[..|sizes| - 1]);
    }
  }

  lemma {:induction false} TotalOfBounded(sizes: seq<nat>, delivered: set<nat>)
    requires forall i | 0 <= i < |sizes| :: sizes[i] > 0
    ensures TotalOf(sizes, delivered) <= Total(sizes)
    ensures TotalOf(sizes, delivered) == Total(sizes) <==> forall i | 0 <= i < |sizes| :: i in delivered
  {
    if sizes != [] {
      TotalOfBounded(sizes[..|sizes| - 1], delivered);
    }
  }

  lemma {:induction false} FirstArrivalsAreDelivered(sizes: seq<nat>, a: seq<Arrival>)
    requires Delivers(sizes, a)
    ensures FirstArrivalBytes(a) == TotalOf(sizes, Numbers(a))
    decreases |a|
  {
    if a == [] {
      assert Numbers([]) == {};
      TotalOfNone(sizes);
    } else {
      var init, x := a[..|a| - 1], a[|a| - 1];
      assert a == init + [x];
      FirstArrivalsAreDelivered(sizes, init);
      ArrivalGrows(init, x);
      if x.number in Numbers(init) {
        assert Numbers(init) + {x.number} == Numbers(init);
      } else {
        TotalOfAdds(sizes, Numbers(init), x.number);
      }
    }
  }

  /**
   Under loss, duplication and reordering the report is the sum of the sizes of
   the chunks that arrived; it equals the upload's total exactly when all did.
   There is a report unless the service has ended or cannot send it.
   */
  lemma ReportIsTotalIffComplete(
    sizes: seq<nat>, before: seq<Event>, upload: Event, mid: seq<Event>, done: Event)
    requires forall i | 0 <= i < |sizes| :: sizes[i] > 0
    requires Total(sizes) < U32
    requires IsCommand(upload, CMD_UPLOAD) && IsCommand(done, CMD_DONE) && done.src == upload.src
    requires NoOwnControl(mid, upload.src)
    requires Young([upload] + mid, upload.created)
    requires Delivers(sizes, Arrivals(mid, upload.src))
    ensures var now := Play(START, before + [upload] + mid);
            var reply, delivered := Answer(now, done), Numbers(Arrivals(mid, upload.src));
            if now.ended || done.sendFails then reply == None
            else
              && reply == Report(TotalOf(sizes, delivered))
              && (reply == Report(Total(sizes)) <==> forall i | 0 <= i < |sizes| :: i in delivered)
  {
    hide Parse, Answer, Play, Arrivals;
    ReportCountsFirstArrivals(before, upload, mid, done);
    FirstArrivalsAreDelivered(sizes, Arrivals(mid, upload.src));
    TotalOfBounded(sizes, Numbers(Arrivals(mid, upload.src)));
  }
}
