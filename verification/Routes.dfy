/**
 The two transfer routes of the Go SDK (sdk/go/routes.go) as sequential code.
 They are what justifies the `TakeDownload` and `Charge` guards of the admission
 machine: no route ever asks for, or charges, more than its cap.
 */
module Routes {
  import opened ByteBudget

  const DEFAULT_CAP_BYTES := 4 * 1024 * 1024
  const ABSOLUTE_MAX_BYTES := 32 * 1024 * 1024
  const CHUNK_SIZE := 64 * 1024

  /** The `bytes` query parameter after parsing. */
  datatype BytesParam = Absent | Unparsable | OutOfRange | Value(v: nat)

  datatype Response =
    | BadRequest
    | TooLarge(closed: bool)
    | RateLimited(retryAfterS: int)
    | Failed
    | Sent(length: nat, chunks: seq<nat>, complete: bool)
    | Received(bytes: nat)

  function Sum(chunks: seq<nat>): nat {
    if chunks == [] then 0 else Sum(chunks[..|chunks| - 1]) + chunks[|chunks| - 1]
  }

  /** What a download of a well-formed request transfers: clamped, never rejected. */
  function Effective(p: BytesParam, downloadCap: nat): nat
    requires !p.Unparsable?
  {
    var requested := match p
      case Absent => DEFAULT_CAP_BYTES
      case OutOfRange => ABSOLUTE_MAX_BYTES
      case Value(v) => if v > ABSOLUTE_MAX_BYTES then ABSOLUTE_MAX_BYTES else v;
    if requested > downloadCap then downloadCap else requested
  }

  /** A size within both caps is sent as asked for, a larger one is cut to the smaller cap, and 4 MiB are the default. */
  lemma SizeSent(p: BytesParam, downloadCap: nat)
    requires !p.Unparsable?
    ensures var n := Effective(p, downloadCap);
            && (p.Value? && p.v <= downloadCap && p.v <= 33_554_432 ==> n == p.v)
            && (p.OutOfRange? || (p.Value? && p.v > 33_554_432) ==> n == 33_554_432 || n == downloadCap < 33_554_432)
            && (p.Value? && p.v > downloadCap && downloadCap <= 33_554_432 ==> n == downloadCap)
            && (p.Absent? ==> n == 4_194_304 || n == downloadCap < 4_194_304)
            && n <= downloadCap && n <= 33_554_432
  {
  }

  /** Every chunk is a full 64 KiB except possibly the last one of a complete response. */
  ghost predicate WellChunked(length: nat, chunks: seq<nat>, complete: bool) {
    && (forall i | 0 <= i < |chunks| :: 0 < chunks[i] <= 65_536)
    && (forall i | 0 <= i < |chunks| - 1 :: chunks[i] == 65_536)
    && Sum(chunks) <= length
    && (complete <==> Sum(chunks) == length)
  }

  /** `writable` is how many chunk writes succeed before the client goes away. */
  method ServeDownload(budget: Budget, p: BytesParam, downloadCap: nat, now: int, writable: nat)
      returns (r: Response)
    requires budget.bytes > 0 && budget.window > 0
    modifies budget
    ensures p.Unparsable? ==> r == BadRequest && budget.State() == old(budget.State())
    ensures !p.Unparsable? ==>
              var n := Effective(p, downloadCap);
              && n <= downloadCap
              && budget.State() == Taken(budget.bytes, budget.window, old(budget.State()), n, now)
              && if Accepts(budget.bytes, budget.window, old(budget.State()), now)
                 then r.Sent? && r.length == n && WellChunked(n, r.chunks, r.complete)
                      && (!r.complete ==> |r.chunks| == writable)
                 else r.RateLimited? && IsAdvice(budget.window, budget.State(), now, r.retryAfterS)
  {
    if p.Unparsable? {
      return BadRequest;
    }
    var effective := Effective(p, downloadCap);
    var retryAfterS, ok := budget.Take(effective, now);
    if !ok {
      return RateLimited(retryAfterS);
    }
    var chunks: seq<nat> := [];
    var remaining := effective;
    while remaining > 0
      invariant 0 <= remaining <= effective && |chunks| <= writable
      invariant Sum(chunks) == effective - remaining
      invariant forall i | 0 <= i < |chunks| :: 0 < chunks[i] <= CHUNK_SIZE
      invariant forall i | 0 <= i < |chunks| :: chunks[i] == CHUNK_SIZE || (i == |chunks| - 1 && remaining == 0)
    {
      var n := if remaining < CHUNK_SIZE then remaining else CHUNK_SIZE;
      if |chunks| == writable {
        return Sent(effective, chunks, false);
      }
      assert (chunks + [n])[..|chunks|] == chunks;
      chunks := chunks + [n];
      remaining := remaining - n;
    }
    return Sent(effective, chunks, true);
  }

  /** `body` is what the client would send in all; `broken` says that reading it fails. */
  method ServeUpload(budget: Budget, uploadCap: nat, contentLength: int, body: nat, broken: bool, now: int)
      returns (r: Response)
    requires budget.bytes > 0 && budget.window > 0
    modifies budget
    ensures contentLength > uploadCap ==> r == TooLarge(false) && budget.State() == old(budget.State())
    ensures contentLength <= uploadCap ==>
              var taken := Taken(budget.bytes, budget.window, old(budget.State()), 0, now);
              if !Accepts(budget.bytes, budget.window, old(budget.State()), now) then
                r.RateLimited? && IsAdvice(budget.window, taken, now, r.retryAfterS) && budget.State() == taken
              else if broken then r == Failed && budget.State() == taken
              else if body > uploadCap then r == TooLarge(true) && budget.State() == taken
              else r == Received(body) && budget.State() == taken.(used := taken.used + body)
  {
    if contentLength > uploadCap {
      return TooLarge(false);
    }
    var retryAfterS, ok := budget.Take(0, now);
    if !ok {
      return RateLimited(retryAfterS);
    }
    var received := if body < uploadCap + 1 then body else uploadCap + 1;
    if broken {
      return Failed;
    }
    if received > uploadCap {
      return TooLarge(true);
    }
    budget.Add(received);
    return Received(received);
  }
}
