/** One resumable transfer: a destination, its `.part` file, and whatever the network does. */
module Download {
  import opened Wrappers
  import opened Contents

  const U64_MAX: nat := 0xFFFF_FFFF_FFFF_FFFF

  /** What the body stream yields next. `Unwritable` data arrives whole but only partly reaches the disk. */
  datatype Chunk = Data(bytes: Bytes) | Broken | Unwritable(bytes: Bytes, written: nat)

  /** A chunk, and whether cancellation had been requested when it came in. */
  datatype Arrival = Arrival(chunk: Chunk, cancelled: bool)

  datatype Reply =
    | Unreachable
    | Response(status: nat, rangeStart: Option<nat>, openFails: bool, body: seq<Arrival>, flushFails: bool)

  datatype DownloadError = Cancelled | Transport | HttpStatus(status: nat) | SizeLimit | InvalidRange | Io | Mismatch

  /** Size limit of the manager, and what the request knows about the file. */
  datatype Request = Request(maxFileSize: nat, size: Option<nat>, hash: Option<FileHash>)

  predicate Accepts(request: Request, bytes: Bytes) {
    Matches(bytes, request.size, request.hash)
  }

  function SaturatingAdd(a: nat, b: nat): nat {
    if a + b > U64_MAX then U64_MAX else a + b
  }

  function Length(file: Option<Bytes>): nat {
    if file.Some? then |file.value| else 0
  }

  function Reached(bytes: Bytes, written: nat): Bytes {
    if written <= |bytes| then bytes[..written] else bytes
  }

  /** The part file and the result after streaming a body onto `file`. */
  function Stream(file: Bytes, downloaded: nat, limit: nat, body: seq<Arrival>): (Bytes, Option<DownloadError>)
    decreases |body|
  {
    if body == [] then (file, None)
    else if body[0].cancelled then (file, Some(Cancelled))
    else if body[0].chunk.Broken? then (file, Some(Transport))
    else
      var total := SaturatingAdd(downloaded, |body[0].chunk.bytes|);
      if total > limit then (file, Some(SizeLimit))
      else
        match body[0].chunk
        case Unwritable(bytes, written) => (file + Reached(bytes, written), Some(Io))
        case Data(bytes) => Stream(file + bytes, total, limit, body[1..])
  }

  predicate IsSuccess(status: nat) {
    200 <= status < 300
  }

  /** One request for the bytes that are still missing. `None` as a result means it ended cleanly. */
  function Attempt(part: Option<Bytes>, limit: nat, reply: Reply): (Option<Bytes>, Option<DownloadError>) {
    match reply
    case Unreachable => (part, Some(Transport))
    case Response(status, rangeStart, openFails, body, flushFails) =>
      if status == 416 then (part, None)
      else if !IsSuccess(status) then (part, Some(HttpStatus(status)))
      else
        var append := Length(part) > 0 && status == 206;
        if append && rangeStart != Some(Length(part)) then (part, Some(InvalidRange))
        else if openFails then (part, Some(Io))
        else
          var start := if append then part.value else [];
          var (file, error) := Stream(start, |start|, limit, body);
          (Some(file), if error.None? && flushFails then Some(Io) else error)
  }

  /** One round of the retry loop: whether cancellation is pending, and how the server answers. */
  datatype Round = Round(cancelled: bool, reply: Reply)

  /** The retry loop. A success hands over the bytes that are renamed into place. */
  function Rounds(part: Option<Bytes>, request: Request, rounds: seq<Round>, last: Option<DownloadError>)
    : (Option<Bytes>, Result<Bytes, DownloadError>)
    decreases |rounds|
  {
    if rounds == [] then (part, Failure(if last.Some? then last.value else Cancelled))
    else if rounds[0].cancelled then (part, Failure(Cancelled))
    else
      var (file, error) := Attempt(part, request.maxFileSize, rounds[0].reply);
      if error.Some? then Rounds(file, request, rounds[1..], error)
      else if file.None? then Rounds(None, request, rounds[1..], Some(Io))
      else if Accepts(request, file.value) then (None, Success(file.value))
      else Rounds(None, request, rounds[1..], Some(Mismatch))
  }

  datatype Slot = Slot(dest: Option<Bytes>, part: Option<Bytes>)

  datatype Completed = Completed(bytes: nat, reused: bool)

  predicate Present(file: Option<Bytes>, request: Request) {
    file.Some? && Accepts(request, file.value)
  }

  predicate Valid(request: Request) {
    request.size.Some? ==> request.size.value <= request.maxFileSize
  }

  /** `download`. */
  function Downloaded(slot: Slot, request: Request, rounds: seq<Round>): (Slot, Result<Completed, DownloadError>) {
    if !Valid(request) then (slot, Failure(SizeLimit))
    else if Present(slot.dest, request) then (slot, Success(Completed(Length(slot.dest), true)))
    else
      match Rounds(slot.part, request, rounds, None)
      case (part, Failure(error)) => (Slot(None, part), Failure(error))
      case (part, Success(bytes)) => (Slot(Some(bytes), part), Success(Completed(|bytes|, false)))
  }

  /** `recover_local`. */
  function RecoveredLocally(slot: Slot, request: Request): (Slot, Result<bool, DownloadError>) {
    if !Valid(request) then (slot, Failure(SizeLimit))
    else if Present(slot.dest, request) then (slot, Success(true))
    else if !Present(slot.part, request) then (slot, Success(false))
    else (Slot(slot.part, None), Success(true))
  }

  /** The two files on disk, changed in place by the code below. */
  class DownloadFiles {
    var dest: Option<Bytes>
    var part: Option<Bytes>

    constructor (dest: Option<Bytes>, part: Option<Bytes>)
      ensures this.dest == dest && this.part == part
    {
      this.dest, this.part := dest, part;
    }

    function AsSlot(): Slot
      reads this
    {
      Slot(dest, part)
    }

    /** `download_once`. */
    method DownloadOnce(limit: nat, reply: Reply) returns (error: Option<DownloadError>)
      modifies this`part
      ensures (part, error) == Attempt(old(part), limit, reply)
    {
      var existing := Length(part);
      if reply.Unreachable? { return Some(Transport); }
      if reply.status == 416 { return None; }
      if !IsSuccess(reply.status) { return Some(HttpStatus(reply.status)); }
      var append := existing > 0 && reply.status == 206;
      if append && reply.rangeStart != Some(existing) { return Some(InvalidRange); }
      if reply.openFails { return Some(Io); }
      if !append { part := Some([]); }
      var downloaded: nat := |part.value|;
      ghost var start := part.value;
      var i := 0;
      assert reply.body[0..] == reply.body;
      while i < |reply.body|
        invariant 0 <= i <= |reply.body| && part.Some?
        invariant Stream(start, |start|, limit, reply.body) == Stream(part.value, downloaded, limit, reply.body[i..])
      {
        var arrival := reply.body[i];
        assert reply.body[i..][1..] == reply.body[i + 1..];
        if arrival.cancelled { return Some(Cancelled); }
        if arrival.chunk.Broken? { return Some(Transport); }
        downloaded := SaturatingAdd(downloaded, |arrival.chunk.bytes|);
        if downloaded > limit { return Some(SizeLimit); }
        if arrival.chunk.Unwritable? {
          part := Some(part.value + Reached(arrival.chunk.bytes, arrival.chunk.written));
          return Some(Io);
        }
        part := Some(part.value + arrival.chunk.bytes);
        i := i + 1;
      }
      assert reply.body[i..] == [];
      error := if reply.flushFails then Some(Io) else None;
    }

    /** `download`, with one round for the first try and one per retry. */
    method Download(request: Request, rounds: seq<Round>) returns (r: Result<Completed, DownloadError>)
      modifies this
      ensures (AsSlot(), r) == Downloaded(old(AsSlot()), request, rounds)
    {
      if !Valid(request) { return Failure(SizeLimit); }
      if dest.Some? && Accepts(request, dest.value) {
        return Success(Completed(|dest.value|, true));
      }
      dest := None;
      var last: Option<DownloadError> := None;
      assert rounds[0..] == rounds;
      for k := 0 to |rounds|
        invariant dest == None
        invariant Rounds(old(part), request, rounds, None) == Rounds(part, request, rounds[k..], last)
      {
        assert rounds[k..][1..] == rounds[k + 1..];
        if rounds[k].cancelled { return Failure(Cancelled); }
        var error := DownloadOnce(request.maxFileSize, rounds[k].reply);
        if error.Some? {
          last := error;
        } else if part.None? {
          last := Some(Io);
        } else if Accepts(request, part.value) {
          dest, part := part, None;
          return Success(Completed(|dest.value|, false));
        } else {
          part, last := None, Some(Mismatch);
        }
      }
      assert rounds[|rounds|..] == [];
      r := Failure(if last.Some? then last.value else Cancelled);
    }

    method RecoverLocal(request: Request) returns (r: Result<bool, DownloadError>)
      modifies this
      ensures (AsSlot(), r) == RecoveredLocally(old(AsSlot()), request)
    {
      if !Valid(request) { return Failure(SizeLimit); }
      if dest.Some? && Accepts(request, dest.value) { return Success(true); }
      if part.None? || !Accepts(request, part.value) { return Success(false); }
      if dest.Some? { dest := None; }
      dest, part := part, None;
      r := Success(true);
    }
  }

  // ---- resuming against an honest server (RFC 9110, sections 14.2, 14.4, 15.3.7 and 15.5.17)

  /** A body that delivers `rest` in order, completely unless it visibly breaks off. */
  ghost predicate HonestBody(body: seq<Arrival>, rest: Bytes) {
    if body == [] then rest == []
    else
      match body[0].chunk
      case Broken => true
      case Unwritable(bytes, _) => bytes <= rest
      case Data(bytes) => bytes <= rest && HonestBody(body[1..], rest[|bytes|..])
  }

  /** How a server that holds `content` may answer a request for everything from `existing` on. */
  ghost predicate Honest(content: Bytes, existing: nat, reply: Reply) {
    reply.Response? && IsSuccess(reply.status) ==>
      || (reply.status == 200 && HonestBody(reply.body, content))
      || (reply.status == 206 && 0 < existing < |content| && reply.rangeStart == Some(existing)
          && HonestBody(reply.body, content[existing..]))
  }

  ghost predicate HonestRange(content: Bytes, existing: nat, reply: Reply) {
    Honest(content, existing, reply) && (reply.Response? && reply.status == 416 ==> 0 < existing && |content| <= existing)
  }

  ghost predicate PrefixOf(part: Option<Bytes>, content: Bytes) {
    part.Some? ==> part.value <= content
  }

  lemma {:induction false} StreamFollowsContent(content: Bytes, file: Bytes, downloaded: nat, limit: nat, body: seq<Arrival>)
    requires file <= content && HonestBody(body, content[|file|..])
    ensures Stream(file, downloaded, limit, body).0 <= content
    ensures Stream(file, downloaded, limit, body).1.None? ==> Stream(file, downloaded, limit, body).0 == content
    decreases |body|
  {
    if body != [] && !body[0].chunk.Broken? {
      var bytes := body[0].chunk.bytes;
      assert file + bytes <= content;
      assert content[|file + bytes|..] == content[|file|..][|bytes|..];
      if body[0].chunk.Data? && !body[0].cancelled {
        StreamFollowsContent(content, file + bytes, SaturatingAdd(downloaded, |bytes|), limit, body[1..]);
      } else if body[0].chunk.Unwritable? {
        assert Reached(bytes, body[0].chunk.written) <= bytes;
      }
    }
  }

  /** One attempt keeps the part file a prefix of the server's bytes; a clean end means it is all of them. */
  lemma ResumeIsCorrect(content: Bytes, part: Option<Bytes>, limit: nat, reply: Reply)
    requires PrefixOf(part, content) && HonestRange(content, Length(part), reply)
    ensures PrefixOf(Attempt(part, limit, reply).0, content)
    ensures Attempt(part, limit, reply).1.None? ==> Attempt(part, limit, reply).0 == Some(content)
  {
    if reply.Response? && IsSuccess(reply.status) {
      if reply.status == 206 {
        StreamFollowsContent(content, part.value, |part.value|, limit, reply.body);
      } else {
        assert content[0..] == content;
        StreamFollowsContent(content, [], 0, limit, reply.body);
      }
    } else if reply.Response? && reply.status == 416 {
      assert part.value == content;
    }
  }

  /** Every round is answered honestly for the part file as it then is. */
  ghost predicate HonestRounds(content: Bytes, part: Option<Bytes>, request: Request, rounds: seq<Round>)
    decreases |rounds|
  {
    rounds == [] || rounds[0].cancelled ||
    (HonestRange(content, Length(part), rounds[0].reply) &&
     var (file, error) := Attempt(part, request.maxFileSize, rounds[0].reply);
     if error.Some? then HonestRounds(content, file, request, rounds[1..])
     else (file.Some? && Accepts(request, file.value)) || HonestRounds(content, None, request, rounds[1..]))
  }

  /** Whether some round, reached in the loop, ended cleanly. */
  ghost predicate SomeCleanRound(part: Option<Bytes>, request: Request, rounds: seq<Round>)
    decreases |rounds|
  {
    rounds != [] && !rounds[0].cancelled &&
    var (file, error) := Attempt(part, request.maxFileSize, rounds[0].reply);
    error.None? || SomeCleanRound(file, request, rounds[1..])
  }

  /**
   * Through any mixture of chunks, breakdowns, cancellations and retries the part file stays a prefix.
   * When the content is what the request expects, the loop succeeds exactly when some round ends cleanly,
   * and then with exactly that content.
   */
  lemma {:induction false} RetriesAreCorrect(content: Bytes, part: Option<Bytes>, request: Request, rounds: seq<Round>, last: Option<DownloadError>)
    requires PrefixOf(part, content) && HonestRounds(content, part, request, rounds)
    ensures PrefixOf(Rounds(part, request, rounds, last).0, content)
    ensures Rounds(part, request, rounds, last).1.Success? ==> Rounds(part, request, rounds, last).1.value == content
    ensures Rounds(part, request, rounds, last).1.Success? <==> SomeCleanRound(part, request, rounds) && Accepts(request, content)
    decreases |rounds|
  {
    if rounds != [] && !rounds[0].cancelled {
      ResumeIsCorrect(content, part, request.maxFileSize, rounds[0].reply);
      var (file, error) := Attempt(part, request.maxFileSize, rounds[0].reply);
      if error.Some? {
        RetriesAreCorrect(content, file, request, rounds[1..], error);
      } else if !Accepts(request, content) {
        RetriesAreCorrect(content, None, request, rounds[1..], Some(Mismatch));
      }
    }
  }

  /** A successful download from an honest server leaves the server's bytes at the destination. */
  lemma DownloadDeliversContent(content: Bytes, slot: Slot, request: Request, rounds: seq<Round>)
    requires PrefixOf(slot.part, content) && HonestRounds(content, slot.part, request, rounds)
    requires Valid(request) && !Present(slot.dest, request)
    ensures
      var (after, r) := Downloaded(slot, request, rounds);
      && PrefixOf(after.part, content)
      && (r.Success? <==> SomeCleanRound(slot.part, request, rounds) && Accepts(request, content))
      && after.dest == (if r.Success? then Some(content) else None)
  {
    RetriesAreCorrect(content, slot.part, request, rounds, None);
  }

  /** The loop gets a second chance: a clean round yields something acceptable, or is followed by another clean one. */
  ghost predicate TwoCleanRounds(part: Option<Bytes>, request: Request, rounds: seq<Round>)
    decreases |rounds|
  {
    rounds != [] && !rounds[0].cancelled &&
    var (file, error) := Attempt(part, request.maxFileSize, rounds[0].reply);
    if error.Some? then TwoCleanRounds(file, request, rounds[1..])
    else Present(file, request) || SomeCleanRound(None, request, rounds[1..])
  }

  /**
   * A stale part file, however wrong, costs at most one clean round: against an honest server, with a hash in the
   * request, the loop ends in the right content exactly when a first clean round is good or a second one follows,
   * with any failed rounds before and between.
   */
  lemma {:induction false} StalePartIsHealed(content: Bytes, part: Option<Bytes>, request: Request, rounds: seq<Round>, last: Option<DownloadError>)
    requires request.hash.Some? && Accepts(request, content) && HonestRounds(content, part, request, rounds)
    ensures Rounds(part, request, rounds, last).1.Success? <==> TwoCleanRounds(part, request, rounds)
    ensures Rounds(part, request, rounds, last).1.Success? ==> Rounds(part, request, rounds, last).1.value == content
    decreases |rounds|
  {
    if rounds != [] && !rounds[0].cancelled {
      var (file, error) := Attempt(part, request.maxFileSize, rounds[0].reply);
      if error.Some? {
        StalePartIsHealed(content, file, request, rounds[1..], error);
      } else if !Present(file, request) {
        RetriesAreCorrect(content, None, request, rounds[1..], Some(if file.None? then Io else Mismatch));
      }
    }
  }

  // ---- whatever the server does

  ghost predicate Sound(file: Option<Bytes>, request: Request) {
    file.Some? ==> Accepts(request, file.value)
  }

  lemma {:induction false} OnlyAcceptedBytesSucceed(part: Option<Bytes>, request: Request, rounds: seq<Round>, last: Option<DownloadError>)
    ensures Rounds(part, request, rounds, last).1.Success? ==> Accepts(request, Rounds(part, request, rounds, last).1.value)
    decreases |rounds|
  {
    if rounds != [] && !rounds[0].cancelled {
      var (file, error) := Attempt(part, request.maxFileSize, rounds[0].reply);
      if error.Some? {
        OnlyAcceptedBytesSucceed(file, request, rounds[1..], error);
      } else if file.None? {
        OnlyAcceptedBytesSucceed(None, request, rounds[1..], Some(Io));
      } else if !Accepts(request, file.value) {
        OnlyAcceptedBytesSucceed(None, request, rounds[1..], Some(Mismatch));
      }
    }
  }

  datatype Call = DownloadCall(rounds: seq<Round>) | RecoverCall

  function AfterCall(slot: Slot, request: Request, call: Call): Slot {
    match call
    case DownloadCall(rounds) => Downloaded(slot, request, rounds).0
    case RecoverCall => RecoveredLocally(slot, request).0
  }

  function AfterCalls(slot: Slot, request: Request, calls: seq<Call>): Slot
    decreases |calls|
  {
    if calls == [] then slot else AfterCalls(AfterCall(slot, request, calls[0]), request, calls[1..])
  }

  /** A download leaves a sound destination whatever it found; so does a successful local recovery. */
  lemma CallsLeaveSoundDestinations(slot: Slot, request: Request, rounds: seq<Round>)
    requires Valid(request)
    ensures Sound(Downloaded(slot, request, rounds).0.dest, request)
    ensures Sound(slot.dest, request) ==> Sound(RecoveredLocally(slot, request).0.dest, request)
    ensures RecoveredLocally(slot, request).1 == Success(true) ==> Present(RecoveredLocally(slot, request).0.dest, request)
    ensures
      var (after, r) := Downloaded(slot, request, rounds);
      (r.Success? <==> after.dest.Some?) && (r.Success? ==> r.value.bytes == Length(after.dest))
  {
    OnlyAcceptedBytesSucceed(slot.part, request, rounds, None);
  }

  /** Once one download has run, the destination is absent or verified after every later call. */
  lemma {:induction false} DestinationStaysSound(slot: Slot, request: Request, calls: seq<Call>)
    requires Valid(request)
    requires Sound(slot.dest, request) || (calls != [] && calls[0].DownloadCall?)
    ensures Sound(AfterCalls(slot, request, calls).dest, request)
    decreases |calls|
  {
    if calls != [] {
      var rounds := if calls[0].DownloadCall? then calls[0].rounds else [];
      CallsLeaveSoundDestinations(slot, request, rounds);
      DestinationStaysSound(AfterCall(slot, request, calls[0]), request, calls[1..]);
    }
  }

  /** Local recovery alone leaves a sound destination exactly when it found one, or a complete part file to put in its place. */
  lemma RecoveryIsSoundIff(slot: Slot, request: Request)
    requires Valid(request)
    ensures Sound(RecoveredLocally(slot, request).0.dest, request) <==> Sound(slot.dest, request) || Present(slot.part, request)
  {
  }

  lemma {:induction false} StreamStaysWithinLimit(file: Bytes, limit: nat, body: seq<Arrival>)
    requires |file| <= limit < U64_MAX
    ensures |Stream(file, |file|, limit, body).0| <= limit
    decreases |body|
  {
    if body != [] && !body[0].cancelled && !body[0].chunk.Broken? {
      var total := SaturatingAdd(|file|, |body[0].chunk.bytes|);
      if total <= limit && body[0].chunk.Data? {
        StreamStaysWithinLimit(file + body[0].chunk.bytes, limit, body[1..]);
      }
    }
  }

  /** A part file within the size limit never grows past it. */
  lemma {:induction false} PartStaysWithinLimit(part: Option<Bytes>, request: Request, rounds: seq<Round>, last: Option<DownloadError>)
    requires Length(part) <= request.maxFileSize < U64_MAX
    ensures Length(Rounds(part, request, rounds, last).0) <= request.maxFileSize
    decreases |rounds|
  {
    if rounds != [] && !rounds[0].cancelled {
      var reply := rounds[0].reply;
      var (file, error) := Attempt(part, request.maxFileSize, reply);
      if reply.Response? {
        var start := if part.Some? then part.value else [];
        StreamStaysWithinLimit(start, request.maxFileSize, reply.body);
        StreamStaysWithinLimit([], request.maxFileSize, reply.body);
      }
      if error.Some? {
        PartStaysWithinLimit(file, request, rounds[1..], error);
      } else if file.None? {
        PartStaysWithinLimit(None, request, rounds[1..], Some(Io));
      } else if !Accepts(request, file.value) {
        PartStaysWithinLimit(None, request, rounds[1..], Some(Mismatch));
      }
    }
  }

  /** Whatever a server sends in one body, a file within the limit stays within it. */
  ghost predicate LimitBinds(limit: nat) {
    forall file: Bytes, body :: |file| <= limit ==> |Stream(file, |file|, limit, body).0| <= limit
  }

  /** The limit binds exactly when it is below the largest 64-bit number: the saturating count never exceeds that one. */
  lemma LimitBindsIff(limit: nat)
    ensures LimitBinds(limit) <==> limit < U64_MAX
  {
    if limit < U64_MAX {
      forall file: Bytes, body | |file| <= limit ensures |Stream(file, |file|, limit, body).0| <= limit {
        StreamStaysWithinLimit(file, limit, body);
      }
    } else {
      var file: Bytes := seq(limit, i => 0 as Byte);
      OneMoreByte(file, limit);
    }
  }

  lemma OneMoreByte(file: Bytes, limit: nat)
    requires |file| == limit >= U64_MAX
    ensures |Stream(file, |file|, limit, [Arrival(Data([0]), false)]).0| > limit
  {
    var body := [Arrival(Data([0]), false)];
    assert body[1..] == [];
    assert Stream(file + [0], SaturatingAdd(|file|, 1), limit, []) == (file + [0], None);
  }
}
