/**
 * A controller session: one connection, one request at a time, and an upload
 * that the daemon reads in pieces of its own choosing.  Client and daemon step
 * independently; either may fail at any moment.
 */
module Session {
  import opened Bits
  import opened Results

  datatype Api = Import | Other(code: nat)

  /** The serial is the number in the request identifier. */
  datatype Request = Request(serial: nat, api: Api, payload: seq<byte>)

  datatype Frame = RequestFrame(request: Request) | ContentFrame(bytes: seq<byte>)

  /** History only: which frame a response was computed for. */
  datatype Origin = FromRequest(serial: nat) | FromContent

  /** A malformed frame is answered without a serial. */
  datatype Response = Response(serial: Option<nat>, api: Api, ok: bool, payload: seq<byte>, origin: Origin)

  /** `stream` is kept only between exchanges: taken while one runs, restored when it completes. */
  datatype Client =
    | Idle
    | Uploading(request: Request, file: seq<byte>, sent: nat)
    | Awaiting(request: Request, file: seq<byte>)
    | Closed

  /** `ContentStream`: the current frame, how far it was read, and whether the end was seen. */
  datatype Stream = Stream(buffer: seq<byte>, position: nat, finished: bool)

  datatype Daemon =
    | Waiting
    | Importing(request: Request, origin: Origin, stream: Stream, received: seq<byte>)
    | Gone

  datatype Return = Return(request: Request, file: seq<byte>, response: Response)

  datatype State = State(
    client: Client, next: nat, daemon: Daemon, up: seq<Frame>, down: seq<Response>,
    /** History: requests put on the wire, what the daemon answered to each, what it had imported, and what calls returned. */
    sends: nat, answers: map<nat, (Request, Response)>, imports: map<nat, seq<byte>>, returned: seq<Return>)

  const IMPORT_CHUNK: nat := 4 * 1024 * 1024

  predicate Init(s: State) {
    s == State(Idle, 0, Waiting, [], [], 0, map[], map[], [])
  }

  // ----- The upload reader

  /** One `read` of at most `max` bytes: what it returns, the reader after it, and the frames left. */
  function ReadContent(stream: Stream, up: seq<Frame>, max: nat): (r: Option<(seq<byte>, Stream, seq<Frame>)>)
    requires stream.position <= |stream.buffer|
    ensures r.Some? ==> r.value.1.position <= |r.value.1.buffer|
  {
    if stream.position < |stream.buffer| then
      var count := if |stream.buffer| - stream.position < max then |stream.buffer| - stream.position else max;
      Some((stream.buffer[stream.position..stream.position + count], stream.(position := stream.position + count), up))
    else if stream.finished then Some(([], stream, up))
    else if up == [] || !up[0].ContentFrame? then None
    else if up[0].bytes == [] then Some(([], stream.(finished := true), up[1..]))
    else
      var count := if |up[0].bytes| < max then |up[0].bytes| else max;
      Some((up[0].bytes[..count], Stream(up[0].bytes, count, false), up[1..]))
  }

  // ----- Steps

  datatype Action =
    | Send(api: Api, payload: seq<byte>, file: seq<byte>)
    | SendFails
    | Upload
    | UploadEnds
    | UploadFails
    | Receive
    | Timeout
    | TakeFrame(ok: bool, answer: seq<byte>)
    | ReadSome(max: nat)
    | SeeHangup
    | AnswerImport(ok: bool, answer: seq<byte>)
    | Die

  /** Answering a request: the response goes down and the history remembers it. */
  function Answer(s: State, r: Request, origin: Origin, ok: bool, payload: seq<byte>): (t: State) {
    var response := Response(Some(r.serial), r.api, ok, payload, origin);
    s.(daemon := Waiting, down := s.down + [response],
       answers := if origin == FromRequest(r.serial) then s.answers[r.serial := (r, response)] else s.answers)
  }

  /** Taking a request in hand: an import waits for its content, anything else is answered. */
  function Take(s: State, r: Request, origin: Origin, ok: bool, payload: seq<byte>): (t: State) {
    if r.api == Import then s.(daemon := Importing(r, origin, Stream([], 0, false), []))
    else Answer(s, r, origin, ok, payload)
  }

  /** The steps of the daemon.  `decode` is what a content frame would mean as a request. */
  ghost predicate DaemonStep(s: State, t: State, a: Action, decode: seq<byte> -> Option<Request>) {
    match a
    case TakeFrame(ok, payload) =>
      && s.daemon == Waiting && s.up != []
      && var rest := s.(up := s.up[1..]);
      (match s.up[0]
       case RequestFrame(r) => t == Take(rest, r, FromRequest(r.serial), ok, payload)
       case ContentFrame(bytes) =>
         match decode(bytes)
         case Some(r) => t == Take(rest, r, FromContent, ok, payload)
         case None => t == rest.(daemon := Gone, down := rest.down + [Response(None, Other(0), false, payload, FromContent)]))
    case ReadSome(max) =>
      && s.daemon.Importing? && s.daemon.stream.position <= |s.daemon.stream.buffer|
      && var r := ReadContent(s.daemon.stream, s.up, max);
      r.Some? && t == s.(daemon := s.daemon.(stream := r.value.1, received := s.daemon.received + r.value.0), up := r.value.2)
    case SeeHangup =>
      && s.daemon.Importing? && s.client == Closed && s.up == [] && s.daemon.stream.position == |s.daemon.stream.buffer|
      && t == s.(daemon := s.daemon.(stream := s.daemon.stream.(finished := true)))
    case AnswerImport(ok, payload) =>
      && s.daemon.Importing? && (ok ==> s.daemon.stream.finished)
      && t == Answer(s, s.daemon.request, s.daemon.origin, ok, payload)
              .(imports := if ok && s.daemon.origin == FromRequest(s.daemon.request.serial)
                           then s.imports[s.daemon.request.serial := s.daemon.received] else s.imports)
    case Die => t == s.(daemon := Gone)
    case _ => false
  }

  /** The steps of `exchange` and `stream_artifact`. */
  ghost predicate ClientStep(s: State, t: State, a: Action) {
    match a
    case Send(api, payload, file) =>
      && s.client == Idle && (api != Import ==> file == [])
      && var r := Request(s.next, api, payload);
      t == s.(client := if api == Import then Uploading(r, file, 0) else Awaiting(r, []), next := s.next + 1,
              up := s.up + [RequestFrame(r)], sends := s.sends + 1)
    case SendFails => s.client == Idle && t == s.(client := Closed, next := s.next + 1)
    case Upload =>
      && s.client.Uploading? && s.client.sent < |s.client.file|
      && var count := if |s.client.file| - s.client.sent < IMPORT_CHUNK then |s.client.file| - s.client.sent else IMPORT_CHUNK;
      t == s.(client := s.client.(sent := s.client.sent + count),
              up := s.up + [ContentFrame(s.client.file[s.client.sent..s.client.sent + count])])
    case UploadEnds =>
      && s.client.Uploading? && s.client.sent == |s.client.file|
      && t == s.(client := Awaiting(s.client.request, s.client.file), up := s.up + [ContentFrame([])])
    case UploadFails => s.client.Uploading? && t == s.(client := Closed)
    case Timeout => s.client.Awaiting? && t == s.(client := Closed)
    case Receive =>
      && s.client.Awaiting? && s.down != []
      && var response, request, rest := s.down[0], s.client.request, s.(down := s.down[1..]);
      t == if response.serial != Some(request.serial) || response.api != request.api then rest.(client := Closed)
           else if response.ok then
             rest.(client := Idle, returned := s.returned + [Return(request, s.client.file, response)])
           else rest.(client := if request.api == Import then Closed else Idle)
    case _ => false
  }

  ghost predicate Next(s: State, t: State, a: Action, decode: seq<byte> -> Option<Request>) {
    ClientStep(s, t, a) || DaemonStep(s, t, a, decode)
  }

  // ----- The invariant

  /** The frames hold exactly these bytes in non-empty pieces, and the end mark when there is one. */
  predicate Carries(up: seq<Frame>, bytes: seq<byte>, ended: bool)
    decreases |up|
  {
    if up == [] then bytes == [] && !ended
    else if !up[0].ContentFrame? then false
    else if up[0].bytes == [] then |up| == 1 && bytes == [] && ended
    else up[0].bytes <= bytes && Carries(up[1..], bytes[|up[0].bytes|..], ended)
  }

  lemma DropOfSum(a: seq<byte>, b: seq<byte>, n: nat)
    requires n <= |a|
    ensures (a + b)[n..] == a[n..] + b
  {
  }

  lemma {:induction false} CarriesMore(up: seq<Frame>, bytes: seq<byte>, more: seq<byte>)
    requires Carries(up, bytes, false)
    ensures more != [] ==> Carries(up + [ContentFrame(more)], bytes + more, false)
    ensures Carries(up + [ContentFrame([])], bytes, true)
    decreases |up|
  {
    if up == [] {
      assert (bytes + more)[|more|..] == [];
      assert [ContentFrame(more)][1..] == [];
    } else {
      var n := |up[0].bytes|;
      assert up[0].bytes <= bytes;
      CarriesMore(up[1..], bytes[n..], more);
      assert (up + [ContentFrame(more)])[1..] == up[1..] + [ContentFrame(more)];
      assert (up + [ContentFrame([])])[1..] == up[1..] + [ContentFrame([])];
      DropOfSum(bytes, more, n);
    }
  }

  lemma {:induction false} CarriesContent(up: seq<Frame>, bytes: seq<byte>, ended: bool, i: nat)
    requires Carries(up, bytes, ended) && i < |up|
    ensures up[i].ContentFrame?
    decreases |up|
  {
    if i == 0 {
    } else {
      CarriesContent(up[1..], bytes[|up[0].bytes|..], ended, i - 1);
    }
  }

  predicate NotBusy(d: Daemon) {
    d == Waiting || d == Gone
  }

  /** The request is still on its way, with whatever content was sent behind it. */
  predicate Unread(s: State, r: Request, bytes: seq<byte>, ended: bool) {
    && NotBusy(s.daemon) && s.down == [] && s.up != [] && s.up[0] == RequestFrame(r)
    && if r.api == Import then Carries(s.up[1..], bytes, ended) else s.up[1..] == []
  }

  /** The daemon is reading: what it has, what is buffered and what is on the wire make up what was sent. */
  predicate Reading(s: State, r: Request, bytes: seq<byte>, ended: bool) {
    && r.api == Import && s.daemon.Importing? && s.daemon.request == r && s.daemon.origin == FromRequest(r.serial) && s.down == []
    && var stream, got := s.daemon.stream, s.daemon.received;
    && stream.position <= |stream.buffer|
    && if stream.finished then s.up == [] && ended && stream.position == |stream.buffer| && got == bytes
       else
         var known := got + stream.buffer[stream.position..];
         known <= bytes && Carries(s.up, bytes[|known|..], ended)
  }

  /** The response is there; a good one leaves nothing else on the wire. */
  predicate Answered(s: State, r: Request, bytes: seq<byte>, ended: bool) {
    && s.down != []
    && var response := s.down[0];
    && response.serial == Some(r.serial) && response.api == r.api && response.origin == FromRequest(r.serial)
    && r.serial in s.answers && s.answers[r.serial] == (r, response)
    && (forall i :: 0 <= i < |s.up| ==> s.up[i].ContentFrame?) && (s.daemon.Importing? ==> s.daemon.origin == FromContent)
    && (response.ok || r.api != Import ==> s.up == [] && |s.down| == 1 && NotBusy(s.daemon))
    && (response.ok && r.api == Import ==> ended && r.serial in s.imports && s.imports[r.serial] == bytes)
  }

  predicate Exchanging(s: State, r: Request, bytes: seq<byte>, ended: bool) {
    || Unread(s, r, bytes, ended) || Reading(s, r, bytes, ended) || Answered(s, r, bytes, ended)
    || (s.daemon == Gone && s.down == [])
  }

  predicate ClientOk(s: State) {
    match s.client
    case Idle => s.up == [] && s.down == [] && NotBusy(s.daemon)
    case Uploading(r, file, sent) =>
      r.serial + 1 == s.next && r.api == Import && sent <= |file| && Exchanging(s, r, file[..sent], false)
    case Awaiting(r, file) =>
      r.serial + 1 == s.next && (r.api != Import ==> file == []) && Exchanging(s, r, file, true)
    case Closed => true
  }

  /** Only the last request can still be pending. */
  predicate PendingOk(s: State) {
    && (forall i :: 0 <= i < |s.up| && s.up[i].RequestFrame? ==> s.up[i].request.serial + 1 == s.next)
    && (s.daemon.Importing? && s.daemon.origin.FromRequest? ==>
          s.daemon.origin.serial == s.daemon.request.serial && s.daemon.request.serial + 1 == s.next)
  }

  /** A returned payload answers that request, and a returned import delivered that file. */
  predicate ReturnOk(s: State, x: Return) {
    && x.request.serial in s.answers && s.answers[x.request.serial] == (x.request, x.response)
    && x.response.origin == FromRequest(x.request.serial) && x.response.ok
    && (x.request.api == Import ==> x.request.serial in s.imports && s.imports[x.request.serial] == x.file)
    && x.request.serial < s.next && (s.client != Idle ==> x.request.serial + 1 < s.next)
  }

  predicate ReturnsOk(s: State) {
    forall i :: 0 <= i < |s.returned| ==> ReturnOk(s, s.returned[i])
  }

  predicate Inv(s: State) {
    ClientOk(s) && PendingOk(s) && ReturnsOk(s)
  }

  lemma InitInv(s: State)
    requires Init(s)
    ensures Inv(s)
  {
  }

  lemma SendKeeps(s: State, t: State, a: Action)
    requires Inv(s) && ClientStep(s, t, a) && a.Send?
    ensures Inv(t)
  {
  }

  /** One more content frame behind the others. */
  lemma MoreUploaded(s: State, t: State, r: Request, bytes: seq<byte>, more: seq<byte>)
    requires r.api == Import && Exchanging(s, r, bytes, false)
    requires t == s.(client := t.client, up := s.up + [ContentFrame(more)])
    ensures Exchanging(t, r, bytes + more, more == [])
  {
    if more == [] {
      assert bytes + more == bytes;
    }
    if Unread(s, r, bytes, false) {
      CarriesMore(s.up[1..], bytes, more);
      assert t.up[1..] == s.up[1..] + [ContentFrame(more)];
    } else if Reading(s, r, bytes, false) {
      var known := s.daemon.received + s.daemon.stream.buffer[s.daemon.stream.position..];
      CarriesMore(s.up, bytes[|known|..], more);
      DropOfSum(bytes, more, |known|);
      assert Reading(t, r, bytes + more, more == []);
    } else if Answered(s, r, bytes, false) {
      assert Answered(t, r, bytes + more, more == []);
    }
  }

  lemma UploadKeeps(s: State, t: State, a: Action)
    requires Inv(s) && ClientStep(s, t, a) && (a.Upload? || a.UploadEnds?)
    ensures Inv(t)
  {
    var r, file, sent := s.client.request, s.client.file, s.client.sent;
    var more := t.up[|s.up|].bytes;
    MoreUploaded(s, t, r, file[..sent], more);
    if a.Upload? {
      assert file[..t.client.sent] == file[..sent] + more;
    } else {
      assert file[..sent] + more == file;
    }
    assert ReturnsOk(t) by {
      assert forall i :: 0 <= i < |t.returned| ==> ReturnOk(s, t.returned[i]);
    }
  }

  lemma ReceiveKeeps(s: State, t: State, a: Action)
    requires Inv(s) && ClientStep(s, t, a) && a.Receive?
    ensures Inv(t)
  {
    var x := Return(s.client.request, s.client.file, s.down[0]);
    if t.client == Idle && s.down[0].ok {
      assert ReturnOk(t, x);
    }
    forall i | 0 <= i < |t.returned|
      ensures ReturnOk(t, t.returned[i])
    {
      if i < |s.returned| {
        assert ReturnOk(s, s.returned[i]);
      }
    }
  }

  /** What the client waits for, when it is in an exchange. */
  function Bytes(c: Client): (b: seq<byte>)
    requires c.Uploading? || c.Awaiting?
  {
    if c.Awaiting? then c.file else if c.sent <= |c.file| then c.file[..c.sent] else []
  }

  predicate InExchange(c: Client) {
    c.Uploading? || c.Awaiting?
  }

  lemma TakeKeepsExchange(s: State, t: State, a: Action, decode: seq<byte> -> Option<Request>)
    requires Inv(s) && DaemonStep(s, t, a, decode) && a.TakeFrame? && InExchange(s.client)
    ensures Exchanging(t, s.client.request, Bytes(s.client), s.client.Awaiting?)
  {
    var r, bytes, ended := s.client.request, Bytes(s.client), s.client.Awaiting?;
    if Unread(s, r, bytes, ended) {
      if r.api == Import {
        assert bytes[0..] == bytes;
        assert Reading(t, r, bytes, ended);
      } else {
        assert Answered(t, r, bytes, ended);
      }
    } else {
      assert Answered(s, r, bytes, ended) && t.down[0] == s.down[0];
    }
  }

  lemma ReadKeepsExchange(s: State, t: State, a: Action, decode: seq<byte> -> Option<Request>)
    requires Inv(s) && DaemonStep(s, t, a, decode) && a.ReadSome? && InExchange(s.client)
    ensures Exchanging(t, s.client.request, Bytes(s.client), s.client.Awaiting?)
  {
    var r, bytes, ended := s.client.request, Bytes(s.client), s.client.Awaiting?;
    if Reading(s, r, bytes, ended) {
      ReadKeepsReading(s, t, a.max, r, bytes, ended);
    } else {
      assert Answered(s, r, bytes, ended) && t.down[0] == s.down[0];
    }
  }

  lemma ReadKeepsReading(s: State, t: State, max: nat, r: Request, bytes: seq<byte>, ended: bool)
    requires Reading(s, r, bytes, ended)
    requires var x := ReadContent(s.daemon.stream, s.up, max);
             x.Some? && t == s.(daemon := s.daemon.(stream := x.value.1, received := s.daemon.received + x.value.0), up := x.value.2)
    ensures Reading(t, r, bytes, ended)
  {
    var stream, got := s.daemon.stream, s.daemon.received;
    var known := got + stream.buffer[stream.position..];
    var now := t.daemon.received + t.daemon.stream.buffer[t.daemon.stream.position..];
    if stream.position < |stream.buffer| {
      assert now == known;
    } else if stream.finished {
      assert t.daemon.received == got;
    } else if s.up[0].bytes == [] {
      assert known == got;
      assert bytes[|known|..] == [];
      assert t.daemon.received == bytes;
    } else {
      var frame := s.up[0].bytes;
      assert now == known + frame;
      assert bytes[|known|..][|frame|..] == bytes[|now|..];
      assert now <= bytes;
    }
  }

  lemma AnswerKeepsExchange(s: State, t: State, a: Action, decode: seq<byte> -> Option<Request>)
    requires Inv(s) && DaemonStep(s, t, a, decode) && a.AnswerImport? && InExchange(s.client)
    ensures Exchanging(t, s.client.request, Bytes(s.client), s.client.Awaiting?)
  {
    var r, bytes, ended := s.client.request, Bytes(s.client), s.client.Awaiting?;
    if Reading(s, r, bytes, ended) {
      if !s.daemon.stream.finished {
        var known := s.daemon.received + s.daemon.stream.buffer[s.daemon.stream.position..];
        forall i | 0 <= i < |s.up|
          ensures s.up[i].ContentFrame?
        {
          CarriesContent(s.up, bytes[|known|..], ended, i);
        }
      }
      assert Answered(t, r, bytes, ended);
    } else {
      assert Answered(s, r, bytes, ended) && t.down[0] == s.down[0];
    }
  }

  lemma DaemonKeepsReturns(s: State, t: State, a: Action, decode: seq<byte> -> Option<Request>)
    requires Inv(s) && DaemonStep(s, t, a, decode)
    ensures ReturnsOk(t) && PendingOk(t)
  {
    forall i | 0 <= i < |t.returned|
      ensures ReturnOk(t, t.returned[i])
    {
      assert ReturnOk(s, s.returned[i]);
    }
  }

  lemma DaemonKeeps(s: State, t: State, a: Action, decode: seq<byte> -> Option<Request>)
    requires Inv(s) && DaemonStep(s, t, a, decode)
    ensures Inv(t)
  {
    DaemonKeepsReturns(s, t, a, decode);
    if InExchange(s.client) {
      match a
      case TakeFrame(_, _) => TakeKeepsExchange(s, t, a, decode);
      case ReadSome(_) => ReadKeepsExchange(s, t, a, decode);
      case AnswerImport(_, _) => AnswerKeepsExchange(s, t, a, decode);
      case _ =>
    }
  }

  lemma StepInv(s: State, t: State, a: Action, decode: seq<byte> -> Option<Request>)
    requires Inv(s) && Next(s, t, a, decode)
    ensures Inv(t)
  {
    if ClientStep(s, t, a) {
      match a
      case Send(_, _, _) => SendKeeps(s, t, a);
      case Upload => UploadKeeps(s, t, a);
      case UploadEnds => UploadKeeps(s, t, a);
      case Receive => ReceiveKeeps(s, t, a);
      case _ =>
    } else {
      DaemonKeeps(s, t, a, decode);
    }
  }

  // ----- Runs

  ghost predicate Leads(s: State, acts: seq<Action>, t: State, decode: seq<byte> -> Option<Request>)
    decreases |acts|
  {
    if acts == [] then s == t
    else exists m :: Next(s, m, acts[0], decode) && Leads(m, acts[1..], t, decode)
  }

  ghost predicate Reachable(t: State, decode: seq<byte> -> Option<Request>) {
    exists s, acts :: Init(s) && Leads(s, acts, t, decode)
  }

  lemma {:induction false} LeadsInv(s: State, acts: seq<Action>, t: State, decode: seq<byte> -> Option<Request>)
    requires Inv(s) && Leads(s, acts, t, decode)
    ensures Inv(t)
    decreases |acts|
  {
    if acts == [] {
    } else {
      var m :| Next(s, m, acts[0], decode) && Leads(m, acts[1..], t, decode);
      StepInv(s, m, acts[0], decode);
      LeadsInv(m, acts[1..], t, decode);
    }
  }

  lemma ReachableInv(t: State, decode: seq<byte> -> Option<Request>)
    requires Reachable(t, decode)
    ensures Inv(t)
  {
    var s, acts :| Init(s) && Leads(s, acts, t, decode);
    LeadsInv(s, acts, t, decode);
  }

  /** A returned payload was computed for that very request frame, even if the daemon ever takes content for a request. */
  lemma ReturnedAnswersItsRequest(s: State, decode: seq<byte> -> Option<Request>, i: nat)
    requires Reachable(s, decode) && i < |s.returned|
    ensures var x := s.returned[i];
            && x.response.origin == FromRequest(x.request.serial)
            && x.request.serial in s.answers && s.answers[x.request.serial] == (x.request, x.response)
  {
    ReachableInv(s, decode);
  }

  /** A completed import handed the daemon's reader exactly the declared bytes, in whatever pieces it asked for them. */
  lemma ReturnedImportDelivered(s: State, decode: seq<byte> -> Option<Request>, i: nat)
    requires Reachable(s, decode) && i < |s.returned| && s.returned[i].request.api == Import
    ensures var x := s.returned[i]; x.request.serial in s.imports && s.imports[x.request.serial] == x.file
  {
    ReachableInv(s, decode);
  }

  /** A connection that is kept for the next request has nothing unread in either direction. */
  lemma ReusedConnectionIsClean(s: State, decode: seq<byte> -> Option<Request>)
    requires Reachable(s, decode) && s.client == Idle
    ensures s.up == [] && s.down == [] && !s.daemon.Importing?
  {
    ReachableInv(s, decode);
  }

  /** After a failed exchange nothing is sent any more. */
  lemma {:induction false} NothingAfterFailure(s: State, acts: seq<Action>, t: State, decode: seq<byte> -> Option<Request>)
    requires s.client == Closed && Leads(s, acts, t, decode)
    ensures t.client == Closed && t.sends == s.sends && t.returned == s.returned
    decreases |acts|
  {
    if acts == [] {
    } else {
      var m :| Next(s, m, acts[0], decode) && Leads(m, acts[1..], t, decode);
      assert m.client == Closed && m.sends == s.sends && m.returned == s.returned;
      NothingAfterFailure(m, acts[1..], t, decode);
    }
  }

  // ----- The loops of the two sides

  /** Content cut into frames, without an end mark. */
  function Chunked(bytes: seq<byte>): (r: seq<Frame>)
    decreases |bytes|
  {
    if bytes == [] then []
    else
      var n := if |bytes| < IMPORT_CHUNK then |bytes| else IMPORT_CHUNK;
      [ContentFrame(bytes[..n])] + Chunked(bytes[n..])
  }

  /** The frames `stream_artifact` writes for a file of the declared size. */
  function Pieces(file: seq<byte>): (r: seq<Frame>) {
    Chunked(file) + [ContentFrame([])]
  }

  lemma {:induction false} ChunkedCarry(bytes: seq<byte>)
    ensures Carries(Chunked(bytes), bytes, false)
    decreases |bytes|
  {
    if bytes == [] {
    } else {
      var n := if |bytes| < IMPORT_CHUNK then |bytes| else IMPORT_CHUNK;
      ChunkedCarry(bytes[n..]);
      assert Chunked(bytes)[1..] == Chunked(bytes[n..]);
    }
  }

  /** As many bytes as fill whole frames. */
  function WholeChunks(n: nat): (r: nat)
    ensures r <= n < r + IMPORT_CHUNK
  {
    if n < IMPORT_CHUNK then 0 else IMPORT_CHUNK + WholeChunks(n - IMPORT_CHUNK)
  }

  /** How much of a file is sent when it was declared to have `size` bytes: a file that turns out shorter is sent in whole
      frames only, one that turns out longer up to the declared size. */
  function SentLength(length: nat, size: nat): (n: nat)
    ensures n <= length && n <= size && (length == size ==> n == length)
  {
    if length < size then WholeChunks(length) else size
  }

  lemma ChunkedStep(bytes: seq<byte>, n: nat)
    requires bytes != [] && n == if |bytes| < IMPORT_CHUNK then |bytes| else IMPORT_CHUNK
    ensures Chunked(bytes) == [ContentFrame(bytes[..n])] + Chunked(bytes[n..])
  {
  }

  lemma Behind(a: seq<Frame>, b: seq<Frame>, c: seq<Frame>)
    ensures a + (b + c) == a + b + c
  {
  }

  /** One more frame of what is sent. */
  lemma NextPiece(frames: seq<Frame>, content: seq<byte>, limit: nat, position: nat, n: nat)
    requires position < limit <= |content| && n == if limit - position < IMPORT_CHUNK then limit - position else IMPORT_CHUNK
    ensures frames + Chunked(content[position..limit])
            == frames + [ContentFrame(content[position..position + n])] + Chunked(content[position + n..limit])
  {
    var rest := content[position..limit];
    ChunkedStep(rest, n);
    assert rest[..n] == content[position..position + n] && rest[n..] == content[position + n..limit];
    Behind(frames, [ContentFrame(rest[..n])], Chunked(rest[n..]));
  }

  lemma {:induction false} WholeOfWhole(n: nat, done: nat)
    requires done <= WholeChunks(n) && WholeChunks(n) - done == WholeChunks(n - done)
    ensures done < WholeChunks(n) ==>
              done + IMPORT_CHUNK <= WholeChunks(n) && WholeChunks(n) - (done + IMPORT_CHUNK) == WholeChunks(n - (done + IMPORT_CHUNK))
  {
  }

  /**
   * `stream_artifact`: frames of the declared size and then the end mark.  A
   * file that is shorter or longer fails, after a part of it was sent and
   * without the end mark.
   */
  method StreamArtifact(content: seq<byte>, size: nat) returns (ok: bool, frames: seq<Frame>)
    ensures ok <==> |content| == size
    ensures frames == if ok then Pieces(content) else Chunked(content[..SentLength(|content|, size)])
  {
    frames := [];
    var remaining := size;
    ghost var limit := SentLength(|content|, size);
    assert content[0..limit] == content[..limit];
    while remaining > 0
      invariant remaining <= size && size - remaining <= limit
      invariant |content| < size ==> limit - (size - remaining) == WholeChunks(|content| - (size - remaining))
      invariant frames + Chunked(content[size - remaining..limit]) == Chunked(content[..limit])
    {
      var position := size - remaining;
      var count := if remaining < IMPORT_CHUNK then remaining else IMPORT_CHUNK;
      if |content| - position < count {
        NothingLeft(frames, content, limit, position);
        return false, frames;
      }
      if |content| < size {
        WholeOfWhole(|content| - position, 0);
      }
      NextPiece(frames, content, limit, position, count);
      frames := frames + [ContentFrame(content[position..position + count])];
      remaining := remaining - count;
    }
    NothingLeft(frames, content, limit, size);
    if |content| > size {
      return false, frames;
    }
    assert content[..limit] == content;
    return true, frames + [ContentFrame([])];
  }

  lemma NothingLeft(frames: seq<Frame>, content: seq<byte>, limit: nat, position: nat)
    requires position == limit <= |content|
    ensures frames + Chunked(content[position..limit]) == frames
  {
    assert content[position..limit] == [];
  }

  /** What was sent for a file, with the end mark exactly when its size was the declared one. */
  lemma SentCarries(content: seq<byte>, size: nat)
    ensures var sent := content[..SentLength(|content|, size)];
            if |content| == size then Carries(Pieces(content), sent, true) else Carries(Chunked(sent), sent, false)
  {
    var sent := content[..SentLength(|content|, size)];
    ChunkedCarry(sent);
    CarriesMore(Chunked(sent), sent, []);
    if |content| == size {
      assert sent == content;
    }
  }

  /** `ContentStream` over the frames of one connection, which is then closed or breaks inside a frame. */
  class ContentStream {
    const torn: bool
    var source: seq<Frame>
    var buffer: seq<byte>
    var position: nat
    var finished: bool

    /** To this reader every frame is content. */
    ghost predicate Valid()
      reads this
    {
      position <= |buffer| && forall i :: 0 <= i < |source| ==> source[i].ContentFrame?
    }

    constructor (frames: seq<Frame>, breaks: bool)
      requires forall i :: 0 <= i < |frames| ==> frames[i].ContentFrame?
      ensures Valid() && source == frames && torn == breaks && buffer == [] && position == 0 && !finished
    {
      torn, source, buffer, position, finished := breaks, frames, [], 0, false;
    }

    /** One read refines `ReadContent`.  Behind the last frame, a closed connection ends the stream like the end mark does; a
        broken one fails. */
    method Read(max: nat) returns (out: Result<seq<byte>, ()>)
      requires Valid()
      modifies this
      ensures Valid()
      ensures match ReadContent(old(Stream(buffer, position, finished)), old(source), max)
              case Some(r) => out == Ok(r.0) && Stream(buffer, position, finished) == r.1 && source == r.2
              case None =>
                && source == old(source) == [] && buffer == old(buffer) && position == old(position)
                && if torn then out.Err? else out == Ok([]) && finished
    {
      while position == |buffer|
        invariant Valid()
        invariant (source == old(source) && buffer == old(buffer) && position == old(position) && finished == old(finished))
                  || (old(position) == |old(buffer)| && !old(finished) && old(source) != [] && old(source)[0].ContentFrame?
                      && old(source)[0].bytes != [] && buffer == old(source)[0].bytes && position == 0 && !finished
                      && source == old(source)[1..])
        decreases |source|
      {
        if finished {
          return Ok([]);
        }
        if source == [] {
          if torn {
            return Err(());
          }
          finished := true;
          return Ok([]);
        }
        var frame := source[0].bytes;
        source := source[1..];
        if frame == [] {
          finished := true;
          return Ok([]);
        }
        buffer, position := frame, 0;
      }
      var count := if |buffer| - position < max then |buffer| - position else max;
      out := Ok(buffer[position..position + count]);
      position := position + count;
    }

    /** What was got and what is buffered start what was sent, and the frames left carry the rest. */
    ghost predicate Delivers(got: seq<byte>, sent: seq<byte>, ended: bool)
      reads this
    {
      && Valid()
      && if finished then source == [] && position == |buffer| && got == sent && (ended || !torn)
         else got + buffer[position..] <= sent && Carries(source, sent[|got + buffer[position..]|..], ended)
    }

    /** One read of the loop below. */
    method ReadNext(max: nat, ghost got: seq<byte>, ghost sent: seq<byte>, ghost ended: bool) returns (out: Result<seq<byte>, ()>)
      requires Delivers(got, sent, ended) && max > 0
      modifies this
      ensures out.Err? ==> torn && !ended
      ensures out.Ok? ==> Delivers(got + out.value, sent, ended)
      ensures out == Ok([]) ==> finished
      ensures out.Ok? && out.value != [] ==>
                |source| < |old(source)| || (source == old(source) && |buffer| - position < |old(buffer)| - old(position))
    {
      ghost var known := got + buffer[position..];
      ghost var stream, frames := Stream(buffer, position, finished), source;
      out := Read(max);
      assert got + [] == got;
      if stream.position < |stream.buffer| {
        assert got + out.value + buffer[position..] == known;
      } else {
        AtFrameEnd(got, known, stream, frames, sent, ended);
        if !stream.finished && frames != [] && frames[0].bytes != [] {
          assert got + out.value + buffer[position..] == known + frames[0].bytes;
          assert sent[|known|..][|frames[0].bytes|..] == sent[|known + frames[0].bytes|..];
        }
      }
    }

    static lemma AtFrameEnd(got: seq<byte>, known: seq<byte>, stream: Stream, frames: seq<Frame>, sent: seq<byte>, ended: bool)
      requires stream.position == |stream.buffer| && known == got + stream.buffer[stream.position..]
      requires !stream.finished ==> known <= sent && Carries(frames, sent[|known|..], ended)
      ensures known == got
      ensures !stream.finished && (frames == [] || frames[0] == ContentFrame([])) ==> sent == got && (ended <==> frames != [])
    {
    }

    /** Reading to the end with any positive sizes: the bytes that were sent, with the end mark or without it, unless the
        connection broke before the mark. */
    method ReadAll(sizes: nat -> nat, ghost sent: seq<byte>, ghost ended: bool) returns (out: Result<seq<byte>, ()>)
      requires Valid() && buffer == [] && position == 0 && !finished && Carries(source, sent, ended)
      requires forall i :: sizes(i) > 0
      modifies this
      ensures if ended || !torn then out == Ok(sent) && finished && source == [] else out.Err?
    {
      var got: seq<byte> := [];
      var i := 0;
      assert sent[0..] == sent;
      while true
        invariant Delivers(got, sent, ended)
        decreases |source|, |buffer| - position
      {
        var chunk := ReadNext(sizes(i), got, sent, ended);
        if chunk.Err? {
          return Err(());
        }
        if chunk.value == [] {
          assert got + [] == got;
          return Ok(got);
        }
        got := got + chunk.value;
        i := i + 1;
      }
    }
  }
}
