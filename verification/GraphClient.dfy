/**
 The retrying Graph client against a server whose commits the client cannot see.

 Every attempt meets one response of a script. For a write the server commits on a success
 status, may or may not commit when the response is lost, redirected or a gateway error,
 and does not commit on any other status from 400 on (500 included, which the client takes
 for a plain rejection).
 */
module GraphClient {
  import opened Effects

  datatype Kind = Read | Write | Upload

  /** The Content-Length header. */
  datatype Declared = Absent | Malformed | Length(value: int)

  /**
   What makes the JSON decoder raise anything but its own error: bytes that are not text in
   any JSON encoding, an integer of more than 4300 digits, or more nesting than the
   interpreter's recursion limit. The last two can be valid JSON.
   */
  datatype Trouble = NotText | IntegerTooLong | NestedTooDeeply

  /** What the body decodes to. */
  datatype Content = JsonObject(value: nat) | OtherJson | NotJson | Undecodable(trouble: Trouble)

  datatype Response =
    | TimedOut
    | TransportLost
    | Http(status: nat, declared: Declared, size: nat, content: Content)

  datatype Failure =
    | LostAfterSend | Unreachable | HttpError(status: nat) | Redirected
    | BadLength | TooLarge | InvalidJson | InvalidShape | Exhausted

  /** How a call ends; `mayHaveCommitted` is the flag the error carries. */
  datatype Reply =
    | Returned(data: nat)
    | EmptyObject
    | GraphError(failure: Failure, mayHaveCommitted: bool)
    | AuthenticationError
    | DecodingError(trouble: Trouble)
    | Interrupted                             // the process died waiting for an answer

  datatype Config = Config(maxRetries: nat, maxBytes: nat)

  /** A reply, the number of requests sent and the number of forced token refreshes. */
  datatype Exchange = Exchange(reply: Reply, sent: nat, refreshes: nat)

  /**
   What one call meets: the response to each attempt, whether tokens can be had at first
   and for a refresh, and how many answers the process lives to see.
   */
  datatype Network = Network(script: nat -> Response, tokenOk: bool, refreshOk: bool, survives: nat)

  predicate Changes(kind: Kind) {
    kind != Read
  }

  // ---------------------------------------------------------------------------------
  // What the call makes of its responses
  // ---------------------------------------------------------------------------------

  /** The checks on a response with a success status. */
  function Accept(c: Config, kind: Kind, r: Response): Reply
    requires r.Http?
  {
    var flag := Changes(kind);
    if r.declared == Malformed then GraphError(BadLength, flag)
    else if r.declared.Length? && (r.declared.value > c.maxBytes || (kind == Upload && r.declared.value < 0)) then
      GraphError(TooLarge, flag)
    else if r.size > c.maxBytes then GraphError(TooLarge, flag)
    else if kind != Upload && (r.status == 204 || r.size == 0) then EmptyObject
    else if r.size == 0 then GraphError(InvalidJson, flag)
    else match r.content
      case JsonObject(value) => Returned(value)
      case OtherJson => GraphError(InvalidShape, flag)
      case NotJson => GraphError(InvalidJson, flag)
      case Undecodable(trouble) => DecodingError(trouble)
  }

  /** The reply to a response that is not retried. */
  function Final(c: Config, kind: Kind, r: Response): Reply {
    match r
    case TimedOut => GraphError(LostAfterSend, Changes(kind))
    case TransportLost => GraphError(Unreachable, Changes(kind))
    case Http(status, _, _, _) =>
      if status in {502, 503, 504} && Changes(kind) then GraphError(HttpError(status), true)
      else if status >= 400 then GraphError(HttpError(status), false)
      else if status >= 300 then GraphError(Redirected, Changes(kind))
      else Accept(c, kind, r)
  }

  predicate IsStatus(r: Response, status: nat) {
    r.Http? && r.status == status
  }

  /** Responses after which an attempt that is not the last is repeated. */
  predicate Repeats(kind: Kind, r: Response) {
    || IsStatus(r, 429)
    || (kind == Read && (r.TimedOut? || (r.Http? && r.status in {502, 503, 504})))
  }

  function Attempts(c: Config, kind: Kind, net: Network, attempt: nat, refreshed: bool): (e: Exchange)
    decreases c.maxRetries + 1 - attempt
  {
    var refreshes := if refreshed then 1 else 0;
    if attempt > c.maxRetries then Exchange(GraphError(Exhausted, false), attempt, refreshes)
    else if attempt == net.survives then Exchange(Interrupted, attempt + 1, refreshes)
    else if IsStatus(net.script(attempt), 401) && !refreshed then
      if net.refreshOk then Attempts(c, kind, net, attempt + 1, true)
      else Exchange(AuthenticationError, attempt + 1, 1)
    else if Repeats(kind, net.script(attempt)) && attempt < c.maxRetries then
      Attempts(c, kind, net, attempt + 1, refreshed)
    else Exchange(Final(c, kind, net.script(attempt)), attempt + 1, refreshes)
  }

  function Conversation(c: Config, kind: Kind, net: Network): Exchange {
    if net.tokenOk then Attempts(c, kind, net, 0, false) else Exchange(AuthenticationError, 0, 0)
  }

  // ---------------------------------------------------------------------------------
  // The client
  // ---------------------------------------------------------------------------------

  class Client {
    const config: Config
    const trace: Trace
    var writeAttempts: nat
    var writesConfirmed: nat
    var writesAmbiguous: nat

    constructor (config: Config, trace: Trace)
      ensures this.config == config && this.trace == trace
      ensures writeAttempts == writesConfirmed == writesAmbiguous == 0
    {
      this.config, this.trace := config, trace;
      writeAttempts, writesConfirmed, writesAmbiguous := 0, 0, 0;
    }

    /** The counters move by what the server's answers prove and by nothing else. */
    twostate predicate Counted(kind: Kind, script: nat -> Response, e: Exchange)
      reads this
    {
      && writeAttempts == old(writeAttempts) + (if Changes(kind) then e.sent else 0)
      && writesConfirmed == old(writesConfirmed) + (if ConfirmedBy(kind, script, e) then 1 else 0)
      && writesAmbiguous == old(writesAmbiguous) + (if e.reply.GraphError? && e.reply.mayHaveCommitted then 1 else 0)
    }

    /** The response that ends a JSON request. */
    method Finish(write: bool, response: Response) returns (reply: Reply)
      modifies this`writesConfirmed, this`writesAmbiguous
      ensures reply == Final(config, if write then Write else Read, response)
      ensures writesConfirmed == old(writesConfirmed) + if write && Succeeds(response) then 1 else 0
      ensures writesAmbiguous == old(writesAmbiguous) + if reply.GraphError? && reply.mayHaveCommitted then 1 else 0
    {
      if !response.Http? {
        if write {
          writesAmbiguous := writesAmbiguous + 1;
        }
        return GraphError(if response.TimedOut? then LostAfterSend else Unreachable, write);
      }
      if write && response.status in {502, 503, 504} {
        writesAmbiguous := writesAmbiguous + 1;
        return GraphError(HttpError(response.status), true);
      }
      if response.status >= 400 {
        return GraphError(HttpError(response.status), false);
      }
      if response.status >= 300 {
        if write {
          writesAmbiguous := writesAmbiguous + 1;
        }
        return GraphError(Redirected, write);
      }
      if write {
        writesConfirmed := writesConfirmed + 1;
      }
      reply := ReadJson(config, write, response);
      if write && reply.GraphError? {
        writesAmbiguous := writesAmbiguous + 1;
      }
    }

    /** One read or JSON write. Every request of a write is an event. */
    method RequestJson(write: bool, payload: Payload, net: Network, ghost hidden: nat -> bool)
      returns (reply: Reply, ghost e: Exchange)
      modifies this, trace
      ensures e == Conversation(config, if write then Write else Read, net)
      ensures reply == e.reply && Counted(if write then Write else Read, net.script, e)
      ensures trace.events == old(trace.events) + if write then Sends(payload, net.script, hidden, e.sent) else []
    {
      ghost var kind := if write then Write else Read;
      if !net.tokenOk {
        return AuthenticationError, Exchange(AuthenticationError, 0, 0);
      }
      var refreshed := false;
      for attempt := 0 to config.maxRetries + 1
        invariant writeAttempts == old(writeAttempts) + (if write then attempt else 0)
        invariant writesConfirmed == old(writesConfirmed) && writesAmbiguous == old(writesAmbiguous)
        invariant Attempts(config, kind, net, 0, false) == Attempts(config, kind, net, attempt, refreshed)
        invariant refreshed ==> net.refreshOk
        invariant attempt > 0 ==> !Succeeds(net.script(attempt - 1))
        invariant trace.events == old(trace.events) + if write then Sends(payload, net.script, hidden, attempt) else []
      {
        if write {
          writeAttempts := writeAttempts + 1;
          SendsGrow(payload, net.script, hidden, attempt, old(trace.events));
          trace.Add(Sent(payload, CommittedAt(net.script, hidden, attempt)));
        }
        if attempt == net.survives {
          return Interrupted, Exchange(Interrupted, attempt + 1, if refreshed then 1 else 0);
        }
        var response := net.script(attempt);
        if response.TimedOut? && !write && attempt < config.maxRetries {
          continue;
        }
        if IsStatus(response, 401) && !refreshed {
          refreshed := true;
          if !net.refreshOk {
            return AuthenticationError, Exchange(AuthenticationError, attempt + 1, 1);
          }
          continue;
        }
        if response.Http? && response.status in {429, 502, 503, 504}
          && (!write || response.status == 429) && attempt < config.maxRetries {
          continue;
        }
        reply := Finish(write, response);
        e := Exchange(reply, attempt + 1, if refreshed then 1 else 0);
        assert ConfirmedBy(kind, net.script, e) == (write && Succeeds(response));
        return;
      }
      e := Exchange(GraphError(Exhausted, false), config.maxRetries + 1, if refreshed then 1 else 0);
      return GraphError(Exhausted, false), e;
    }

    /** The response that ends an upload. */
    method FinishUpload(response: Response) returns (reply: Reply)
      modifies this`writesConfirmed, this`writesAmbiguous
      ensures reply == Final(config, Upload, response)
      ensures writesConfirmed == old(writesConfirmed) + if Succeeds(response) then 1 else 0
      ensures writesAmbiguous == old(writesAmbiguous) + if reply.GraphError? && reply.mayHaveCommitted then 1 else 0
    {
      if !response.Http? {
        writesAmbiguous := writesAmbiguous + 1;
        return GraphError(if response.TimedOut? then LostAfterSend else Unreachable, true);
      }
      if response.status in {502, 503, 504} {
        writesAmbiguous := writesAmbiguous + 1;
        return GraphError(HttpError(response.status), true);
      }
      if response.status >= 400 {
        return GraphError(HttpError(response.status), false);
      }
      if response.status >= 300 {
        writesAmbiguous := writesAmbiguous + 1;
        return GraphError(Redirected, true);
      }
      writesConfirmed := writesConfirmed + 1;
      reply := ReadUploaded(config, response);
      if reply.GraphError? {
        writesAmbiguous := writesAmbiguous + 1;
      }
    }

    /** One file upload, which has its own loop. */
    method UploadDriveItem(content: nat, net: Network, ghost hidden: nat -> bool)
      returns (reply: Reply, ghost e: Exchange)
      modifies this, trace
      ensures e == Conversation(config, Upload, net)
      ensures reply == e.reply && Counted(Upload, net.script, e)
      ensures trace.events == old(trace.events) + Sends(File(content), net.script, hidden, e.sent)
    {
      if !net.tokenOk {
        return AuthenticationError, Exchange(AuthenticationError, 0, 0);
      }
      var refreshed := false;
      for attempt := 0 to config.maxRetries + 1
        invariant writeAttempts == old(writeAttempts) + attempt
        invariant writesConfirmed == old(writesConfirmed) && writesAmbiguous == old(writesAmbiguous)
        invariant Attempts(config, Upload, net, 0, false) == Attempts(config, Upload, net, attempt, refreshed)
        invariant refreshed ==> net.refreshOk
        invariant attempt > 0 ==> !Succeeds(net.script(attempt - 1))
        invariant trace.events == old(trace.events) + Sends(File(content), net.script, hidden, attempt)
      {
        writeAttempts := writeAttempts + 1;
        SendsGrow(File(content), net.script, hidden, attempt, old(trace.events));
        trace.Add(Sent(File(content), CommittedAt(net.script, hidden, attempt)));
        if attempt == net.survives {
          return Interrupted, Exchange(Interrupted, attempt + 1, if refreshed then 1 else 0);
        }
        var response := net.script(attempt);
        if IsStatus(response, 401) && !refreshed {
          refreshed := true;
          if !net.refreshOk {
            return AuthenticationError, Exchange(AuthenticationError, attempt + 1, 1);
          }
          continue;
        }
        if IsStatus(response, 429) && attempt < config.maxRetries {
          continue;
        }
        reply := FinishUpload(response);
        return reply, Exchange(reply, attempt + 1, if refreshed then 1 else 0);
      }
      e := Exchange(GraphError(Exhausted, false), config.maxRetries + 1, if refreshed then 1 else 0);
      return GraphError(Exhausted, false), e;
    }
  }

  /** Size and shape checks on an accepted answer to a JSON request. */
  method ReadJson(c: Config, write: bool, response: Response) returns (reply: Reply)
    requires response.Http?
    ensures reply == Accept(c, if write then Write else Read, response)
  {
    if response.declared == Malformed {
      return GraphError(BadLength, write);
    }
    if response.declared.Length? && response.declared.value > c.maxBytes {
      return GraphError(TooLarge, write);
    }
    if response.size > c.maxBytes {
      return GraphError(TooLarge, write);
    }
    if response.status == 204 || response.size == 0 {
      return EmptyObject;
    }
    match response.content {
      case JsonObject(value) => return Returned(value);
      case Undecodable(trouble) => return DecodingError(trouble);
      case NotJson => return GraphError(InvalidJson, write);
      case OtherJson => return GraphError(InvalidShape, write);
    }
  }

  /** Size and shape checks on the answer to an accepted upload. */
  method ReadUploaded(c: Config, response: Response) returns (reply: Reply)
    requires response.Http?
    ensures reply == Accept(c, Upload, response)
  {
    if response.declared == Malformed {
      return GraphError(BadLength, true);
    }
    if response.declared.Length? {
      if response.declared.value < 0 || response.declared.value > c.maxBytes {
        return GraphError(TooLarge, true);
      }
    }
    if response.size > c.maxBytes {
      return GraphError(TooLarge, true);
    }
    if response.size == 0 || response.content.NotJson? {
      return GraphError(InvalidJson, true);
    }
    if response.content.Undecodable? {
      return DecodingError(response.content.trouble);
    }
    if !response.content.JsonObject? {
      return GraphError(InvalidShape, true);
    }
    return Returned(response.content.value);
  }

  // ---------------------------------------------------------------------------------
  // The server's side
  // ---------------------------------------------------------------------------------

  predicate Succeeds(r: Response) {
    r.Http? && r.status < 300
  }

  /** Responses that leave open whether the server committed. */
  predicate Unclear(r: Response) {
    !r.Http? || 300 <= r.status < 400 || r.status in {502, 503, 504}
  }

  /** `hidden` decides the attempts whose responses leave the commit open. */
  predicate CommittedAt(script: nat -> Response, hidden: nat -> bool, i: nat) {
    Succeeds(script(i)) || (Unclear(script(i)) && hidden(i))
  }

  /** How many of the first `sent` requests of a write the server committed. */
  function Commits(script: nat -> Response, hidden: nat -> bool, sent: nat): nat {
    if sent == 0 then 0
    else Commits(script, hidden, sent - 1) + if CommittedAt(script, hidden, sent - 1) then 1 else 0
  }

  /** The events of the first `sent` requests of a write. */
  function Sends(payload: Payload, script: nat -> Response, hidden: nat -> bool, sent: nat): seq<Event> {
    seq(sent, i requires 0 <= i < sent => Sent(payload, CommittedAt(script, hidden, i)))
  }

  lemma SendsGrow(payload: Payload, script: nat -> Response, hidden: nat -> bool, sent: nat, before: seq<Event>)
    ensures before + Sends(payload, script, hidden, sent) + [Sent(payload, CommittedAt(script, hidden, sent))] ==
      before + Sends(payload, script, hidden, sent + 1)
  {
  }

  /** What the events of a write tell is what the server did. */
  lemma {:induction false} SendsTellCommits(payload: Payload, script: nat -> Response, hidden: nat -> bool, sent: nat)
    ensures Committed(Sends(payload, script, hidden, sent)) == Commits(script, hidden, sent)
    decreases sent
  {
    if sent > 0 {
      SendsTellCommits(payload, script, hidden, sent - 1);
      assert Sends(payload, script, hidden, sent)[..sent - 1] == Sends(payload, script, hidden, sent - 1);
    }
  }

  /** The last answer to a write had a success status. */
  predicate ConfirmedBy(kind: Kind, script: nat -> Response, e: Exchange) {
    Changes(kind) && e.sent > 0 && e.reply != Interrupted && Succeeds(script(e.sent - 1))
  }

  // ---------------------------------------------------------------------------------
  // How a conversation ends
  // ---------------------------------------------------------------------------------

  predicate RefusedBefore(net: Network, attempt: nat) {
    exists i: nat :: i < attempt && IsStatus(net.script(i), 401)
  }

  /** Every attempt before this one was repeated, at most one of them with a new token. */
  predicate Reaches(kind: Kind, net: Network, attempt: nat) {
    && attempt <= net.survives
    && (forall i: nat | i < attempt :: Repeats(kind, net.script(i)) || IsStatus(net.script(i), 401))
    && (forall i: nat, j: nat | i < j < attempt :: !(IsStatus(net.script(i), 401) && IsStatus(net.script(j), 401)))
    && (RefusedBefore(net, attempt) ==> net.refreshOk)
  }

  lemma OneMoreAttempt(kind: Kind, net: Network, attempt: nat)
    requires Reaches(kind, net, attempt) && attempt < net.survives
    requires if IsStatus(net.script(attempt), 401) then net.refreshOk && !RefusedBefore(net, attempt)
             else Repeats(kind, net.script(attempt))
    ensures Reaches(kind, net, attempt + 1)
    ensures RefusedBefore(net, attempt + 1) == (RefusedBefore(net, attempt) || IsStatus(net.script(attempt), 401))
  {
    if RefusedBefore(net, attempt) {
      var i: nat :| i < attempt && IsStatus(net.script(i), 401);
      assert i < attempt + 1;
    }
  }

  /** The ways a conversation can end on its last attempt. */
  predicate EndsWith(c: Config, kind: Kind, net: Network, last: nat, reply: Reply) {
    match reply
    case Interrupted => net.survives == last
    case AuthenticationError => last < net.survives && !net.refreshOk && IsStatus(net.script(last), 401)
    case GraphError(Exhausted, flag) =>
      !flag && net.refreshOk && last == c.maxRetries < net.survives && IsStatus(net.script(last), 401) && !RefusedBefore(net, last)
    case reply => last < net.survives && reply == Final(c, kind, net.script(last))
  }

  /** What every conversation with a token looks like. */
  predicate WellEnded(c: Config, kind: Kind, net: Network, e: Exchange) {
    && 0 < e.sent <= c.maxRetries + 1 && e.refreshes <= 1
    && Reaches(kind, net, e.sent - 1) && EndsWith(c, kind, net, e.sent - 1, e.reply)
  }

  /** This attempt is followed by another. */
  predicate GoesOn(c: Config, kind: Kind, net: Network, attempt: nat, refreshed: bool) {
    && attempt < c.maxRetries && attempt < net.survives
    && (if IsStatus(net.script(attempt), 401) && !refreshed then net.refreshOk else Repeats(kind, net.script(attempt)))
  }

  lemma EndsNow(c: Config, kind: Kind, net: Network, attempt: nat, refreshed: bool)
    requires refreshed == RefusedBefore(net, attempt) && attempt <= c.maxRetries && attempt <= net.survives
    requires !GoesOn(c, kind, net, attempt, refreshed)
    ensures
      var e := Attempts(c, kind, net, attempt, refreshed);
      e.sent == attempt + 1 && e.refreshes <= 1 && EndsWith(c, kind, net, attempt, e.reply)
  {
  }

  lemma {:induction false} ConversationEnds(c: Config, kind: Kind, net: Network, attempt: nat, refreshed: bool)
    requires Reaches(kind, net, attempt) && refreshed == RefusedBefore(net, attempt) && attempt <= c.maxRetries
    ensures WellEnded(c, kind, net, Attempts(c, kind, net, attempt, refreshed))
    decreases c.maxRetries - attempt
  {
    if GoesOn(c, kind, net, attempt, refreshed) {
      OneMoreAttempt(kind, net, attempt);
      ConversationEnds(c, kind, net, attempt + 1, refreshed || IsStatus(net.script(attempt), 401));
    } else {
      EndsNow(c, kind, net, attempt, refreshed);
    }
  }

  lemma Ends(c: Config, kind: Kind, net: Network)
    requires net.tokenOk
    ensures WellEnded(c, kind, net, Conversation(c, kind, net))
  {
    ConversationEnds(c, kind, net, 0, false);
  }

  // ---------------------------------------------------------------------------------
  // Theorems
  // ---------------------------------------------------------------------------------

  lemma {:induction false} NoCommits(script: nat -> Response, hidden: nat -> bool, sent: nat)
    requires forall i: nat | i < sent :: IsStatus(script(i), 429) || IsStatus(script(i), 401)
    ensures Commits(script, hidden, sent) == 0
  {
    if sent > 0 {
      NoCommits(script, hidden, sent - 1);
    }
  }

  /** Only the last request of a write can have committed. */
  lemma OnlyLastCommits(c: Config, kind: Kind, net: Network, hidden: nat -> bool, e: Exchange)
    requires Changes(kind) && WellEnded(c, kind, net, e)
    ensures Commits(net.script, hidden, e.sent) == if CommittedAt(net.script, hidden, e.sent - 1) then 1 else 0
  {
    NoCommits(net.script, hidden, e.sent - 1);
  }

  /** A failure that does not say that the write may have committed. */
  predicate Unflagged(reply: Reply) {
    reply.AuthenticationError? || reply.DecodingError? || (reply.GraphError? && !reply.mayHaveCommitted)
  }

  /**
   One write call, whatever the responses, the retry bound, the server's hidden decisions
   and the moment the process dies: it commits at most once; a normal return means exactly
   one commit; a Graph error that is not flagged, or an authentication error, means none.
   What escapes the flag, a success answer on which the decoder fails, means exactly one.
   */
  lemma WriteCommitsAtMostOnce(c: Config, kind: Kind, net: Network, hidden: nat -> bool)
    requires Changes(kind)
    ensures
      var e := Conversation(c, kind, net);
      var commits := Commits(net.script, hidden, e.sent);
      && commits <= 1
      && (e.reply.Returned? || e.reply.EmptyObject? || e.reply.DecodingError? ==> commits == 1)
      && (e.reply.AuthenticationError? || (e.reply.GraphError? && !e.reply.mayHaveCommitted) ==> commits == 0)
  {
    if net.tokenOk {
      Ends(c, kind, net);
      OnlyLastCommits(c, kind, net, hidden, Conversation(c, kind, net));
    }
  }

  /** The declared length is absent or a number. */
  predicate LengthReads(r: Response) {
    r.Http? && r.declared != Malformed
  }

  /** Length and body are within the limit; only the upload also refuses a negative length. */
  predicate FitsLimit(c: Config, kind: Kind, r: Response) {
    && LengthReads(r) && r.size <= c.maxBytes
    && (r.declared.Length? ==> r.declared.value <= c.maxBytes && (kind == Upload ==> r.declared.value >= 0))
  }

  /** A success that has nothing to decode, which only a JSON request takes for an answer. */
  predicate Bodyless(kind: Kind, r: Response) {
    r.Http? && kind != Upload && (r.status == 204 || r.size == 0)
  }

  /** A success within the limits whose body is decoded. */
  predicate Decoded(c: Config, kind: Kind, r: Response) {
    Succeeds(r) && FitsLimit(c, kind, r) && !Bodyless(kind, r) && r.size > 0
  }

  /** A success answer within the size bounds whose body makes the decoder fail. */
  predicate SlipsThrough(c: Config, kind: Kind, r: Response) {
    Decoded(c, kind, r) && r.content.Undecodable?
  }

  /** Attempt `k` is made, and no other follows it. */
  predicate StopsAt(c: Config, kind: Kind, net: Network, k: nat) {
    && k <= c.maxRetries && Reaches(kind, net, k)
    && !GoesOn(c, kind, net, k, RefusedBefore(net, k))
  }

  /** A first refusal of the token. */
  predicate Refusal(net: Network, k: nat) {
    IsStatus(net.script(k), 401) && !RefusedBefore(net, k)
  }

  lemma {:induction false} AttemptsStop(c: Config, kind: Kind, net: Network, k: nat, attempt: nat, refreshed: bool)
    requires attempt <= k && StopsAt(c, kind, net, k)
    requires Reaches(kind, net, attempt) && refreshed == RefusedBefore(net, attempt)
    ensures Attempts(c, kind, net, attempt, refreshed) == Attempts(c, kind, net, k, RefusedBefore(net, k))
    decreases k - attempt
  {
    if attempt < k {
      assert Repeats(kind, net.script(attempt)) || IsStatus(net.script(attempt), 401);
      if IsStatus(net.script(attempt), 401) {
        assert RefusedBefore(net, k);
        assert !refreshed;
      }
      OneMoreAttempt(kind, net, attempt);
      AttemptsStop(c, kind, net, k, attempt + 1, refreshed || IsStatus(net.script(attempt), 401));
    }
  }

  lemma StopsWhereItEnds(c: Config, kind: Kind, net: Network)
    requires net.tokenOk
    ensures Conversation(c, kind, net).sent > 0 && StopsAt(c, kind, net, Conversation(c, kind, net).sent - 1)
  {
    StopsBelow(c, kind, net, 0, false);
  }

  lemma {:induction false} StopsBelow(c: Config, kind: Kind, net: Network, attempt: nat, refreshed: bool)
    requires Reaches(kind, net, attempt) && refreshed == RefusedBefore(net, attempt) && attempt <= c.maxRetries
    ensures
      var sent := Attempts(c, kind, net, attempt, refreshed).sent;
      sent > 0 && StopsAt(c, kind, net, sent - 1)
    decreases c.maxRetries - attempt
  {
    if GoesOn(c, kind, net, attempt, refreshed) {
      OneMoreAttempt(kind, net, attempt);
      StopsBelow(c, kind, net, attempt + 1, refreshed || IsStatus(net.script(attempt), 401));
    } else {
      EndsNow(c, kind, net, attempt, refreshed);
    }
  }

  /** The failures that a success answer can still end in. */
  predicate FailsOnBody(c: Config, kind: Kind, r: Response, failure: Failure) {
    Succeeds(r) && match failure
    case BadLength => !LengthReads(r)
    case TooLarge => LengthReads(r) && !FitsLimit(c, kind, r)
    case InvalidJson => (Decoded(c, kind, r) && r.content == NotJson) || (FitsLimit(c, kind, r) && !Bodyless(kind, r) && r.size == 0)
    case InvalidShape => Decoded(c, kind, r) && r.content == OtherJson
    case _ => false
  }

  /** The failures of an answer that is no success, or of no answer. */
  predicate FailsOnStatus(r: Response, failure: Failure) {
    match failure
    case LostAfterSend => r.TimedOut?
    case Unreachable => r.TransportLost?
    case HttpError(status) => status >= 400 && IsStatus(r, status)
    case Redirected => r.Http? && 300 <= r.status < 400
    case _ => false
  }

  /** The failures after which the write may have been committed. */
  predicate Ambiguous(failure: Failure) {
    match failure
    case HttpError(status) => status == 502 || status == 503 || status == 504
    case Exhausted => false
    case _ => true
  }

  /**
   The reply, from the script alone: exactly one attempt is the last, and what the call
   returns or raises is told by what that attempt met.
   */
  lemma ReplyExactly(c: Config, kind: Kind, net: Network, k: nat)
    requires net.tokenOk && StopsAt(c, kind, net, k)
    ensures
      var e, r := Conversation(c, kind, net), net.script(k);
      var live := k < net.survives;
      && e.sent == k + 1
      && e.refreshes == (if RefusedBefore(net, k) || (live && Refusal(net, k)) then 1 else 0)
      && (e.reply == Interrupted <==> k == net.survives)
      && (e.reply == AuthenticationError <==> live && Refusal(net, k) && !net.refreshOk)
      && (e.reply == EmptyObject <==> live && Succeeds(r) && FitsLimit(c, kind, r) && Bodyless(kind, r))
      && (forall v :: e.reply == Returned(v) <==> live && Decoded(c, kind, r) && r.content == JsonObject(v))
      && (forall t :: e.reply == DecodingError(t) <==> live && Decoded(c, kind, r) && r.content == Undecodable(t))
  {
    AttemptsStop(c, kind, net, k, 0, false);
  }

  /**
   When another request follows: while retries and the process last, after a first refusal
   of the token that can be replaced, after 429, and for reads also after a timeout, 502,
   503 and 504.
   */
  lemma RetriesExactly(c: Config, kind: Kind, net: Network, k: nat)
    requires net.tokenOk && k < Conversation(c, kind, net).sent
    ensures
      var r := net.script(k);
      Conversation(c, kind, net).sent > k + 1 <==>
        && k < c.maxRetries && k < net.survives
        && ((IsStatus(r, 401) && net.refreshOk && forall i: nat | i < k :: !IsStatus(net.script(i), 401))
            || IsStatus(r, 429)
            || (kind == Read && (r == TimedOut || IsStatus(r, 502) || IsStatus(r, 503) || IsStatus(r, 504))))
  {
    Ends(c, kind, net);
    StopsWhereItEnds(c, kind, net);
    var last := Conversation(c, kind, net).sent - 1;
    assert RefusedBefore(net, k) <==> exists i: nat :: i < k && IsStatus(net.script(i), 401);
    if k < last {
      assert Repeats(kind, net.script(k)) || IsStatus(net.script(k), 401);
      assert IsStatus(net.script(k), 401) ==> RefusedBefore(net, last);
    }
  }

  /** And which failure it is, with which flag. */
  lemma FailureExactly(c: Config, kind: Kind, net: Network, k: nat, failure: Failure, flag: bool)
    requires net.tokenOk && StopsAt(c, kind, net, k)
    ensures
      Conversation(c, kind, net).reply == GraphError(failure, flag) <==>
        && k < net.survives && flag == (Changes(kind) && Ambiguous(failure))
        && (if Refusal(net, k) then net.refreshOk && failure == Exhausted
            else FailsOnBody(c, kind, net.script(k), failure) || FailsOnStatus(net.script(k), failure))
  {
    AttemptsStop(c, kind, net, k, 0, false);
  }

  /**
   An unflagged failure follows a commit exactly when some attempt within the retry bound,
   all earlier ones having been repeated, meets a success answer on which the decoder
   raises anything but its own error.
   */
  lemma UnflaggedCommitExactly(c: Config, kind: Kind, net: Network, hidden: nat -> bool)
    requires Changes(kind)
    ensures
      var e := Conversation(c, kind, net);
      (Unflagged(e.reply) && Commits(net.script, hidden, e.sent) > 0) <==>
        (net.tokenOk && exists k: nat :: k <= c.maxRetries && k < net.survives && Reaches(kind, net, k)
                                         && SlipsThrough(c, kind, net.script(k)))
  {
    var e := Conversation(c, kind, net);
    WriteCommitsAtMostOnce(c, kind, net, hidden);
    if net.tokenOk {
      Ends(c, kind, net);
      if e.reply.DecodingError? {
        assert SlipsThrough(c, kind, net.script(e.sent - 1));
      }
      if k: nat :| k <= c.maxRetries && k < net.survives && Reaches(kind, net, k) && SlipsThrough(c, kind, net.script(k)) {
        ReplyExactly(c, kind, net, k);
      }
    }
  }

  /** The three kinds of body, each well inside the default limit of 2,000,000 bytes. */
  function Slippery(trouble: Trouble): Response {
    match trouble
    case NotText => Http(200, Absent, 3, Undecodable(NotText))
    case IntegerTooLong => Http(200, Absent, 5_007, Undecodable(IntegerTooLong))
    case NestedTooDeeply => Http(200, Absent, 600_001, Undecodable(NestedTooDeeply))
  }

  /** Each of them follows a commit without a flag. */
  lemma SlipperyAnswersFollowCommits(retries: nat, survives: nat, trouble: Trouble, hidden: nat -> bool)
    requires survives > 0
    ensures
      var net := Network(i => Slippery(trouble), true, true, survives);
      var e := Conversation(Config(retries, 2_000_000), Write, net);
      e.reply == DecodingError(trouble) && Unflagged(e.reply) && Commits(net.script, hidden, e.sent) == 1
  {
    var net := Network(i => Slippery(trouble), true, true, survives);
    assert Commits(net.script, hidden, 0) == 0;
  }

  /** The flag is raised only where it is needed: some server would have committed. */
  lemma FlaggedMeansPossible(c: Config, kind: Kind, net: Network)
    requires Changes(kind)
    requires
      var e := Conversation(c, kind, net);
      e.reply.GraphError? && e.reply.mayHaveCommitted
    ensures Commits(net.script, i => true, Conversation(c, kind, net).sent) == 1
  {
    Ends(c, kind, net);
    OnlyLastCommits(c, kind, net, i => true, Conversation(c, kind, net));
  }

  /** Sends and refreshes are bounded, and the retry budget runs out in exactly one way. */
  lemma CallsAreBounded(c: Config, kind: Kind, net: Network)
    ensures
      var e := Conversation(c, kind, net);
      e.sent <= c.maxRetries + 1 && e.refreshes <= 1 && (!net.tokenOk ==> e == Exchange(AuthenticationError, 0, 0))
    ensures
      var e := Conversation(c, kind, net);
      e.reply.GraphError? && e.reply.failure == Exhausted <==>
        && net.tokenOk && net.refreshOk && c.maxRetries < net.survives && IsStatus(net.script(c.maxRetries), 401)
        && forall i: nat | i < c.maxRetries :: Repeats(kind, net.script(i)) && !IsStatus(net.script(i), 401)
  {
    if net.tokenOk {
      Ends(c, kind, net);
      assert !RefusedBefore(net, c.maxRetries) ==> forall i: nat | i < c.maxRetries :: !IsStatus(net.script(i), 401);
      if net.refreshOk && c.maxRetries < net.survives && IsStatus(net.script(c.maxRetries), 401)
        && forall i: nat | i < c.maxRetries :: Repeats(kind, net.script(i)) && !IsStatus(net.script(i), 401) {
        RunsOut(c, kind, net, 0);
      }
    }
  }

  lemma {:induction false} RunsOut(c: Config, kind: Kind, net: Network, attempt: nat)
    requires attempt <= c.maxRetries < net.survives && net.refreshOk && IsStatus(net.script(c.maxRetries), 401)
    requires forall i: nat | i < c.maxRetries :: Repeats(kind, net.script(i)) && !IsStatus(net.script(i), 401)
    ensures Attempts(c, kind, net, attempt, false).reply == GraphError(Exhausted, false)
    decreases c.maxRetries - attempt
  {
    if attempt < c.maxRetries {
      RunsOut(c, kind, net, attempt + 1);
    }
  }

  /** A read is never flagged, so it moves none of the write counters. */
  lemma ReadsAreNeverFlagged(c: Config, net: Network)
    ensures
      var e := Conversation(c, Read, net);
      e.reply.GraphError? ==> !e.reply.mayHaveCommitted
  {
    if net.tokenOk {
      Ends(c, Read, net);
    }
  }

  /** A process that outlives the retry bound sees the end of its call. */
  lemma SurvivorsSeeTheEnd(c: Config, kind: Kind, net: Network)
    requires net.survives > c.maxRetries
    ensures Conversation(c, kind, net).reply != Interrupted
  {
    if net.tokenOk {
      Ends(c, kind, net);
    }
  }
}
