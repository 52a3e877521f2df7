/** Byte-bounded readers of request bodies, uploads and provider responses. */
module BodyLimits {
  import opened Base64Url

  function Concat(chunks: seq<seq<Byte>>): seq<Byte> {
    if chunks == [] then [] else chunks[0] + Concat(chunks[1..])
  }

  lemma {:induction false} ConcatAppend(chunks: seq<seq<Byte>>, chunk: seq<Byte>)
    ensures Concat(chunks + [chunk]) == Concat(chunks) + chunk
  {
    if chunks == [] {
      assert chunks + [chunk] == [chunk];
      assert Concat([chunk]) == chunk + Concat([chunk][1..]);
    } else {
      assert (chunks + [chunk])[1..] == chunks[1..] + [chunk];
      ConcatAppend(chunks[1..], chunk);
    }
  }

  lemma {:induction false} ConcatPrefix(chunks: seq<seq<Byte>>, k: nat)
    requires k <= |chunks|
    ensures Concat(chunks[..k]) <= Concat(chunks)
  {
    if k > 0 {
      ConcatPrefix(chunks[1..], k - 1);
      assert chunks[..k][1..] == chunks[1..][..k - 1];
    }
  }
}

/** The ASGI middleware that buffers a request body up to a limit before the application runs. */
module RequestLimits {
  import opened Text
  import opened Base64Url
  import opened BodyLimits

  datatype Message = Disconnect | Request(body: seq<Byte>, more: bool) | OtherMessage

  /** A header name, and what `int()` makes of the value. */
  datatype Header = Header(name: string, value: Option<int>)

  datatype Received = Body(content: seq<Byte>) | Gone

  /** `Waiting`: the messages so far settle nothing. */
  datatype Outcome = PassThrough | Reject | RunApp(first: Received) | Waiting

  datatype End = Complete | Broken | Open

  /** The first content-length header decides; anything it does not parse as a natural number is ignored. */
  function ContentLength(headers: seq<Header>): Option<int> {
    if headers == [] then None
    else if LowerAscii(headers[0].name) != "content-length" then ContentLength(headers[1..])
    else match headers[0].value
      case Some(n) => if n >= 0 then Some(n) else None
      case None => None
  }

  /** The request the messages carry: its bytes and how it ends. Later messages do not count. */
  function Payload(messages: seq<Message>): (seq<Byte>, End) {
    if messages == [] then ([], Open)
    else
      match messages[0]
      case Disconnect => ([], Broken)
      case OtherMessage => Payload(messages[1..])
      case Request(body, more) =>
        if !more then (body, Complete)
        else (body + Payload(messages[1..]).0, Payload(messages[1..]).1)
  }

  /** The specification: lengths first, then how the request ends. */
  function Decide(http: bool, headers: seq<Header>, messages: seq<Message>, limit: nat): Outcome {
    var declared, payload := ContentLength(headers), Payload(messages);
    if !http then PassThrough
    else if (declared.Some? && declared.value > limit) || |payload.0| > limit then Reject
    else match payload.1
      case Complete => RunApp(Body(payload.0))
      case Broken => RunApp(Gone)
      case Open => Waiting
  }

  class RequestBodyLimit {
    const maxBodyBytes: nat

    constructor (maxBodyBytes: nat)
      requires maxBodyBytes > 0
      ensures this.maxBodyBytes == maxBodyBytes
    {
      this.maxBodyBytes := maxBodyBytes;
    }

    method DeclaredLength(headers: seq<Header>) returns (r: Option<int>)
      ensures r == ContentLength(headers)
    {
      for i := 0 to |headers|
        invariant ContentLength(headers[i..]) == ContentLength(headers)
      {
        assert headers[i..][0] == headers[i] && headers[i..][1..] == headers[i + 1..];
        if LowerAscii(headers[i].name) != "content-length" {
          continue;
        }
        if headers[i].value.None? {
          return None;
        }
        return if headers[i].value.value >= 0 then headers[i].value else None;
      }
      return None;
    }

    /** Receives until the request ends, breaks off or grows too long; the buffer never outgrows the limit. */
    method Handle(http: bool, headers: seq<Header>, messages: seq<Message>) returns (r: Outcome, ghost peak: nat)
      ensures r == Decide(http, headers, messages, maxBodyBytes)
      ensures peak <= maxBodyBytes
    {
      peak := 0;
      if !http {
        return PassThrough, peak;
      }
      var declared := DeclaredLength(headers);
      if declared.Some? && declared.value > maxBodyBytes {
        return Reject, peak;
      }
      var body: seq<Byte> := [];
      assert messages[0..] == messages && body + Payload(messages).0 == Payload(messages).0;
      for i := 0 to |messages|
        invariant |body| <= maxBodyBytes && peak <= maxBodyBytes
        invariant Payload(messages) == (body + Payload(messages[i..]).0, Payload(messages[i..]).1)
      {
        var message := messages[i];
        assert messages[i..][0] == message && messages[i..][1..] == messages[i + 1..];
        if message.Disconnect? {
          assert body + [] == body;
          return RunApp(Gone), peak;
        }
        if message.OtherMessage? {
          continue;
        }
        if |body| + |message.body| > maxBodyBytes {
          return Reject, peak;
        }
        ghost var before := body;
        body := body + message.body;
        peak := if |body| > peak then |body| else peak;
        if !message.more {
          return RunApp(Body(body)), peak;
        }
        assert before + (message.body + Payload(messages[i + 1..]).0) == body + Payload(messages[i + 1..]).0;
      }
      assert body + [] == body;
      return Waiting, peak;
    }

    /** Handles a request and, if the application is to run, opens the channel it receives from. */
    method Call(http: bool, headers: seq<Header>, messages: seq<Message>) returns (r: Outcome, channel: Replay?)
      ensures r == Decide(http, headers, messages, maxBodyBytes)
      ensures r.RunApp? <==> channel != null
      ensures channel != null ==> fresh(channel) && channel.first == r.first && !channel.replayed
    {
      var outcome, _ := Handle(http, headers, messages);
      r := outcome;
      channel := null;
      if r.RunApp? {
        channel := new Replay(r.first);
      }
    }
  }

  /** The application's next message. */
  function Next(first: Received, replayed: bool): Received {
    if replayed then Gone else first
  }

  /** What the application receives instead of the original channel: the buffered request once, then disconnects. */
  class Replay {
    const first: Received
    var replayed: bool

    constructor (first: Received)
      ensures this.first == first && !replayed
    {
      this.first, replayed := first, false;
    }

    method Receive() returns (r: Received)
      modifies this
      ensures replayed && r == Next(first, old(replayed))
    {
      if !replayed {
        replayed := true;
        return first;
      }
      return Gone;
    }
  }

  /** The application's next `n` messages. */
  function Receives(first: Received, replayed: bool, n: nat): seq<Received>
    decreases n
  {
    if n == 0 then [] else [Next(first, replayed)] + Receives(first, true, n - 1)
  }

  lemma {:induction false} ReceivesOnce(first: Received, replayed: bool, n: nat)
    ensures |Receives(first, replayed, n)| == n
    ensures forall i | 0 <= i < n :: Receives(first, replayed, n)[i] == if i == 0 && !replayed then first else Gone
    decreases n
  {
    if n > 0 {
      ReceivesOnce(first, true, n - 1);
      forall i | 0 < i < n ensures Receives(first, replayed, n)[i] == Gone {
        assert Receives(first, replayed, n)[i] == Receives(first, true, n - 1)[i - 1];
      }
    }
  }

  /**
   * An application that runs does so for an HTTP request whose declared and received lengths fit. However often
   * it receives, it gets the whole body once, or a disconnect in its place, and disconnects from then on.
   */
  lemma AppSeesBodyOnce(http: bool, headers: seq<Header>, messages: seq<Message>, limit: nat, n: nat)
    requires Decide(http, headers, messages, limit).RunApp?
    ensures var payload := Payload(messages);
            var seen := Receives(Decide(http, headers, messages, limit).first, false, n);
            && |payload.0| <= limit && (ContentLength(headers).Some? ==> ContentLength(headers).value <= limit)
            && |seen| == n && (forall i | 1 <= i < n :: seen[i] == Gone)
            && (n > 0 ==> seen[0] == if payload.1 == Complete then Body(payload.0) else Gone)
  {
    ReceivesOnce(Decide(http, headers, messages, limit).first, false, n);
  }

  /** A message that does not end the request. */
  predicate Continues(m: Message) {
    m.OtherMessage? || (m.Request? && m.more)
  }

  /** The bytes of each request message. */
  function Chunks(messages: seq<Message>): seq<seq<Byte>> {
    if messages == [] then []
    else (if messages[0].Request? then [messages[0].body] else []) + Chunks(messages[1..])
  }

  /** The bytes of a completed request are those of its messages, in order, up to the first that announces no more. */
  lemma {:induction false} PayloadConcatenates(head: seq<Message>, last: seq<Byte>, rest: seq<Message>)
    requires forall i | 0 <= i < |head| :: Continues(head[i])
    ensures Payload(head + [Request(last, false)] + rest) == (Concat(Chunks(head)) + last, Complete)
    decreases |head|
  {
    var messages := head + [Request(last, false)] + rest;
    if head == [] {
      assert messages[0] == Request(last, false);
      assert Concat([]) + last == last;
    } else {
      var m, tail := head[0], head[1..];
      assert messages[0] == m && messages[1..] == tail + [Request(last, false)] + rest;
      PayloadConcatenates(tail, last, rest);
      if m.Request? {
        assert Chunks(head) == [m.body] + Chunks(tail);
        assert m.body + (Concat(Chunks(tail)) + last) == Concat(Chunks(head)) + last;
      } else {
        assert Chunks(head) == Chunks(tail);
      }
    }
  }

  /** However a completed body is cut into messages, and whatever comes between and after, it fares like one message. */
  lemma ChunkingIrrelevant(http: bool, headers: seq<Header>, head: seq<Message>, last: seq<Byte>, rest: seq<Message>,
                           limit: nat)
    requires forall i | 0 <= i < |head| :: Continues(head[i])
    ensures Decide(http, headers, head + [Request(last, false)] + rest, limit)
         == Decide(http, headers, [Request(Concat(Chunks(head)) + last, false)], limit)
  {
    PayloadConcatenates(head, last, rest);
  }

  lemma ChunksStep(messages: seq<Message>)
    requires messages != []
    ensures Concat(Chunks(messages)) ==
              if messages[0].Request? then messages[0].body + Concat(Chunks(messages[1..]))
              else Concat(Chunks(messages[1..]))
  {
    if messages[0].Request? {
      assert Chunks(messages) == [messages[0].body] + Chunks(messages[1..]);
    } else {
      assert Chunks(messages) == Chunks(messages[1..]);
    }
  }

  /** A request that breaks off: its bytes so far count, its later messages do not. */
  lemma {:induction false} PayloadBroken(head: seq<Message>, rest: seq<Message>)
    requires forall i | 0 <= i < |head| :: Continues(head[i])
    ensures Payload(head + [Disconnect] + rest) == (Concat(Chunks(head)), Broken)
    decreases |head|
  {
    var messages := head + [Disconnect] + rest;
    if head == [] {
      assert messages[0] == Disconnect;
    } else {
      assert Continues(head[0]);
      assert messages[0] == head[0] && messages[1..] == head[1..] + [Disconnect] + rest;
      PayloadBroken(head[1..], rest);
      ChunksStep(head);
    }
  }

  lemma {:induction false} PayloadOpen(messages: seq<Message>)
    requires forall i | 0 <= i < |messages| :: Continues(messages[i])
    ensures Payload(messages) == (Concat(Chunks(messages)), Open)
    decreases |messages|
  {
    if messages != [] {
      assert Continues(messages[0]);
      PayloadOpen(messages[1..]);
      ChunksStep(messages);
    }
  }

  /** A declared length above the limit. */
  predicate Declares(headers: seq<Header>, limit: nat) {
    ContentLength(headers).Some? && ContentLength(headers).value > limit
  }

  /** How a request fares: by its scheme, its declared length, its bytes, and the way its messages end. */
  lemma EndsDecide(headers: seq<Header>, head: seq<Message>, last: seq<Byte>, rest: seq<Message>, limit: nat)
    requires forall i | 0 <= i < |head| :: Continues(head[i])
    ensures var body := Concat(Chunks(head));
            var fits := |body| <= limit && !Declares(headers, limit);
            && Decide(true, headers, head + [Request(last, false)] + rest, limit)
            == (if fits && |body| + |last| <= limit then RunApp(Body(body + last)) else Reject)
            && Decide(true, headers, head + [Disconnect] + rest, limit) == (if fits then RunApp(Gone) else Reject)
            && Decide(true, headers, head, limit) == (if fits then Waiting else Reject)
    ensures Decide(false, headers, head + rest, limit) == PassThrough
  {
    PayloadConcatenates(head, last, rest);
    PayloadBroken(head, rest);
    PayloadOpen(head);
  }

  predicate IsLengthHeader(h: Header) {
    LowerAscii(h.name) == "content-length"
  }

  /** A declared length is the value of the first header of that name, in any letter case, if that is a natural. */
  lemma {:induction false} DeclaredIsFirst(headers: seq<Header>, n: int)
    ensures ContentLength(headers) == Some(n) <==>
              n >= 0 && exists k | 0 <= k < |headers| ::
                IsLengthHeader(headers[k]) && headers[k].value == Some(n) &&
                forall i | 0 <= i < k :: !IsLengthHeader(headers[i])
  {
    if headers != [] && !IsLengthHeader(headers[0]) {
      var rest := headers[1..];
      DeclaredIsFirst(rest, n);
      if k :| 0 <= k < |rest| && IsLengthHeader(rest[k]) && rest[k].value == Some(n) &&
              forall i | 0 <= i < k :: !IsLengthHeader(rest[i])
      {
        assert headers[k + 1] == rest[k];
        forall i | 0 <= i < k + 1 ensures !IsLengthHeader(headers[i]) {
          assert i > 0 ==> headers[i] == rest[i - 1];
        }
      }
      if k :| 0 <= k < |headers| && IsLengthHeader(headers[k]) && headers[k].value == Some(n) &&
              forall i | 0 <= i < k :: !IsLengthHeader(headers[i])
      {
        assert headers[k] == rest[k - 1];
        assert forall i | 0 <= i < k - 1 :: rest[i] == headers[i + 1];
      }
    }
  }

  lemma {:induction false} PayloadGrows(messages: seq<Message>, more: seq<Message>)
    ensures Payload(messages).1 != Open ==> Payload(messages + more) == Payload(messages)
    ensures |Payload(messages + more).0| >= |Payload(messages).0|
  {
    if messages == [] {
      assert messages + more == more;
    } else {
      assert (messages + more)[0] == messages[0] && (messages + more)[1..] == messages[1..] + more;
      PayloadGrows(messages[1..], more);
    }
  }

  /** Once the middleware has decided, no later message changes the decision. */
  lemma DecisionIsFinal(http: bool, headers: seq<Header>, messages: seq<Message>, more: seq<Message>, limit: nat)
    requires Decide(http, headers, messages, limit) != Waiting
    ensures Decide(http, headers, messages + more, limit) == Decide(http, headers, messages, limit)
  {
    PayloadGrows(messages, more);
  }
}

/** Uploads of reported or unknown size. */
module UploadLimits {
  import opened Text
  import opened Base64Url

  /** What a read hands back. */
  datatype Chunk = Bytes(data: seq<Byte>) | NotBinary

  /**
   * `size` is the reported integer, if any; `value` is what `getvalue` returns; `served` are the successive reads,
   * followed by end of file.
   */
  datatype Upload = Upload(size: Option<int>, value: Chunk, served: seq<Chunk>)

  datatype Result = Accepted(content: seq<Byte>) | TooLarge | NotBinaryData | BadLimit

  /** The limit as it is meant. */
  function Decide(content: seq<Byte>, limit: int): Result {
    if |content| > limit then TooLarge else Accepted(content)
  }

  /** Reading on with `remaining` bytes of room after `got`. */
  function ReadOn(got: seq<Byte>, served: seq<Chunk>, remaining: nat): Result
    decreases |served|
  {
    if remaining == 0 || served == [] then Accepted(got)
    else
      match served[0]
      case NotBinary => NotBinaryData
      case Bytes(data) =>
        if data == [] then Accepted(got)
        else if |data| > remaining then TooLarge
        else ReadOn(got + data, served[1..], remaining - |data|)
  }

  function Outcome(u: Upload, limit: int): Result {
    if limit <= 0 then BadLimit
    else if u.size.Some? then
      if u.size.value < 0 || u.size.value > limit then TooLarge
      else if u.value.NotBinary? then NotBinaryData
      else Decide(u.value.data, limit)
    else
      var read := ReadOn([], u.served, limit + 1);
      if read.Accepted? then Decide(read.content, limit) else read
  }

  method ReadBoundedUpload(u: Upload, limit: int) returns (r: Result, ghost held: nat)
    ensures r == Outcome(u, limit)
    ensures u.size.None? && limit > 0 ==> held <= limit + 1
  {
    held := 0;
    if limit <= 0 {
      return BadLimit, held;
    }
    var payload := [];
    if u.size.Some? {
      if u.size.value < 0 || u.size.value > limit {
        return TooLarge, held;
      }
      if u.value.NotBinary? {
        return NotBinaryData, held;
      }
      payload := u.value.data;
    } else {
      var remaining := limit + 1;
      var k := 0;
      while remaining > 0
        invariant 0 <= k <= |u.served| && remaining >= 0
        invariant held == |payload| == limit + 1 - remaining
        invariant ReadOn(payload, u.served[k..], remaining) == ReadOn([], u.served, limit + 1)
        decreases remaining
      {
        var chunk := if k < |u.served| then u.served[k] else Bytes([]);
        if chunk.NotBinary? {
          return NotBinaryData, held;
        }
        if chunk.data == [] {
          break;
        }
        if |chunk.data| > remaining {
          return TooLarge, held;
        }
        assert u.served[k..][1..] == u.served[k + 1..];
        payload := payload + chunk.data;
        remaining := remaining - |chunk.data|;
        held := |payload|;
        k := k + 1;
      }
    }
    return Decide(payload, limit), held;
  }

  /**
   * A reader that serves `content` from position `at`: every read returns between one byte and as many as
   * were asked for, or nothing at the end of the content.
   */
  ghost predicate Serves(content: seq<Byte>, at: nat, served: seq<Chunk>, remaining: nat)
    decreases |served|
  {
    && at <= |content|
    && (remaining == 0 ||
        if served == [] then at == |content|
        else
          && served[0].Bytes? && |served[0].data| <= remaining
          && if served[0].data == [] then at == |content|
             else
               && at + |served[0].data| <= |content|
               && served[0].data == content[at..at + |served[0].data|]
               && Serves(content, at + |served[0].data|, served[1..], remaining - |served[0].data|))
  }

  lemma {:induction false} ReadOnServes(content: seq<Byte>, at: nat, served: seq<Chunk>, remaining: nat)
    requires Serves(content, at, served, remaining)
    ensures ReadOn(content[..at], served, remaining)
         == Accepted(if at + remaining <= |content| then content[..at + remaining] else content)
    decreases |served|
  {
    if remaining == 0 {
    } else if served == [] || served[0].data == [] {
      assert content[..at] == content;
    } else {
      var n := |served[0].data|;
      assert content[..at] + served[0].data == content[..at + n];
      ReadOnServes(content, at + n, served[1..], remaining - n);
    }
  }

  /** Short reads in any rhythm: the loop accepts the content, whole, exactly when it fits. */
  lemma ShortReadsIrrelevant(content: seq<Byte>, u: Upload, limit: int)
    requires limit > 0 && u.size.None? && Serves(content, 0, u.served, limit + 1)
    ensures Outcome(u, limit) == Decide(content, limit)
  {
    ReadOnServes(content, 0, u.served, limit + 1);
    assert content[..0] == [];
  }

  /** The upload holds these bytes: it reports their number and hands them back, or serves them read by read. */
  ghost predicate Holds(u: Upload, content: seq<Byte>, limit: nat) {
    if u.size.Some? then u.size.value == |content| && u.value == Bytes(content)
    else Serves(content, 0, u.served, limit + 1)
  }

  /** Honest uploads of reported or unknown size are accepted, whole, exactly up to the limit itself. */
  lemma HonestUploadDecides(content: seq<Byte>, u: Upload, limit: nat)
    requires limit > 0 && Holds(u, content, limit)
    ensures Outcome(u, limit) == if |content| <= limit then Accepted(content) else TooLarge
  {
    if u.size.None? {
      ShortReadsIrrelevant(content, u, limit);
    }
  }

  lemma {:induction false} ReadOnAccepts(got: seq<Byte>, served: seq<Chunk>, remaining: nat)
    requires ReadOn(got, served, remaining).Accepted?
    ensures got <= ReadOn(got, served, remaining).content
    ensures |ReadOn(got, served, remaining).content| <= |got| + remaining
    decreases |served|
  {
    if remaining > 0 && served != [] && served[0].Bytes? && served[0].data != [] {
      ReadOnAccepts(got + served[0].data, served[1..], remaining - |served[0].data|);
    }
  }

  /** Whatever an upload reports or serves, nothing above the limit is accepted, nor what `getvalue` did not return. */
  lemma AcceptedFits(u: Upload, limit: int)
    requires Outcome(u, limit).Accepted?
    ensures 0 <= |Outcome(u, limit).content| <= limit
    ensures u.size.Some? ==> 0 <= u.size.value <= limit && u.value == Bytes(Outcome(u, limit).content)
    ensures u.size.None? ==> ReadOn([], u.served, limit + 1) == Outcome(u, limit)
  {
    if u.size.None? {
      ReadOnAccepts([], u.served, limit + 1);
    }
  }
}

/** Provider responses: a byte-bounded body and a bounded number of attempts. */
module ProviderLimits {
  import opened Text
  import opened Base64Url
  import opened BodyLimits

  const MAX_PROVIDER_RESPONSE_BYTES := 1024 * 1024
  const MAX_PROVIDER_ATTEMPTS := 2

  /** How the chunk stream ends. */
  datatype StreamEnd = Finished | BrokeTransiently | BrokeOtherwise

  /** What a GET comes back with; `declared` is the parsed Content-Length, -1 when it does not parse. */
  datatype Reply =
    | TransientFailure
    | OtherFailure
    | Response(status: int, declared: Option<int>, chunks: seq<seq<Byte>>, end: StreamEnd)

  datatype Attempt<P> = Payload(value: P) | OverLimit | InvalidPayload | Transient | BadStatus | BadTransport

  predicate TransientStatus(status: int) {
    status in {429, 502, 503, 504}
  }

  /** One reply, judged by its status, its lengths and its whole body. */
  function Judge<P>(reply: Reply, limit: nat, parse: seq<Byte> -> Option<P>): Attempt<P> {
    match reply
    case TransientFailure => Transient
    case OtherFailure => BadTransport
    case Response(status, declared, chunks, end) =>
      if TransientStatus(status) then Transient
      else if status >= 400 then BadStatus
      else if (declared.Some? && declared.value > limit) || |Concat(chunks)| > limit then OverLimit
      else if end == BrokeTransiently then Transient
      else if end == BrokeOtherwise then BadTransport
      else match parse(Concat(chunks))
        case Some(value) => Payload(value)
        case None => InvalidPayload
  }

  /** The body loop keeps at most one byte more than the limit, whatever the chunks. */
  method ReadBoundedResponse<P>(reply: Reply, limit: nat, parse: seq<Byte> -> Option<P>)
    returns (r: Attempt<P>, ghost held: nat)
    ensures r == Judge(reply, limit, parse)
    ensures held <= limit + 1
  {
    held := 0;
    if reply.TransientFailure? {
      return Transient, held;
    }
    if reply.OtherFailure? {
      return BadTransport, held;
    }
    if TransientStatus(reply.status) {
      return Transient, held;
    }
    if reply.status >= 400 {
      return BadStatus, held;
    }
    if reply.declared.Some? && reply.declared.value > limit {
      return OverLimit, held;
    }
    var body := [];
    var chunks := reply.chunks;
    for k := 0 to |chunks|
      invariant body == Concat(chunks[..k]) && |body| <= limit
      invariant held == |body|
    {
      var chunk := chunks[k];
      ConcatAppend(chunks[..k], chunk);
      assert chunks[..k + 1] == chunks[..k] + [chunk];
      if chunk == [] {
        continue;
      }
      var remaining := limit + 1 - |body|;
      body := body + if |chunk| <= remaining then chunk else chunk[..remaining];
      held := |body|;
      if |body| > limit {
        ConcatPrefix(chunks, k + 1);
        return OverLimit, held;
      }
    }
    assert chunks[..|chunks|] == chunks;
    if reply.end == BrokeTransiently {
      return Transient, held;
    }
    if reply.end == BrokeOtherwise {
      return BadTransport, held;
    }
    var value := parse(body);
    if value.None? {
      return InvalidPayload, held;
    }
    return Payload(value.value), held;
  }

  /** The error classes a caller sees. */
  datatype Fetched<P> = Fetched(value: P) | RequestError | LimitError | PayloadError | TransportError

  function Report<P>(a: Attempt<P>): Fetched<P> {
    match a
    case Payload(value) => Fetched(value)
    case OverLimit => LimitError
    case InvalidPayload => PayloadError
    case _ => TransportError
  }

  /** The status is fine and the body stays within the limit, declared and read. */
  predicate Within(reply: Reply, limit: nat) {
    && reply.Response? && reply.status < 400
    && (reply.declared.Some? ==> reply.declared.value <= limit) && |Concat(reply.chunks)| <= limit
  }

  predicate Excessive(reply: Reply, limit: nat) {
    && reply.Response? && reply.status < 400
    && ((reply.declared.Some? && reply.declared.value > limit) || |Concat(reply.chunks)| > limit)
  }

  /**
   * Which replies give a payload, which are worth another attempt, and what the caller learns of the others. A
   * transient status is retried, an excessive body is not, even if the connection breaks within it.
   */
  lemma ReplyMeans<P>(reply: Reply, limit: nat, parse: seq<Byte> -> Option<P>)
    ensures var a := Judge(reply, limit, parse);
            && (forall v :: Report(a) == Fetched(v) <==>
                  Within(reply, limit) && reply.end == Finished && parse(Concat(reply.chunks)) == Some(v))
            && (Report(a) == PayloadError <==>
                  Within(reply, limit) && reply.end == Finished && parse(Concat(reply.chunks)) == None)
            && (Report(a) == LimitError <==> Excessive(reply, limit))
            && (Report(a) == TransportError <==>
                  !reply.Response? || reply.status >= 400 || (Within(reply, limit) && reply.end != Finished))
            && (a.Transient? <==>
                  || reply.TransientFailure? || (Within(reply, limit) && reply.end == BrokeTransiently)
                  || (reply.Response? && reply.status in {429, 502, 503, 504}))
  {
  }

  /** The body's cut into chunks, empty ones included, does not matter. */
  lemma ChunksIrrelevant<P>(a: Reply, b: Reply, limit: nat, parse: seq<Byte> -> Option<P>)
    requires a.Response? && b.Response? && a.status == b.status && a.declared == b.declared && a.end == b.end
    requires Concat(a.chunks) == Concat(b.chunks)
    ensures Judge(a, limit, parse) == Judge(b, limit, parse)
  {
  }

  /**
   * Attempts until one is not transient. The answer is that of the last attempt made, every earlier one was
   * transient, attempts stop early only for a lasting answer, and there is one pause between two attempts.
   */
  method GetBoundedJson<P>(https: bool, replies: nat -> Reply, limit: int, maxAttempts: int,
                           parse: seq<Byte> -> Option<P>)
    returns (r: Fetched<P>, calls: nat, pauses: nat)
    ensures !https || limit < 1 || limit > MAX_PROVIDER_RESPONSE_BYTES || maxAttempts < 1 ||
              maxAttempts > MAX_PROVIDER_ATTEMPTS
            <==> calls == 0
    ensures calls == 0 ==> r == RequestError && pauses == 0
    ensures calls > 0 ==>
              && calls <= maxAttempts && pauses == calls - 1
              && r == Report(Judge(replies(calls - 1), limit, parse))
              && (forall i: nat | i < calls - 1 :: Judge(replies(i), limit, parse).Transient?)
              && (calls < maxAttempts ==> !Judge(replies(calls - 1), limit, parse).Transient?)
  {
    calls, pauses := 0, 0;
    if !https || limit < 1 || limit > MAX_PROVIDER_RESPONSE_BYTES || maxAttempts < 1 ||
       maxAttempts > MAX_PROVIDER_ATTEMPTS
    {
      return RequestError, calls, pauses;
    }
    while calls < maxAttempts
      invariant calls == pauses < maxAttempts
      invariant forall i: nat | i < calls :: Judge(replies(i), limit, parse).Transient?
      decreases maxAttempts - calls
    {
      var a, _ := ReadBoundedResponse(replies(calls), limit, parse);
      calls := calls + 1;
      if !a.Transient? || calls == maxAttempts {
        return Report(a), calls, pauses;
      }
      pauses := pauses + 1;
    }
    assert false;
    r := TransportError;
  }
}
