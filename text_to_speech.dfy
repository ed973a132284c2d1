/**
 * The text-to-speech edge function (supabase/functions/text-to-speech/index.ts):
 * it validates the request, calls the speech service once, maps the service's
 * status to an error, turns the returned audio bytes into a binary string in
 * chunks, and answers with that string Base64-encoded. The request body, the
 * API key from the environment and the service's reply are parameters.
 */
module TextToSpeech {
  import opened Wrappers
  import Base64

  type Byte = Base64.Byte

  /** Bytes handed to `String.fromCharCode` in one call. */
  const ChunkSize: nat := 32768

  /** The `text` field of the request body. */
  datatype TextField = TextAbsent | TextString(s: string) | TextOther

  /** The parsed request body; the handler receives `None` when the body is not JSON. */
  datatype Request = Request(text: TextField, voiceId: string)

  /** What the speech service answered, if it could be reached: its status, its body read as text, and as bytes. */
  datatype Upstream = Unreachable | Reply(status: int, bodyText: string, audio: seq<Byte>)

  /** Every way the function can fail; each ends in a 500 response. */
  datatype TtsError =
    | BodyNotJson                  // `req.json()` rejects
    | TextNotString                // `text.substring` throws a TypeError before the emptiness check
    | TextRequired
    | KeyNotConfigured
    | ServiceUnreachable           // `fetch` rejects
    | InvalidKey
    | RateLimited
    | ServiceError(body: string)
    | EmptyAudio

  /** The message of each error the function throws itself; the runtime's own errors carry the runtime's message. */
  function Message(e: TtsError): (m: Option<string>)
    ensures m.None? <==> e in {BodyNotJson, TextNotString, ServiceUnreachable}
  {
    match e
    case TextRequired => Some("Text is required")
    case KeyNotConfigured => Some("ElevenLabs API key not configured")
    case InvalidKey => Some("Invalid ElevenLabs API key")
    case RateLimited => Some("ElevenLabs API rate limit exceeded")
    case ServiceError(body) => Some("ElevenLabs API error: " + body)
    case EmptyAudio => Some("Received empty audio data from ElevenLabs")
    case _ => None
  }

  datatype Response =
    | Audio(status: int, audioContent: string)
    | Failure(status: int, error: TtsError)

  /** The checks made before the speech service is called; on success, the text and the key. */
  function Validate(body: Option<Request>, apiKey: Option<string>): (r: Result<(string, string), TtsError>)
    ensures body.None? ==> r == Err(BodyNotJson)
    ensures body.Some? && !body.value.text.TextString? ==> r == Err(TextNotString)
    ensures body.Some? && body.value.text == TextString("") ==> r == Err(TextRequired)
    ensures body.Some? && body.value.text.TextString? && body.value.text.s != "" && (apiKey.None? || apiKey.value == "")
            ==> r == Err(KeyNotConfigured)
    ensures r.Ok? <==> body.Some? && body.value.text.TextString? && body.value.text.s != ""
                       && apiKey.Some? && apiKey.value != ""
    ensures r.Ok? ==> r.value == (body.value.text.s, apiKey.value)
  {
    match body
    case None => Err(BodyNotJson)
    case Some(req) =>
      if !req.text.TextString? then Err(TextNotString)
      else if req.text.s == "" then Err(TextRequired)
      else if apiKey.None? || apiKey.value == "" then Err(KeyNotConfigured)
      else Ok((req.text.s, apiKey.value))
  }

  /** `response.ok`: a status in the range 200-299. */
  predicate IsOk(status: int)
  {
    200 <= status <= 299
  }

  /** The error for a status that is not OK: 401 and 429 have their own, any other carries the body text. */
  function StatusError(status: int, bodyText: string): (e: Option<TtsError>)
    ensures e.None? <==> IsOk(status)
    ensures status == 401 ==> e == Some(InvalidKey)
    ensures status == 429 ==> e == Some(RateLimited)
    ensures !IsOk(status) && status != 401 && status != 429 ==> e == Some(ServiceError(bodyText))
  {
    if IsOk(status) then None
    else if status == 401 then Some(InvalidKey)
    else if status == 429 then Some(RateLimited)
    else Some(ServiceError(bodyText))
  }

  /** The string whose k-th character has character code `bytes[k]`. */
  function BinaryString(bytes: seq<Byte>): (s: string)
    ensures |s| == |bytes|
    ensures forall k :: 0 <= k < |s| ==> s[k] as int == bytes[k]
  {
    seq(|bytes|, k requires 0 <= k < |bytes| => bytes[k] as char)
  }

  /** Converting two pieces and joining them is converting the whole: chunking does not change the result. */
  lemma BinaryStringAppend(a: seq<Byte>, b: seq<Byte>)
    ensures BinaryString(a + b) == BinaryString(a) + BinaryString(b)
  {
    assert forall k :: 0 <= k < |a + b| ==> BinaryString(a + b)[k] == (BinaryString(a) + BinaryString(b))[k];
  }

  /** `btoa` on a string of character codes below 256: Base64 of those codes. */
  function Btoa(binary: string): (r: string)
    requires forall k :: 0 <= k < |binary| ==> binary[k] as int < 256
    ensures |r| == 4 * ((|binary| + 2) / 3)
  {
    Base64.Encode(seq(|binary|, k requires 0 <= k < |binary| => binary[k] as int))
  }

  /** `[start, end)` of one chunk. */
  datatype Chunk = Chunk(start: nat, end: nat)

  /** The chunks lie end to end from 0 to `n`, none empty and none longer than the chunk size. */
  ghost predicate Tiles(chunks: seq<Chunk>, n: nat)
  {
    && (forall c :: 0 <= c < |chunks| ==> chunks[c].start < chunks[c].end <= chunks[c].start + ChunkSize)
    && (forall c :: 0 < c < |chunks| ==> chunks[c - 1].end == chunks[c].start)
    && (if chunks == [] then n == 0 else chunks[0].start == 0 && chunks[|chunks| - 1].end == n)
  }

  function Min(a: int, b: int): int
  {
    if a < b then a else b
  }

  /**
   * The chunked loop: slices of at most `ChunkSize` bytes are converted one at a time
   * and appended; `chunks` records the slices taken.
   */
  method ChunkedBinaryString(bytes: seq<Byte>) returns (binary: string, ghost chunks: seq<Chunk>)
    ensures binary == BinaryString(bytes)
    ensures Tiles(chunks, |bytes|)
  {
    binary := "";
    chunks := [];
    var i := 0;
    while i < |bytes|
      invariant chunks == [] <==> i == 0
      invariant chunks != [] ==> chunks[0].start == 0
      invariant chunks != [] ==> chunks[|chunks| - 1].start + ChunkSize == i
      invariant chunks != [] ==> chunks[|chunks| - 1].end == Min(i, |bytes|)
      invariant forall c :: 0 <= c < |chunks| ==> chunks[c].start < chunks[c].end <= chunks[c].start + ChunkSize
      invariant forall c :: 0 < c < |chunks| ==> chunks[c - 1].end == chunks[c].start
      invariant binary == BinaryString(bytes[..Min(i, |bytes|)])
    {
      var end := Min(i + ChunkSize, |bytes|);
      var chunk := bytes[i..end];
      BinaryStringAppend(bytes[..i], chunk);
      assert bytes[..i] + chunk == bytes[..end];
      binary := binary + BinaryString(chunk);
      chunks := chunks + [Chunk(i, end)];
      i := i + ChunkSize;
    }
    assert bytes[..|bytes|] == bytes;
  }

  /** The whole function as a value: the response for a request body, a configured key and the service's reply. */
  function Respond(body: Option<Request>, apiKey: Option<string>, upstream: Upstream): Response
  {
    match Validate(body, apiKey)
    case Err(e) => Failure(500, e)
    case Ok(_) =>
      match upstream
      case Unreachable => Failure(500, ServiceUnreachable)
      case Reply(status, bodyText, audio) =>
        match StatusError(status, bodyText)
        case Some(e) => Failure(500, e)
        case None =>
          if |audio| == 0 then Failure(500, EmptyAudio)
          else Audio(200, Btoa(BinaryString(audio)))
  }

  /** The handler, with the chunked loop: it answers exactly what `Respond` describes. */
  method HandleRequest(body: Option<Request>, apiKey: Option<string>, upstream: Upstream) returns (response: Response)
    ensures response == Respond(body, apiKey, upstream)
  {
    var checked := Validate(body, apiKey);
    if checked.Err? {
      return Failure(500, checked.error);
    }
    if upstream.Unreachable? {
      return Failure(500, ServiceUnreachable);
    }
    var failure := StatusError(upstream.status, upstream.bodyText);
    if failure.Some? {
      return Failure(500, failure.value);
    }
    if |upstream.audio| == 0 {
      return Failure(500, EmptyAudio);
    }
    var binary, _ := ChunkedBinaryString(upstream.audio);
    response := Audio(200, Btoa(binary));
  }

  /** A request that fails validation gets the same 500 answer whatever the service would have said: it is never called. */
  lemma InvalidRequestNeverCallsService(body: Option<Request>, apiKey: Option<string>, u1: Upstream, u2: Upstream)
    requires Validate(body, apiKey).Err?
    ensures Respond(body, apiKey, u1) == Respond(body, apiKey, u2)
    ensures Respond(body, apiKey, u1) == Failure(500, Validate(body, apiKey).error)
  {
  }

  /** Every failure, thrown by the function or by the runtime, is answered with status 500. */
  lemma FailuresAre500(body: Option<Request>, apiKey: Option<string>, upstream: Upstream)
    ensures Respond(body, apiKey, upstream).Failure? ==> Respond(body, apiKey, upstream).status == 500
    ensures Respond(body, apiKey, upstream).Audio? ==> Respond(body, apiKey, upstream).status == 200
  {
  }

  /** A reply whose status is not OK ends in the error its status selects; an empty OK reply in `EmptyAudio`. */
  lemma ServiceReplyDecidesError(body: Option<Request>, apiKey: Option<string>, status: int, bodyText: string, audio: seq<Byte>)
    requires Validate(body, apiKey).Ok?
    ensures !IsOk(status) ==> Respond(body, apiKey, Reply(status, bodyText, audio)) == Failure(500, StatusError(status, bodyText).value)
    ensures IsOk(status) && audio == [] ==> Respond(body, apiKey, Reply(status, bodyText, audio)) == Failure(500, EmptyAudio)
    ensures IsOk(status) && audio != [] ==> Respond(body, apiKey, Reply(status, bodyText, audio)).Audio?
  {
  }

  /** A successful answer carries the service's audio, which Base64 decoding recovers byte for byte. */
  lemma {:induction false} AudioRoundTrip(body: Option<Request>, apiKey: Option<string>, upstream: Upstream)
    requires Respond(body, apiKey, upstream).Audio?
    ensures upstream.Reply? && IsOk(upstream.status) && |upstream.audio| > 0
    ensures Base64.Decode(Respond(body, apiKey, upstream).audioContent) == Some(upstream.audio)
  {
    var binary := BinaryString(upstream.audio);
    var codes := seq(|binary|, k requires 0 <= k < |binary| => binary[k] as int);
    assert codes == upstream.audio;
    Base64.DecodeEncode(upstream.audio);
  }
}
