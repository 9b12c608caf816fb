/** The AIRC client: registration, presence heartbeats, sending and polling
    messages against a registry over HTTP. What is modelled is how each call
    builds its request (URL, JSON body, headers) and what it makes of the
    answer; the HTTP exchange itself is a function `transport` passed in. */
module AircClient {
  import opened Base
  import opened Text
  import opened Dict
  import opened Json
  import opened Crypto
  import opened FileStore
  import opened KeyStore
  import opened AircIdentity

  const DefaultRegistry: string := "https://slashvibe.dev"

  /** An HTTP request as `urllib.request.Request` is given it. */
  datatype Request = Request(verb: string, url: string, body: Option<seq<byte>>, headers: seq<(string, string)>)

  /** Sending a request and decoding the JSON answer, or the `AIRCError`
      raised for an HTTP error status. */
  type Transport = Request -> Result<Json, Error>

  /** A request that could be built is sent; a failure to build it is
      raised before anything is sent. */
  function Dispatch(request: Result<Request, Error>, transport: Transport): (r: Result<Json, Error>)
    ensures request.Err? ==> r == Err(request.error)
    ensures request.Ok? ==> r == transport(request.value)
  {
    match request
    case Err(e) => Err(e)
    case Ok(q) => transport(q)
  }

  function RegisterPayload(name: string, publicKey: string): Json {
    JObj([("name", JStr(name)), ("publicKey", JStr(publicKey))])
  }

  function HeartbeatPayload(name: string, status: string): Json {
    JObj([("action", JStr("heartbeat")), ("username", JStr(name)), ("status", JStr(status))])
  }

  function SendPayload(name: string, to: string, text: string, payloadType: string): Json {
    JObj([("from", JStr(name)), ("to", JStr(to)), ("type", JStr(payloadType)), ("text", JStr(text))])
  }

  /** `result.get("messages", [])`: a missing key gives the empty list, and
      an answer that is not an object has no `get`. */
  function MessagesOf(response: Result<Json, Error>): (r: Result<Json, Error>)
    ensures response.Err? ==> r == response
    ensures response.Ok? && response.value.JObj? ==>
      r == Ok(Get(response.value.fields, "messages").GetOr(JArr([])))
    ensures response.Ok? && !response.value.JObj? ==> r == Err(AttributeError)
  {
    match response
    case Err(e) => Err(e)
    case Ok(JObj(fields)) => Ok(Get(fields, "messages").GetOr(JArr([])))
    case Ok(_) => Err(AttributeError)
  }

  function Repeat(c: char, n: nat): (s: string)
    ensures |s| == n && forall i :: 0 <= i < n ==> s[i] == c
  {
    if n == 0 then "" else [c] + Repeat(c, n - 1)
  }

  /** However many `@` a recipient is written with, the message goes to the
      same name. */
  lemma {:induction false} RecipientIgnoresAts(to: string, n: nat)
    ensures LStrip(Repeat('@', n) + to, '@') == LStrip(to, '@')
  {
    if n > 0 {
      RecipientIgnoresAts(to, n - 1);
      var rest := Repeat('@', n - 1) + to;
      assert Repeat('@', n) + to == ['@'] + rest;
      LStripStep(rest);
    } else {
      assert Repeat('@', n) + to == to;
    }
  }

  lemma LStripStep(s: string)
    ensures LStrip(['@'] + s, '@') == LStrip(s, '@')
  {
    assert (['@'] + s)[1..] == s;
  }

  /** Adding the two signing headers to the content-type header. */
  lemma SigningHeaders(signature: string, name: string)
    ensures Put(Put([("Content-Type", "application/json")], "X-AIRC-Signature", signature), "X-AIRC-Identity", name)
         == [("Content-Type", "application/json"), ("X-AIRC-Signature", signature), ("X-AIRC-Identity", name)]
  {
    var first := [("Content-Type", "application/json")];
    assert Keys(first) == ["Content-Type"];
    PutAbsent(first, "X-AIRC-Signature", signature);
    var second := first + [("X-AIRC-Signature", signature)];
    assert Keys(second) == ["Content-Type", "X-AIRC-Signature"];
    PutAbsent(second, "X-AIRC-Identity", name);
  }

  class Client {
    const name: string
    const registry: string
    const signRequests: bool
    const identity: Identity
    var registered: bool

    /** `Client(name, registry, sign_requests)`: every trailing `/` is removed
        from the registry, signing is off by default, the identity is a new
        one for `name` in the default key directory, and nothing is
        registered yet. */
    constructor(name: string, registry: Option<string>, signRequests: Option<bool>, crypto: Primitives)
      ensures this.name == name && this.signRequests == signRequests.GetOr(false)
      ensures this.registry == RStrip(registry.GetOr(DefaultRegistry), '/')
      ensures this.registry == [] || this.registry[|this.registry| - 1] != '/'
      ensures fresh(identity) && identity.name == name && identity.keyDir == DefaultKeyDir
      ensures identity.crypto == crypto && identity.privateKey.None? && identity.publicKey.None?
      ensures !registered
    {
      this.name := name;
      this.registry := RStrip(registry.GetOr(DefaultRegistry), '/');
      this.signRequests := signRequests.GetOr(false);
      this.identity := new Identity(name, None, crypto);
      this.registered := false;
    }

    /** The request `_post` sends: `registry + endpoint`, the default
        `json.dumps` text of the payload as UTF-8, a JSON content type, and
        the signature and identity headers exactly when signing is on. When
        signing is on and no key is loaded, `sign` raises first. */
    function PostRequest(endpoint: string, payload: Json): (r: Result<Request, Error>)
      reads this, identity
      ensures r.Err? <==> signRequests && identity.privateKey.None?
      ensures r.Err? ==> r.error == NoKeypairLoaded
      ensures r.Ok? ==> (r.value.verb == "POST" && r.value.url == registry + endpoint &&
        r.value.body == Some(Utf8Encode(Dumps(payload, PythonDefault))))
      ensures r.Ok? ==> (Keys(r.value.headers) ==
        if signRequests then ["Content-Type", "X-AIRC-Signature", "X-AIRC-Identity"] else ["Content-Type"])
      ensures r.Ok? ==> (DistinctKeys(r.value.headers) &&
        Get(r.value.headers, "Content-Type") == Some("application/json") &&
        (Get(r.value.headers, "X-AIRC-Signature").Some? <==> signRequests) &&
        (Get(r.value.headers, "X-AIRC-Identity").Some? <==> signRequests))
      ensures r.Ok? && signRequests ==>
        Get(r.value.headers, "X-AIRC-Signature") == Some(SignatureOf(identity.crypto, identity.privateKey.value, payload)) &&
        Get(r.value.headers, "X-AIRC-Identity") == Some(name)
    {
      var body := Utf8Encode(Dumps(payload, PythonDefault));
      if signRequests then
        match identity.Sign(payload)
        case Err(e) => Err(e)
        case Ok(signature) =>
          Ok(Request("POST", registry + endpoint, Some(body),
            [("Content-Type", "application/json"), ("X-AIRC-Signature", signature), ("X-AIRC-Identity", name)]))
      else
        Ok(Request("POST", registry + endpoint, Some(body), [("Content-Type", "application/json")]))
    }

    /** `_post`: the headers start with the content type and gain the two
        signing headers when signing is on. */
    method Post(endpoint: string, payload: Json, transport: Transport) returns (r: Result<Json, Error>)
      ensures r == Dispatch(PostRequest(endpoint, payload), transport)
    {
      var url := registry + endpoint;
      var body := Utf8Encode(Dumps(payload, PythonDefault));
      var headers := [("Content-Type", "application/json")];
      if signRequests {
        var signature := identity.Sign(payload);
        if signature.Err? {
          return Err(signature.error);
        }
        SigningHeaders(signature.value, name);
        headers := Put(headers, "X-AIRC-Signature", signature.value);
        headers := Put(headers, "X-AIRC-Identity", name);
      }
      r := transport(Request("POST", url, Some(body), headers));
    }

    /** `register`: load or create the key first, so the public key is always
        there to send; the registry gets `{name, publicKey}` with the key in
        plain base64, and the client counts as registered only when the post
        returned. */
    method Register(fs: FileSystem, drawn: Seed, transport: Transport) returns (r: Result<Json, Error>)
      modifies this, identity, fs
      ensures var e := Ensure(old(fs.files), fs.creationMode, identity.Slot(), identity.crypto, drawn);
        if e.Err? then
          r == Err(e.error) && fs.files == old(fs.files) &&
          identity.privateKey == old(identity.privateKey) && identity.publicKey == old(identity.publicKey)
        else
          fs.files == e.value.files && identity.privateKey == Some(e.value.seed) && identity.Valid() &&
          r == Dispatch(PostRequest("/api/identity",
                 RegisterPayload(name, identity.crypto.base64(identity.crypto.publicKeyOf(e.value.seed)))), transport)
      ensures registered == (old(registered) || r.Ok?)
    {
      var ensured := identity.EnsureKeypair(fs, drawn);
      if ensured.Fail? {
        return Err(ensured.error);
      }
      var publicKey := identity.PublicKeyBase64();
      var payload := RegisterPayload(name, publicKey.value);
      r := Post("/api/identity", payload, transport);
      if r.Ok? {
        registered := true;
      }
    }

    /** `heartbeat`: `{action: "heartbeat", username, status}`, status
        "available" unless given. */
    method Heartbeat(status: Option<string>, transport: Transport) returns (r: Result<Json, Error>)
      ensures r == Dispatch(PostRequest("/api/presence", HeartbeatPayload(name, status.GetOr("available"))), transport)
    {
      var payload := HeartbeatPayload(name, status.GetOr("available"));
      r := Post("/api/presence", payload, transport);
    }

    /** `send`: every leading `@` is dropped from the recipient; the message
        type is "text" unless given. */
    method Send(to: string, text: string, payloadType: Option<string>, transport: Transport) returns (r: Result<Json, Error>)
      ensures r == Dispatch(PostRequest("/api/messages", SendPayload(name, LStrip(to, '@'), text, payloadType.GetOr("text"))), transport)
    {
      var recipient := LStrip(to, '@');
      var payload := SendPayload(name, recipient, text, payloadType.GetOr("text"));
      r := Post("/api/messages", payload, transport);
    }

    /** The URL `poll` fetches. */
    function PollUrl(since: Option<int>): (url: string)
    {
      var base := registry + "/api/messages?to=" + name;
      if since.Some? && since.value != 0 then base + "&since=" + IntRepr(since.value) else base
    }

    /** `poll`: a GET of the messages for this name, with `since` in the query
        only when it is given and nonzero; the answer's `messages`. */
    method Poll(since: Option<int>, transport: Transport) returns (r: Result<Json, Error>)
      ensures r == MessagesOf(transport(Request("GET", PollUrl(since), None, [])))
    {
      var url := registry + "/api/messages?to=" + name;
      if since.Some? && since.value != 0 {
        url := url + "&since=" + IntRepr(since.value);
      }
      var result := transport(Request("GET", url, None, []));
      match result
      case Err(e) =>
        r := Err(e);
      case Ok(answer) =>
        if answer.JObj? {
          r := Ok(Get(answer.fields, "messages").GetOr(JArr([])));
        } else {
          r := Err(AttributeError);
        }
    }

    /** The poll URL names this client as recipient, and carries `since`
        exactly when it is given and nonzero, in a form that reads back as
        that number. */
    lemma PollUrlCarriesSince(since: Option<int>)
      ensures var base := registry + "/api/messages?to=" + name;
        var url := PollUrl(since);
        |base| <= |url| && url[..|base|] == base &&
        (since.None? || since.value == 0 ==> url == base) &&
        (since.Some? && since.value != 0 ==>
          url[|base|..|base| + 7] == "&since=" && ParseInt(url[|base| + 7..]) == Some(since.value))
    {
      var base := registry + "/api/messages?to=" + name;
      if since.Some? && since.value != 0 {
        var tail := "&since=" + IntRepr(since.value);
        assert PollUrl(since) == base + "&since=" + IntRepr(since.value) == base + tail;
        assert (base + tail)[..|base|] == base;
        assert (base + tail)[|base|..|base| + 7] == "&since=";
        assert (base + tail)[|base| + 7..] == IntRepr(since.value);
        IntReprRoundTrip(since.value);
      }
    }

    /** The body of every post is printable ASCII, one byte per character of
        the JSON text. */
    lemma PostBodyIsAscii(endpoint: string, payload: Json)
      requires PostRequest(endpoint, payload).Ok?
      ensures var body := PostRequest(endpoint, payload).value.body.value;
        var text := Dumps(payload, PythonDefault);
        |body| == |text| && forall i :: 0 <= i < |text| ==> body[i] as int == text[i] as int
    {
      DumpsPrintable(payload, PythonDefault);
      Utf8Ascii(Dumps(payload, PythonDefault));
    }
  }
}
