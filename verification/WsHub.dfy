/** The WebSocket hub's gate lookup and the headers it forwards
    (ws-hub-svc/ws/ws.go). A client connects to a gate; the hub dials every
    channel of the gate with the client's request headers, minus the
    WebSocket handshake headers, which the dialer sets itself. */
module WsHub {
  import opened Common

  /** HTTP headers: every name with its values. */
  type HttpHeader = map<string, seq<string>>

  datatype Channel = Channel(url: string)

  datatype Gate = Gate(name: string, channels: map<string, Channel>)

  /** The handshake headers, lower-cased. */
  const HeadersToRemoveLower: set<string> := {
    "upgrade", "connection", "sec-websocket-key", "sec-websocket-version",
    "sec-websocket-extensions", "sec-websocket-protocol"
  }

  function LowerChar(c: char): (r: char)
    ensures !('A' <= r <= 'Z')
    ensures !('A' <= c <= 'Z') ==> r == c
  {
    if 'A' <= c <= 'Z' then (c as int - 'A' as int + 'a' as int) as char else c
  }

  /** `strings.ToLower` on header names, which are ASCII. */
  function ToLower(s: string): (r: string)
    ensures |r| == |s|
    ensures forall i :: 0 <= i < |s| ==> r[i] == LowerChar(s[i])
  {
    Map(LowerChar, s)
  }

  /** Lower-casing twice changes nothing more. */
  lemma ToLowerIdempotent(s: string)
    ensures ToLower(ToLower(s)) == ToLower(s)
  {
    assert forall i :: 0 <= i < |s| ==> ToLower(ToLower(s))[i] == ToLower(s)[i];
  }

  predicate IsWebSocketHeader(name: string) {
    ToLower(name) in HeadersToRemoveLower
  }

  /** `headersWithoutWS`: a new header map without the handshake headers,
      whatever their capitalisation; every other header keeps its values. */
  function HeadersWithoutWS(h: HttpHeader): (r: HttpHeader)
    ensures forall k :: k in r <==> k in h && !IsWebSocketHeader(k)
    ensures forall k :: k in r ==> r[k] == h[k]
  {
    map k | k in h && !IsWebSocketHeader(k) :: h[k]
  }

  /** Stripping twice strips nothing more, and the result is part of the
      input. */
  lemma HeadersWithoutWSIdempotent(h: HttpHeader)
    ensures HeadersWithoutWS(HeadersWithoutWS(h)) == HeadersWithoutWS(h)
    ensures HeadersWithoutWS(h).Keys <= h.Keys
  {
  }

  /** A header map without handshake headers is forwarded unchanged. */
  lemma PlainHeadersAreKept(h: HttpHeader)
    requires forall k :: k in h ==> !IsWebSocketHeader(k)
    ensures HeadersWithoutWS(h) == h
  {
  }

  /** A handshake header is removed in any capitalisation, for instance
      `Upgrade`. */
  lemma HandshakeHeadersAreRemoved(h: HttpHeader, name: string)
    requires ToLower(name) == "upgrade"
    ensures name !in HeadersWithoutWS(h)
    ensures "Upgrade" !in HeadersWithoutWS(h)
  {
    assert ToLower("Upgrade")[0] == 'u';
    assert ToLower("Upgrade") == "upgrade";
  }

  /** A dial of one channel: where to, and with which headers. */
  datatype Dial = Dial(url: string, header: HttpHeader)

  /** The dials `Serve` makes for a gate: an unknown gate is not found and
      dials nothing; otherwise every channel of the gate is dialled at its URL
      with the stripped request headers. */
  function ServeDials(gates: map<string, Gate>, gate: string, requestHeader: HttpHeader): (r: Result<map<string, Dial>>)
    ensures r.Err? <==> gate !in gates
    ensures r.Err? ==> r.code == NotFound
    ensures r.Ok? ==> r.value.Keys == gates[gate].channels.Keys
    ensures r.Ok? ==> forall c :: c in r.value ==>
      r.value[c].url == gates[gate].channels[c].url
      && (forall k :: k in r.value[c].header ==> !IsWebSocketHeader(k))
  {
    if gate !in gates then Err(NotFound)
    else
      var channels := gates[gate].channels;
      Ok(map c | c in channels :: Dial(channels[c].url, HeadersWithoutWS(requestHeader)))
  }

  /** Every channel receives the same headers: the request's, minus the
      handshake. */
  lemma ChannelsShareHeaders(gates: map<string, Gate>, gate: string, requestHeader: HttpHeader, c: string)
    requires ServeDials(gates, gate, requestHeader).Ok?
    requires c in ServeDials(gates, gate, requestHeader).value
    ensures ServeDials(gates, gate, requestHeader).value[c].header == HeadersWithoutWS(requestHeader)
  {
  }
}
