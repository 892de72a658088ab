/** HTTP header maps: what is forwarded upstream, what comes back to the client, and what the audit trail may keep. */
module Headers {
  import opened GoStrings

  type Header = map<Bytes, seq<Bytes>>

  const INTERNAL_TOKEN: Bytes := "X-Internal-Token"
  const USER_ID: Bytes := "X-User-Id"
  const REQUEST_ID: Bytes := "X-Request-Id"
  const ACCEPTED_AT: Bytes := "X-Request-Accepted-At"
  const FORWARDED_FOR: Bytes := "X-Forwarded-For"
  const FORWARDED_HOST: Bytes := "X-Forwarded-Host"
  const FORWARDED_PROTO: Bytes := "X-Forwarded-Proto"
  const COMMA: Bytes := ", "
  const CONNECTING_IP: Bytes := "Cf-Connecting-Ip"

  // ------------------------------------------------------------ header keys

  predicate IsTokenByte(c: Byte) {
    || 'a' <= c <= 'z' || 'A' <= c <= 'Z' || '0' <= c <= '9'
    || c == '!' || c == '#' || c == '$' || c == '%' || c == '&' || c == '\'' || c == '*' || c == '+' || c == '-'
    || c == '.' || c == '^' || c == '_' || c == '`' || c == '|' || c == '~'
  }

  predicate IsToken(key: Bytes) {
    forall i :: 0 <= i < |key| ==> IsTokenByte(key[i])
  }

  /**
   * `http.CanonicalHeaderKey`: capitals at the start and after each hyphen, small letters elsewhere; an odd key is
   * left alone.
   */
  function Canonical(key: Bytes): Bytes {
    if IsToken(key) then
      seq(|key|, i requires 0 <= i < |key| => if i == 0 || key[i - 1] == '-' then Upper(key[i]) else Lower(key[i]))
    else key
  }

  lemma CanonicalIsIdempotent(key: Bytes)
    ensures Canonical(Canonical(key)) == Canonical(key)
  {
    if IsToken(key) {
      var once := Canonical(key);
      forall i | 0 <= i < |key| ensures IsTokenByte(once[i]) && (once[i] == '-' <==> key[i] == '-') {
        LetterCaseKeepsToken(key[i]);
      }
      var twice := Canonical(once);
      forall i | 0 <= i < |key| ensures twice[i] == once[i] {
        assert i > 0 ==> (once[i - 1] == '-' <==> key[i - 1] == '-');
      }
      assert |twice| == |once|;
    }
  }

  /** Spellings that differ in letter case only are one key, spelt with a capital at the start and after each hyphen. */
  lemma CanonicalSpelling(key: Bytes, other: Bytes)
    requires IsToken(key) && ToLower(key) == ToLower(other)
    ensures Canonical(key) == Canonical(other) && ToLower(Canonical(key)) == ToLower(key)
    ensures forall i :: 0 <= i < |key| ==>
              if i == 0 || key[i - 1] == '-' then !('a' <= Canonical(key)[i] <= 'z')
                  else !('A' <= Canonical(key)[i] <= 'Z')
  {
    hide IsTokenByte, Upper, Lower, Canonical, IsToken;
    assert |ToLower(key)| == |ToLower(other)|;
    forall i | 0 <= i < |key|
      ensures IsTokenByte(other[i]) && Upper(key[i]) == Upper(other[i]) && Lower(key[i]) == Lower(other[i])
      ensures key[i] == '-' <==> other[i] == '-'
    {
      assert ToLower(key)[i] == ToLower(other)[i];
      TokenAt(key, i);
      SameLetter(key[i], other[i]);
    }
    SameSpelling(key, other);
    forall i | 0 <= i < |key|
      ensures Lower(Canonical(key)[i]) == Lower(key[i])
      ensures if i == 0 || key[i - 1] == '-' then !('a' <= Canonical(key)[i] <= 'z')
          else !('A' <= Canonical(key)[i] <= 'Z')
    {
      CanonicalAt(key, i);
      TokenAt(key, i);
      SameLetter(key[i], key[i]);
    }
    assert ToLower(Canonical(key)) == ToLower(key);
  }

  lemma TokenAt(key: Bytes, i: nat)
    requires IsToken(key) && i < |key|
    ensures IsTokenByte(key[i])
  {
  }

  lemma CanonicalAt(key: Bytes, i: nat)
    requires IsToken(key) && i < |key|
    ensures |Canonical(key)| == |key|
    ensures Canonical(key)[i] == if i == 0 || key[i - 1] == '-' then Upper(key[i]) else Lower(key[i])
  {
  }

  lemma SameSpelling(key: Bytes, other: Bytes)
    requires IsToken(key) && |key| == |other|
    requires forall i :: 0 <= i < |key| ==> IsTokenByte(other[i]) && Upper(key[i]) == Upper(other[i])
    requires forall i :: 0 <= i < |key| ==> Lower(key[i]) == Lower(other[i]) && (key[i] == '-' <==> other[i] == '-')
    ensures Canonical(key) == Canonical(other) && |Canonical(key)| == |key|
  {
    hide Upper, Lower, IsTokenByte;
    assert forall i :: 0 <= i < |key| ==> Canonical(key)[i] == Canonical(other)[i];
  }

  lemma SameLetter(c: Byte, d: Byte)
    requires IsTokenByte(c) && Lower(c) == Lower(d)
    ensures IsTokenByte(d) && Upper(c) == Upper(d) && (c == '-' <==> d == '-')
    ensures Lower(Upper(c)) == Lower(c) == Lower(Lower(c)) && !('a' <= Upper(c) <= 'z') && !('A' <= Lower(c) <= 'Z')
  {
  }

  lemma LetterCaseKeepsToken(c: Byte)
    requires IsTokenByte(c)
    ensures IsTokenByte(Upper(c)) && IsTokenByte(Lower(c))
    ensures (Upper(c) == '-' <==> c == '-') && (Lower(c) == '-' <==> c == '-')
  {
  }

  ghost predicate CanonicalKeys(header: Header) {
    forall k <- header.Keys :: Canonical(k) == k
  }

  const DROPPED_FROM_REQUEST: set<Bytes> := {
    "Authorization", "Connection", "Cookie", "Keep-Alive", "Proxy-Authenticate", "Proxy-Authorization", "Te", "Trailer",
    "Transfer-Encoding", "Upgrade", FORWARDED_FOR, FORWARDED_HOST, FORWARDED_PROTO, INTERNAL_TOKEN, USER_ID, ACCEPTED_AT
  }

  const DROPPED_FROM_RESPONSE: set<Bytes> := {
    "Connection", "Keep-Alive", "Proxy-Authenticate", "Proxy-Authorization", "Set-Cookie", "Te", "Trailer",
    "Transfer-Encoding", "Upgrade"
  }

  const DROPPED_FROM_REQUEST_AUDIT: set<Bytes> := {
    "Apikey", "Api-Key", "X-Api-Key", "Authorization", "Cookie", "Proxy-Authorization", INTERNAL_TOKEN, USER_ID
  }

  const DROPPED_FROM_RESPONSE_AUDIT: set<Bytes> := {"Authorization", "Set-Cookie", INTERNAL_TOKEN}

  /** Each drop test canonicalises the key it is asked about. */
  predicate ShouldDrop(key: Bytes, dropped: set<Bytes>) {
    Canonical(key) in dropped
  }

  // ------------------------------------------------------------ header maps

  function Values(header: Header, key: Bytes): seq<Bytes> {
    if key in header then header[key] else []
  }

  function Get(header: Header, key: Bytes): Bytes {
    if Values(header, key) == [] then "" else Values(header, key)[0]
  }

  /** A key is in the map only when it has a value. */
  ghost predicate NoneEmpty(header: Header) {
    forall k <- header.Keys :: header[k] != []
  }

  lemma SameValues(a: Header, b: Header)
    requires NoneEmpty(a) && NoneEmpty(b) && forall k :: Values(a, k) == Values(b, k)
    ensures a == b
  {
    assert forall k :: k in a <==> Values(a, k) != [];
    assert forall k :: k in b <==> Values(b, k) != [];
  }

  class HeaderMap {
    var header: Header

    constructor (initial: Header)
      ensures header == initial
    {
      header := initial;
    }

    /** For keys written in canonical form, as all the gateway's own are. */
    method Set(key: Bytes, value: Bytes)
      modifies this
      ensures header == old(header)[key := [value]]
    {
      header := header[key := [value]];
    }

    method Add(key: Bytes, value: Bytes)
      requires Canonical(key) == key
      modifies this
      ensures header == old(header)[key := Values(old(header), key) + [value]]
    {
      header := header[key := Values(header, key) + [value]];
    }
  }

  /** The values of `key` that pass a copy. */
  function Passed(source: Header, key: Bytes, dropped: set<Bytes>): seq<Bytes> {
    if key in dropped then [] else Values(source, key)
  }

  method AddEach(target: HeaderMap, key: Bytes, values: seq<Bytes>)
    requires Canonical(key) == key
    modifies target
    ensures Values(target.header, key) == Values(old(target.header), key) + values
    ensures forall k :: k != key ==> Values(target.header, k) == Values(old(target.header), k)
    ensures NoneEmpty(old(target.header)) ==> NoneEmpty(target.header)
  {
    ghost var before := target.header;
    for i := 0 to |values|
      invariant Values(target.header, key) == Values(before, key) + values[..i]
      invariant forall k :: k != key ==> Values(target.header, k) == Values(before, k)
      invariant NoneEmpty(before) ==> NoneEmpty(target.header)
    {
      assert values[..i + 1] == values[..i] + [values[i]];
      target.Add(key, values[i]);
    }
    assert values[..|values|] == values;
  }

  /** Adds `source` to `target`, key by key in whatever order the map yields them. */
  method CopyHeaders(target: HeaderMap, source: Header, dropped: set<Bytes>)
    requires CanonicalKeys(source)
    modifies target
    ensures forall k :: Values(target.header, k) == Values(old(target.header), k) + Passed(source, k, dropped)
    ensures NoneEmpty(old(target.header)) ==> NoneEmpty(target.header)
  {
    hide Canonical, NoneEmpty;
    ghost var base := target.header;
    var keys := source.Keys;
    while keys != {}
      invariant keys <= source.Keys && (NoneEmpty(base) ==> NoneEmpty(target.header))
      invariant forall k :: Values(target.header, k) == Values(base, k) + if k in keys then []
          else Passed(source, k, dropped)
      decreases |keys|
    {
      var key :| key in keys;
      keys := keys - {key};
      if !ShouldDrop(key, dropped) {
        AddEach(target, key, source[key]);
      }
    }
  }

  // ------------------------------------------------------------ the request that goes upstream

  /** What the gateway itself vouches for in a forwarded request. */
  datatype Vouched = Vouched(internalToken: Bytes, userId: Bytes, requestId: Bytes, acceptedAt: Bytes, remote: Bytes,
      host: Bytes, tls: bool)

  /** The forwarding chain: what the client or the edge reported, then the peer the gateway saw. */
  function Chain(source: Header, remote: Bytes): Bytes {
    var claimed := TrimSpace(Get(source, FORWARDED_FOR));
    var forwardedFor := if claimed == [] then TrimSpace(Get(source, CONNECTING_IP)) else claimed;
    if forwardedFor != [] && remote != [] then forwardedFor + COMMA + remote
    else if forwardedFor != [] then forwardedFor
    else remote
  }

  function Proto(tls: bool): Bytes {
    if tls then "https" else "http"
  }

  /**
   * What the upstream service is to see under `key`: the gateway alone speaks for its own keys, and a dropped key is
   * gone.
   */
  function ForwardedValues(source: Header, v: Vouched, key: Bytes): seq<Bytes> {
    if key == INTERNAL_TOKEN then [v.internalToken]
    else if key == USER_ID then [v.userId]
    else if key == REQUEST_ID then [v.requestId]
    else if key == ACCEPTED_AT then [v.acceptedAt]
    else if key == FORWARDED_FOR then if Chain(source, v.remote) == [] then [] else [Chain(source, v.remote)]
    else if key == FORWARDED_HOST then [v.host]
    else if key == FORWARDED_PROTO then [Proto(v.tls)]
    else Passed(source, key, DROPPED_FROM_REQUEST)
  }

  lemma OwnKeysDiffer()
    ensures |INTERNAL_TOKEN| == |FORWARDED_HOST| == 16 && INTERNAL_TOKEN[2] != FORWARDED_HOST[2]
    ensures |USER_ID| == 9 && |REQUEST_ID| == 12 && |ACCEPTED_AT| == 21 && |FORWARDED_FOR| == 15 &&
        |FORWARDED_PROTO| == 17
  {
  }

  method SetForwarded(request: HeaderMap, source: Header, v: Vouched)
    modifies request
    ensures Values(request.header, FORWARDED_FOR)
            == if Chain(source, v.remote) == [] then Values(old(request.header), FORWARDED_FOR)
                else [Chain(source, v.remote)]
    ensures Values(request.header, FORWARDED_HOST) == [v.host]
    ensures Values(request.header, FORWARDED_PROTO) == [Proto(v.tls)]
    ensures forall k :: k != FORWARDED_FOR && k != FORWARDED_HOST && k != FORWARDED_PROTO ==>
                          Values(request.header, k) == Values(old(request.header), k)
    ensures NoneEmpty(old(request.header)) ==> NoneEmpty(request.header)
  {
    hide TrimSpace, Get, Proto;
    OwnKeysDiffer();
    var forwardedFor := TrimSpace(Get(source, FORWARDED_FOR));
    if forwardedFor == [] {
      forwardedFor := TrimSpace(Get(source, CONNECTING_IP));
    }
    if forwardedFor != [] && v.remote != [] {
      request.Set(FORWARDED_FOR, forwardedFor + COMMA + v.remote);
    } else if forwardedFor != [] {
      request.Set(FORWARDED_FOR, forwardedFor);
    } else if v.remote != [] {
      request.Set(FORWARDED_FOR, v.remote);
    }
    request.Set(FORWARDED_HOST, v.host);
    request.Set(FORWARDED_PROTO, Proto(v.tls));
  }

  lemma EmptyHeader()
    ensures NoneEmpty(map[]) && forall k :: Values(map[], k) == []
  {
  }

  method SetVouched(request: HeaderMap, v: Vouched)
    modifies request
    ensures Values(request.header, INTERNAL_TOKEN) == [v.internalToken] && Values(request.header, USER_ID) == [v.userId]
    ensures Values(request.header, REQUEST_ID) == [v.requestId] && Values(request.header, ACCEPTED_AT) == [v.acceptedAt]
    ensures forall k :: k !in {INTERNAL_TOKEN, USER_ID, REQUEST_ID, ACCEPTED_AT} ==>
                          Values(request.header, k) == Values(old(request.header), k)
    ensures NoneEmpty(old(request.header)) ==> NoneEmpty(request.header)
  {
    OwnKeysDiffer();
    request.Set(INTERNAL_TOKEN, v.internalToken);
    request.Set(USER_ID, v.userId);
    request.Set(REQUEST_ID, v.requestId);
    request.Set(ACCEPTED_AT, v.acceptedAt);
  }

  const OWN_KEYS: set<Bytes> :=
    {INTERNAL_TOKEN, USER_ID, REQUEST_ID, ACCEPTED_AT, FORWARDED_FOR, FORWARDED_HOST, FORWARDED_PROTO}

  /** The header of the outgoing request. */
  function ForwardedHeader(source: Header, v: Vouched): Header {
    map key | key in source.Keys + OWN_KEYS && ForwardedValues(source, v, key) != [] :: ForwardedValues(source, v, key)
  }

  /**
   * What an upstream service is told of the peers on the way: what the client reported, or the edge if the client
   * reported nothing, then the peer the gateway saw; and nothing at all when there is nothing to tell.
   */
  predicate TellsPeers(values: seq<Bytes>, claimed: Bytes, edge: Bytes, remote: Bytes) {
    var before := if claimed != [] then claimed else edge;
    if before == [] && remote == [] then values == []
    else if remote == [] then values == [before]
    else if before == [] then values == [remote]
    else values == [before + ", " + remote]
  }

  /** The keys that belong to one connection or to one client's session, and are never forwarded. */
  predicate IsPrivate(key: Bytes) {
    || key == "Authorization" || key == "Cookie" || key == "Connection" || key == "Keep-Alive" ||
        key == "Proxy-Authenticate"
    || key == "Proxy-Authorization" || key == "Te" || key == "Trailer" || key == "Transfer-Encoding" || key == "Upgrade"
  }

  /** The keys the gateway speaks for. */
  predicate IsGateways(key: Bytes) {
    || key == "X-Internal-Token" || key == "X-User-Id" || key == "X-Request-Id" || key == "X-Request-Accepted-At"
    || key == "X-Forwarded-For" || key == "X-Forwarded-Host" || key == "X-Forwarded-Proto"
  }

  /** What the gateway speaks for, under the names of the interface. */
  ghost predicate TellsOrigin(header: Header, v: Vouched) {
    && Values(header, "X-Internal-Token") == [v.internalToken]
    && Values(header, "X-User-Id") == [v.userId]
    && Values(header, "X-Request-Id") == [v.requestId]
    && Values(header, "X-Request-Accepted-At") == [v.acceptedAt]
  }

  /** How the request came, for services that cannot see it themselves. */
  ghost predicate TellsScheme(header: Header, v: Vouched) {
    && Values(header, "X-Forwarded-Host") == [v.host]
    && Values(header, "X-Forwarded-Proto") == [if v.tls then "https" else "http"]
  }

  /** What came with the request about the peers on the way. */
  function Claimed(source: Header): Bytes {
    TrimSpace(Get(source, "X-Forwarded-For"))
  }

  function Edge(source: Header): Bytes {
    TrimSpace(Get(source, "Cf-Connecting-Ip"))
  }

  ghost predicate TellsWay(header: Header, source: Header, v: Vouched) {
    TellsScheme(header, v) && TellsPeers(Values(header, "X-Forwarded-For"), Claimed(source), Edge(source), v.remote)
  }

  /** The header of an outgoing request, key by key. */
  ghost predicate IsOutgoing(header: Header, source: Header, v: Vouched) {
    && TellsOrigin(header, v) && TellsWay(header, source, v)
    && (forall key :: IsPrivate(key) ==> Values(header, key) == [])
    && (forall key :: !IsPrivate(key) && !IsGateways(key) ==> Values(header, key) == Values(source, key))
  }

  lemma DroppedKeys(key: Bytes)
    ensures IsPrivate(key) ==> key in DROPPED_FROM_REQUEST
    ensures key in DROPPED_FROM_REQUEST ==> IsPrivate(key) || IsGateways(key)
  {
  }

  lemma PrivateIsNotGateways(key: Bytes)
    ensures IsGateways(key) <==> key in OWN_KEYS
    ensures !(IsPrivate(key) && IsGateways(key))
  {
  }

  lemma OutgoingIs(source: Header, v: Vouched)
    ensures IsOutgoing(ForwardedHeader(source, v), source, v)
  {
    hide TrimSpace, Get, DROPPED_FROM_REQUEST, IsPrivate, IsGateways;
    OutgoingValues(source, v);
    OwnKeysDiffer();
    forall key ensures IsPrivate(key) ==> ForwardedValues(source, v, key) == []
      ensures !IsPrivate(key) && !IsGateways(key) ==> ForwardedValues(source, v, key) == Values(source, key)
    {
      DroppedKeys(key);
      PrivateIsNotGateways(key);
    }
  }

  /** Two gateways in a row: the second appends the peer it saw, which is the first, to what the first one told. */
  lemma PeersAreAppended(source: Header, first: Vouched, second: Vouched)
    requires Trimmed(first.remote) && first.remote != [] && second.remote != []
    ensures var told := Values(ForwardedHeader(source, first), "X-Forwarded-For");
            && |told| == 1
            && Values(ForwardedHeader(ForwardedHeader(source, first), second), "X-Forwarded-For")
               == [told[0] + ", " + second.remote]
  {
    hide TrimSpace, Trimmed;
    OutgoingIs(source, first);
    OutgoingIs(ForwardedHeader(source, first), second);
    var before := if Claimed(source) != [] then Claimed(source) else Edge(source);
    if before != [] {
      ListIsTrimmed(before, first.remote);
    }
  }

  lemma ListIsTrimmed(a: Bytes, b: Bytes)
    requires Trimmed(a) && Trimmed(b) && b != []
    ensures Trimmed(a + ", " + b)
  {
    hide LeadSpace, TailSpace;
    assert a + ", " + b == a + [','] + ([' '] + b);
    assert TailSpace([' '] + b) == 0 by {
      SpaceKeepsTail(b);
    }
    TrimmedAround(a, ',', [' '] + b);
  }

  lemma SpaceKeepsTail(b: Bytes)
    requires TailSpace(b) == 0 && b != []
    ensures TailSpace([' '] + b) == 0
  {
    var s: Bytes := [' '] + b;
    assert forall i :: 0 <= i < |b| ==> s[i + 1] == b[i];
  }

  /**
   * Whatever the client sends, each key the gateway owns carries the gateway's value and nothing else, every other
   * dropped key is gone, and every remaining key keeps its values in order.
   */
  method ForwardHeaders(source: Header, v: Vouched) returns (header: Header)
    requires CanonicalKeys(source)
    ensures forall key :: Values(header, key) == ForwardedValues(source, v, key)
    ensures header == ForwardedHeader(source, v) && IsOutgoing(header, source, v)
  {
    hide IsOutgoing, Chain, NoneEmpty, Values, ForwardedHeader;
    OwnKeysDiffer();
    assert FORWARDED_FOR in DROPPED_FROM_REQUEST;
    var request := new HeaderMap(map[]);
    assert NoneEmpty(request.header) && forall k :: Values(request.header, k) == [] by {
      EmptyHeader();
    }
    CopyHeaders(request, source, DROPPED_FROM_REQUEST);
    hide DROPPED_FROM_REQUEST;
    SetVouched(request, v);
    SetForwarded(request, source, v);
    header := request.header;
    OutgoingValues(source, v);
    SameValues(header, ForwardedHeader(source, v));
    OutgoingIs(source, v);
  }

  lemma OutgoingValues(source: Header, v: Vouched)
    ensures forall key :: Values(ForwardedHeader(source, v), key) == ForwardedValues(source, v, key)
    ensures NoneEmpty(ForwardedHeader(source, v))
  {
    hide Chain, DROPPED_FROM_REQUEST;
    assert forall key :: ForwardedValues(source, v, key) != [] ==> key in source.Keys + OWN_KEYS;
  }

  /** No credential or identity the client sends reaches an upstream service. */
  lemma NothingForgedIsForwarded(source: Header, other: Header, v: Vouched, key: Bytes)
    requires key in {"Authorization", "Cookie", INTERNAL_TOKEN, USER_ID, ACCEPTED_AT, REQUEST_ID}
    ensures ForwardedValues(source, v, key) == ForwardedValues(other, v, key)
  {
    OwnKeysDiffer();
  }

  // ------------------------------------------------------------ the response that goes back

  /** The header of a proxied response: the gateway's own, with the upstream's added. */
  function ResponseHeader(own: Header, upstream: Header): Header {
    map k | k in own.Keys + upstream.Keys && Values(own, k) + Passed(upstream, k, DROPPED_FROM_RESPONSE) != []
      :: Values(own, k) + Passed(upstream, k, DROPPED_FROM_RESPONSE)
  }

  /** The keys of an upstream response that belong to its connection, or would set the client's cookies. */
  predicate IsWithheld(key: Bytes) {
    || key == "Set-Cookie" || key == "Connection" || key == "Keep-Alive" || key == "Proxy-Authenticate"
    || key == "Proxy-Authorization" || key == "Te" || key == "Trailer" || key == "Transfer-Encoding" || key == "Upgrade"
  }

  /** The header of a relayed response, key by key: what the gateway has set, and behind it what the upstream sent. */
  ghost predicate IsRelayed(header: Header, own: Header, upstream: Header) {
    forall key :: Values(header, key) == Values(own, key) + if IsWithheld(key) then [] else Values(upstream, key)
  }

  lemma WithheldKeys(key: Bytes)
    ensures key in DROPPED_FROM_RESPONSE <==> IsWithheld(key)
  {
  }

  lemma ResponseIs(own: Header, upstream: Header)
    ensures IsRelayed(ResponseHeader(own, upstream), own, upstream)
  {
    hide DROPPED_FROM_RESPONSE, IsWithheld;
    var header := ResponseHeader(own, upstream);
    forall key
      ensures Values(header, key) == Values(own, key) + if IsWithheld(key) then [] else Values(upstream, key)
    {
      WithheldKeys(key);
      assert Values(header, key) == Values(own, key) + Passed(upstream, key, DROPPED_FROM_RESPONSE);
    }
  }

  method CopyResponseHeaders(own: Header, upstream: Header) returns (header: Header)
    requires CanonicalKeys(upstream) && NoneEmpty(own)
    ensures header == ResponseHeader(own, upstream) && IsRelayed(header, own, upstream)
  {
    hide IsRelayed, DROPPED_FROM_RESPONSE;
    ResponseIs(own, upstream);
    var sent := new HeaderMap(own);
    CopyHeaders(sent, upstream, DROPPED_FROM_RESPONSE);
    header := sent.header;
    SameValues(header, ResponseHeader(own, upstream));
  }

  /**
   * An upstream response cannot displace what the gateway has already set: its values are added behind, so the first
   * request id the client reads is the gateway's own.
   */
  lemma GatewayHeadersComeFirst(own: Header, upstream: Header, key: Bytes)
    requires Values(own, key) != []
    ensures Get(ResponseHeader(own, upstream), key) == Get(own, key)
  {
  }

  // ------------------------------------------------------------ what the audit trail keeps

  function Kept(headers: Header, dropped: set<Bytes>): Header {
    map k | k in headers && k !in dropped :: headers[k]
  }

  /** The keys whose values are credentials: those of a request, and those of a response. */
  predicate IsSecretOfRequest(key: Bytes) {
    || key == "Apikey" || key == "Api-Key" || key == "X-Api-Key" || key == "Authorization" || key == "Cookie"
    || key == "Proxy-Authorization" || key == "X-Internal-Token" || key == "X-User-Id"
  }

  predicate IsSecretOfResponse(key: Bytes) {
    key == "Authorization" || key == "Set-Cookie" || key == "X-Internal-Token"
  }

  /** What is kept of a header: all but the credentials. */
  ghost predicate KeepsAllBut(kept: Header, headers: Header, secret: Bytes -> bool) {
    && (forall key :: key in kept <==> key in headers && !secret(key))
    && (forall key <- kept.Keys :: kept[key] == headers[key])
  }

  lemma AuditKeeps(headers: Header)
    ensures KeepsAllBut(Kept(headers, DROPPED_FROM_REQUEST_AUDIT), headers, IsSecretOfRequest)
    ensures KeepsAllBut(Kept(headers, DROPPED_FROM_RESPONSE_AUDIT), headers, IsSecretOfResponse)
  {
    hide DROPPED_FROM_REQUEST_AUDIT, DROPPED_FROM_RESPONSE_AUDIT, IsSecretOfRequest, IsSecretOfResponse;
    forall key
      ensures key in DROPPED_FROM_REQUEST_AUDIT <==> IsSecretOfRequest(key)
      ensures key in DROPPED_FROM_RESPONSE_AUDIT <==> IsSecretOfResponse(key)
    {
      SecretKeys(key);
    }
  }

  lemma SecretKeys(key: Bytes)
    ensures key in DROPPED_FROM_REQUEST_AUDIT <==> IsSecretOfRequest(key)
    ensures key in DROPPED_FROM_RESPONSE_AUDIT <==> IsSecretOfResponse(key)
  {
  }

  ghost predicate CameFrom(headers: Header, key: Bytes, values: seq<Bytes>) {
    exists source <- headers.Keys :: Canonical(source) == key && headers[source] == values
  }

  /** The part of `Kept` that is found while `left` are still to be looked at. */
  function KeptSoFar(headers: Header, left: set<Bytes>, dropped: set<Bytes>): Header {
    map k | k in headers && k !in left && k !in dropped :: headers[k]
  }

  lemma KeptEnds(headers: Header, dropped: set<Bytes>)
    ensures KeptSoFar(headers, headers.Keys, dropped) == map[]
    ensures KeptSoFar(headers, {}, dropped) == Kept(headers, dropped)
  {
  }

  lemma KeptStep(headers: Header, left: set<Bytes>, source: Bytes, dropped: set<Bytes>)
    requires source in left && source in headers
    ensures var before := KeptSoFar(headers, left, dropped);
            KeptSoFar(headers, left - {source}, dropped)
            == if source in dropped then before else before[source := headers[source]]
  {
  }

  lemma ComesFromItself(headers: Header, source: Bytes)
    requires source in headers
    ensures CameFrom(headers, Canonical(source), headers[source])
  {
  }

  /** Collects the auditable headers, key by key in whatever order the map yields them. */
  method SanitizedHeaders(headers: Header, dropped: set<Bytes>) returns (values: Header)
    ensures values.Keys !! dropped
    ensures forall k <- values.Keys :: CameFrom(headers, k, values[k])
    ensures CanonicalKeys(headers) ==> values == Kept(headers, dropped)
  {
    hide Canonical, CameFrom, KeptSoFar, Kept;
    KeptEnds(headers, dropped);
    values := map[];
    var keys := headers.Keys;
    while keys != {}
      invariant keys <= headers.Keys && values.Keys !! dropped
      invariant forall k <- values.Keys :: CameFrom(headers, k, values[k])
      invariant CanonicalKeys(headers) ==> values == KeptSoFar(headers, keys, dropped)
      decreases |keys|
    {
      var source :| source in keys;
      KeptStep(headers, keys, source, dropped);
      keys := keys - {source};
      var key := Canonical(source);
      CanonicalIsIdempotent(source);
      ComesFromItself(headers, source);
      if ShouldDrop(key, dropped) {
        continue;
      }
      values := values[key := headers[source]];
    }
  }
}
