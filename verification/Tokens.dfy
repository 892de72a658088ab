/** Where a request's access token is found, and how a session cookie is decoded up to the JSON document in it. */
module Tokens {
  import opened Wrappers
  import opened GoStrings
  import opened Cookies
  import Base64
  import PercentEncoding

  const BASE64_PREFIX: Bytes := "base64-"
  const BEARER: Bytes := "bearer"
  const COOKIE_PREFIX: Bytes := "sb-"
  const COOKIE_SUFFIX: Bytes := "-auth-token"

  /** The JSON library: the `access_token` of a session object, or the elements of a legacy array. */
  datatype Json = Json(session: Bytes -> Option<Bytes>, legacy: Bytes -> Option<seq<Bytes>>)

  // ------------------------------------------------------------ the Authorization header

  predicate NoSpace(s: Bytes) {
    forall i :: 0 <= i < |s| ==> LeadSpace(s[i..]) == 0
  }

  /** The end of the word that reaches at least to `i`. */
  function WordEnd(s: Bytes, i: nat): (n: nat)
    requires i <= |s|
    ensures i <= n <= |s|
    ensures forall k :: i <= k < n ==> LeadSpace(s[k..]) == 0
    ensures n < |s| ==> LeadSpace(s[n..]) > 0
    decreases |s| - i
  {
    if i == |s| || LeadSpace(s[i..]) > 0 then i else WordEnd(s, i + 1)
  }

  /** `strings.Fields`. */
  function Fields(s: Bytes): seq<Bytes>
    decreases |s|
  {
    var t := TrimSpaceLeft(s);
    if t == [] then [] else
      var n := WordEnd(t, 0);
      assert t[0..] == t;
      [t[..n]] + Fields(t[n..])
  }

  function BearerToken(value: Bytes): Option<Bytes> {
    var fields := Fields(TrimSpace(value));
    if |fields| != 2 || ToLower(fields[0]) != BEARER then None else
      var token := TrimSpace(fields[1]);
      if token == [] then None else Some(token)
  }

  lemma PrefixHasNoSpace(s: Bytes, n: nat)
    requires n <= |s| && forall k :: 0 <= k < n ==> LeadSpace(s[k..]) == 0
    ensures NoSpace(s[..n])
  {
    forall k | 0 <= k < n ensures LeadSpace(s[..n][k..]) == 0 {
      assert s[..n][k..] <= s[k..];
    }
  }

  lemma {:induction false} FieldsHaveNoSpace(s: Bytes)
    ensures forall f <- Fields(s) :: f != [] && NoSpace(f)
    decreases |s|
  {
    hide NoSpace, LeadSpace, WordEnd, TrimSpaceLeft;
    var t := TrimSpaceLeft(s);
    if t != [] {
      var n := WordEnd(t, 0);
      assert t[0..] == t;
      PrefixHasNoSpace(t, n);
      FieldsHaveNoSpace(t[n..]);
    }
  }

  lemma NoSpaceAt(s: Bytes, i: nat)
    requires NoSpace(s) && i < |s|
    ensures LeadSpace(s[i..]) == 0
  {
  }

  lemma NoSpaceRune(s: Bytes)
    requires LeadSpace(s) == 0
    ensures |s| >= 1 ==> !IsAsciiSpace(s[0])
    ensures |s| >= 2 ==> !IsSpacePair(s[0], s[1])
    ensures |s| >= 3 ==> !IsSpaceTriple(s[0], s[1], s[2])
  {
  }

  /** A text without white space does not end in a rune of it, whichever its width. */
  lemma NoSpaceBehind(s: Bytes, width: nat)
    requires NoSpace(s) && 1 <= width <= |s|
    ensures var n := |s|;
            && (width == 1 ==> !IsAsciiSpace(s[n - 1]))
            && (width == 2 ==> !IsSpacePair(s[n - 2], s[n - 1]))
            && (width == 3 ==> !IsSpaceTriple(s[n - 3], s[n - 2], s[n - 1]))
  {
    hide NoSpace, LeadSpace, IsAsciiSpace, IsSpacePair, IsSpaceTriple;
    var tail := s[|s| - width..];
    assert forall i :: 0 <= i < width ==> tail[i] == s[|s| - width + i];
    NoSpaceAt(s, |s| - width);
    NoSpaceRune(tail);
  }

  lemma NoSpaceIsTrimmed(s: Bytes)
    requires NoSpace(s)
    ensures Trimmed(s)
  {
    hide NoSpace, LeadSpace, IsAsciiSpace, IsSpacePair, IsSpaceTriple;
    if s == [] {
      NothingIsTrimmed();
    } else {
      NoSpaceAt(s, 0);
      assert s[0..] == s;
      NoSpaceBehind(s, 1);
      if |s| >= 2 {
        NoSpaceBehind(s, 2);
      }
      if |s| >= 3 {
        NoSpaceBehind(s, 3);
      }
    }
  }

  lemma NothingIsTrimmed()
    ensures Trimmed([])
  {
  }

  /** A bearer token is never empty and holds no white space. */
  lemma BearerTokenIsOneWord(value: Bytes)
    requires BearerToken(value).Some?
    ensures var token := BearerToken(value).value; token != [] && NoSpace(token)
  {
    var fields := Fields(TrimSpace(value));
    FieldsHaveNoSpace(TrimSpace(value));
    assert fields[1] in fields;
    NoSpaceIsTrimmed(fields[1]);
  }

  /** A word at the front of a text that ends there or goes on with white space. */
  lemma WordEndAfter(word: Bytes, rest: Bytes)
    requires NoSpace(word) && (rest == [] || LeadSpace(rest) > 0)
    ensures WordEnd(word + rest, 0) == |word|
  {
    hide LeadSpace, NoSpace;
    var s := word + rest;
    forall k | 0 <= k < |word| ensures LeadSpace(s[k..]) == 0 {
      NoSpaceAt(word, k);
      assert s[k..] == word[k..] + rest;
      LeadSpaceOfWord(word[k..], rest);
    }
    assert s[|word|..] == rest;
  }

  lemma LeadSpaceOfWord(word: Bytes, rest: Bytes)
    requires word != [] && LeadSpace(word) == 0 && (rest == [] || LeadSpace(rest) > 0)
    ensures LeadSpace(word + rest) == 0
  {
    var s := word + rest;
    assert forall i :: 0 <= i < |word| ==> s[i] == word[i];
    assert forall i :: 0 <= i < |rest| ==> s[|word| + i] == rest[i];
    SpaceLead(rest);
  }

  /** White space starts with a byte that ends no rune of it, or with an ASCII one. */
  lemma SpaceLead(rest: Bytes)
    requires rest == [] || LeadSpace(rest) > 0
    ensures rest != [] ==> rest[0] as int < 0x80 || rest[0] as int >= 0xC2
  {
  }

  /** The first word of a text, and the words behind it. */
  lemma FieldsStep(word: Bytes, rest: Bytes)
    requires word != [] && NoSpace(word) && (rest == [] || LeadSpace(rest) > 0)
    ensures Fields(word + rest) == [word] + Fields(rest)
  {
    hide WordEnd, LeadSpace, NoSpace, TrimSpaceLeft;
    var s := word + rest;
    NoSpaceAt(word, 0);
    assert word[0..] == word;
    LeadSpaceOfWord(word, rest);
    WordEndAfter(word, rest);
    assert s[..|word|] == word && s[|word|..] == rest;
  }

  lemma NoFields()
    ensures Fields([]) == []
  {
  }

  lemma FieldsOfWord(word: Bytes)
    requires word != [] && NoSpace(word)
    ensures Fields(word) == [word]
  {
    hide Fields, NoSpace;
    FieldsStep(word, []);
    NoFields();
    assert word + [] == word;
  }

  lemma SpaceIsSkipped(word: Bytes)
    requires LeadSpace(word) == 0
    ensures TrimSpaceLeft([' '] + word) == word
  {
    var s: Bytes := [' '] + word;
    assert LeadSpace(s) == 1 && s[1..] == word;
  }

  lemma FieldsBehindSpace(word: Bytes)
    requires LeadSpace(word) == 0
    ensures Fields([' '] + word) == Fields(word)
  {
    hide WordEnd, LeadSpace, TrimSpaceLeft;
    SpaceIsSkipped(word);
    assert TrimSpaceLeft(word) == word;
  }

  lemma SpaceAhead(rest: Bytes)
    ensures LeadSpace([' '] + rest) > 0
  {
  }

  lemma FieldsOfTwoWords(a: Bytes, b: Bytes)
    requires a != [] && NoSpace(a) && b != [] && NoSpace(b)
    ensures Fields(a + ([' '] + b)) == [a, b]
  {
    hide Fields, LeadSpace, NoSpace;
    NoSpaceAt(b, 0);
    assert b[0..] == b;
    SpaceAhead(b);
    FieldsStep(a, [' '] + b);
    FieldsBehindSpace(b);
    FieldsOfWord(b);
  }

  lemma SchemeIsOneWord(scheme: Bytes)
    requires ToLower(scheme) == BEARER
    ensures scheme != [] && NoSpace(scheme)
  {
    assert |scheme| == 6;
    forall k | 0 <= k < |scheme| ensures LeadSpace(scheme[k..]) == 0 {
      assert 'a' <= BEARER[k] <= 'z' && Lower(scheme[k]) == BEARER[k];
    }
  }

  /** A scheme in any letter case and a token of one word are read back as that token. */
  lemma BearerRoundTrip(scheme: Bytes, token: Bytes)
    requires ToLower(scheme) == BEARER && token != [] && NoSpace(token)
    ensures BearerToken(scheme + [' '] + token) == Some(token)
  {
    hide Trimmed, TrimSpace, Fields, NoSpace, ToLower;
    SchemeIsOneWord(scheme);
    FieldsOfTwoWords(scheme, token);
    TwoWordsAreTrimmed(scheme, token);
    NoSpaceIsTrimmed(token);
    var value := scheme + [' '] + token;
    assert value == scheme + ([' '] + token);
    assert TrimSpace(value) == value && TrimSpace(token) == token;
  }

  /** A run of white space before a text is no part of its words. */
  lemma {:induction false} FieldsBehindGap(gap: Bytes, rest: Bytes)
    requires AllSpace(gap) && LeadSpace(rest) == 0
    ensures TrimSpaceLeft(gap + rest) == rest && Fields(gap + rest) == Fields(rest)
    decreases |gap|
  {
    hide LeadSpace, WordEnd;
    if gap == [] {
      assert gap + rest == rest;
    } else {
      var w := LeadSpace(gap);
      assert (gap + rest)[..w] == gap[..w];
      LeadSpaceLocal(gap, gap + rest);
      assert (gap + rest)[w..] == gap[w..] + rest;
      FieldsBehindGap(gap[w..], rest);
    }
  }

  /** `Authorization: Bearer t`: one word, `bearer` in any letter case, then white space, then the one word `t`. */
  ghost predicate IsBearer(value: Bytes, token: Bytes) {
    exists scheme: Bytes, gap: Bytes :: IsBearerWith(value, scheme, gap, token)
  }

  predicate IsBearerWith(value: Bytes, scheme: Bytes, gap: Bytes, token: Bytes) {
    && TrimSpace(value) == scheme + gap + token
    && ToLower(scheme) == "bearer"
    && gap != [] && AllSpace(gap)
    && token != [] && NoSpace(token)
  }

  lemma FieldsOfGapped(word: Bytes, gap: Bytes, token: Bytes)
    requires word != [] && NoSpace(word) && gap != [] && AllSpace(gap) && token != [] && NoSpace(token)
    ensures Fields(word + gap + token) == [word, token]
  {
    hide Fields, NoSpace, LeadSpace;
    NoSpaceAt(token, 0);
    assert token[0..] == token;
    var rest := gap + token;
    assert rest[..LeadSpace(gap)] == gap[..LeadSpace(gap)];
    LeadSpaceLocal(gap, rest);
    assert word + gap + token == word + rest;
    FieldsStep(word, rest);
    FieldsBehindGap(gap, token);
    FieldsOfWord(token);
  }

  lemma BearerIsToken(value: Bytes, scheme: Bytes, gap: Bytes, token: Bytes)
    requires IsBearerWith(value, scheme, gap, token)
    ensures BearerToken(value) == Some(token)
  {
    hide Fields, TrimSpace, NoSpace, AllSpace, ToLower, Trimmed;
    SchemeIsOneWord(scheme);
    FieldsOfGapped(scheme, gap, token);
    NoSpaceIsTrimmed(token);
  }

  /** The first word of a trimmed text, and what is behind it. */
  lemma FirstField(s: Bytes) returns (word: Bytes, rest: Bytes)
    requires LeadSpace(s) == 0 && s != []
    ensures s == word + rest && word != [] && NoSpace(word) && (rest == [] || LeadSpace(rest) > 0)
    ensures Fields(s) == [word] + Fields(rest)
  {
    hide LeadSpace, NoSpace, TrimSpaceLeft;
    assert TrimSpaceLeft(s) == s;
    var n := WordEnd(s, 0);
    assert s[0..] == s;
    PrefixHasNoSpace(s, n);
    word, rest := s[..n], s[n..];
  }

  /** When a text has no words, it is white space. */
  lemma NoFieldsIsSpace(s: Bytes)
    requires Fields(s) == []
    ensures AllSpace(s)
  {
    hide LeadSpace, AllSpace, TrimSpaceLeft, WordEnd;
    TrimSpaceLeftSplits(s);
    assert TrimSpaceLeft(s) == [];
    assert s[..|s|] == s;
  }

  lemma FieldsSkipGap(s: Bytes) returns (gap: Bytes, rest: Bytes)
    ensures s == gap + rest && AllSpace(gap) && LeadSpace(rest) == 0 && Fields(s) == Fields(rest)
    ensures LeadSpace(s) > 0 ==> gap != []
  {
    hide LeadSpace, AllSpace, Fields, TrimSpaceLeft;
    TrimSpaceLeftSplits(s);
    rest := TrimSpaceLeft(s);
    gap := s[..|s| - |rest|];
    FieldsBehindGap(gap, rest);
    assert gap == [] ==> gap + rest == rest;
  }

  lemma NotJustSpace(front: Bytes, space: Bytes)
    requires AllSpace(space) && TailSpace(front + space) == 0
    ensures space == []
  {
    hide AllSpace, TailSpace;
    if space != [] {
      SpaceAtEnd(front, space);
    }
  }

  /** A text of two words is a word, a gap, and a word. */
  lemma TwoFields(s: Bytes) returns (word: Bytes, gap: Bytes, token: Bytes)
    requires Trimmed(s) && |Fields(s)| == 2
    ensures s == word + gap + token && gap != [] && AllSpace(gap) && token != [] && NoSpace(token)
    ensures Fields(s) == [word, token]
  {
    hide LeadSpace, TailSpace, NoSpace, AllSpace, Fields;
    NoFields();
    var rest, more, behind;
    word, rest := FirstField(s);
    gap, more := FieldsSkipGap(rest);
    assert more != [];
    token, behind := FirstField(more);
    assert Fields(s) == [word] + ([token] + Fields(behind));
    assert Fields(behind) == [];
    NoFieldsIsSpace(behind);
    assert s == (word + gap + token) + behind;
    NotJustSpace(word + gap + token, behind);
    assert behind == [];
    assert s == word + gap + token;
  }

  /** Just such a value yields a token, and just that word of it. */
  lemma BearerTokenIff(value: Bytes, token: Bytes)
    ensures BearerToken(value) == Some(token) <==> IsBearer(value, token)
  {
    hide Fields, TrimSpace, NoSpace, AllSpace, ToLower, Trimmed;
    if IsBearer(value, token) {
      var scheme, gap :| IsBearerWith(value, scheme, gap, token);
      BearerIsToken(value, scheme, gap, token);
    }
    if BearerToken(value) == Some(token) {
      var scheme, gap, word := TwoFields(TrimSpace(value));
      NoSpaceIsTrimmed(word);
      assert IsBearerWith(value, scheme, gap, token);
    }
  }

  /** Under any other first word, `Basic` for one, there is no token in the header. */
  lemma OtherSchemeHasNoToken(value: Bytes, scheme: Bytes, rest: Bytes)
    requires TrimSpace(value) == scheme + rest && scheme != [] && NoSpace(scheme) && (rest == [] || LeadSpace(rest) > 0)
    requires ToLower(scheme) != "bearer"
    ensures BearerToken(value) == None
  {
    hide Fields, TrimSpace, NoSpace, LeadSpace, ToLower;
    FieldsStep(scheme, rest);
  }

  lemma TwoWordsAreTrimmed(a: Bytes, b: Bytes)
    requires a != [] && NoSpace(a) && b != [] && NoSpace(b)
    ensures Trimmed(a + [' '] + b)
  {
    NoSpaceIsTrimmed(a);
    NoSpaceIsTrimmed(b);
    var s := a + [' '] + b;
    var n := |s|;
    assert forall i :: 0 <= i < |a| ==> s[i] == a[i];
    assert s[|a|] == ' ';
    assert s[n - 1] == b[|b| - 1];
    assert |b| >= 2 ==> s[n - 2] == b[|b| - 2];
    assert |b| >= 3 ==> s[n - 3] == b[|b| - 3];
  }

  // ------------------------------------------------------------ the session cookie

  /** The text handed to the JSON decoder. Unescaping that fails leaves the value as it stands. */
  function Peel(raw: Bytes): Option<Bytes> {
    var value := TrimSpace(raw);
    if value == [] then None
    else if BASE64_PREFIX <= value then Base64.DecodeRaw(Base64.URL, TrimPrefix(value, BASE64_PREFIX))
    else if PercentEncoding.Unescape(value).Some? then PercentEncoding.Unescape(value)
    else Some(value)
  }

  /** The access token of a session document, in its present form or the legacy one. */
  function TokenIn(document: Bytes, json: Json): Option<Bytes> {
    var session, legacy := json.session(document), json.legacy(document);
    if session.Some? && TrimSpace(session.value) != [] then Some(TrimSpace(session.value))
    else if legacy.Some? && legacy.value != [] && TrimSpace(legacy.value[0]) != [] then Some(TrimSpace(legacy.value[0]))
    else None
  }

  /** A document that does not name a token in the present form. */
  predicate NoSession(document: Bytes, json: Json) {
    json.session(document) == None || TrimSpace(json.session(document).value) == []
  }

  /** The present form comes first; of the legacy form only the first element counts; a blank token is none. */
  lemma TokenOfDocument(document: Bytes, json: Json)
    ensures forall s :: json.session(document) == Some(s) && TrimSpace(s) != [] ==>
              TokenIn(document, json) == Some(TrimSpace(s))
    ensures forall s, rest: seq<Bytes> :: NoSession(document, json) && json.legacy(document) == Some([s] + rest) ==>
              TokenIn(document, json) == if TrimSpace(s) == [] then None else Some(TrimSpace(s))
    ensures NoSession(document, json) && json.legacy(document) in {None, Some([])} ==> TokenIn(document, json) == None
  {
    hide TrimSpace;
    forall s, rest: seq<Bytes> | json.legacy(document) == Some([s] + rest)
      ensures json.legacy(document).value != [] && json.legacy(document).value[0] == s
    {
      assert ([s] + rest)[0] == s;
    }
  }

  function DecodeSession(raw: Bytes, json: Json): Option<Bytes> {
    match Peel(raw)
    case None => None
    case Some(document) => TokenIn(document, json)
  }

  /** Both ways a session is written into a cookie are undone. */
  lemma PeelInvertsBase64(s: Bytes)
    ensures Peel(BASE64_PREFIX + Base64.EncodeRaw(Base64.URL, s)) == Some(s)
  {
    hide Base64.EncodeRaw, Base64.DecodeRaw, TrimSpace;
    var text := Base64.EncodeRaw(Base64.URL, s);
    var value := BASE64_PREFIX + text;
    Base64UrlIsPlain(s);
    AsciiEndsAreTrimmed(value);
    Base64.RawRoundTrip(Base64.URL, s);
    assert value[|BASE64_PREFIX|..] == text;
  }

  lemma Base64UrlIsPlain(s: Bytes)
    ensures var text := Base64.EncodeRaw(Base64.URL, s);
            forall i :: 0 <= i < |text| ==> '!' <= text[i] <= '~'
  {
  }

  lemma PlainIsTrimmed(s: Bytes)
    requires s != [] && forall i :: 0 <= i < |s| ==> '!' <= s[i] <= '~'
    ensures Trimmed(s)
  {
    AsciiEndsAreTrimmed(s);
  }

  /**
   * A percent-escaped document is read back exactly when it does not itself start with the marker of the other
   * encoding; no JSON object or array does.
   */
  lemma PeelInvertsEscape(s: Bytes)
    requires s != []
    ensures Peel(PercentEncoding.Escape(s)) == Some(s) <==> !(BASE64_PREFIX <= s)
  {
    hide TrimSpace, Trimmed, Base64.DecodeRaw;
    var text := PercentEncoding.Escape(s);
    PercentEncoding.EscapeIsPlain(s);
    PlainIsTrimmed(text);
    PercentEncoding.UnescapeInvertsEscape(s);
    EscapeKeepsMarker(s);
    if BASE64_PREFIX <= s {
      MarkerIsNotReadBack(s);
    }
  }

  lemma MarkerIsPlain()
    ensures PercentEncoding.Escape(BASE64_PREFIX) == BASE64_PREFIX
  {
    var m := BASE64_PREFIX;
    assert m == ['b', 'a', 's', 'e', '6', '4', '-'];
    PlainBytesEscape(m);
  }

  lemma {:induction false} PlainBytesEscape(s: Bytes)
    requires forall i :: 0 <= i < |s| ==> PercentEncoding.IsUnreserved(s[i])
    ensures PercentEncoding.Escape(s) == s
  {
    if s != [] {
      PlainBytesEscape(s[1..]);
    }
  }

  lemma {:induction false} PlainPrefixOfEscape(s: Bytes, m: Bytes)
    requires m <= PercentEncoding.Escape(s)
    requires forall i :: 0 <= i < |m| ==> PercentEncoding.IsUnreserved(m[i])
    ensures m <= s
  {
    if m != [] {
      var e, rest := PercentEncoding.EscapeByte(s[0]), PercentEncoding.Escape(s[1..]);
      assert (e + rest)[0] == m[0] == e[0];
      assert e == [s[0]];
      assert m[1..] <= rest;
      PlainPrefixOfEscape(s[1..], m[1..]);
    }
  }

  /** Escaping neither makes nor hides the marker. */
  lemma EscapeKeepsMarker(s: Bytes)
    ensures BASE64_PREFIX <= PercentEncoding.Escape(s) <==> BASE64_PREFIX <= s
  {
    var m := BASE64_PREFIX;
    assert m == ['b', 'a', 's', 'e', '6', '4', '-'];
    if m <= s {
      MarkerIsPlain();
      PercentEncoding.EscapeConcat(m, s[|m|..]);
      assert s == m + s[|m|..];
    } else if m <= PercentEncoding.Escape(s) {
      PlainPrefixOfEscape(s, m);
    }
  }

  lemma MarkerIsNotReadBack(s: Bytes)
    requires BASE64_PREFIX <= s
    ensures var text := PercentEncoding.Escape(s);
            Base64.DecodeRaw(Base64.URL, TrimPrefix(text, BASE64_PREFIX)) != Some(s)
  {
    var rest := s[|BASE64_PREFIX|..];
    assert s == BASE64_PREFIX + rest;
    MarkerIsPlain();
    PercentEncoding.EscapeConcat(BASE64_PREFIX, rest);
    var tail := PercentEncoding.Escape(rest);
    assert TrimPrefix(PercentEncoding.Escape(s), BASE64_PREFIX) == tail;
    if Base64.DecodeRaw(Base64.URL, tail).Some? {
      DecodableEscapeIsVerbatim(rest);
      Base64.DecodesExactly(Base64.URL, tail);
    }
  }

  /** Escaped text that is also base64url has nothing escaped in it. */
  lemma DecodableEscapeIsVerbatim(s: Bytes)
    requires Base64.DecodeRaw(Base64.URL, PercentEncoding.Escape(s)).Some?
    ensures PercentEncoding.Escape(s) == s
  {
    var text := PercentEncoding.Escape(s);
    PercentEncoding.EscapeIsPlain(s);
    Base64.DecodesExactly(Base64.URL, text);
    assert Base64.WithoutLineBreaks(text) == text;
    forall i | 0 <= i < |text| ensures text[i] != '%' && text[i] != '+' {
      assert Base64.URL.Has(text[i]);
    }
    PercentEncoding.EscapeFixpoint(s);
  }

  // ------------------------------------------------------------ choosing a cookie

  datatype Cookie = Cookie(name: Bytes, value: Bytes)

  /** The last cookie of a name wins. */
  function JarOf(cookies: seq<Cookie>): Jar {
    if cookies == [] then map[] else
      var last := cookies[|cookies| - 1];
      JarOf(cookies[..|cookies| - 1])[last.name := last.value]
  }

  /** Under each name the jar holds the value of the last cookie of that name, and nothing under any other. */
  lemma {:induction false} JarHoldsLast(cookies: seq<Cookie>, name: Bytes)
    ensures name in JarOf(cookies) <==> exists i :: 0 <= i < |cookies| && cookies[i].name == name
    ensures forall i :: 0 <= i < |cookies| && cookies[i].name == name
                        && (forall j :: i < j < |cookies| ==> cookies[j].name != name) ==>
                          name in JarOf(cookies) && JarOf(cookies)[name] == cookies[i].value
  {
    if cookies != [] {
      var front := cookies[..|cookies| - 1];
      JarHoldsLast(front, name);
      assert forall i :: 0 <= i < |front| ==> front[i] == cookies[i];
    }
  }

  function TokenOf(values: Jar, name: Bytes, json: Json): Option<Bytes> {
    var raw := Combined(values, name);
    if raw == [] then None else DecodeSession(raw, json)
  }

  predicate IsSessionName(name: Bytes) {
    COOKIE_PREFIX <= name && HasSuffix(name, COOKIE_SUFFIX)
  }

  /** The names of all session cookies in the jar, chunked ones under their base name. */
  function Candidates(values: Jar): set<Bytes> {
    set key | key in values.Keys && IsSessionName(ChunkBaseName(key)) :: ChunkBaseName(key)
  }

  /**
   * A name is a candidate just when it starts and ends as session cookies do, and the jar holds it or something based
   * on it.
   */
  lemma CandidatesAre(values: Jar, name: Bytes)
    ensures name in Candidates(values)
            <==> "sb-" <= name && HasSuffix(name, "-auth-token") &&
                 exists key <- values.Keys :: ChunkBaseName(key) == name
  {
    hide ChunkBaseName;
  }

  /** `name` is the first candidate, in byte order, that holds a token. */
  ghost predicate IsFirstHolder(values: Jar, json: Json, name: Bytes) {
    && name in Candidates(values) && TokenOf(values, name, json).Some?
    && forall other <- Candidates(values) :: TokenOf(values, other, json).Some? ==> AtMost(name, other)
  }

  /** What a request's cookies amount to, said without any order of iteration. */
  ghost predicate IsCookieToken(values: Jar, preferred: Bytes, json: Json, token: Option<Bytes>) {
    if preferred != [] && TokenOf(values, preferred, json).Some? then token == TokenOf(values, preferred, json)
    else if token.None? then forall name <- Candidates(values) :: TokenOf(values, name, json).None?
    else exists name :: IsFirstHolder(values, json, name) && token == TokenOf(values, name, json)
  }

  /** The order in which the cookie map is walked cannot be observed: only one outcome fits. */
  lemma CookieTokenIsUnique(values: Jar, preferred: Bytes, json: Json, a: Option<Bytes>, b: Option<Bytes>)
    requires IsCookieToken(values, preferred, json, a) && IsCookieToken(values, preferred, json, b)
    ensures a == b
  {
    if !(preferred != [] && TokenOf(values, preferred, json).Some?) && a.Some? && b.Some? {
      var x :| IsFirstHolder(values, json, x) && a == TokenOf(values, x, json);
      var y :| IsFirstHolder(values, json, y) && b == TokenOf(values, y, json);
      AtMostIsAntisymmetric(x, y);
    }
  }

  /**
   * A session document that was encoded, split over any number of chunks and stored under the preferred name is found
   * again: whatever other cookies there are, the token is the one in the document.
   */
  lemma ChunkedSessionIsFound(values: Jar, name: Bytes, chunks: seq<Bytes>, document: Bytes, json: Json,
      token: Option<Bytes>)
    requires ChunksFrom(values, name, 0, chunks) && (name !in values || values[name] == []) && name != []
    requires Concat(chunks) == BASE64_PREFIX + Base64.EncodeRaw(Base64.URL, document)
    requires TokenIn(document, json).Some? && IsCookieToken(values, name, json, token)
    ensures token == TokenIn(document, json)
  {
    hide Combined, TokenIn, Peel, ChunksFrom, Concat, Base64.EncodeRaw, Candidates, IsFirstHolder;
    SplitCookieIsReassembled(values, name, chunks);
    PeelInvertsBase64(document);
  }

  method CollectCookies(cookies: seq<Cookie>) returns (values: Jar)
    ensures values == JarOf(cookies)
  {
    values := map[];
    for i := 0 to |cookies|
      invariant values == JarOf(cookies[..i])
    {
      assert cookies[..i + 1][..i] == cookies[..i];
      values := values[cookies[i].name := cookies[i].value];
    }
    assert cookies[..|cookies|] == cookies;
  }

  method TokenFromCookie(values: Jar, name: Bytes, json: Json) returns (token: Option<Bytes>)
    ensures token == TokenOf(values, name, json)
  {
    var raw := CombineCookieChunks(values, name);
    if raw == [] {
      return None;
    }
    return DecodeSession(raw, json);
  }

  /** Walks the cookie map in whatever order it comes. */
  method CollectCandidates(values: Jar) returns (candidates: set<Bytes>)
    ensures candidates == Candidates(values)
  {
    hide IsSessionName, ChunkBaseName;
    candidates := {};
    var keys := values.Keys;
    while keys != {}
      invariant keys <= values.Keys
      invariant candidates == set key | key in values.Keys - keys &&
          IsSessionName(ChunkBaseName(key)) :: ChunkBaseName(key)
      decreases |keys|
    {
      var key :| key in keys;
      keys := keys - {key};
      var base := ChunkBaseName(key);
      if IsSessionName(base) {
        candidates := candidates + {base};
      }
    }
  }

  /** Lists a set in whatever order it comes, and sorts the list. */
  method SortedList(names: set<Bytes>) returns (sorted: seq<Bytes>)
    ensures SortedNames(sorted)
    ensures forall name :: name in sorted <==> name in names
  {
    hide SortedNames;
    var unsorted: seq<Bytes> := [];
    var remaining := names;
    while remaining != {}
      invariant remaining <= names
      invariant forall name :: name in unsorted <==> name in names - remaining
      decreases |remaining|
    {
      var name :| name in remaining;
      remaining := remaining - {name};
      unsorted := unsorted + [name];
    }
    sorted := SortNames(unsorted);
    forall name ensures name in sorted <==> name in unsorted {
      assert name in sorted <==> name in multiset(sorted);
      assert name in unsorted <==> name in multiset(unsorted);
    }
  }

  method AccessTokenFromCookies(cookies: seq<Cookie>, preferred: Bytes, json: Json) returns (token: Option<Bytes>)
    ensures IsCookieToken(JarOf(cookies), preferred, json, token)
  {
    hide Combined, DecodeSession, IsSessionName, ChunkBaseName;
    var values := CollectCookies(cookies);
    if preferred != [] {
      token := TokenFromCookie(values, preferred, json);
      if token.Some? {
        return;
      }
    }
    var candidates := CollectCandidates(values);
    var names := SortedList(candidates);
    for i := 0 to |names|
      invariant forall k :: 0 <= k < i ==> TokenOf(values, names[k], json).None?
    {
      token := TokenFromCookie(values, names[i], json);
      if token.Some? {
        FirstHolderFound(values, json, names, i);
        return;
      }
    }
    token := None;
  }

  lemma FirstHolderFound(values: Jar, json: Json, names: seq<Bytes>, i: nat)
    requires SortedNames(names) && forall name :: name in names <==> name in Candidates(values)
    requires i < |names| && TokenOf(values, names[i], json).Some?
    requires forall k :: 0 <= k < i ==> TokenOf(values, names[k], json).None?
    ensures IsFirstHolder(values, json, names[i])
  {
    hide TokenOf, Candidates;
    forall other | other in Candidates(values) && TokenOf(values, other, json).Some?
      ensures AtMost(names[i], other)
    {
      var k :| 0 <= k < |names| && names[k] == other;
      AtMostIsReflexive(other);
    }
  }

  /** The whole order of precedence: the Authorization header, then the cookies. */
  ghost predicate IsAccessToken(authorization: Bytes, cookies: seq<Cookie>, preferred: Bytes, json: Json,
      token: Option<Bytes>) {
    if exists t :: IsBearer(authorization, t) then token.Some? && IsBearer(authorization, token.value)
    else IsCookieToken(JarOf(cookies), preferred, json, token)
  }

  lemma AccessTokenIff(authorization: Bytes, cookies: seq<Cookie>, preferred: Bytes, json: Json, token: Option<Bytes>)
    ensures IsAccessToken(authorization, cookies, preferred, json, token)
            <==> if BearerToken(authorization).Some? then token == BearerToken(authorization)
                 else IsCookieToken(JarOf(cookies), preferred, json, token)
  {
    hide IsCookieToken, IsBearer, BearerToken, JarOf;
    forall t: Bytes ensures BearerToken(authorization) == Some(t) <==> IsBearer(authorization, t) {
      BearerTokenIff(authorization, t);
    }
    assert BearerToken(authorization).Some? ==> IsBearer(authorization, BearerToken(authorization).value);
  }

  method ExtractAccessToken(authorization: Bytes, cookies: seq<Cookie>, preferred: Bytes, json: Json)
      returns (token: Option<Bytes>)
    ensures IsAccessToken(authorization, cookies, preferred, json, token)
  {
    hide IsCookieToken, IsBearer, BearerToken, JarOf;
    token := BearerToken(authorization);
    if token.None? {
      token := AccessTokenFromCookies(cookies, preferred, json);
    }
    AccessTokenIff(authorization, cookies, preferred, json, token);
  }

  /** So under any other first word the outcome is that of the cookies. */
  lemma OtherSchemeFallsThrough(value: Bytes, scheme: Bytes, rest: Bytes, cookies: seq<Cookie>, preferred: Bytes,
      json: Json,
      token: Option<Bytes>)
    requires TrimSpace(value) == scheme + rest && scheme != [] && NoSpace(scheme) && (rest == [] || LeadSpace(rest) > 0)
    requires ToLower(scheme) != "bearer"
    ensures IsAccessToken(value, cookies, preferred, json, token) <==>
        IsCookieToken(JarOf(cookies), preferred, json, token)
  {
    hide IsCookieToken, IsBearer, IsAccessToken, BearerToken, JarOf, TrimSpace, NoSpace, LeadSpace, ToLower;
    OtherSchemeHasNoToken(value, scheme, rest);
    AccessTokenIff(value, cookies, preferred, json, token);
  }
}
