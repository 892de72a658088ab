/** `url.QueryEscape` and `url.QueryUnescape`: RFC 3986, section 2.1, with `+` standing for a space. */
module PercentEncoding {
  import opened Wrappers
  import opened GoStrings

  predicate IsUnreserved(c: Byte) {
    || 'A' <= c <= 'Z' || 'a' <= c <= 'z' || '0' <= c <= '9'
    || c == '-' || c == '_' || c == '.' || c == '~'
  }

  function HexDigit(n: nat): Byte
    requires n < 16
  {
    if n < 10 then ('0' as int + n) as char else ('A' as int + n - 10) as char
  }

  function HexValue(c: Byte): Option<nat> {
    if '0' <= c <= '9' then Some(c as int - '0' as int)
    else if 'a' <= c <= 'f' then Some(c as int - 'a' as int + 10)
    else if 'A' <= c <= 'F' then Some(c as int - 'A' as int + 10)
    else None
  }

  /** The byte two hexadecimal digits stand for. */
  function HexByte(high: Byte, low: Byte): (b: Option<Byte>)
  {
    match (HexValue(high), HexValue(low))
    case (Some(h), Some(l)) => if h < 16 && l < 16 then Some((16 * h + l) as char) else None
    case _ => None
  }

  function EscapeByte(c: Byte): (t: Bytes)
    ensures t != []
  {
    if IsUnreserved(c) then [c]
    else if c == ' ' then "+"
    else ['%', HexDigit(c as int / 16), HexDigit(c as int % 16)]
  }

  function Escape(s: Bytes): (t: Bytes)
    ensures |t| >= |s|
  {
    if s == [] then [] else EscapeByte(s[0]) + Escape(s[1..])
  }

  function Unescape(t: Bytes): Option<Bytes>
    decreases |t|
  {
    if t == [] then Some([])
    else if t[0] == '%' then
      if |t| < 3 then None else
      match (HexByte(t[1], t[2]), Unescape(t[3..]))
      case (Some(c), Some(rest)) => Some([c] + rest)
      case _ => None
    else
      match Unescape(t[1..])
      case Some(rest) => Some([if t[0] == '+' then ' ' else t[0]] + rest)
      case None => None
  }

  lemma HexRoundTrip(c: Byte)
    ensures HexByte(HexDigit(c as int / 16), HexDigit(c as int % 16)) == Some(c)
  {
    assert HexValue(HexDigit(c as int / 16)) == Some(c as int / 16);
    assert HexValue(HexDigit(c as int % 16)) == Some(c as int % 16);
  }

  lemma UnescapeByte(c: Byte, rest: Bytes)
    requires Unescape(rest).Some?
    ensures Unescape(EscapeByte(c) + rest) == Some([c] + Unescape(rest).value)
  {
    hide HexByte, HexDigit;
    var e := EscapeByte(c);
    HexRoundTrip(c);
    assert (e + rest)[|e|..] == rest;
    assert forall i :: 0 <= i < |e| ==> (e + rest)[i] == e[i];
  }

  lemma {:induction false} UnescapeInvertsEscape(s: Bytes)
    ensures Unescape(Escape(s)) == Some(s)
  {
    hide Unescape, EscapeByte;
    if s == [] {
      assert Unescape([]) == Some([]) by {
        UnescapeNothing();
      }
    } else {
      UnescapeInvertsEscape(s[1..]);
      UnescapeByte(s[0], Escape(s[1..]));
      assert s == [s[0]] + s[1..];
    }
  }

  lemma UnescapeNothing()
    ensures Unescape([]) == Some([])
  {
  }

  /** Escaped text is printable ASCII without white space. */
  lemma {:induction false} EscapeIsPlain(s: Bytes)
    ensures forall i :: 0 <= i < |Escape(s)| ==> '!' <= Escape(s)[i] <= '~'
  {
    if s != [] {
      EscapeIsPlain(s[1..]);
      var e := EscapeByte(s[0]);
      assert forall i :: 0 <= i < |e| ==> '!' <= e[i] <= '~';
    }
  }

  /** Text whose escaped form uses neither `%` nor `+` is its own escaped form. */
  lemma {:induction false} EscapeFixpoint(s: Bytes)
    requires '%' !in Escape(s) && '+' !in Escape(s)
    ensures Escape(s) == s
  {
    if s != [] {
      var e, rest := EscapeByte(s[0]), Escape(s[1..]);
      assert Escape(s) == e + rest;
      assert e[0] in Escape(s);
      assert forall c :: c in rest ==> c in Escape(s);
      EscapeFixpoint(s[1..]);
    }
  }

  lemma {:induction false} EscapeConcat(s: Bytes, t: Bytes)
    ensures Escape(s + t) == Escape(s) + Escape(t)
  {
    if s == [] {
      assert s + t == t;
    } else {
      assert (s + t)[1..] == s[1..] + t;
      EscapeConcat(s[1..], t);
    }
  }

  /**
   * A plus sign is read as a space, a percent sign with two digits as the byte they number, and any other byte as
   * itself.
   */
  lemma UnescapeReads(t: Bytes)
    requires Unescape(t).Some?
    ensures Unescape("+" + t) == Some(" " + Unescape(t).value)
    ensures forall c: Byte :: c != '+' && c != '%' ==> Unescape([c] + t) == Some([c] + Unescape(t).value)
    ensures forall high: Byte, low: Byte :: HexByte(high, low).Some? ==>
              Unescape(['%', high, low] + t) == Some([HexByte(high, low).value] + Unescape(t).value)
  {
    forall c: Byte ensures ([c] + t)[0] == c && ([c] + t)[1..] == t {
    }
    forall high: Byte, low: Byte
      ensures var s := ['%', high, low] + t; s[0] == '%' && s[1] == high && s[2] == low && s[3..] == t
    {
    }
  }

  /** The digits are hexadecimal, in either letter case. */
  lemma HexDigitsAre(c: Byte)
    ensures HexValue(c)
            == if '0' <= c <= '9' then Some(c as int - '0' as int)
               else if 'a' <= c <= 'f' then Some(10 + c as int - 'a' as int)
               else if 'A' <= c <= 'F' then Some(10 + c as int - 'A' as int)
               else None
    ensures forall low: Byte :: HexValue(c).Some? && HexValue(low).Some? ==>
              HexByte(c, low).Some? && HexByte(c, low).value as int == 16 * HexValue(c).value + HexValue(low).value
  {
  }
}
