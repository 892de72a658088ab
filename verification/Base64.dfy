/**
 * Base64 as Go's `encoding/base64` does it: the standard alphabet with padding (RFC 4648, section 4)
 * to encode, the URL alphabet without padding (RFC 4648, section 5) both ways.
 */
module Base64 {
  import opened Wrappers
  import opened GoStrings

  newtype Sextet = x: int | 0 <= x < 64

  datatype Alphabet = Alphabet(sixtyTwo: Byte, sixtyThree: Byte) {
    ghost predicate Proper() {
      && sixtyTwo != sixtyThree
      && !IsAlphanumeric(sixtyTwo) && !IsAlphanumeric(sixtyThree)
      && sixtyTwo != '=' && sixtyThree != '='
      && sixtyTwo != '\r' && sixtyTwo != '\n' && sixtyThree != '\r' && sixtyThree != '\n'
    }

    function Encode(x: Sextet): Byte {
      var v := x as int;
      if v < 26 then ('A' as int + v) as char
      else if v < 52 then ('a' as int + v - 26) as char
      else if v < 62 then ('0' as int + v - 52) as char
      else if v == 62 then sixtyTwo
      else sixtyThree
    }

    function Decode(c: Byte): Option<Sextet> {
      if 'A' <= c <= 'Z' then Some((c as int - 'A' as int) as Sextet)
      else if 'a' <= c <= 'z' then Some((c as int - 'a' as int + 26) as Sextet)
      else if '0' <= c <= '9' then Some((c as int - '0' as int + 52) as Sextet)
      else if c == sixtyTwo then Some(62)
      else if c == sixtyThree then Some(63)
      else None
    }

    predicate Has(c: Byte) {
      Decode(c).Some?
    }

    lemma DecodeInvertsEncode(x: Sextet)
      requires Proper()
      ensures Decode(Encode(x)) == Some(x)
      ensures Encode(x) != '=' && Encode(x) != '\r' && Encode(x) != '\n'
    {
    }
  }

  const STANDARD := Alphabet('+', '/')
  const URL := Alphabet('-', '_')

  predicate IsAlphanumeric(c: Byte) {
    'A' <= c <= 'Z' || 'a' <= c <= 'z' || '0' <= c <= '9'
  }

  // ------------------------------------------------------- eight-bit and six-bit groups

  function ToSextets(s: Bytes): (x: seq<Sextet>)
    ensures |x| % 4 != 1
    ensures 3 * |x| <= 4 * |s| + 2
    decreases |s|
  {
    if |s| == 0 then []
    else if |s| == 1 then
      var a := s[0] as int;
      [(a / 4) as Sextet, (a % 4 * 16) as Sextet]
    else if |s| == 2 then
      var (a, b) := (s[0] as int, s[1] as int);
      [(a / 4) as Sextet, (a % 4 * 16 + b / 16) as Sextet, (b % 16 * 4) as Sextet]
    else
      Quad(s[0], s[1], s[2]) + ToSextets(s[3..])
  }

  function Quad(p: Byte, q: Byte, r: Byte): (x: seq<Sextet>)
    ensures |x| == 4
  {
    var (a, b, c) := (p as int, q as int, r as int);
    [(a / 4) as Sextet, (a % 4 * 16 + b / 16) as Sextet, (b % 16 * 4 + c / 64) as Sextet, (c % 64) as Sextet]
  }

  /** The bits left over in the last group are ignored, as a decoder that is not strict does. */
  function FromSextets(x: seq<Sextet>): (s: Bytes)
    requires |x| % 4 != 1
    ensures 4 * |s| <= 3 * |x|
    decreases |x|
  {
    if |x| == 0 then []
    else if |x| == 2 then [First(x[0], x[1])]
    else if |x| == 3 then [First(x[0], x[1]), Second(x[1], x[2])]
    else [First(x[0], x[1]), Second(x[1], x[2]), Third(x[2], x[3])] + FromSextets(x[4..])
  }

  function First(x: Sextet, y: Sextet): Byte {
    (x as int * 4 + y as int / 16) as char
  }

  function Second(x: Sextet, y: Sextet): Byte {
    (x as int % 16 * 16 + y as int / 4) as char
  }

  function Third(x: Sextet, y: Sextet): Byte {
    (x as int % 4 * 64 + y as int) as char
  }

  lemma Carry16(high: nat, low: nat)
    requires low < 16
    ensures (high * 16 + low) / 16 == high && (high * 16 + low) % 16 == low
  {
  }

  lemma Carry4(high: nat, low: nat)
    requires low < 4
    ensures (high * 4 + low) / 4 == high && (high * 4 + low) % 4 == low
  {
  }

  lemma QuadRoundTrip(p: Byte, q: Byte, r: Byte)
    ensures var x := Quad(p, q, r); First(x[0], x[1]) == p && Second(x[1], x[2]) == q && Third(x[2], x[3]) == r
  {
    Carry16(p as int % 4, q as int / 16);
    Carry4(q as int % 16, r as int / 64);
  }

  lemma {:induction false} FromInvertsTo(s: Bytes)
    ensures FromSextets(ToSextets(s)) == s
    decreases |s|
  {
    if |s| >= 3 {
      QuadRoundTrip(s[0], s[1], s[2]);
      FromInvertsTo(s[3..]);
      var x := ToSextets(s);
      assert x[4..] == ToSextets(s[3..]);
      assert s == [s[0], s[1], s[2]] + s[3..];
    }
  }

  // ------------------------------------------------------- text

  function Letters(alphabet: Alphabet, x: seq<Sextet>): (t: Bytes)
    ensures |t| == |x| && forall i :: 0 <= i < |x| ==> t[i] == alphabet.Encode(x[i])
  {
    seq(|x|, i requires 0 <= i < |x| => alphabet.Encode(x[i]))
  }

  /** The groups a text stands for, when every one of its letters is in the alphabet. */
  function Groups(alphabet: Alphabet, t: Bytes): (x: Option<seq<Sextet>>)
    ensures x.Some? <==> forall i :: 0 <= i < |t| ==> alphabet.Has(t[i])
    ensures x.Some? ==> |x.value| == |t|
  {
    if t == [] then Some([]) else
      var first, rest := alphabet.Decode(t[0]), Groups(alphabet, t[1..]);
      assert forall i :: 1 <= i < |t| ==> t[i] == t[1..][i - 1];
      if first.Some? && rest.Some? then Some([first.value] + rest.value) else None
  }

  lemma {:induction false} GroupsInvertLetters(alphabet: Alphabet, x: seq<Sextet>)
    requires alphabet.Proper()
    ensures Groups(alphabet, Letters(alphabet, x)) == Some(x)
  {
    if x != [] {
      var t := Letters(alphabet, x);
      alphabet.DecodeInvertsEncode(x[0]);
      assert t[1..] == Letters(alphabet, x[1..]);
      GroupsInvertLetters(alphabet, x[1..]);
      assert x == [x[0]] + x[1..];
    }
  }

  /** The decoder skips carriage returns and line feeds wherever they stand. */
  function WithoutLineBreaks(t: Bytes): (r: Bytes)
    ensures |r| <= |t|
    ensures (forall i :: 0 <= i < |t| ==> t[i] != '\r' && t[i] != '\n') ==> r == t
  {
    if t == [] then []
    else if t[0] == '\r' || t[0] == '\n' then WithoutLineBreaks(t[1..])
    else [t[0]] + WithoutLineBreaks(t[1..])
  }

  /** `base64.RawURLEncoding.DecodeString`, and the unpadded core of `base64.StdEncoding.DecodeString`. */
  function DecodeRaw(alphabet: Alphabet, t: Bytes): Option<Bytes> {
    match Groups(alphabet, WithoutLineBreaks(t))
    case None => None
    case Some(x) => if |x| % 4 == 1 then None else Some(FromSextets(x))
  }

  /** `base64.RawURLEncoding.EncodeToString`. */
  function EncodeRaw(alphabet: Alphabet, s: Bytes): Bytes {
    Letters(alphabet, ToSextets(s))
  }

  function Padding(n: nat): Bytes {
    if n % 3 == 1 then "==" else if n % 3 == 2 then "=" else ""
  }

  /** `base64.StdEncoding.EncodeToString`. */
  function EncodeStd(s: Bytes): Bytes {
    EncodeRaw(STANDARD, s) + Padding(|s|)
  }

  /** A reader of padded standard base64: a length in quads, at most two padding signs, all at the end. */
  function DecodeStd(t: Bytes): Option<Bytes> {
    if |t| % 4 != 0 then None
    else if |t| >= 2 && t[|t| - 2..] == "==" then DecodeRaw(STANDARD, t[..|t| - 2])
    else if |t| >= 1 && t[|t| - 1] == '=' then DecodeRaw(STANDARD, t[..|t| - 1])
    else DecodeRaw(STANDARD, t)
  }

  lemma RawRoundTrip(alphabet: Alphabet, s: Bytes)
    requires alphabet.Proper()
    ensures DecodeRaw(alphabet, EncodeRaw(alphabet, s)) == Some(s)
  {
    var x := ToSextets(s);
    var t := Letters(alphabet, x);
    forall i | 0 <= i < |t| ensures t[i] != '\r' && t[i] != '\n' {
      alphabet.DecodeInvertsEncode(x[i]);
    }
    GroupsInvertLetters(alphabet, x);
    FromInvertsTo(s);
  }

  /** `s` has `q` full groups of three bytes. */
  lemma {:induction false} SextetsOfGroups(s: Bytes, q: nat)
    requires 3 * q <= |s| < 3 * q + 3
    ensures |ToSextets(s)| == 4 * q + if |s| == 3 * q then 0 else |s| - 3 * q + 1
    decreases q
  {
    hide Quad;
    if q > 0 {
      SextetsOfGroups(s[3..], q - 1);
      assert |ToSextets(s)| == 4 + |ToSextets(s[3..])|;
    }
  }

  lemma PaddingOfGroups(n: nat, q: nat)
    requires 3 * q <= n < 3 * q + 3
    ensures |Padding(n)| == if n == 3 * q then 0 else 3 * q + 3 - n
  {
    assert n % 3 == n - 3 * q;
  }

  lemma PaddedToQuads(s: Bytes, q: nat)
    requires 3 * q <= |s| < 3 * q + 3
    ensures |ToSextets(s)| + |Padding(|s|)| == if |s| == 3 * q then 4 * q else 4 * q + 4
  {
    hide ToSextets, Padding;
    SextetsOfGroups(s, q);
    PaddingOfGroups(|s|, q);
  }

  lemma LettersAreNotPadding(x: seq<Sextet>)
    ensures var t := Letters(STANDARD, x); t == [] || t[|t| - 1] != '='
  {
    if x != [] {
      STANDARD.DecodeInvertsEncode(x[|x| - 1]);
    }
  }

  lemma PaddingIsShort(n: nat)
    ensures var p := Padding(n); p == "" || p == "=" || p == "=="
  {
  }

  lemma QuadsDivide(n: nat, q: nat)
    requires n == 4 * q || n == 4 * q + 4
    ensures n % 4 == 0
  {
  }

  lemma EncodedInQuads(s: Bytes)
    ensures var p := Padding(|s|); (p == "" || p == "=" || p == "==") && (|EncodeRaw(STANDARD, s)| + |p|) % 4 == 0
  {
    hide ToSextets, Letters, Padding;
    var q := |s| / 3;
    PaddingIsShort(|s|);
    PaddedToQuads(s, q);
    assert |EncodeRaw(STANDARD, s)| == |ToSextets(s)|;
    QuadsDivide(|ToSextets(s)| + |Padding(|s|)|, q);
  }

  lemma StdRoundTrip(s: Bytes)
    ensures DecodeStd(EncodeStd(s)) == Some(s)
  {
    hide ToSextets, FromSextets, DecodeStd, DecodeRaw, Letters, Padding;
    EncodedInQuads(s);
    LettersAreNotPadding(ToSextets(s));
    StripPadding(EncodeRaw(STANDARD, s), Padding(|s|));
    RawRoundTrip(STANDARD, s);
  }

  lemma StripPadding(t: Bytes, p: Bytes)
    requires p == "" || p == "=" || p == "=="
    requires (|t| + |p|) % 4 == 0
    requires t == [] || t[|t| - 1] != '='
    ensures DecodeStd(t + p) == DecodeRaw(STANDARD, t)
  {
    var u := t + p;
    assert u[..|t|] == t && u[|t|..] == p;
    if |p| == 1 {
      assert u[|u| - 1] == '=' && (|u| >= 2 ==> u[|u| - 2] == t[|t| - 1]);
    } else if |p| == 0 {
      assert u == t;
    }
  }

  /**
   * Exactly the texts over the alphabet, line breaks aside, of a length that is not one more than a multiple of four
   * decode.
   */
  lemma DecodesExactly(alphabet: Alphabet, t: Bytes)
    ensures var u := WithoutLineBreaks(t);
            DecodeRaw(alphabet, t).Some? <==> |u| % 4 != 1 && forall i :: 0 <= i < |u| ==> alphabet.Has(u[i])
    ensures DecodeRaw(alphabet, t).Some? && t != [] ==> |DecodeRaw(alphabet, t).value| < |t|
  {
  }

  // ------------------------------------------------------- the encoding as the standard lays it out

  /** Three bytes and the four groups they are cut into are one number, the first ones counting most. */
  lemma QuadIsBigEndian(p: Byte, q: Byte, r: Byte)
    ensures var x := Quad(p, q, r);
            x[0] as int * 262144 + x[1] as int * 4096 + x[2] as int * 64 + x[3] as int
            == p as int * 65536 + q as int * 256 + r as int
  {
  }

  /** What is left over at the end is filled up with zero bits. */
  lemma EndIsFilledUp(p: Byte, q: Byte)
    ensures var x := ToSextets([p]); |x| == 2 && x[0] as int * 64 + x[1] as int == p as int * 16
    ensures var x := ToSextets([p, q]);
            |x| == 3 && x[0] as int * 4096 + x[1] as int * 64 + x[2] as int == (p as int * 256 + q as int) * 4
  {
  }

  const CAPITALS: Bytes := "ABCDEFGHIJKLMNOPQRSTUVWXYZ"
  const SMALLS: Bytes := "abcdefghijklmnopqrstuvwxyz"
  const DIGITS: Bytes := "0123456789"

  /** Tables 1 and 2 of RFC 4648. */
  lemma AlphabetIs(alphabet: Alphabet, x: Sextet)
    requires alphabet == STANDARD || alphabet == URL
    ensures alphabet.Encode(x)
            == if x < 26 then (CAPITALS[0] as int + x as int) as char
               else if x < 52 then (SMALLS[0] as int + (x as int - 26)) as char
               else if x < 62 then (DIGITS[0] as int + (x as int - 52)) as char
               else if x == 62 then (if alphabet == STANDARD then '+' else '-')
               else if alphabet == STANDARD then '/' else '_'
  {
  }
}
