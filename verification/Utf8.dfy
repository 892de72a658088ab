/** Well-formed UTF-8 (RFC 3629, section 4), as Go's `unicode/utf8` and `strings.ToValidUTF8` decide it. */
module Utf8 {
  import opened GoStrings

  const MAX_RUNE_WIDTH := 4

  predicate IsContinuation(c: Byte) {
    0x80 <= c as int <= 0xBF
  }

  /** The range RFC 3629 allows for the byte after lead byte `lead` of a multi-byte rune. */
  predicate IsSecondByte(lead: Byte, c: Byte) {
    var (a, b) := (lead as int, c as int);
    if a == 0xE0 then 0xA0 <= b <= 0xBF
    else if a == 0xED then 0x80 <= b <= 0x9F
    else if a == 0xF0 then 0x90 <= b <= 0xBF
    else if a == 0xF4 then 0x80 <= b <= 0x8F
    else 0x80 <= b <= 0xBF
  }

  /** How many bytes a rune led by `lead` has; zero when no rune starts with it. */
  function LeadWidth(lead: Byte): (w: nat)
    ensures w <= MAX_RUNE_WIDTH
    ensures IsContinuation(lead) ==> w == 0
  {
    var a := lead as int;
    if a < 0x80 then 1
    else if 0xC2 <= a <= 0xDF then 2
    else if 0xE0 <= a <= 0xEF then 3
    else if 0xF0 <= a <= 0xF4 then 4
    else 0
  }

  /** The width of the rune `s` starts with; zero when it starts with no complete well-formed rune. */
  function RuneWidth(s: Bytes): (w: nat)
    ensures w <= |s| && w <= MAX_RUNE_WIDTH
    ensures forall i :: 1 <= i < w ==> IsContinuation(s[i])
    ensures w > 0 ==> !IsContinuation(s[0])
  {
    if s == [] then 0 else
      var w := LeadWidth(s[0]);
      if w == 0 || w > |s| then 0
      else if w >= 2 && !IsSecondByte(s[0], s[1]) then 0
      else if w >= 3 && !IsContinuation(s[2]) then 0
      else if w >= 4 && !IsContinuation(s[3]) then 0
      else w
  }

  /** `utf8.Valid`. */
  predicate Valid(s: Bytes) {
    s == [] || (RuneWidth(s) > 0 && Valid(s[RuneWidth(s)..]))
  }

  /** `strings.ToValidUTF8(s, "")`: every byte that belongs to no well-formed rune is dropped. */
  function ToValid(s: Bytes): (r: Bytes)
    ensures |r| <= |s|
  {
    if s == [] then [] else
      var w := RuneWidth(s);
      if w == 0 then ToValid(s[1..]) else s[..w] + ToValid(s[w..])
  }

  /** A cut at `k` splits no rune: it is an end of the text, or the byte after it starts a rune. */
  predicate IsBoundary(s: Bytes, k: nat)
    requires k <= |s|
  {
    k == |s| || !IsContinuation(s[k])
  }

  lemma EmptyIsValid()
    ensures Valid([])
  {
  }

  lemma RuneWidthLocal(s: Bytes, t: Bytes)
    requires RuneWidth(s) > 0 && s[..RuneWidth(s)] <= t
    ensures RuneWidth(t) == RuneWidth(s)
  {
    var w := RuneWidth(s);
    assert forall i :: 0 <= i < w ==> t[i] == s[..w][i] == s[i];
  }

  /** Among the cuts of a well-formed text, exactly those on a code-point boundary leave it well formed. */
  lemma {:induction false} ValidCut(s: Bytes, k: nat)
    requires Valid(s) && k <= |s|
    ensures Valid(s[..k]) <==> IsBoundary(s, k)
    decreases |s|
  {
    if 0 < k {
      var w := RuneWidth(s);
      if k < w {
        assert LeadWidth(s[..k][0]) == LeadWidth(s[0]);
      } else {
        RuneWidthLocal(s, s[..k]);
        ValidCut(s[w..], k - w);
        assert s[..k][w..] == s[w..][..k - w];
      }
    }
  }

  lemma {:induction false} ValidConcat(s: Bytes, t: Bytes)
    requires Valid(s)
    ensures Valid(s + t) <==> Valid(t)
    decreases |s|
  {
    if s == [] {
      assert s + t == t;
    } else {
      var w := RuneWidth(s);
      assert (s + t)[..w] == s[..w];
      RuneWidthLocal(s, s + t);
      assert (s + t)[w..] == s[w..] + t;
      ValidConcat(s[w..], t);
    }
  }

  lemma {:induction false} ToValidIsValid(s: Bytes)
    ensures Valid(ToValid(s))
    ensures Valid(s) ==> ToValid(s) == s
    decreases |s|
  {
    if s != [] {
      var w := RuneWidth(s);
      if w == 0 {
        ToValidIsValid(s[1..]);
      } else {
        ToValidIsValid(s[w..]);
        var rest := ToValid(s[w..]);
        RuneWidthLocal(s, s[..w] + rest);
        assert (s[..w] + rest)[w..] == rest;
      }
    }
  }

  lemma {:induction false} StrayContinuations(s: Bytes)
    requires forall i :: 0 <= i < |s| ==> IsContinuation(s[i])
    ensures ToValid(s) == []
  {
    if s != [] {
      StrayContinuations(s[1..]);
    }
  }

  /** A rune cut short leaves nothing. */
  lemma PartialRune(s: Bytes, k: nat)
    requires 0 < k < RuneWidth(s)
    ensures ToValid(s[..k]) == []
  {
    var part := s[..k];
    assert part[0] == s[0] && RuneWidth(part) == 0;
    StrayContinuations(part[1..]);
  }

  /** The first rune of a text is kept, whatever follows it. */
  lemma ToValidKeepsRune(s: Bytes, k: nat)
    requires RuneWidth(s) > 0 && RuneWidth(s) <= k <= |s|
    ensures var w := RuneWidth(s); ToValid(s[..k]) == s[..w] + ToValid(s[w..][..k - w])
  {
    hide RuneWidth;
    var w := RuneWidth(s);
    assert s[..k][..w] == s[..w];
    RuneWidthLocal(s, s[..k]);
    assert s[..k][w..] == s[w..][..k - w];
  }

  /** Cutting a well-formed text anywhere and repairing the cut keeps a prefix, and loses at most three more bytes. */
  lemma {:induction false} ToValidAfterCut(s: Bytes, k: nat)
    requires Valid(s) && k <= |s|
    ensures ToValid(s[..k]) <= s[..k]
    ensures k < |ToValid(s[..k])| + MAX_RUNE_WIDTH
    decreases |s|
  {
    hide RuneWidth, ToValid;
    if k == 0 {
      assert s[..0] == [];
      ToValidOfNone();
    } else {
      var w := RuneWidth(s);
      if k < w {
        PartialRune(s, k);
      } else {
        ToValidKeepsRune(s, k);
        ToValidAfterCut(s[w..], k - w);
        assert s[..k] == s[..w] + s[w..][..k - w];
      }
    }
  }

  lemma ToValidOfNone()
    ensures ToValid([]) == []
  {
  }

  // ------------------------------------------------------------ code points

  /** Unicode scalar values: all code points but the surrogates. */
  predicate IsScalar(c: nat) {
    c < 0xD800 || 0xE000 <= c < 0x11_0000
  }

  function Tail(c: nat): Byte
    requires c < 64
  {
    (0x80 + c) as char
  }

  /** The encoding of a scalar value, as the table in section 3 of RFC 3629 lays out its bits. */
  function Encode(c: nat): (s: Bytes)
    requires IsScalar(c)
    ensures s != []
  {
    if c < 0x80 then [c as char]
    else if c < 0x800 then [(0xC0 + c / 64) as char, Tail(c % 64)]
    else if c < 0x1_0000 then [(0xE0 + c / 4096) as char, Tail(c / 64 % 64), Tail(c % 64)]
    else [(0xF0 + c / 262144) as char, Tail(c / 4096 % 64), Tail(c / 64 % 64), Tail(c % 64)]
  }

  function EncodeAll(cs: seq<nat>): Bytes
    requires forall i :: 0 <= i < |cs| ==> IsScalar(cs[i])
  {
    if cs == [] then [] else Encode(cs[0]) + EncodeAll(cs[1..])
  }

  lemma EncodedIsRune(c: nat, rest: Bytes)
    requires IsScalar(c)
    ensures RuneWidth(Encode(c) + rest) == |Encode(c)|
  {
    var s, e := Encode(c) + rest, Encode(c);
    assert forall i :: 0 <= i < |e| ==> s[i] == e[i];
    if c >= 0x80 {
      SecondByteFits(c);
    }
  }

  /** The second byte is in the range its lead byte allows. */
  lemma SecondByteFits(c: nat)
    requires IsScalar(c) && c >= 0x80
    ensures IsSecondByte(Encode(c)[0], Encode(c)[1]) && LeadWidth(Encode(c)[0]) == |Encode(c)|
  {
  }

  /** The code point three bytes stand for. */
  function Joined(a: nat, b: nat, c: nat): nat {
    a * 4096 + b * 64 + c
  }

  lemma JoinedSplits(a: nat, b: nat, c: nat)
    requires b < 64 && c < 64
    ensures Joined(a, b, c) / 4096 == a && Joined(a, b, c) / 64 % 64 == b && Joined(a, b, c) % 64 == c
  {
    assert Joined(a, b, c) / 64 == a * 64 + b;
  }

  lemma RuneIsEncoded(s: Bytes) returns (c: nat)
    requires RuneWidth(s) > 0
    ensures IsScalar(c) && s[..RuneWidth(s)] == Encode(c)
  {
    var w := RuneWidth(s);
    if w == 1 {
      c := s[0] as int;
    } else if w == 2 {
      c := (s[0] as int - 0xC0) * 64 + (s[1] as int - 0x80);
    } else if w == 3 {
      c := RuneOfThree(s);
    } else {
      c := RuneOfFour(s);
    }
  }

  lemma RuneOfThree(s: Bytes) returns (c: nat)
    requires RuneWidth(s) == 3
    ensures IsScalar(c) && s[..3] == Encode(c)
  {
    var (x, y, z) := (s[0] as int - 0xE0, s[1] as int - 0x80, s[2] as int - 0x80);
    c := Joined(x, y, z);
    JoinedSplits(x, y, z);
  }

  lemma RuneOfFour(s: Bytes) returns (c: nat)
    requires RuneWidth(s) == 4
    ensures IsScalar(c) && s[..4] == Encode(c)
  {
    var (w, x, y, z) := (s[0] as int - 0xF0, s[1] as int - 0x80, s[2] as int - 0x80, s[3] as int - 0x80);
    c := Joined(w * 64 + x, y, z);
    JoinedSplits(w * 64 + x, y, z);
    assert (w * 64 + x) / 64 == w && (w * 64 + x) % 64 == x;
    assert c / 262144 == c / 4096 / 64;
  }

  /** Well-formed texts are just the encodings of sequences of scalar values. */
  lemma {:induction false} EncodedIsValid(cs: seq<nat>)
    requires forall i :: 0 <= i < |cs| ==> IsScalar(cs[i])
    ensures Valid(EncodeAll(cs))
  {
    hide RuneWidth, Encode;
    if cs != [] {
      var rest := EncodeAll(cs[1..]);
      EncodedIsRune(cs[0], rest);
      EncodedIsValid(cs[1..]);
      assert (Encode(cs[0]) + rest)[|Encode(cs[0])|..] == rest;
    }
  }

  lemma {:induction false} ValidIsEncoded(s: Bytes) returns (cs: seq<nat>)
    requires Valid(s)
    ensures forall i :: 0 <= i < |cs| ==> IsScalar(cs[i])
    ensures s == EncodeAll(cs)
    decreases |s|
  {
    hide RuneWidth, Encode, IsScalar;
    cs := [];
    if s != [] {
      var w := RuneWidth(s);
      var c := RuneIsEncoded(s);
      var more := ValidIsEncoded(s[w..]);
      cs := [c] + more;
      assert cs[1..] == more;
      assert s == s[..w] + s[w..];
    }
  }
}
