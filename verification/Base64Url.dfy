/** Padded base64 with the URL-safe alphabet (section 5 of RFC 4648), decoded as Go's encoding/base64 does:
    carriage returns and line feeds are skipped, trailing bits are not checked, and a bad character ends the
    decoding with the bytes of the quanta completed before it. */
module Base64Url {
  import opened Common

  /** Go strings are sequences of octets. */
  type Text = seq<bv8>

  const PAD: bv8 := 61

  /** The character of a six-bit value: A-Z, a-z, 0-9, '-', '_'. */
  function EncodeChar(v: bv8): bv8
    requires v < 64
  {
    if v < 26 then v + 65
    else if v < 52 then v + 71
    else if v < 62 then v - 4
    else if v == 62 then 45
    else 95
  }

  predicate IsDigit64(c: bv8) {
    65 <= c <= 90 || 97 <= c <= 122 || 48 <= c <= 57 || c == 45 || c == 95
  }

  function DecodeChar(c: bv8): bv8
    requires IsDigit64(c)
  {
    if 65 <= c <= 90 then c - 65
    else if 97 <= c <= 122 then c - 71
    else if 48 <= c <= 57 then c + 4
    else if c == 45 then 62
    else 63
  }

  predicate IsNewline(c: bv8) {
    c == 10 || c == 13
  }

  /** The four six-bit values of three octets. */
  function Sextet0(b0: bv8): (v: bv8)
    ensures v < 64
  {
    b0 >> 2
  }

  function Sextet1(b0: bv8, b1: bv8): (v: bv8)
    ensures v < 64
  {
    ((b0 & 3) << 4) | (b1 >> 4)
  }

  function Sextet2(b1: bv8, b2: bv8): (v: bv8)
    ensures v < 64
  {
    ((b1 & 15) << 2) | (b2 >> 6)
  }

  function Sextet3(b2: bv8): (v: bv8)
    ensures v < 64
  {
    b2 & 63
  }

  function Encode(b: seq<bv8>): Text
  {
    if |b| == 0 then []
    else
      var c0 := EncodeChar(Sextet0(b[0]));
      if |b| == 1 then [c0, EncodeChar(Sextet1(b[0], 0)), PAD, PAD]
      else
        var c1 := EncodeChar(Sextet1(b[0], b[1]));
        if |b| == 2 then [c0, c1, EncodeChar(Sextet2(b[1], 0)), PAD]
        else [c0, c1, EncodeChar(Sextet2(b[1], b[2])), EncodeChar(Sextet3(b[2]))] + Encode(b[3..])
  }

  function Octet0(v0: bv8, v1: bv8): bv8 {
    (v0 << 2) | (v1 >> 4)
  }

  function Octet1(v1: bv8, v2: bv8): bv8 {
    (v1 << 4) | (v2 >> 2)
  }

  function Octet2(v2: bv8, v3: bv8): bv8 {
    (v2 << 6) | v3
  }

  /** Decodes a text without newlines. */
  function DecodeQuanta(s: Text): (b: seq<bv8>)
    ensures 4 * |b| <= 3 * |s|
  {
    if |s| < 4 || !IsDigit64(s[0]) || !IsDigit64(s[1]) then []
    else
      var v0, v1 := DecodeChar(s[0]), DecodeChar(s[1]);
      if IsDigit64(s[2]) then
        var v2 := DecodeChar(s[2]);
        if IsDigit64(s[3]) then
          [Octet0(v0, v1), Octet1(v1, v2), Octet2(v2, DecodeChar(s[3]))] + DecodeQuanta(s[4..])
        else if s[3] == PAD then [Octet0(v0, v1), Octet1(v1, v2)]
        else []
      else if s[2] == PAD && s[3] == PAD then [Octet0(v0, v1)]
      else []
  }

  function SkipNewlines(s: Text): (r: Text)
    ensures |r| <= |s|
  {
    if s == [] then []
    else if IsNewline(s[0]) then SkipNewlines(s[1..])
    else [s[0]] + SkipNewlines(s[1..])
  }

  /** The bytes that DecodeString returns, whatever its error. */
  function Decode(s: Text): (b: seq<bv8>)
    ensures 4 * |b| <= 3 * |s|
  {
    DecodeQuanta(SkipNewlines(s))
  }

  lemma CharRoundTrip(v: bv8)
    requires v < 64
    ensures IsDigit64(EncodeChar(v)) && DecodeChar(EncodeChar(v)) == v
    ensures !IsNewline(EncodeChar(v))
  {
  }

  lemma OctetsOfSextets(b0: bv8, b1: bv8, b2: bv8)
    ensures Octet0(Sextet0(b0), Sextet1(b0, b1)) == b0
    ensures Octet1(Sextet1(b0, b1), Sextet2(b1, b2)) == b1
    ensures Octet2(Sextet2(b1, b2), Sextet3(b2)) == b2
  {
  }

  lemma SkipFour(q: Text, rest: Text)
    requires |q| == 4 && !IsNewline(q[0]) && !IsNewline(q[1]) && !IsNewline(q[2]) && !IsNewline(q[3])
    ensures SkipNewlines(q + rest) == q + SkipNewlines(rest)
  {
    SkipOne(q[3], rest);
    SkipOne(q[2], [q[3]] + rest);
    SkipOne(q[1], [q[2]] + ([q[3]] + rest));
    SkipOne(q[0], [q[1]] + ([q[2]] + ([q[3]] + rest)));
    assert q + rest == [q[0]] + ([q[1]] + ([q[2]] + ([q[3]] + rest)));
  }

  lemma SkipOne(c: bv8, rest: Text)
    requires !IsNewline(c)
    ensures SkipNewlines([c] + rest) == [c] + SkipNewlines(rest)
  {
    assert ([c] + rest)[1..] == rest;
  }

  /** Carriage returns and line feeds are skipped wherever they are, and nothing else is. */
  lemma SkipsOnlyNewlines(before: Text, c: bv8, after: Text)
    ensures c == 10 || c == 13 ==> Decode(before + [c] + after) == Decode(before + after)
    ensures c != 10 && c != 13 ==> SkipNewlines([c] + after) == [c] + SkipNewlines(after)
  {
    if c == 10 || c == 13 {
      SkipSplits(before + [c], after);
      SkipSplits(before, [c]);
      SkipSplits(before, after);
      SkipOneNewline(c);
      assert SkipNewlines(before) + [] == SkipNewlines(before);
    } else {
      SkipOne(c, after);
    }
  }

  lemma SkipOneNewline(c: bv8)
    requires c == 10 || c == 13
    ensures SkipNewlines([c]) == []
  {
    assert [c][1..] == [];
  }

  lemma {:induction false} SkipSplits(s: Text, t: Text)
    ensures SkipNewlines(s + t) == SkipNewlines(s) + SkipNewlines(t)
  {
    if s == [] {
      assert s + t == t;
    } else {
      SkipSplits(s[1..], t);
      assert (s + t)[0] == s[0] && (s + t)[1..] == s[1..] + t;
      Regroup([s[0]], SkipNewlines(s[1..]), SkipNewlines(t));
    }
  }

  /** The first quantum of an encoding. */
  lemma EncodeHead(b: seq<bv8>) returns (v0: bv8, v1: bv8, v2: bv8, v3: bv8)
    requires |b| > 0
    ensures v0 < 64 && v1 < 64 && v2 < 64 && v3 < 64
    ensures |b| == 1 ==> Encode(b) == [EncodeChar(v0), EncodeChar(v1), PAD, PAD] && Octet0(v0, v1) == b[0]
    ensures |b| == 2 ==> Encode(b) == [EncodeChar(v0), EncodeChar(v1), EncodeChar(v2), PAD]
                         && Octet0(v0, v1) == b[0] && Octet1(v1, v2) == b[1]
    ensures |b| > 2 ==> Encode(b) == [EncodeChar(v0), EncodeChar(v1), EncodeChar(v2), EncodeChar(v3)] + Encode(b[3..])
                        && Octet0(v0, v1) == b[0] && Octet1(v1, v2) == b[1] && Octet2(v2, v3) == b[2]
  {
    var b1, b2 := if |b| > 1 then b[1] else 0, if |b| > 2 then b[2] else 0;
    v0, v1, v2, v3 := Sextet0(b[0]), Sextet1(b[0], b1), Sextet2(b1, b2), Sextet3(b2);
    OctetsOfSextets(b[0], b1, b2);
  }

  lemma {:induction false} EncodeHasNoNewline(b: seq<bv8>)
    ensures SkipNewlines(Encode(b)) == Encode(b)
  {
    if |b| > 0 {
      var v0, v1, v2, v3 := EncodeHead(b);
      CharRoundTrip(v0);
      CharRoundTrip(v1);
      CharRoundTrip(v2);
      CharRoundTrip(v3);
      var rest := Encode(b)[4..];
      assert rest == if |b| > 2 then Encode(b[3..]) else [];
      if |b| > 2 {
        EncodeHasNoNewline(b[3..]);
      }
      assert Encode(b) == Encode(b)[..4] + rest;
      SkipFour(Encode(b)[..4], rest);
    }
  }

  lemma DecodeWhole(v0: bv8, v1: bv8, v2: bv8, v3: bv8, rest: Text)
    requires v0 < 64 && v1 < 64 && v2 < 64 && v3 < 64
    ensures DecodeQuanta([EncodeChar(v0), EncodeChar(v1), EncodeChar(v2), EncodeChar(v3)] + rest)
            == [Octet0(v0, v1), Octet1(v1, v2), Octet2(v2, v3)] + DecodeQuanta(rest)
  {
    CharRoundTrip(v0);
    CharRoundTrip(v1);
    CharRoundTrip(v2);
    CharRoundTrip(v3);
    var s := [EncodeChar(v0), EncodeChar(v1), EncodeChar(v2), EncodeChar(v3)] + rest;
    assert s[4..] == rest;
  }

  lemma DecodePadded(v0: bv8, v1: bv8, v2: bv8)
    requires v0 < 64 && v1 < 64 && v2 < 64
    ensures DecodeQuanta([EncodeChar(v0), EncodeChar(v1), PAD, PAD]) == [Octet0(v0, v1)]
    ensures DecodeQuanta([EncodeChar(v0), EncodeChar(v1), EncodeChar(v2), PAD]) == [Octet0(v0, v1), Octet1(v1, v2)]
  {
    CharRoundTrip(v0);
    CharRoundTrip(v1);
    CharRoundTrip(v2);
  }

  lemma {:induction false} QuantaRoundTrip(b: seq<bv8>)
    ensures DecodeQuanta(Encode(b)) == b
  {
    if |b| > 0 {
      var v0, v1, v2, v3 := EncodeHead(b);
      if |b| > 2 {
        DecodeWhole(v0, v1, v2, v3, Encode(b[3..]));
        QuantaRoundTrip(b[3..]);
        assert b == [b[0], b[1], b[2]] + b[3..];
      } else {
        DecodePadded(v0, v1, v2);
      }
    }
  }

  /** Decoding inverts encoding, and line breaks put into the encoded text do not matter. */
  lemma RoundTrip(b: seq<bv8>, wrapped: Text)
    requires SkipNewlines(wrapped) == Encode(b)
    ensures Decode(Encode(b)) == b && Decode(wrapped) == b
  {
    QuantaRoundTrip(b);
    EncodeHasNoNewline(b);
  }

  /** A character that is neither in the alphabet nor padding ends the decoding: what comes out is what the
      complete quanta before it give. */
  lemma {:induction false} BadCharacterStops(s: Text, k: nat)
    requires k < |s| && !IsDigit64(s[k]) && s[k] != PAD
    ensures DecodeQuanta(s) == DecodeQuanta(s[..4 * (k / 4)])
  {
    if k >= 4 {
      BadCharacterStops(s[4..], k - 4);
      assert s[4..][..4 * ((k - 4) / 4)] == s[..4 * (k / 4)][4..];
    }
  }

  // ---- the tables and the arithmetic of the standard -----------------------------------------------------

  /** The alphabet, in the order of the values. */
  const ALPHABET := "ABCDEFGHIJKLMNOPQRSTUVWXYZ" + "abcdefghijklmnopqrstuvwxyz" + "0123456789-_"

  lemma EncodeCharIs(v: bv8)
    requires v < 64
    ensures |ALPHABET| == 64 && EncodeChar(v) as int == ALPHABET[v as int] as int
  {
    var i := v as int;
    if i < 26 {
      assert ALPHABET[i] == "ABCDEFGHIJKLMNOPQRSTUVWXYZ"[i];
    } else if i < 52 {
      assert ALPHABET[i] == "abcdefghijklmnopqrstuvwxyz"[i - 26];
    } else {
      assert ALPHABET[i] == "0123456789-_"[i - 52];
    }
  }

  lemma SameOctet(c: bv8, d: bv8)
    requires c as int == d as int
    ensures c == d
  {
  }

  lemma AsOctet(i: nat)
    requires i < 64
    ensures (i as bv8) as int == i
  {
  }

  lemma SmallOctet(i: nat)
    requires i < 64
    ensures (i as bv8) < 64
  {
  }

  lemma CharAt(i: nat, c: bv8)
    requires i < 64
    ensures ALPHABET[i] as int == c as int ==> IsDigit64(c) && DecodeChar(c) as int == i
  {
    AsOctet(i);
    SmallOctet(i);
    if ALPHABET[i] as int == c as int {
      CharOfPlace(i as bv8, c);
    }
  }

  lemma CharOfPlace(v: bv8, c: bv8)
    requires v < 64 && ALPHABET[v as int] as int == c as int
    ensures IsDigit64(c) && DecodeChar(c) == v
  {
    EncodeCharIs(v);
    SameOctet(EncodeChar(v), c);
    CharRoundTrip(v);
  }

  lemma DecodeCharAt(c: bv8)
    requires IsDigit64(c)
    ensures DecodeChar(c) < 64 && ALPHABET[DecodeChar(c) as int] as int == c as int
  {
    assert EncodeChar(DecodeChar(c)) == c;
    EncodeCharIs(DecodeChar(c));
  }

  /** A character is decoded exactly if it is in the alphabet, and to its place there. */
  lemma DecodeCharIs(c: bv8)
    ensures IsDigit64(c) <==> exists i :: 0 <= i < 64 && ALPHABET[i] as int == c as int
    ensures IsDigit64(c) ==> ALPHABET[DecodeChar(c) as int] as int == c as int
  {
    if IsDigit64(c) {
      DecodeCharAt(c);
    }
    if i :| 0 <= i < 64 && ALPHABET[i] as int == c as int {
      CharAt(i, c);
    }
  }

  lemma LowBits(b: bv8)
    ensures (b & 3) as int == b as int % 4
    ensures (b & 15) as int == b as int % 16
    ensures (b & 63) as int == b as int % 64
  {
    assert b == ((b >> 2) << 2) + (b & 3);
    HighBits(b);
  }

  lemma HighBits(b: bv8)
    ensures (b >> 2) as int == b as int / 4
    ensures (b >> 4) as int == b as int / 16
    ensures (b >> 6) as int == b as int / 64
  {
  }

  lemma Sextet0Is(b0: bv8)
    ensures Sextet0(b0) as int == b0 as int / 4
  {
    HighBits(b0);
  }

  lemma Sextet1Is(b0: bv8, b1: bv8)
    ensures Sextet1(b0, b1) as int == b0 as int % 4 * 16 + b1 as int / 16
  {
    var v := Sextet1(b0, b1);
    assert v >> 4 == b0 & 3 && v & 15 == b1 >> 4;
    LowBits(b0);
    HighBits(b1);
    HighBits(v);
    LowBits(v);
  }

  lemma Sextet2Is(b1: bv8, b2: bv8)
    ensures Sextet2(b1, b2) as int == b1 as int % 16 * 4 + b2 as int / 64
  {
    var v := Sextet2(b1, b2);
    assert v >> 2 == b1 & 15 && v & 3 == b2 >> 6;
    LowBits(b1);
    HighBits(b2);
    HighBits(v);
    LowBits(v);
  }

  /** Three octets as one number; those that are missing at the end count as zero. */
  function Group(b: seq<bv8>, q: nat): nat {
    65536 * OctetAt(b, 3 * q) + 256 * OctetAt(b, 3 * q + 1) + OctetAt(b, 3 * q + 2)
  }

  function OctetAt(b: seq<bv8>, i: nat): nat {
    if i < |b| then b[i] as int else 0
  }

  /** The four digits of such a number in base 64. */
  function Digit(g: nat, j: nat): (d: nat)
    ensures d < 64
  {
    (if j == 0 then g / 262144 else if j == 1 then g / 4096 else if j == 2 then g / 64 else g) % 64
  }

  lemma {:induction false} EncodeLength(b: seq<bv8>)
    ensures |Encode(b)| == (|b| + 2) / 3 * 4
  {
    if |b| > 2 {
      EncodeLength(b[3..]);
    }
  }

  /** Character `j` of quantum `q`: the digit of the three octets, if there are octets left for it, else the pad. */
  ghost predicate CharIs(b: seq<bv8>, q: nat, j: nat, c: bv8)
    requires 3 * q < |b|
  {
    c as int == if j <= |b| - 3 * q then ALPHABET[Digit(Group(b, q), j)] as int else 61
  }

  lemma CharOf(v: bv8, d: nat)
    requires v < 64 && v as int == d
    ensures d < 64 && EncodeChar(v) as int == ALPHABET[d] as int
  {
    EncodeCharIs(v);
  }

  lemma Digit0(x0: nat, x1: nat, x2: nat, g: nat)
    requires x0 < 256 && x1 < 256 && x2 < 256 && g == 65536 * x0 + 256 * x1 + x2
    ensures Digit(g, 0) == x0 / 4
  {
    DigitsOf(x0, x1, x2);
  }

  lemma Char0Is(b0: bv8, b1: bv8, b2: bv8, g: nat)
    requires g == 65536 * b0 as int + 256 * b1 as int + b2 as int
    ensures EncodeChar(Sextet0(b0)) as int == ALPHABET[Digit(g, 0)] as int
  {
    Sextet0Is(b0);
    Digit0(b0 as int, b1 as int, b2 as int, g);
    CharOf(Sextet0(b0), Digit(g, 0));
  }

  lemma Digit1(x0: nat, x1: nat, x2: nat, g: nat)
    requires x0 < 256 && x1 < 256 && x2 < 256 && g == 65536 * x0 + 256 * x1 + x2
    ensures Digit(g, 1) == x0 % 4 * 16 + x1 / 16
  {
    DigitsOf(x0, x1, x2);
  }

  lemma Char1Is(b0: bv8, b1: bv8, b2: bv8, g: nat)
    requires g == 65536 * b0 as int + 256 * b1 as int + b2 as int
    ensures EncodeChar(Sextet1(b0, b1)) as int == ALPHABET[Digit(g, 1)] as int
  {
    Sextet1Is(b0, b1);
    Digit1(b0 as int, b1 as int, b2 as int, g);
    CharOf(Sextet1(b0, b1), Digit(g, 1));
  }

  lemma Digit2(x0: nat, x1: nat, x2: nat, g: nat)
    requires x0 < 256 && x1 < 256 && x2 < 256 && g == 65536 * x0 + 256 * x1 + x2
    ensures Digit(g, 2) == x1 % 16 * 4 + x2 / 64
  {
    DigitsOf(x0, x1, x2);
  }

  lemma Char2Is(b0: bv8, b1: bv8, b2: bv8, g: nat)
    requires g == 65536 * b0 as int + 256 * b1 as int + b2 as int
    ensures EncodeChar(Sextet2(b1, b2)) as int == ALPHABET[Digit(g, 2)] as int
  {
    Sextet2Is(b1, b2);
    Digit2(b0 as int, b1 as int, b2 as int, g);
    CharOf(Sextet2(b1, b2), Digit(g, 2));
  }

  lemma Digit3(x0: nat, x1: nat, x2: nat, g: nat)
    requires x0 < 256 && x1 < 256 && x2 < 256 && g == 65536 * x0 + 256 * x1 + x2
    ensures Digit(g, 3) == x2 % 64
  {
    DigitsOf(x0, x1, x2);
  }

  lemma Char3Is(b0: bv8, b1: bv8, b2: bv8, g: nat)
    requires g == 65536 * b0 as int + 256 * b1 as int + b2 as int
    ensures EncodeChar(Sextet3(b2)) as int == ALPHABET[Digit(g, 3)] as int
  {
    LowBits(b2);
    Digit3(b0 as int, b1 as int, b2 as int, g);
    CharOf(Sextet3(b2), Digit(g, 3));
  }

  lemma DigitsOf(b0: nat, b1: nat, b2: nat)
    requires b0 < 256 && b1 < 256 && b2 < 256
    ensures var g := 65536 * b0 + 256 * b1 + b2;
            && Digit(g, 0) == b0 / 4 && Digit(g, 1) == b0 % 4 * 16 + b1 / 16
            && Digit(g, 2) == b1 % 16 * 4 + b2 / 64 && Digit(g, 3) == b2 % 64
  {
    DigitsAre(b0 / 4, b0 % 4 * 16 + b1 / 16, b1 % 16 * 4 + b2 / 64, b2 % 64);
  }

  lemma DigitsAre(d0: nat, d1: nat, d2: nat, d3: nat)
    requires d0 < 64 && d1 < 64 && d2 < 64 && d3 < 64
    ensures var g := 262144 * d0 + 4096 * d1 + 64 * d2 + d3;
            Digit(g, 0) == d0 && Digit(g, 1) == d1 && Digit(g, 2) == d2 && Digit(g, 3) == d3
  {
    var g := 262144 * d0 + 4096 * d1 + 64 * d2 + d3;
    QuotientIs(g, 262144, d0, 4096 * d1 + 64 * d2 + d3);
    QuotientIs(g, 4096, 64 * d0 + d1, 64 * d2 + d3);
    QuotientIs(g, 64, 4096 * d0 + 64 * d1 + d2, d3);
  }

  lemma HeadChars(b: seq<bv8>, j: nat)
    requires |b| > 0 && j < 4
    ensures QuantumIs(b, 0, j)
  {
    var b1: bv8, b2: bv8 := if |b| > 1 then b[1] else 0, if |b| > 2 then b[2] else 0;
    var g := Group(b, 0);
    assert g == 65536 * b[0] as int + 256 * b1 as int + b2 as int;
    match j {
      case 0 => Char0Is(b[0], b1, b2, g);
      case 1 => Char1Is(b[0], b1, b2, g);
      case 2 => Char2Is(b[0], b1, b2, g);
      case _ => Char3Is(b[0], b1, b2, g);
    }
  }

  lemma GroupOfRest(b: seq<bv8>, q: nat)
    requires q > 0 && 3 * q < |b|
    ensures Group(b, q) == Group(b[3..], q - 1)
  {
  }

  lemma EncodeRest(b: seq<bv8>, k: nat)
    requires |b| > 2 && 4 <= k < |Encode(b)|
    ensures k - 4 < |Encode(b[3..])| && Encode(b)[k] == Encode(b[3..])[k - 4]
  {
  }

  lemma CharOfRest(b: seq<bv8>, q: nat, j: nat, c: bv8)
    requires q > 0 && 3 * q < |b|
    ensures CharIs(b[3..], q - 1, j, c) ==> CharIs(b, q, j, c)
  {
    GroupOfRest(b, q);
  }

  ghost predicate QuantumIs(b: seq<bv8>, q: nat, j: nat)
    requires 3 * q < |b|
  {
    4 * q + j < |Encode(b)| && CharIs(b, q, j, Encode(b)[4 * q + j])
  }

  /** Section 5 of RFC 4648, character by character, for every octet string. */
  lemma {:induction false} EncodeMeetsStandard(b: seq<bv8>, q: nat, j: nat)
    requires 3 * q < |b| && j < 4
    ensures QuantumIs(b, q, j)
    decreases q
  {
    if q == 0 {
      HeadChars(b, j);
    } else {
      EncodeMeetsStandard(b[3..], q - 1, j);
      NextQuantum(b, q, j);
    }
  }

  lemma NextQuantum(b: seq<bv8>, q: nat, j: nat)
    requires q > 0 && 3 * q < |b| && j < 4
    ensures QuantumIs(b[3..], q - 1, j) ==> QuantumIs(b, q, j)
  {
    SameChar(b, q, j);
    CharOfRest(b, q, j, Encode(b)[4 * q + j]);
  }

  lemma SameChar(b: seq<bv8>, q: nat, j: nat)
    requires q > 0 && 3 * q < |b| && j < 4
    ensures |b| > 2 && 4 * q + j < |Encode(b)| && 4 * (q - 1) + j < |Encode(b[3..])|
    ensures Encode(b)[4 * q + j] == Encode(b[3..])[4 * (q - 1) + j]
  {
    EncodeLength(b);
    EncodeRest(b, 4 * q + j);
  }

  // ---- what is decoded -----------------------------------------------------------------------------------

  /** The place of a character in the alphabet; the pad counts as zero. */
  function Place(c: bv8): (d: nat)
    ensures d < 64
  {
    if IsDigit64(c) then DecodeCharAt(c); DecodeChar(c) as int else 0
  }

  function Value(s: Text): nat
    requires |s| >= 4
  {
    262144 * Place(s[0]) + 4096 * Place(s[1]) + 64 * Place(s[2]) + Place(s[3])
  }

  lemma Octet0Is(v0: bv8, v1: bv8)
    requires v0 < 64 && v1 < 64
    ensures Octet0(v0, v1) as int == v0 as int * 4 + v1 as int / 16
  {
    var o := Octet0(v0, v1);
    assert o >> 2 == v0 && o & 3 == v1 >> 4;
    HighBits(v1);
    HighBits(o);
    LowBits(o);
  }

  lemma Octet1Is(v1: bv8, v2: bv8)
    requires v1 < 64 && v2 < 64
    ensures Octet1(v1, v2) as int == v1 as int % 16 * 16 + v2 as int / 4
  {
    var o := Octet1(v1, v2);
    assert o >> 4 == v1 & 15 && o & 15 == v2 >> 2;
    LowBits(v1);
    HighBits(v2);
    HighBits(o);
    LowBits(o);
  }

  lemma Octet2Is(v2: bv8, v3: bv8)
    requires v2 < 64 && v3 < 64
    ensures Octet2(v2, v3) as int == v2 as int % 4 * 64 + v3 as int
  {
    var o := Octet2(v2, v3);
    assert o >> 6 == v2 & 3 && o & 63 == v3;
    LowBits(v2);
    HighBits(o);
    LowBits(o);
  }

  lemma Value0(v0: nat, v1: nat, v2: nat, v3: nat, g: nat)
    requires v0 < 64 && v1 < 64 && v2 < 64 && v3 < 64 && g == 262144 * v0 + 4096 * v1 + 64 * v2 + v3
    ensures g / 65536 == v0 * 4 + v1 / 16
  {
    OctetsAre(v0 * 4 + v1 / 16, v1 % 16 * 16 + v2 / 4, v2 % 4 * 64 + v3);
  }

  lemma Octet0Of(v0: bv8, v1: bv8, v2: bv8, v3: bv8, g: nat)
    requires v0 < 64 && v1 < 64 && v2 < 64 && v3 < 64
    requires g == 262144 * v0 as int + 4096 * v1 as int + 64 * v2 as int + v3 as int
    ensures Octet0(v0, v1) as int == g / 65536
  {
    Octet0Is(v0, v1);
    Value0(v0 as int, v1 as int, v2 as int, v3 as int, g);
  }

  lemma Value1(v0: nat, v1: nat, v2: nat, v3: nat, g: nat)
    requires v0 < 64 && v1 < 64 && v2 < 64 && v3 < 64 && g == 262144 * v0 + 4096 * v1 + 64 * v2 + v3
    ensures g / 256 % 256 == v1 % 16 * 16 + v2 / 4
  {
    OctetsAre(v0 * 4 + v1 / 16, v1 % 16 * 16 + v2 / 4, v2 % 4 * 64 + v3);
  }

  lemma Octet1Of(v0: bv8, v1: bv8, v2: bv8, v3: bv8, g: nat)
    requires v0 < 64 && v1 < 64 && v2 < 64 && v3 < 64
    requires g == 262144 * v0 as int + 4096 * v1 as int + 64 * v2 as int + v3 as int
    ensures Octet1(v1, v2) as int == g / 256 % 256
  {
    Octet1Is(v1, v2);
    Value1(v0 as int, v1 as int, v2 as int, v3 as int, g);
  }

  lemma Value2(v0: nat, v1: nat, v2: nat, v3: nat, g: nat)
    requires v0 < 64 && v1 < 64 && v2 < 64 && v3 < 64 && g == 262144 * v0 + 4096 * v1 + 64 * v2 + v3
    ensures g % 256 == v2 % 4 * 64 + v3
  {
    OctetsAre(v0 * 4 + v1 / 16, v1 % 16 * 16 + v2 / 4, v2 % 4 * 64 + v3);
  }

  lemma Octet2Of(v0: bv8, v1: bv8, v2: bv8, v3: bv8, g: nat)
    requires v0 < 64 && v1 < 64 && v2 < 64 && v3 < 64
    requires g == 262144 * v0 as int + 4096 * v1 as int + 64 * v2 as int + v3 as int
    ensures Octet2(v2, v3) as int == g % 256
  {
    Octet2Is(v2, v3);
    Value2(v0 as int, v1 as int, v2 as int, v3 as int, g);
  }

  lemma OctetsAre(o0: nat, o1: nat, o2: nat)
    requires o0 < 256 && o1 < 256 && o2 < 256
    ensures var g := 65536 * o0 + 256 * o1 + o2;
            g / 65536 == o0 && g / 256 % 256 == o1 && g % 256 == o2
  {
    var g := 65536 * o0 + 256 * o1 + o2;
    QuotientIs(g, 65536, o0, 256 * o1 + o2);
    QuotientIs(g, 256, 256 * o0 + o1, o2);
    QuotientIs(256 * o0 + o1, 256, o0, o1);
  }

  /** The octets of one quantum, by their number. */
  ghost predicate OctetsAt(out: seq<bv8>, g: nat, n: nat) {
    && |out| >= n && (n > 0 ==> out[0] as int == g / 65536) && (n > 1 ==> out[1] as int == g / 256 % 256)
    && (n > 2 ==> out[2] as int == g % 256)
  }

  /** One quantum of any text: three octets for four digits, two or one if it ends in one or two pads, which also ends
      the decoding; anything else ends it with nothing. */
  lemma DecodeQuantum(s: Text)
    requires |s| >= 4
    ensures var out, g, digits := DecodeQuanta(s), Value(s), IsDigit64(s[0]) && IsDigit64(s[1]);
            if digits && IsDigit64(s[2]) && IsDigit64(s[3]) then
              OctetsAt(out, g, 3) && out[3..] == DecodeQuanta(s[4..])
            else if digits && IsDigit64(s[2]) && s[3] == 61 then |out| == 2 && OctetsAt(out, g, 2)
            else if digits && s[2] == 61 && s[3] == 61 then |out| == 1 && OctetsAt(out, g, 1)
            else out == []
  {
    if IsDigit64(s[0]) && IsDigit64(s[1]) {
      var v2 := if IsDigit64(s[2]) then DecodeChar(s[2]) else 0;
      var v3 := if IsDigit64(s[3]) then DecodeChar(s[3]) else 0;
      OctetsOf(DecodeChar(s[0]), DecodeChar(s[1]), v2, v3, Value(s));
    }
  }

  lemma OctetsOf(v0: bv8, v1: bv8, v2: bv8, v3: bv8, g: nat)
    requires v0 < 64 && v1 < 64 && v2 < 64 && v3 < 64
    requires g == 262144 * v0 as int + 4096 * v1 as int + 64 * v2 as int + v3 as int
    ensures Octet0(v0, v1) as int == g / 65536
    ensures Octet1(v1, v2) as int == g / 256 % 256
    ensures Octet2(v2, v3) as int == g % 256
  {
    Octet0Of(v0, v1, v2, v3, g);
    Octet1Of(v0, v1, v2, v3, g);
    Octet2Of(v0, v1, v2, v3, g);
  }
}
