/**
 * License key format of generate_license.py:12-16. A key is "HL-" followed by
 * four groups joined by "-"; each group is `secrets.token_hex(4).upper()`, the
 * eight upper-case hex digits of four random bytes. The random bytes are an
 * input here: sixteen of them, four per group, in the order they are drawn.
 */
module KeyFormat {
  import opened Wrappers

  newtype byte = x: int | 0 <= x < 256

  const LowerHexDigits: string := "0123456789abcdef"
  const UpperHexDigits: string := "0123456789ABCDEF"
  const KeyPrefix: string := "HL-"
  const Separator: string := "-"
  const BytesPerGroup: nat := 4
  const KeyBytes: nat := 16
  /** "HL-", four groups of eight digits and three separators. */
  const KeyLength: nat := 38

  /** The two lower-case hex digits of one byte, high nibble first. */
  function HexPair(v: byte): string {
    [LowerHexDigits[v as int / 16], LowerHexDigits[v as int % 16]]
  }

  /** `secrets.token_hex`: two lower-case hex digits per byte. */
  function TokenHex(b: seq<byte>): (h: string)
    ensures |h| == 2 * |b|
  {
    if b == [] then "" else HexPair(b[0]) + TokenHex(b[1..])
  }

  function UpperChar(c: char): char {
    if 'a' <= c <= 'z' then (c as int - 32) as char else c
  }

  /** `str.upper` on ASCII letters, which is all a hex string holds. */
  function Upper(s: string): (u: string)
    ensures |u| == |s|
    ensures forall i :: 0 <= i < |s| ==> u[i] == UpperChar(s[i])
  {
    if s == "" then "" else [UpperChar(s[0])] + Upper(s[1..])
  }

  /** `sep.join(parts)` */
  function Join(parts: seq<string>, sep: string): string {
    if |parts| == 0 then ""
    else if |parts| == 1 then parts[0]
    else parts[0] + sep + Join(parts[1..], sep)
  }

  /** `secrets.token_hex(4).upper()` applied to bytes drawn for it. */
  function Group(b: seq<byte>): string {
    Upper(TokenHex(b))
  }

  /** The g-th group of a key: the g-th four of the sixteen drawn bytes. */
  function GroupOf(random: seq<byte>, g: nat): string
    requires |random| == KeyBytes && g < 4
  {
    Group(random[BytesPerGroup * g .. BytesPerGroup * g + BytesPerGroup])
  }

  /** `generate_license_key` with its sixteen random bytes made explicit. */
  function GenerateLicenseKey(random: seq<byte>): (k: string)
    requires |random| == KeyBytes
    ensures |k| == KeyLength && KeyPrefix <= k
  {
    var parts := [GroupOf(random, 0), GroupOf(random, 1), GroupOf(random, 2), GroupOf(random, 3)];
    GroupOfDecodes(random, 0);
    GroupOfDecodes(random, 1);
    GroupOfDecodes(random, 2);
    GroupOfDecodes(random, 3);
    JoinFour(parts[0], parts[1], parts[2], parts[3]);
    KeyPrefix + Join(parts, Separator)
  }

  predicate IsUpperHex(c: char) {
    '0' <= c <= '9' || 'A' <= c <= 'F'
  }

  predicate AllUpperHex(t: string) {
    forall i :: 0 <= i < |t| ==> IsUpperHex(t[i])
  }

  function HexValue(c: char): (v: int)
    requires IsUpperHex(c)
    ensures 0 <= v < 16
  {
    if '0' <= c <= '9' then c as int - '0' as int else c as int - 'A' as int + 10
  }

  /** The key's shape, with eight digits per group as token_hex(4) yields. */
  predicate WellFormedKey(s: string) {
    && |s| == KeyLength
    && s[..3] == KeyPrefix
    && s[11] == '-' && s[20] == '-' && s[29] == '-'
    && AllUpperHex(s[3..11]) && AllUpperHex(s[12..20]) && AllUpperHex(s[21..29]) && AllUpperHex(s[30..38])
  }

  /** Reads digit pairs as bytes, high nibble first; a trailing odd digit is ignored. */
  function DecodeHex(t: string): (b: seq<byte>)
    requires AllUpperHex(t)
    ensures 2 * |b| <= |t| < 2 * |b| + 2
  {
    if |t| < 2 then []
    else
      TailHex(t);
      [PairValue(t[0], t[1])] + DecodeHex(t[2..])
  }

  /** The byte two upper-case hex digits spell, high nibble first. */
  function PairValue(hi: char, lo: char): byte
    requires IsUpperHex(hi) && IsUpperHex(lo)
  {
    (HexValue(hi) * 16 + HexValue(lo)) as byte
  }

  lemma TailHex(t: string)
    requires |t| >= 2 && AllUpperHex(t)
    ensures AllUpperHex(t[2..])
  {
    forall i | 0 <= i < |t[2..]| ensures IsUpperHex(t[2..][i]) { assert t[2..][i] == t[i + 2]; }
  }

  /** Reads the sixteen bytes back out of a key; None for anything not of the key's shape. */
  function ParseLicenseKey(s: string): Option<seq<byte>> {
    if !WellFormedKey(s) then None
    else Some(DecodeHex(s[3..11]) + DecodeHex(s[12..20]) + DecodeHex(s[21..29]) + DecodeHex(s[30..38]))
  }

  lemma DigitFacts(d: int)
    requires 0 <= d < 16
    ensures UpperChar(LowerHexDigits[d]) == UpperHexDigits[d]
    ensures IsUpperHex(UpperHexDigits[d]) && HexValue(UpperHexDigits[d]) == d
  {
  }

  lemma CharFacts(c: char)
    requires IsUpperHex(c)
    ensures UpperHexDigits[HexValue(c)] == c
  {
  }

  lemma {:induction false} UpperAppend(a: string, b: string)
    ensures Upper(a + b) == Upper(a) + Upper(b)
  {
    if a == "" {
      assert a + b == b;
    } else {
      assert (a + b)[1..] == a[1..] + b;
      UpperAppend(a[1..], b);
    }
  }

  lemma UpperPair(v: byte)
    ensures Upper(HexPair(v)) == [UpperHexDigits[v as int / 16], UpperHexDigits[v as int % 16]]
  {
    DigitFacts(v as int / 16);
    DigitFacts(v as int % 16);
    var p := HexPair(v);
    assert p[1..][1..] == "";
  }

  lemma GroupCons(b: seq<byte>)
    requires b != []
    ensures Group(b) == Upper(HexPair(b[0])) + Group(b[1..])
  {
    UpperAppend(HexPair(b[0]), TokenHex(b[1..]));
  }

  lemma PairValueOfByte(v: byte)
    ensures IsUpperHex(UpperHexDigits[v as int / 16]) && IsUpperHex(UpperHexDigits[v as int % 16])
    ensures PairValue(UpperHexDigits[v as int / 16], UpperHexDigits[v as int % 16]) == v
  {
    DigitFacts(v as int / 16);
    DigitFacts(v as int % 16);
  }

  lemma GroupConsDigits(b: seq<byte>)
    requires b != []
    ensures var v := b[0] as int;
      Group(b) == [UpperHexDigits[v / 16], UpperHexDigits[v % 16]] + Group(b[1..])
  {
    GroupCons(b);
    UpperPair(b[0]);
  }

  /** A group has two upper-case hex digits per byte. */
  lemma {:induction false} GroupIsHex(b: seq<byte>)
    ensures |Group(b)| == 2 * |b|
    ensures AllUpperHex(Group(b))
  {
    if b != [] {
      var g, rest := Group(b), Group(b[1..]);
      GroupConsDigits(b);
      PairValueOfByte(b[0]);
      GroupIsHex(b[1..]);
      forall i | 0 <= i < |g| ensures IsUpperHex(g[i]) {
        if i >= 2 { assert g[i] == rest[i - 2]; }
      }
    }
  }

  /** Decoding a group gives back the bytes it was made from. */
  lemma {:induction false} GroupDecodes(b: seq<byte>)
    ensures AllUpperHex(Group(b))
    ensures DecodeHex(Group(b)) == b
  {
    GroupIsHex(b);
    if b != [] {
      var g, rest := Group(b), Group(b[1..]);
      GroupConsDigits(b);
      PairValueOfByte(b[0]);
      GroupDecodes(b[1..]);
      assert g[2..] == rest;
      assert DecodeHex(g) == [PairValue(g[0], g[1])] + DecodeHex(rest);
      assert b == [b[0]] + b[1..];
    }
  }

  lemma Nibbles(h0: int, h1: int)
    requires 0 <= h0 < 16 && 0 <= h1 < 16
    ensures (h0 * 16 + h1) / 16 == h0 && (h0 * 16 + h1) % 16 == h1
  {
  }

  lemma PairDecodes(hi: char, lo: char)
    requires IsUpperHex(hi) && IsUpperHex(lo)
    ensures Upper(HexPair(PairValue(hi, lo))) == [hi, lo]
  {
    var h0, h1 := HexValue(hi), HexValue(lo);
    var b := PairValue(hi, lo);
    Nibbles(h0, h1);
    assert b as int / 16 == h0 && b as int % 16 == h1;
    UpperPair(b);
    CharFacts(hi);
    CharFacts(lo);
    assert [UpperHexDigits[h0], UpperHexDigits[h1]] == [hi, lo];
  }

  /** A string of upper-case digit pairs is the group of the bytes it decodes to. */
  lemma {:induction false} DecodeGroups(t: string)
    requires |t| % 2 == 0 && AllUpperHex(t)
    ensures Group(DecodeHex(t)) == t
  {
    if t != "" {
      TailHex(t);
      var b := DecodeHex(t);
      var rest := DecodeHex(t[2..]);
      assert b == [PairValue(t[0], t[1])] + rest;
      DecodeGroups(t[2..]);
      PairDecodes(t[0], t[1]);
      GroupCons(b);
      assert b[1..] == rest;
      assert t == [t[0], t[1]] + t[2..];
    }
  }

  lemma GroupOfDecodes(random: seq<byte>, g: nat)
    requires |random| == KeyBytes && g < 4
    ensures |GroupOf(random, g)| == 8 && AllUpperHex(GroupOf(random, g))
    ensures DecodeHex(GroupOf(random, g)) == random[BytesPerGroup * g .. BytesPerGroup * g + BytesPerGroup]
  {
    GroupIsHex(random[BytesPerGroup * g .. BytesPerGroup * g + BytesPerGroup]);
    GroupDecodes(random[BytesPerGroup * g .. BytesPerGroup * g + BytesPerGroup]);
  }

  lemma JoinFour(a: string, b: string, c: string, d: string)
    ensures Join([a, b, c, d], Separator) == a + "-" + b + "-" + c + "-" + d
  {
    assert [c, d][1..] == [d];
    assert [b, c, d][1..] == [c, d];
    assert [a, b, c, d][1..] == [b, c, d];
    calc {
      Join([a, b, c, d], Separator);
      a + "-" + Join([b, c, d], Separator);
      a + "-" + (b + "-" + Join([c, d], Separator));
      a + "-" + (b + "-" + (c + "-" + Join([d], Separator)));
      a + "-" + (b + "-" + (c + "-" + d));
    }
  }

  /** Where the groups and the dashes sit in a key. */
  lemma KeySlices(s: string, a: string, b: string, c: string, d: string)
    requires |a| == |b| == |c| == |d| == 8
    requires s == KeyPrefix + Join([a, b, c, d], Separator)
    ensures |s| == KeyLength
    ensures s[..3] == KeyPrefix
    ensures s[3..11] == a && s[12..20] == b && s[21..29] == c && s[30..38] == d
    ensures s[11] == '-' && s[20] == '-' && s[29] == '-'
  {
    JoinFour(a, b, c, d);
  }

  /** A well-formed key is the prefix and its four groups joined by dashes. */
  lemma KeyFromSlices(s: string)
    requires WellFormedKey(s)
    ensures s == KeyPrefix + Join([s[3..11], s[12..20], s[21..29], s[30..38]], Separator)
  {
    JoinFour(s[3..11], s[12..20], s[21..29], s[30..38]);
    assert s == s[..3] + s[3..11] + s[11..12] + s[12..20] + s[20..21] + s[21..29] + s[29..30] + s[30..38];
  }

  /** A generated key has the documented shape and is 38 characters long. */
  lemma GeneratedKeyWellFormed(random: seq<byte>)
    requires |random| == KeyBytes
    ensures WellFormedKey(GenerateLicenseKey(random))
    ensures |GenerateLicenseKey(random)| == KeyLength
  {
    GroupOfDecodes(random, 0);
    GroupOfDecodes(random, 1);
    GroupOfDecodes(random, 2);
    GroupOfDecodes(random, 3);
    KeySlices(GenerateLicenseKey(random), GroupOf(random, 0), GroupOf(random, 1), GroupOf(random, 2), GroupOf(random, 3));
  }

  lemma ParseOfSlices(s: string, a: string, b: string, c: string, d: string)
    requires WellFormedKey(s)
    requires s[3..11] == a && s[12..20] == b && s[21..29] == c && s[30..38] == d
    ensures AllUpperHex(a) && AllUpperHex(b) && AllUpperHex(c) && AllUpperHex(d)
    ensures ParseLicenseKey(s) == Some(DecodeHex(a) + DecodeHex(b) + DecodeHex(c) + DecodeHex(d))
  {
  }

  /** Parsing a generated key recovers the random bytes it was made from. */
  lemma ParseGenerated(random: seq<byte>)
    requires |random| == KeyBytes
    ensures ParseLicenseKey(GenerateLicenseKey(random)) == Some(random)
  {
    var k := GenerateLicenseKey(random);
    var g0, g1, g2, g3 := GroupOf(random, 0), GroupOf(random, 1), GroupOf(random, 2), GroupOf(random, 3);
    GeneratedKeyWellFormed(random);
    GroupOfDecodes(random, 0);
    GroupOfDecodes(random, 1);
    GroupOfDecodes(random, 2);
    GroupOfDecodes(random, 3);
    KeySlices(k, g0, g1, g2, g3);
    ParseOfSlices(k, g0, g1, g2, g3);
    assert random == random[0..4] + random[4..8] + random[8..12] + random[12..16];
  }

  /** Every string that parses is exactly the key generated from the bytes it parses to. */
  lemma GeneratedParsed(s: string)
    requires ParseLicenseKey(s).Some?
    ensures |ParseLicenseKey(s).value| == KeyBytes
    ensures GenerateLicenseKey(ParseLicenseKey(s).value) == s
  {
    var t0, t1, t2, t3 := s[3..11], s[12..20], s[21..29], s[30..38];
    var random := ParseLicenseKey(s).value;
    assert random[0..4] == DecodeHex(t0) && random[4..8] == DecodeHex(t1);
    assert random[8..12] == DecodeHex(t2) && random[12..16] == DecodeHex(t3);
    DecodeGroups(t0);
    DecodeGroups(t1);
    DecodeGroups(t2);
    DecodeGroups(t3);
    assert GroupOf(random, 0) == t0 && GroupOf(random, 1) == t1;
    assert GroupOf(random, 2) == t2 && GroupOf(random, 3) == t3;
    KeyFromSlices(s);
  }

  /** Distinct random bytes give distinct keys. */
  lemma GenerateInjective(a: seq<byte>, b: seq<byte>)
    requires |a| == KeyBytes && |b| == KeyBytes
    requires GenerateLicenseKey(a) == GenerateLicenseKey(b)
    ensures a == b
  {
    ParseGenerated(a);
    ParseGenerated(b);
  }
}
