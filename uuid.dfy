/** The fallback path of `uuid()`: sixteen random bytes are stamped with the
    version-4 and variant bits of section 4.4 of RFC 4122 and written out as
    lower-case hexadecimal in the 8-4-4-4-12 layout. */
module Uuid {

  const HexDigits: string := "0123456789abcdef"

  /** `n.toString(16).padStart(2, '0')` for a byte. */
  function ByteHex(b: bv8): string {
    var n := b as int;
    [HexDigits[n / 16], HexDigits[n % 16]]
  }

  /** `Array.from(bytes, toHex).join('')` */
  function Hex(bs: seq<bv8>): string
    decreases |bs|
  {
    if bs == [] then "" else Hex(bs[..|bs| - 1]) + ByteHex(bs[|bs| - 1])
  }

  /** The bytes after `bytes[6]` and `bytes[8]` are masked. */
  function Masked(r: seq<bv8>): seq<bv8>
    requires |r| == 16
  {
    r[6 := (r[6] & 0x0f) | 0x40][8 := (r[8] & 0x3f) | 0x80]
  }

  /** The 8-4-4-4-12 grouping of 32 hexadecimal digits. */
  function Layout(hex: string): string
    requires |hex| == 32
  {
    hex[..8] + "-" + hex[8..12] + "-" + hex[12..16] + "-" + hex[16..20] + "-" + hex[20..]
  }

  /** The fallback identifier for the random bytes `r`. */
  function UuidOf(r: seq<bv8>): string
    requires |r| == 16
  {
    HexLength(Masked(r));
    Layout(Hex(Masked(r)))
  }

  predicate DashAt(i: int) {
    i == 8 || i == 13 || i == 18 || i == 23
  }

  /** Shape of a version-4, variant-1 identifier in lower-case text. */
  predicate IsUuidV4(id: string) {
    && |id| == 36
    && (forall i :: 0 <= i < 36 && DashAt(i) ==> id[i] == '-')
    && (forall i :: 0 <= i < 36 && !DashAt(i) ==> id[i] in HexDigits)
    && id[14] == '4'
    && id[19] in "89ab"
  }

  /** The value of a lower-case hexadecimal digit. */
  function DigitValue(c: char): (v: nat)
    ensures v < 16
  {
    if '0' <= c <= '9' then (c - '0') as nat
    else if 'a' <= c <= 'f' then (c - 'a') as nat + 10
    else 0
  }

  /** Reads hexadecimal text back as bytes, two digits per byte. */
  function Unhex(h: string): seq<bv8>
    decreases |h|
  {
    if |h| < 2 then []
    else Unhex(h[..|h| - 2]) + [PairValue(h[|h| - 2], h[|h| - 1])]
  }

  /** The byte two hexadecimal digits spell, high digit first. */
  function PairValue(high: char, low: char): bv8 {
    (16 * DigitValue(high) + DigitValue(low)) as bv8
  }

  /** The text with its dashes removed. */
  function Undash(s: string): string
    decreases |s|
  {
    if s == [] then [] else (if s[0] == '-' then [] else [s[0]]) + Undash(s[1..])
  }

  /** Reads an identifier back as the sixteen bytes it was made from. */
  function ParseUuid(id: string): seq<bv8> {
    Unhex(Undash(id))
  }

  /** `bytes[6] = (bytes[6] & 0x0f) | 0x40; bytes[8] = (bytes[8] & 0x3f) | 0x80;` */
  method StampVersion(bytes: array<bv8>)
    requires bytes.Length == 16
    modifies bytes
    ensures bytes[..] == Masked(old(bytes[..]))
  {
    bytes[6] := (bytes[6] & 0x0f) | 0x40;
    bytes[8] := (bytes[8] & 0x3f) | 0x80;
  }

  /** `Array.from(bytes, toHex).join('')` over the array. */
  method HexText(bytes: array<bv8>) returns (hex: string)
    ensures hex == Hex(bytes[..])
  {
    hex := "";
    for i := 0 to bytes.Length
      invariant hex == Hex(bytes[..i])
    {
      assert bytes[..i + 1][..i] == bytes[..i];
      hex := hex + ByteHex(bytes[i]);
    }
    assert bytes[..bytes.Length] == bytes[..];
  }

  /** `uuid()` when `Crypto.randomUUID` is missing, with the bytes of
      `Crypto.getRandomBytes(16)` passed in. */
  method UuidFallback(random: seq<bv8>) returns (id: string)
    requires |random| == 16
    ensures id == UuidOf(random)
    ensures IsUuidV4(id)
    ensures ParseUuid(id) == Masked(random)
  {
    var bytes := new bv8[16](i requires 0 <= i < 16 => random[i]);
    assert bytes[..] == random;
    StampVersion(bytes);
    var hex := HexText(bytes);
    HexLength(bytes[..]);
    id := hex[..8] + "-" + hex[8..12] + "-" + hex[12..16] + "-" + hex[16..20] + "-" + hex[20..];
    UuidShape(random);
    UuidRoundTrip(random);
  }

  /** Masking sets the version nibble of byte 6 to 4 and the two top bits of
      byte 8 to 10, and keeps every other bit. */
  lemma MaskedSpec(r: seq<bv8>)
    requires |r| == 16
    ensures |Masked(r)| == 16
    ensures forall i :: 0 <= i < 16 && i != 6 && i != 8 ==> Masked(r)[i] == r[i]
    ensures Masked(r)[6] >> 4 == 4 && Masked(r)[6] & 0x0f == r[6] & 0x0f
    ensures Masked(r)[8] >> 6 == 2 && Masked(r)[8] & 0x3f == r[8] & 0x3f
  {
  }

  lemma HighNibble(b: bv8)
    ensures (b >> 4) as int == b as int / 16
  {
  }

  /** The high hexadecimal digit of byte 6 is 4, that of byte 8 one of 8 to 11. */
  lemma MaskedDigits(r: seq<bv8>)
    requires |r| == 16
    ensures Masked(r)[6] as int / 16 == 4
    ensures 8 <= Masked(r)[8] as int / 16 <= 11
  {
    var a, b := Masked(r)[6], Masked(r)[8];
    assert a >> 4 == 4;
    assert 8 <= b >> 4 <= 11;
    HighNibble(a);
    HighNibble(b);
  }

  lemma {:induction false} HexLength(bs: seq<bv8>)
    ensures |Hex(bs)| == 2 * |bs|
    decreases |bs|
  {
    if bs != [] {
      HexLength(bs[..|bs| - 1]);
    }
  }

  /** Each byte becomes two digits, high digit first, in byte order. */
  lemma {:induction false} HexSpec(bs: seq<bv8>)
    ensures |Hex(bs)| == 2 * |bs|
    ensures forall i :: 0 <= i < |bs| ==> Hex(bs)[2 * i] == HexDigits[bs[i] as int / 16]
    ensures forall i :: 0 <= i < |bs| ==> Hex(bs)[2 * i + 1] == HexDigits[bs[i] as int % 16]
    decreases |bs|
  {
    if bs != [] {
      var init, last := bs[..|bs| - 1], bs[|bs| - 1];
      HexSpec(init);
      var h0, pair := Hex(init), ByteHex(last);
      assert Hex(bs) == h0 + pair;
      forall i | 0 <= i < |bs|
        ensures Hex(bs)[2 * i] == HexDigits[bs[i] as int / 16]
        ensures Hex(bs)[2 * i + 1] == HexDigits[bs[i] as int % 16]
      {
        if i < |init| {
          assert bs[i] == init[i];
          assert (h0 + pair)[2 * i] == h0[2 * i] && (h0 + pair)[2 * i + 1] == h0[2 * i + 1];
        } else {
          assert (h0 + pair)[2 * i] == pair[0] && (h0 + pair)[2 * i + 1] == pair[1];
        }
      }
    }
  }

  lemma DigitValueOfDigit(k: int)
    requires 0 <= k < 16
    ensures DigitValue(HexDigits[k]) == k
  {
  }

  lemma ByteOfDigits(b: bv8, hi: int, lo: int)
    requires hi == b as int / 16 && lo == b as int % 16
    ensures (16 * hi + lo) as bv8 == b
  {
    assert 16 * hi + lo == b as int;
  }

  /** The two digits of a byte read back as that byte. */
  lemma ByteHexRoundTrip(b: bv8)
    ensures PairValue(ByteHex(b)[0], ByteHex(b)[1]) == b
  {
    var hi, lo := b as int / 16, b as int % 16;
    DigitValueOfDigit(hi);
    DigitValueOfDigit(lo);
    ByteOfDigits(b, hi, lo);
  }

  /** Reading the digits back gives the bytes. */
  lemma {:induction false} UnhexHex(bs: seq<bv8>)
    ensures Unhex(Hex(bs)) == bs
    decreases |bs|
  {
    if bs != [] {
      var init, last := bs[..|bs| - 1], bs[|bs| - 1];
      assert bs == init + [last];
      var h0, pair := Hex(init), ByteHex(last);
      assert Hex(bs) == h0 + pair;
      UnhexHex(init);
      ByteHexRoundTrip(last);
      UnhexStep(h0, pair);
    }
  }

  /** Appending two digits appends the byte they spell. */
  lemma UnhexStep(h: string, pair: string)
    requires |pair| == 2
    ensures Unhex(h + pair) == Unhex(h) + [PairValue(pair[0], pair[1])]
  {
    var s := h + pair;
    assert s[..|s| - 2] == h;
    assert s[|s| - 2] == pair[0] && s[|s| - 1] == pair[1];
  }

  lemma {:induction false} UndashConcat(a: string, b: string)
    ensures Undash(a + b) == Undash(a) + Undash(b)
    decreases |a|
  {
    if a != [] {
      assert (a + b)[0] == a[0];
      assert (a + b)[1..] == a[1..] + b;
      UndashConcat(a[1..], b);
    } else {
      assert a + b == b;
    }
  }

  predicate NoDash(s: string) {
    forall i :: 0 <= i < |s| ==> s[i] != '-'
  }

  lemma {:induction false} UndashPlain(s: string)
    requires NoDash(s)
    ensures Undash(s) == s
    decreases |s|
  {
    if s != [] {
      assert s[0] != '-';
      UndashPlain(s[1..]);
    }
  }

  /** Appending a dash and a run without dashes adds just that run. */
  lemma UndashJoin(a: string, b: string)
    requires NoDash(b)
    ensures Undash(a + "-" + b) == Undash(a) + b
  {
    var d := "-";
    assert Undash(d) == [];
    UndashConcat(a + d, b);
    UndashConcat(a, d);
    UndashPlain(b);
  }

  lemma {:induction false} HexDigitsOnly(bs: seq<bv8>)
    ensures forall i :: 0 <= i < |Hex(bs)| ==> Hex(bs)[i] in HexDigits
  {
    HexSpec(bs);
    forall i | 0 <= i < |Hex(bs)|
      ensures Hex(bs)[i] in HexDigits
    {
      var j := i / 2;
      if i % 2 == 0 {
        assert Hex(bs)[2 * j] == HexDigits[bs[j] as int / 16];
      } else {
        assert Hex(bs)[2 * j + 1] == HexDigits[bs[j] as int % 16];
      }
    }
  }

  /** Where each digit of the layout comes from. */
  function DigitIndex(i: int): int {
    if i < 8 then i else if i < 13 then i - 1 else if i < 18 then i - 2 else if i < 23 then i - 3 else i - 4
  }

  /** The layout has 36 characters: dashes at 8, 13, 18 and 23, and the
      digits in order everywhere else. */
  lemma LayoutSpec(h: string)
    requires |h| == 32
    ensures |Layout(h)| == 36
    ensures forall i :: 0 <= i < 36 && DashAt(i) ==> Layout(h)[i] == '-'
    ensures forall i :: 0 <= i < 36 && !DashAt(i) ==> Layout(h)[i] == h[DigitIndex(i)]
  {
    var s1 := h[..8] + "-";
    var s2 := s1 + h[8..12] + "-";
    var s3 := s2 + h[12..16] + "-";
    var s4 := s3 + h[16..20] + "-";
    var s := s4 + h[20..];
    assert s == Layout(h);
    assert forall i :: 0 <= i < 9 ==> s1[i] == (if i == 8 then '-' else h[i]);
    assert forall i :: 0 <= i < 14 ==> s2[i] == (if i == 13 then '-' else if i < 9 then s1[i] else h[i - 1]);
    assert forall i :: 0 <= i < 19 ==> s3[i] == (if i == 18 then '-' else if i < 14 then s2[i] else h[i - 2]);
    assert forall i :: 0 <= i < 24 ==> s4[i] == (if i == 23 then '-' else if i < 19 then s3[i] else h[i - 3]);
    assert forall i :: 0 <= i < 36 ==> s[i] == (if i < 24 then s4[i] else h[i - 4]);
  }

  /** Removing the dashes of the layout gives back the digits. */
  lemma UndashLayout(h: string)
    requires |h| == 32 && NoDash(h)
    ensures Undash(Layout(h)) == h
  {
    var p1, p2, p3, p4, p5 := h[..8], h[8..12], h[12..16], h[16..20], h[20..];
    assert NoDash(p1) && NoDash(p2) && NoDash(p3) && NoDash(p4) && NoDash(p5);
    var s2 := p1 + "-" + p2;
    var s3 := s2 + "-" + p3;
    var s4 := s3 + "-" + p4;
    var s5 := s4 + "-" + p5;
    UndashPlain(p1);
    UndashJoin(p1, p2);
    UndashJoin(s2, p3);
    UndashJoin(s3, p4);
    UndashJoin(s4, p5);
    assert s5 == Layout(h);
    assert p1 + p2 + p3 + p4 + p5 == h;
  }

  /** Removing the dashes and reading the digits back recovers the masked
      bytes: distinct masked byte strings give distinct identifiers. */
  lemma UuidRoundTrip(r: seq<bv8>)
    requires |r| == 16
    ensures ParseUuid(UuidOf(r)) == Masked(r)
  {
    var h := Hex(Masked(r));
    HexLength(Masked(r));
    HexDigitsOnly(Masked(r));
    assert '-' !in HexDigits;
    assert NoDash(h);
    UndashLayout(h);
    UnhexHex(Masked(r));
  }

  /** Outside the dash positions, the layout of hexadecimal digits holds only
      hexadecimal digits. */
  lemma LayoutDigits(h: string)
    requires |h| == 32
    requires forall i :: 0 <= i < 32 ==> h[i] in HexDigits
    ensures forall i :: 0 <= i < 36 && !DashAt(i) ==> Layout(h)[i] in HexDigits
  {
    LayoutSpec(h);
    forall i | 0 <= i < 36 && !DashAt(i)
      ensures Layout(h)[i] in HexDigits
    {
      assert Layout(h)[i] == h[DigitIndex(i)];
    }
  }

  /** Every fallback identifier is a lower-case version-4, variant-1 UUID. */
  lemma UuidShape(r: seq<bv8>)
    requires |r| == 16
    ensures IsUuidV4(UuidOf(r))
  {
    var m := Masked(r);
    var h := Hex(m);
    HexSpec(m);
    HexDigitsOnly(m);
    LayoutSpec(h);
    LayoutDigits(h);
    MaskedDigits(r);
    assert Layout(h)[14] == h[2 * 6] == HexDigits[4];
    var v := m[8] as int / 16;
    assert Layout(h)[19] == h[2 * 8] == HexDigits[v];
    assert v == 8 || v == 9 || v == 10 || v == 11;
  }
}
