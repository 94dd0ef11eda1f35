/** The padded base64url codec (libtarget.js), with the alphabet of RFC 4648, section 5, and
    the grouping and padding of section 4. Each char stands for one UTF-16 code unit. */
module Base64Url {
  import opened Common

  type Byte = bv8

  const UPPER1 := "ABCDEFGHIJKLM"
  const UPPER2 := "NOPQRSTUVWXYZ"
  const LOWER1 := "abcdefghijklm"
  const LOWER2 := "nopqrstuvwxyz"
  const REST := "0123456789-_"
  const CHARS := UPPER1 + UPPER2 + LOWER1 + LOWER2 + REST
  const PAD := '='

  // ---- Sextets and characters

  predicate InAlphabet(c: char) {
    'A' <= c <= 'Z' || 'a' <= c <= 'z' || '0' <= c <= '9' || c == '-' || c == '_'
  }

  /** The position of a character in the alphabet; 0 for any other character. */
  function Position(c: char): (r: nat)
    ensures r < 64
  {
    if 'A' <= c <= 'Z' then c as int - 'A' as int
    else if 'a' <= c <= 'z' then c as int - 'a' as int + 26
    else if '0' <= c <= '9' then c as int - '0' as int + 52
    else if c == '-' then 62
    else if c == '_' then 63
    else 0
  }

  lemma PositionOfLetter(i: nat)
    requires i < 39
    ensures |CHARS| == 64 && InAlphabet(CHARS[i]) && Position(CHARS[i]) == i
  {
    if i < 13 {
      assert CHARS[i] == UPPER1[i];
    } else if i < 26 {
      assert CHARS[i] == UPPER2[i - 13];
    } else {
      assert CHARS[i] == LOWER1[i - 26];
    }
  }

  lemma PositionOfOther(i: nat)
    requires 39 <= i < 64
    ensures |CHARS| == 64 && InAlphabet(CHARS[i]) && Position(CHARS[i]) == i
  {
    if i < 52 {
      assert CHARS[i] == LOWER2[i - 39];
    } else {
      assert CHARS[i] == REST[i - 52];
    }
  }

  lemma PositionOfChar(i: nat)
    requires i < 64
    ensures |CHARS| == 64 && InAlphabet(CHARS[i]) && Position(CHARS[i]) == i
  {
    if i < 39 { PositionOfLetter(i); } else { PositionOfOther(i); }
  }

  function Lookup(c: char): Byte {
    Position(c) as Byte
  }

  lemma SamePosition(c: char, d: char)
    requires InAlphabet(c) && InAlphabet(d) && Position(c) == Position(d)
    ensures c == d
  {}

  lemma NextByte(i: nat)
    requires i < 63 && (i as Byte) as int == i
    ensures (i + 1) as Byte == (i as Byte) + 1
  {}

  lemma NextInt(x: Byte)
    requires x < 63
    ensures (x + 1) as int == x as int + 1
  {}

  lemma {:induction false} RoundTripInt(i: nat)
    requires i < 64
    ensures (i as Byte) as int == i && (i as Byte) < 64
  {
    if i > 0 {
      RoundTripInt(i - 1);
      NextByte(i - 1);
      SmallInts((i - 1) as Byte);
      NextInt((i - 1) as Byte);
      SmallInts(i as Byte);
    }
  }

  lemma SmallInts(x: Byte)
    ensures x < 63 <==> (x as int) < 63
    ensures x < 64 <==> (x as int) < 64
  {}

  lemma LookupOfChar(x: Byte)
    requires x < 64
    ensures |CHARS| == 64 && (x as int) < 64 && InAlphabet(CHARS[x as int]) && Lookup(CHARS[x as int]) == x
  {
    SmallInts(x);
    PositionOfChar(x as int);
  }

  lemma CharOfLookup(c: char)
    requires InAlphabet(c)
    ensures |CHARS| == 64 && Lookup(c) < 64 && (Lookup(c) as int) < 64 && CHARS[Lookup(c) as int] == c
  {
    RoundTripInt(Position(c));
    PositionOfChar(Position(c));
    SamePosition(c, CHARS[Position(c)]);
  }

  function CharFor(x: Byte): char
    requires x < 64
  {
    LookupOfChar(x);
    CHARS[x as int]
  }

  lemma LookupOfCharFor(x: Byte)
    requires x < 64
    ensures InAlphabet(CharFor(x)) && Lookup(CharFor(x)) == x
  {
    LookupOfChar(x);
  }

  // ---- The bits: sextets packed into bytes and back

  /** A read past the end counts as 0. */
  function At(b: seq<Byte>, i: nat): Byte {
    if i < |b| then b[i] else 0
  }

  /** The three bytes of a group of four values. */
  function Byte0(v: seq<Byte>, g: nat): Byte {
    (At(v, 4 * g) << 2) | (At(v, 4 * g + 1) >> 4)
  }

  function Byte1(v: seq<Byte>, g: nat): Byte {
    ((At(v, 4 * g + 1) & 15) << 4) | (At(v, 4 * g + 2) >> 2)
  }

  function Byte2(v: seq<Byte>, g: nat): Byte {
    ((At(v, 4 * g + 2) & 3) << 6) | (At(v, 4 * g + 3) & 63)
  }

  function PackedByte(v: seq<Byte>, k: nat): Byte {
    if k % 3 == 0 then Byte0(v, k / 3) else if k % 3 == 1 then Byte1(v, k / 3) else Byte2(v, k / 3)
  }

  function Packed(v: seq<Byte>, n: nat): seq<Byte> {
    seq(n, k requires 0 <= k => PackedByte(v, k))
  }

  /** The four sextets of a group of three bytes. */
  function Sextet0(b: seq<Byte>, g: nat): (x: Byte)
    ensures x < 64
  {
    At(b, 3 * g) >> 2
  }

  function Sextet1(b: seq<Byte>, g: nat): (x: Byte)
    ensures x < 64
  {
    ((At(b, 3 * g) & 3) << 4) | (At(b, 3 * g + 1) >> 4)
  }

  function Sextet2(b: seq<Byte>, g: nat): (x: Byte)
    ensures x < 64
  {
    ((At(b, 3 * g + 1) & 15) << 2) | (At(b, 3 * g + 2) >> 6)
  }

  function Sextet3(b: seq<Byte>, g: nat): (x: Byte)
    ensures x < 64
  {
    At(b, 3 * g + 2) & 63
  }

  function Sextet(b: seq<Byte>, k: nat): (x: Byte)
    ensures x < 64
  {
    if k % 4 == 0 then Sextet0(b, k / 4)
    else if k % 4 == 1 then Sextet1(b, k / 4)
    else if k % 4 == 2 then Sextet2(b, k / 4)
    else Sextet3(b, k / 4)
  }

  function Sextets(b: seq<Byte>, groups: nat): (v: seq<Byte>)
    ensures |v| == 4 * groups && AllSextets(v)
  {
    seq(4 * groups, k requires 0 <= k => Sextet(b, k))
  }

  predicate AllSextets(v: seq<Byte>) {
    forall k :: 0 <= k < |v| ==> v[k] < 64
  }

  lemma FirstByte(a: Byte, b: Byte)
    ensures ((a >> 2) << 2) | ((((a & 3) << 4) | (b >> 4)) >> 4) == a
  {}

  lemma SecondByte(a: Byte, b: Byte, c: Byte)
    ensures (((((a & 3) << 4) | (b >> 4)) & 15) << 4) | ((((b & 15) << 2) | (c >> 6)) >> 2) == b
  {}

  lemma ThirdByte(b: Byte, c: Byte)
    ensures (((((b & 15) << 2) | (c >> 6)) & 3) << 6) | ((c & 63) & 63) == c
  {}

  lemma FirstSextet(v: Byte, w: Byte, d: Byte)
    requires v < 64 && w < 64 && d == (v << 2) | (w >> 4)
    ensures d >> 2 == v
  {}

  lemma SecondSextet(v: Byte, w: Byte, x: Byte, d: Byte, e: Byte)
    requires v < 64 && w < 64 && x < 64 && d == (v << 2) | (w >> 4)
    requires e == ((w & 15) << 4) | (x >> 2) || (e == 0 && w & 15 == 0)
    ensures ((d & 3) << 4) | (e >> 4) == w
  {}

  lemma ThirdSextet(w: Byte, x: Byte, y: Byte, d: Byte, e: Byte)
    requires w < 64 && x < 64 && y < 64 && d == ((w & 15) << 4) | (x >> 2)
    requires e == ((x & 3) << 6) | (y & 63) || (e == 0 && x & 3 == 0)
    ensures ((d & 15) << 2) | (e >> 6) == x
  {}

  lemma FourthSextet(x: Byte, y: Byte, d: Byte)
    requires y < 64 && d == ((x & 3) << 6) | (y & 63)
    ensures d & 63 == y
  {}

  lemma TrailingBits(a: Byte, e: Byte)
    requires e == 0
    ensures (((a & 15) << 2) | (e >> 6)) & 3 == 0
    ensures (((a & 3) << 4) | (e >> 4)) & 15 == 0
  {}

  lemma GroupSextets(b: seq<Byte>, g: nat)
    ensures Sextet(b, 4 * g) == Sextet0(b, g) && Sextet(b, 4 * g + 1) == Sextet1(b, g)
    ensures Sextet(b, 4 * g + 2) == Sextet2(b, g) && Sextet(b, 4 * g + 3) == Sextet3(b, g)
  {
    assert (4 * g) / 4 == g && (4 * g + 1) / 4 == g && (4 * g + 2) / 4 == g && (4 * g + 3) / 4 == g;
  }

  lemma GroupBytes(v: seq<Byte>, g: nat)
    ensures PackedByte(v, 3 * g) == Byte0(v, g)
    ensures PackedByte(v, 3 * g + 1) == Byte1(v, g)
    ensures PackedByte(v, 3 * g + 2) == Byte2(v, g)
  {
    assert (3 * g) / 3 == g && (3 * g + 1) / 3 == g && (3 * g + 2) / 3 == g;
  }

  /** The values carry the sextets of a group as far as byte r of it needs. */
  predicate Carries(v: seq<Byte>, b: seq<Byte>, g: nat) {
    && At(v, 4 * g) == Sextet0(b, g)
    && At(v, 4 * g + 1) == Sextet1(b, g)
    && (3 * g + 1 < |b| ==> At(v, 4 * g + 2) == Sextet2(b, g))
    && (3 * g + 2 < |b| ==> At(v, 4 * g + 3) == Sextet3(b, g))
  }

  lemma CarriedBytes(v: seq<Byte>, b: seq<Byte>, g: nat)
    requires Carries(v, b, g)
    ensures Byte0(v, g) == At(b, 3 * g)
    ensures 3 * g + 1 < |b| ==> Byte1(v, g) == At(b, 3 * g + 1)
    ensures 3 * g + 2 < |b| ==> Byte2(v, g) == At(b, 3 * g + 2)
  {
    FirstByte(At(b, 3 * g), At(b, 3 * g + 1));
    SecondByte(At(b, 3 * g), At(b, 3 * g + 1), At(b, 3 * g + 2));
    ThirdByte(At(b, 3 * g + 1), At(b, 3 * g + 2));
  }

  /** The characters that are not padding. */
  function Used(n: nat): nat {
    4 * (n / 3) + if n % 3 == 0 then 0 else n % 3 + 1
  }

  function Groups(n: nat): nat {
    n / 3 + if n % 3 == 0 then 0 else 1
  }

  lemma GroupsRoundUp(n: nat)
    ensures Groups(n) == (n + 2) / 3
  {}

  lemma UsedOfGroups(n: nat)
    ensures 4 * Groups(n) - Used(n) == if n % 3 == 0 then 0 else 3 - n % 3
  {}

  lemma UsedInGroup(n: nat, g: nat)
    requires 3 * g < n
    ensures 4 * g + 1 < Used(n)
    ensures 3 * g + 1 < n ==> 4 * g + 2 < Used(n)
    ensures 3 * g + 2 < n ==> 4 * g + 3 < Used(n)
  {}

  /** Packing the sextets of some bytes gives the bytes back. */
  lemma PackedOfSextets(v: seq<Byte>, b: seq<Byte>)
    requires Used(|b|) <= |v| && forall k :: 0 <= k < Used(|b|) ==> v[k] == Sextet(b, k)
    ensures Packed(v, |b|) == b
  {
    forall k | 0 <= k < |b| ensures PackedByte(v, k) == b[k] {
      var g := k / 3;
      UsedInGroup(|b|, g);
      GroupSextets(b, g);
      assert Carries(v, b, g);
      CarriedBytes(v, b, g);
    }
  }

  /** The last p sextets are missing and the bits past the last byte are zero. */
  predicate CleanEnd(v: seq<Byte>, p: nat) {
    && |v| % 4 == 0 && p <= 2 && p <= |v|
    && (p == 1 ==> v[|v| - 2] & 3 == 0)
    && (p == 2 && |v| > 2 ==> v[|v| - 3] & 15 == 0)
  }

  /** The bytes hold a group of values, as far as there are n bytes. */
  predicate Holds(b: seq<Byte>, n: nat, v: seq<Byte>, g: nat) {
    && At(b, 3 * g) == (if 3 * g < n then Byte0(v, g) else 0)
    && At(b, 3 * g + 1) == (if 3 * g + 1 < n then Byte1(v, g) else 0)
    && At(b, 3 * g + 2) == (if 3 * g + 2 < n then Byte2(v, g) else 0)
  }

  lemma PackedHolds(v: seq<Byte>, n: nat, g: nat)
    ensures Holds(Packed(v, n), n, v, g)
  {
    GroupBytes(v, g);
  }

  lemma HeldFirst(b: seq<Byte>, n: nat, v: seq<Byte>, g: nat)
    requires AllSextets(v) && Holds(b, n, v, g) && 3 * g < n
    ensures Sextet0(b, g) == At(v, 4 * g)
  {
    FirstSextet(At(v, 4 * g), At(v, 4 * g + 1), At(b, 3 * g));
  }

  lemma HeldSecond(b: seq<Byte>, n: nat, v: seq<Byte>, g: nat)
    requires AllSextets(v) && Holds(b, n, v, g) && 3 * g < n
    requires 3 * g + 1 >= n ==> At(v, 4 * g + 1) & 15 == 0
    ensures Sextet1(b, g) == At(v, 4 * g + 1)
  {
    SecondSextet(At(v, 4 * g), At(v, 4 * g + 1), At(v, 4 * g + 2), At(b, 3 * g), At(b, 3 * g + 1));
  }

  lemma HeldThird(b: seq<Byte>, n: nat, v: seq<Byte>, g: nat)
    requires AllSextets(v) && Holds(b, n, v, g) && 3 * g + 1 < n
    requires 3 * g + 2 >= n ==> At(v, 4 * g + 2) & 3 == 0
    ensures Sextet2(b, g) == At(v, 4 * g + 2)
  {
    ThirdSextet(At(v, 4 * g + 1), At(v, 4 * g + 2), At(v, 4 * g + 3), At(b, 3 * g + 1), At(b, 3 * g + 2));
  }

  lemma HeldFourth(b: seq<Byte>, n: nat, v: seq<Byte>, g: nat)
    requires AllSextets(v) && Holds(b, n, v, g) && 3 * g + 2 < n
    ensures Sextet3(b, g) == At(v, 4 * g + 3)
  {
    FourthSextet(At(v, 4 * g + 2), At(v, 4 * g + 3), At(b, 3 * g + 2));
  }

  /** Where the group ends, the bits past the last byte are zero. */
  lemma CleanGroup(v: seq<Byte>, p: nat, g: nat)
    requires CleanEnd(v, p) && 4 * g < |v| - p
    ensures var n := 3 * (|v| / 4) - p;
            && 3 * g < n
            && (3 * g + 1 >= n ==> At(v, 4 * g + 1) & 15 == 0)
            && (3 * g + 2 >= n > 3 * g + 1 ==> At(v, 4 * g + 2) & 3 == 0)
            && (4 * g + 2 < |v| - p ==> 3 * g + 1 < n)
            && (4 * g + 3 < |v| - p ==> 3 * g + 2 < n)
  {
    if g + 1 == |v| / 4 { assert |v| == 4 * g + 4; }
  }

  /** Cutting packed sextets gives the sextets back, unless bits were lost at the end. */
  lemma SextetOfPacked(v: seq<Byte>, p: nat, k: nat)
    requires AllSextets(v) && CleanEnd(v, p) && k < |v| - p
    ensures p <= 3 * (|v| / 4) && Sextet(Packed(v, 3 * (|v| / 4) - p), k) == v[k]
  {
    var g, n := k / 4, 3 * (|v| / 4) - p;
    CleanGroup(v, p, g);
    SextetOfHeld(Packed(v, n), n, v, p, k);
  }

  lemma SextetOfHeld(b: seq<Byte>, n: nat, v: seq<Byte>, p: nat, k: nat)
    requires AllSextets(v) && CleanEnd(v, p) && k < |v| - p && n == 3 * (|v| / 4) - p
    requires b == Packed(v, n)
    ensures Sextet(b, k) == v[k]
  {
    var g := k / 4;
    CleanGroup(v, p, g);
    PackedHolds(v, n, g);
    if k % 4 == 0 {
      HeldFirst(b, n, v, g);
    } else if k % 4 == 1 {
      HeldSecond(b, n, v, g);
    } else if k % 4 == 2 {
      HeldThird(b, n, v, g);
    } else {
      HeldFourth(b, n, v, g);
    }
  }

  // ---- The characters

  function Values(s: string): (v: seq<Byte>)
    ensures |v| == |s|
    ensures AllSextets(v)
  {
    forall k | 0 <= k < |s| ensures Lookup(s[k]) < 64 { SmallLookup(s[k]); }
    seq(|s|, i requires 0 <= i < |s| => Lookup(s[i]))
  }

  lemma SmallLookup(c: char)
    ensures Lookup(c) < 64
  {
    RoundTripInt(Position(c));
  }

  function Chars(v: seq<Byte>): (s: string)
    requires AllSextets(v)
    ensures |s| == |v| && forall k :: 0 <= k < |s| ==> InAlphabet(s[k])
  {
    forall k | 0 <= k < |v| ensures InAlphabet(CharFor(v[k])) { LookupOfCharFor(v[k]); }
    seq(|v|, i requires 0 <= i < |v| => CharFor(v[i]))
  }

  lemma ValuesOfChars(v: seq<Byte>)
    requires AllSextets(v)
    ensures Values(Chars(v)) == v
  {
    forall k | 0 <= k < |v| ensures Lookup(Chars(v)[k]) == v[k] { LookupOfCharFor(v[k]); }
  }

  lemma CharsConcat(v: seq<Byte>, w: seq<Byte>)
    requires AllSextets(v) && AllSextets(w)
    ensures AllSextets(v + w) && Chars(v + w) == Chars(v) + Chars(w)
  {}

  lemma CharsOfFour(v: Byte, w: Byte, x: Byte, y: Byte)
    requires v < 64 && w < 64 && x < 64 && y < 64
    ensures AllSextets([v, w, x, y])
    ensures Chars([v, w, x, y]) == [CharFor(v), CharFor(w), CharFor(x), CharFor(y)]
  {}

  lemma CharForLookup(c: char)
    requires InAlphabet(c)
    ensures Lookup(c) < 64 && CharFor(Lookup(c)) == c
  {
    CharOfLookup(c);
  }

  // ---- The codec

  function PadCount(s: string): (p: nat)
    ensures p <= 2 && p <= |s|
  {
    if |s| == 0 || s[|s| - 1] != PAD then 0
    else if |s| == 1 || s[|s| - 2] != PAD then 1
    else 2
  }

  /** Three bytes for four characters, less the padding, rounded towards 0. */
  function BufferLength(s: string): nat {
    var n := 3 * |s| / 4 - PadCount(s);
    if n < 0 then 0 else n
  }

  function Decode(s: string): seq<Byte> {
    Packed(Values(s), BufferLength(s))
  }

  function Padding(n: nat): string {
    if n % 3 == 0 then "" else if n % 3 == 2 then [PAD] else [PAD, PAD]
  }

  /** Three bytes to four characters, padded to whole groups. */
  function Encode(b: seq<Byte>): string {
    UsedOfGroups(|b|);
    Chars(Sextets(b, Groups(|b|)))[..Used(|b|)] + Padding(|b|)
  }

  lemma EncodeChars(b: seq<Byte>)
    ensures |Encode(b)| == 4 * Groups(|b|) && PadCount(Encode(b)) == |Padding(|b|)|
    ensures |Encode(b)| == Used(|b|) + PadCount(Encode(b))
    ensures forall k :: 0 <= k < Used(|b|) ==> InAlphabet(Encode(b)[k])
  {
    UsedOfGroups(|b|);
    var t, u := Chars(Sextets(b, Groups(|b|))), Used(|b|);
    assert forall k :: 0 <= k < u ==> Encode(b)[k] == t[k];
    assert !InAlphabet(PAD);
    PadCountOf(t[..u], Padding(|b|));
  }

  lemma PadCountOf(t: string, pads: string)
    requires forall k :: 0 <= k < |t| ==> t[k] != PAD
    requires pads == [] || pads == [PAD] || pads == [PAD, PAD]
    ensures PadCount(t + pads) == |pads|
  {}

  lemma ValuesOfEncoded(b: seq<Byte>, k: nat)
    requires k < Used(|b|)
    ensures k < |Encode(b)| && Values(Encode(b))[k] == Sextet(b, k)
  {
    var v := Sextets(b, Groups(|b|));
    UsedOfGroups(|b|);
    ValuesOfChars(v);
    assert Encode(b)[k] == Chars(v)[k];
    assert Values(Encode(b))[k] == Values(Chars(v))[k];
  }

  /** Decoding the encoding of any bytes returns them. */
  lemma DecodeOfEncode(b: seq<Byte>)
    ensures Decode(Encode(b)) == b
  {
    EncodeChars(b);
    UsedOfGroups(|b|);
    assert BufferLength(Encode(b)) == |b|;
    forall k | 0 <= k < Used(|b|) ensures Values(Encode(b))[k] == Sextet(b, k) { ValuesOfEncoded(b, k); }
    PackedOfSextets(Values(Encode(b)), b);
  }

  /** Whole groups of alphabet characters, at most two pads at the end, zero trailing bits. */
  predicate Canonical(s: string) {
    && CleanEnd(Values(s), PadCount(s))
    && forall i :: 0 <= i < |s| - PadCount(s) ==> InAlphabet(s[i])
  }

  lemma LastSextet(b: seq<Byte>)
    requires |b| % 3 != 0
    ensures |b| % 3 == 2 ==> Sextet(b, Used(|b|) - 1) & 3 == 0
    ensures |b| % 3 == 1 ==> Sextet(b, Used(|b|) - 1) & 15 == 0
  {
    var g := |b| / 3;
    GroupSextets(b, g);
    if |b| % 3 == 2 {
      assert Used(|b|) - 1 == 4 * g + 2;
      TrailingBits(At(b, 3 * g + 1), At(b, 3 * g + 2));
    } else {
      assert Used(|b|) - 1 == 4 * g + 1;
      TrailingBits(At(b, 3 * g), At(b, 3 * g + 1));
    }
  }

  lemma UsedBounds(n: nat)
    ensures Used(n) <= 4 * Groups(n) <= Used(n) + 2
    ensures n % 3 != 0 ==> 0 < Used(n)
    ensures 4 * Groups(n) - Used(n) == |Padding(n)|
  {
    UsedOfGroups(n);
  }

  lemma CleanWhenLastIs(v: seq<Byte>, u: nat, p: nat, x: Byte)
    requires |v| % 4 == 0 && p <= 2 && u + p == |v|
    requires p > 0 ==> u > 0 && v[u - 1] == x
    requires p == 1 ==> x & 3 == 0
    requires p == 2 ==> x & 15 == 0
    ensures CleanEnd(v, p)
  {}

  lemma EndIsClean(v: seq<Byte>, b: seq<Byte>, u: nat, p: nat)
    requires |v| % 4 == 0 && u + p == |v| && p == |Padding(|b|)|
    requires p > 0 ==> u > 0 && Used(|b|) > 0 && v[u - 1] == Sextet(b, Used(|b|) - 1)
    ensures CleanEnd(v, p)
  {
    if p > 0 {
      LastSextet(b);
      CleanWhenLastIs(v, u, p, v[u - 1]);
    } else {
      CleanWhenLastIs(v, u, p, 0);
    }
  }

  lemma EncodeLength(b: seq<Byte>)
    ensures |Values(Encode(b))| == |Encode(b)| == 4 * Groups(|b|) && |Encode(b)| % 4 == 0
  {
    UsedOfGroups(|b|);
  }

  lemma EncodedEndIsClean(b: seq<Byte>)
    ensures CleanEnd(Values(Encode(b)), |Padding(|b|)|)
  {
    EncodeLength(b);
    UsedBounds(|b|);
    if |Padding(|b|)| > 0 { ValuesOfEncoded(b, Used(|b|) - 1); }
    EndIsClean(Values(Encode(b)), b, Used(|b|), |Padding(|b|)|);
  }

  /** The encoder writes whole groups, alphabet characters and final padding. */
  lemma EncodeIsCanonical(b: seq<Byte>)
    ensures |Encode(b)| == 4 * ((|b| + 2) / 3)
    ensures Canonical(Encode(b))
  {
    EncodeChars(b);
    EncodedEndIsClean(b);
    GroupsRoundUp(|b|);
  }

  lemma LengthOfGroups(m: nat, p: nat)
    requires p <= 2 && (p > 0 ==> m > 0)
    ensures Groups(3 * m - p) == m && Used(3 * m - p) == 4 * m - p
    ensures |Padding(3 * m - p)| == p
  {
    if p == 1 {
      assert (3 * m - 1) % 3 == 2;
    } else if p == 2 {
      assert (3 * m - 2) % 3 == 1;
    }
  }

  lemma BytesOfGroups(s: string, m: nat)
    requires |s| == 4 * m
    ensures BufferLength(s) == 3 * m - PadCount(s)
  {}

  lemma LengthOfDecoded(s: string)
    requires Canonical(s)
    ensures var n := |Decode(s)|;
            && n == 3 * (|s| / 4) - PadCount(s)
            && Groups(n) == |s| / 4 && Used(n) == |s| - PadCount(s) && |Padding(n)| == PadCount(s)
  {
    var m := |s| / 4;
    assert |s| == 4 * m;
    BytesOfGroups(s, m);
    LengthOfGroups(m, PadCount(s));
  }

  lemma CharOfDecoded(s: string, k: nat)
    requires Canonical(s) && k < |s| - PadCount(s)
    ensures CharFor(Sextet(Decode(s), k)) == s[k]
  {
    LengthOfDecoded(s);
    SextetOfPacked(Values(s), PadCount(s), k);
    CharForLookup(s[k]);
  }

  lemma PadBack(s: string, t: string, u: nat, pads: string)
    requires u == |s| - PadCount(s) && u <= |t| && forall k :: 0 <= k < u ==> t[k] == s[k]
    requires pads == if PadCount(s) == 0 then "" else if PadCount(s) == 1 then [PAD] else [PAD, PAD]
    ensures t[..u] + pads == s
  {}

  lemma EncodeOfPacked(s: string)
    requires Canonical(s)
    ensures Encode(Decode(s)) == s
  {
    var b := Decode(s);
    var t, u := Chars(Sextets(b, Groups(|b|))), |s| - PadCount(s);
    LengthOfDecoded(s);
    forall k | 0 <= k < u ensures t[k] == s[k] { CharOfDecoded(s, k); }
    PadBack(s, t, u, Padding(|b|));
  }

  /** Encoding the decoding of a string returns it exactly when the string is canonical. */
  lemma EncodeOfDecodeIff(s: string)
    ensures Encode(Decode(s)) == s <==> Canonical(s)
  {
    if Canonical(s) { EncodeOfPacked(s); }
    EncodeIsCanonical(Decode(s));
  }

  /** A character outside the alphabet is silently read as `A`. */
  lemma InvalidReadsAsA(s: string, t: string)
    requires |s| == |t| && PadCount(s) == PadCount(t)
    requires forall i :: 0 <= i < |s| ==> t[i] == if InAlphabet(s[i]) then s[i] else 'A'
    ensures Decode(s) == Decode(t)
  {
    assert Values(s) == Values(t);
  }

  /** The string with `A` for each character outside the alphabet, continued with `A` to whole
      groups. */
  function Continued(s: string): string {
    seq(4 * ((|s| + 3) / 4), i requires 0 <= i => if i < |s| && InAlphabet(s[i]) then s[i] else 'A')
  }

  lemma ContinuedIsCanonical(s: string)
    ensures Canonical(Continued(s)) && PadCount(Continued(s)) == 0
  {
    var t := Continued(s);
    assert !InAlphabet(PAD) && InAlphabet('A');
    if |t| > 0 { assert InAlphabet(t[|t| - 1]); }
    WholeGroups((|s| + 3) / 4);
  }

  lemma WholeGroups(groups: nat)
    ensures 4 * groups % 4 == 0
  {}

  lemma ValueOfContinued(s: string, i: nat)
    ensures At(Values(s), i) == At(Values(Continued(s)), i)
  {
    LookupOfA();
    if i < |s| { LookupOutside(s[i]); }
  }

  lemma LookupOfA()
    ensures Lookup('A') == 0
  {}

  lemma LookupOutside(c: char)
    ensures !InAlphabet(c) ==> Lookup(c) == 0
  {}

  lemma SamePacked(v: seq<Byte>, w: seq<Byte>, k: nat)
    requires forall i: nat :: At(v, i) == At(w, i)
    ensures PackedByte(v, k) == PackedByte(w, k)
  {
    var g := k / 3;
    assert At(v, 4 * g) == At(w, 4 * g) && At(v, 4 * g + 1) == At(w, 4 * g + 1);
    assert At(v, 4 * g + 2) == At(w, 4 * g + 2) && At(v, 4 * g + 3) == At(w, 4 * g + 3);
  }

  /** Any string at all, whatever its length and characters, decodes to the first bytes of what
      the continued string decodes to. */
  lemma DecodeReadsOn(s: string)
    ensures Decode(s) <= Decode(Continued(s))
  {
    var v, w := Values(s), Values(Continued(s));
    ContinuedIsCanonical(s);
    forall i: nat ensures At(v, i) == At(w, i) { ValueOfContinued(s, i); }
    forall k | 0 <= k < BufferLength(s) ensures PackedByte(v, k) == PackedByte(w, k) { SamePacked(v, w, k); }
    EnoughBytes(s);
  }

  lemma EnoughBytes(s: string)
    ensures BufferLength(s) <= 3 * ((|s| + 3) / 4) && |Decode(s)| == BufferLength(s)
    ensures PadCount(Continued(s)) == 0 ==> |Decode(Continued(s))| == 3 * ((|s| + 3) / 4)
  {
    BytesOfGroups(Continued(s), (|s| + 3) / 4);
  }

  predicate Accepted(s: string) {
    forall i :: 0 <= i < |s| ==> InAlphabet(s[i]) || s[i] == PAD
  }

  /** bytes_from_base64url refuses such strings; None stands for its exception. */
  function BytesFromBase64Url(s: string): Option<seq<Byte>> {
    if Accepted(s) then Some(Decode(s)) else None
  }

  lemma AcceptedConcat(t: string, pads: string)
    requires Accepted(t) && Accepted(pads)
    ensures Accepted(t + pads)
  {}

  lemma PaddingAccepted(n: nat)
    ensures Accepted(Padding(n))
  {}

  lemma WrapperRoundTrip(b: seq<Byte>)
    ensures BytesFromBase64Url(Encode(b)) == Some(b)
  {
    var t := Chars(Sextets(b, Groups(|b|)));
    UsedOfGroups(|b|);
    assert Accepted(t[..Used(|b|)]);
    PaddingAccepted(|b|);
    AcceptedConcat(t[..Used(|b|)], Padding(|b|));
    DecodeOfEncode(b);
  }

  // ---- The loops

  function CharCode(c: char): nat { c as nat }

  /** What the table holds at j when the first i characters are in it. */
  function Entry(j: nat, i: nat): Byte
    requires j < 256
  {
    if InAlphabet(j as char) && Position(j as char) < i then Lookup(j as char) else 0
  }

  ghost predicate Filled(table: seq<Byte>, i: nat) {
    |table| == 256 && forall j :: 0 <= j < 256 ==> table[j] == Entry(j, i)
  }

  lemma EntryStep(j: nat, i: nat)
    requires j < 256 && i < 64
    ensures |CHARS| == 64 && CharCode(CHARS[i]) < 256
    ensures Entry(j, i + 1) == if j == CharCode(CHARS[i]) then i as Byte else Entry(j, i)
  {
    PositionOfChar(i);
    if InAlphabet(j as char) && Position(j as char) == i { SamePosition(j as char, CHARS[i]); }
  }

  lemma FilledStep(table: seq<Byte>, i: nat)
    requires i < 64 && Filled(table, i)
    ensures |CHARS| == 64 && CharCode(CHARS[i]) < 256
    ensures Filled(table[CharCode(CHARS[i]) := i as Byte], i + 1)
  {
    EntryStep(0, i);
    var after := table[CharCode(CHARS[i]) := i as Byte];
    forall j | 0 <= j < 256 ensures after[j] == Entry(j, i + 1) { EntryStep(j, i); }
  }

  method LookupTable() returns (lookup: array<Byte>)
    ensures fresh(lookup) && Filled(lookup[..], 64)
  {
    lookup := new Byte[256](_ => 0);
    var i := 0;
    while i < |CHARS|
      invariant 0 <= i <= |CHARS| == 64
      invariant Filled(lookup[..], i)
    {
      FilledStep(lookup[..], i);
      lookup[CharCode(CHARS[i])] := i as Byte;
      i := i + 1;
    }
  }

  /** A read that may be out of range of the table or the string. */
  function Read(table: seq<Byte>, s: string, i: nat): Byte {
    if i < |s| && CharCode(s[i]) < |table| then table[CharCode(s[i])] else 0
  }

  lemma ReadIsValue(table: seq<Byte>, s: string, i: nat)
    requires Filled(table, 64)
    ensures Read(table, s, i) == At(Values(s), i)
  {
    if i < |s| && CharCode(s[i]) < 256 { assert Entry(CharCode(s[i]), 64) == Lookup(s[i]); }
  }

  /** The three writes of a group. */
  ghost predicate GroupWritten(before: seq<Byte>, after: seq<Byte>, p: nat, x: Byte, y: Byte, z: Byte) {
    |before| == |after|
    && forall k :: 0 <= k < |after| ==>
         after[k] == if k == p then x else if k == p + 1 then y else if k == p + 2 then z else before[k]
  }

  /** Typed-array writes from p on; those past the end are dropped. */
  method WriteGroup(bytes: array<Byte>, p: nat, x: Byte, y: Byte, z: Byte)
    modifies bytes
    ensures GroupWritten(old(bytes[..]), bytes[..], p, x, y, z)
  {
    if p < bytes.Length { bytes[p] := x; }
    if p + 1 < bytes.Length { bytes[p + 1] := y; }
    if p + 2 < bytes.Length { bytes[p + 2] := z; }
  }

  /** new ArrayBuffer truncates the length towards 0. */
  method Allocate(base64: string) returns (bytes: array<Byte>)
    ensures fresh(bytes) && bytes.Length == BufferLength(base64)
  {
    var len := |base64|;
    var bufferLength := len as real * 0.75;
    if len > 0 && base64[len - 1] == PAD {
      bufferLength := bufferLength - 1.0;
      if len > 1 && base64[len - 2] == PAD {
        bufferLength := bufferLength - 1.0;
      }
    }
    assert bufferLength > -1.0;
    bytes := new Byte[if bufferLength < 0.0 then 0 else bufferLength.Floor];
  }

  /** The first p bytes, as far as the array reaches, are packed. */
  ghost predicate PackedUpTo(v: seq<Byte>, bytes: seq<Byte>, p: nat) {
    forall k :: 0 <= k < p && k < |bytes| ==> bytes[k] == PackedByte(v, k)
  }

  lemma PackedStep(v: seq<Byte>, before: seq<Byte>, after: seq<Byte>, g: nat)
    requires PackedUpTo(v, before, 3 * g)
    requires GroupWritten(before, after, 3 * g, Byte0(v, g), Byte1(v, g), Byte2(v, g))
    ensures PackedUpTo(v, after, 3 * g + 3)
  {
    forall k | 0 <= k < 3 * g + 3 && k < |after| ensures after[k] == PackedByte(v, k) {
      if k >= 3 * g { GroupBytes(v, g); }
    }
  }

  /** What the table gives for the characters of a group. */
  ghost predicate ReadsGroup(table: seq<Byte>, s: string, v: seq<Byte>, g: nat) {
    && Read(table, s, 4 * g) == At(v, 4 * g) && Read(table, s, 4 * g + 1) == At(v, 4 * g + 1)
    && Read(table, s, 4 * g + 2) == At(v, 4 * g + 2) && Read(table, s, 4 * g + 3) == At(v, 4 * g + 3)
  }

  lemma TableReadsGroup(table: seq<Byte>, s: string, g: nat)
    requires Filled(table, 64)
    ensures ReadsGroup(table, s, Values(s), g)
  {
    ReadIsValue(table, s, 4 * g);
    ReadIsValue(table, s, 4 * g + 1);
    ReadIsValue(table, s, 4 * g + 2);
    ReadIsValue(table, s, 4 * g + 3);
  }

  /** Four characters to three bytes. */
  method DecodeGroup(table: seq<Byte>, base64: string, i: nat, ghost v: seq<Byte>, ghost g: nat)
    returns (x: Byte, y: Byte, z: Byte)
    requires i == 4 * g && ReadsGroup(table, base64, v, g)
    ensures x == Byte0(v, g) && y == Byte1(v, g) && z == Byte2(v, g)
  {
    var encoded1, encoded2 := Read(table, base64, i), Read(table, base64, i + 1);
    var encoded3, encoded4 := Read(table, base64, i + 2), Read(table, base64, i + 3);
    x := (encoded1 << 2) | (encoded2 >> 4);
    y := ((encoded2 & 15) << 4) | (encoded3 >> 2);
    z := ((encoded3 & 3) << 6) | (encoded4 & 63);
  }

  method FromPaddedB64Url(base64: string) returns (bytes: array<Byte>)
    ensures bytes[..] == Decode(base64)
  {
    var lookup := LookupTable();
    bytes := Allocate(base64);
    var len, table := |base64|, lookup[..];
    ghost var g, v := 0, Values(base64);
    var i, p := 0, 0;
    while i < len
      invariant i == 4 * g && p == 3 * g && i <= len + 3
      invariant bytes.Length == BufferLength(base64) && PackedUpTo(v, bytes[..], p)
    {
      ghost var before := bytes[..];
      TableReadsGroup(table, base64, g);
      var x, y, z := DecodeGroup(table, base64, i, v, g);
      WriteGroup(bytes, p, x, y, z);
      PackedStep(v, before, bytes[..], g);
      g := g + 1;
      p := p + 3;
      i := i + 4;
    }
  }

  lemma CharsStep(b: seq<Byte>, g: nat)
    ensures Chars(Sextets(b, g + 1))
         == Chars(Sextets(b, g))
            + [CharFor(Sextet0(b, g)), CharFor(Sextet1(b, g)), CharFor(Sextet2(b, g)), CharFor(Sextet3(b, g))]
  {
    SextetsStep(b, g);
    CharsConcat(Sextets(b, g), [Sextet0(b, g), Sextet1(b, g), Sextet2(b, g), Sextet3(b, g)]);
    CharsOfFour(Sextet0(b, g), Sextet1(b, g), Sextet2(b, g), Sextet3(b, g));
  }

  lemma SextetsStep(b: seq<Byte>, g: nat)
    ensures AllSextets([Sextet0(b, g), Sextet1(b, g), Sextet2(b, g), Sextet3(b, g)])
    ensures Sextets(b, g + 1) == Sextets(b, g) + [Sextet0(b, g), Sextet1(b, g), Sextet2(b, g), Sextet3(b, g)]
  {
    GroupSextets(b, g);
  }

  /** With r bytes missing in the last group. */
  lemma LastGroup(n: nat, g: nat, r: nat)
    requires r < 3 && n + r == 3 * g
    ensures Groups(n) == g
  {}

  /** Three bytes to four characters. */
  method EncodeGroup(b: seq<Byte>, i: nat, ghost g: nat) returns (c0: char, c1: char, c2: char, c3: char)
    requires i == 3 * g
    ensures c0 == CharFor(Sextet0(b, g)) && c1 == CharFor(Sextet1(b, g))
    ensures c2 == CharFor(Sextet2(b, g)) && c3 == CharFor(Sextet3(b, g))
  {
    c0 := CharFor(At(b, i) >> 2);
    c1 := CharFor(((At(b, i) & 3) << 4) | (At(b, i + 1) >> 4));
    c2 := CharFor(((At(b, i + 1) & 15) << 2) | (At(b, i + 2) >> 6));
    c3 := CharFor(At(b, i + 2) & 63);
  }

  method EncodeGroups(b: seq<Byte>) returns (base64: string)
    ensures base64 == Chars(Sextets(b, Groups(|b|)))
  {
    var i, len := 0, |b|;
    ghost var g := 0;
    base64 := "";
    while i < len
      invariant i == 3 * g && i < len + 3 && base64 == Chars(Sextets(b, g))
    {
      ghost var before := base64;
      var c0, c1, c2, c3 := EncodeGroup(b, i, g);
      base64 := base64 + [c0];
      base64 := base64 + [c1];
      base64 := base64 + [c2];
      base64 := base64 + [c3];
      assert base64 == before + [c0, c1, c2, c3];
      CharsStep(b, g);
      i := i + 3;
      g := g + 1;
    }
    LastGroup(len, g, i - len);
  }

  /** The text with its last characters replaced, for r bytes in the last group. */
  function Padded(t: string, r: nat): string
    requires r < 3 && (r > 0 ==> |t| >= 2)
  {
    if r == 2 then t[..|t| - 1] + [PAD] else if r == 1 then t[..|t| - 2] + [PAD, PAD] else t
  }

  lemma PaddedAt(t: string, r: nat, u: nat, pads: string)
    requires r < 3 && |t| == u + if r == 0 then 0 else 3 - r
    requires r > 0 ==> |t| >= 2
    requires pads == if r == 0 then "" else if r == 2 then [PAD] else [PAD, PAD]
    ensures Padded(t, r) == t[..u] + pads
  {}

  lemma PaddedText(b: seq<Byte>)
    ensures var t := Chars(Sextets(b, Groups(|b|)));
            (|b| % 3 > 0 ==> |t| >= 2) && Encode(b) == Padded(t, |b| % 3)
  {
    var t := Chars(Sextets(b, Groups(|b|)));
    UsedOfGroups(|b|);
    EnoughText(|b|);
    PaddedAt(t, |b| % 3, Used(|b|), Padding(|b|));
  }

  lemma EnoughText(n: nat)
    ensures n > 0 ==> 4 * Groups(n) >= 4
  {}

  /** Padding replaces the characters that stand for missing bytes. */
  method ToPaddedB64Url(bytes: array<Byte>) returns (base64: string)
    ensures base64 == Encode(bytes[..])
  {
    var len, b := bytes.Length, bytes[..];
    base64 := EncodeGroups(b);
    PaddedText(b);
    if len % 3 == 2 {
      base64 := base64[..|base64| - 1] + [PAD];
    } else if len % 3 == 1 {
      base64 := base64[..|base64| - 2] + [PAD, PAD];
    }
  }
}
