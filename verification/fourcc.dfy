/** Pixel and sample format tags: `NDI_LIB_FOURCC` packs four one-character
    strings into one 32-bit integer, first character in the lowest byte, and
    the twelve `FOURCC_*` constants are built with it (index.js:34-63). */
module FourCC {
  import opened Js
  import opened Optional

  /** `NDI_LIB_FOURCC(ch0, ch1, ch2, ch3)` on the character codes:
      `c0 | (c1 << 8) | (c2 << 16) | (c3 << 24)` with JavaScript's signed 32-bit operators. */
  function PackCodes(c0: Number, c1: Number, c2: Number, c3: Number): (r: Number)
    ensures r.Integer? && -Two31 <= r.value < Two31
  {
    BitOr(BitOr(BitOr(c0, ShiftLeft(c1, 8)), ShiftLeft(c2, 16)), ShiftLeft(c3, 24))
  }

  /** `NDI_LIB_FOURCC(ch0, ch1, ch2, ch3)`: each argument contributes `charCodeAt(0)`. */
  function Pack(ch0: string, ch1: string, ch2: string, ch3: string): (r: Number)
    ensures r.Integer? && -Two31 <= r.value < Two31
  {
    PackCodes(CharCodeAt0(ch0), CharCodeAt0(ch1), CharCodeAt0(ch2), CharCodeAt0(ch3))
  }

  /** Byte i (little-endian) of a natural number. */
  function ByteOf(u: nat, i: nat): (r: nat)
    ensures r < 0x100
  {
    if i == 0 then u % 0x100 else ByteOf(u / 0x100, i - 1)
  }

  /** The decoder: the four byte codes of a packed tag, lowest byte first. */
  function Unpack(n: Number): (nat, nat, nat, nat) {
    var u := ToUint32(n);
    (ByteOf(u, 0), ByteOf(u, 1), ByteOf(u, 2), ByteOf(u, 3))
  }

  /** What a character code contributes to the bit pattern (NaN counts as 0). */
  function Code(c: Number): nat {
    ToUint32(c)
  }

  lemma Pow2Bytes()
    ensures Pow2(8) == 0x100 && Pow2(16) == 0x1_0000 && Pow2(24) == 0x100_0000
  {
    assert Pow2(4) == 16;
    Pow2Add(4, 4);
    Pow2Add(8, 8);
    Pow2Add(16, 8);
  }

  lemma {:induction false} Pow2Add(a: nat, b: nat)
    ensures Pow2(a + b) == Pow2(a) * Pow2(b)
  {
    if a > 0 {
      Pow2Add(a - 1, b);
    }
  }

  /** Shifting a code left keeps its pattern as long as nothing is pushed out. */
  lemma ShiftKeeps(c: Number, k: nat, m: nat)
    requires k < 32 && m == Code(c) * Pow2(k) && m < Two32
    ensures ToUint32(ShiftLeft(c, k)) == m
  {
    assert k % 32 == k;
    assert ShiftLeft(c, k) == Integer(ToInt32(Integer(m)));
    PatternKept(Integer(m));
  }

  /** Or-ing two patterns whose set bits do not overlap adds them. */
  lemma OrAdds(a: Number, b: Number, y: nat, k: nat)
    requires ToUint32(a) < Pow2(k) && ToUint32(b) == y * Pow2(k)
    requires ToUint32(a) + y * Pow2(k) < Two32
    ensures ToUint32(BitOr(a, b)) == ToUint32(a) + ToUint32(b)
  {
    OrDisjoint(ToUint32(a), y, k);
    PatternKept(Integer(Or(ToUint32(a), ToUint32(b))));
  }

  /** For byte-sized codes the packed pattern is the base-256 number whose
      digits, lowest first, are c0 c1 c2 c3. */
  lemma PackPattern(c0: Number, c1: Number, c2: Number, c3: Number)
    requires Code(c0) < 0x100 && Code(c1) < 0x100 && Code(c2) < 0x100 && Code(c3) < 0x100
    ensures ToUint32(PackCodes(c0, c1, c2, c3))
         == Code(c0) + 0x100 * Code(c1) + 0x1_0000 * Code(c2) + 0x100_0000 * Code(c3)
  {
    var x0, x1, x2, x3 := Code(c0), Code(c1), Code(c2), Code(c3);
    Pow2Bytes();
    var s1, s2, s3 := ShiftLeft(c1, 8), ShiftLeft(c2, 16), ShiftLeft(c3, 24);
    ShiftKeeps(c1, 8, 0x100 * x1);
    ShiftKeeps(c2, 16, 0x1_0000 * x2);
    ShiftKeeps(c3, 24, 0x100_0000 * x3);
    var v1 := BitOr(c0, s1);
    OrAdds(c0, s1, x1, 8);
    assert ToUint32(v1) == x0 + 0x100 * x1;
    var v2 := BitOr(v1, s2);
    OrAdds(v1, s2, x2, 16);
    assert ToUint32(v2) == x0 + 0x100 * x1 + 0x1_0000 * x2;
    OrAdds(v2, s3, x3, 24);
  }

  /** The signed result is that number, less 2^32 when c3 reaches 128. */
  lemma PackValue(c0: Number, c1: Number, c2: Number, c3: Number)
    requires Code(c0) < 0x100 && Code(c1) < 0x100 && Code(c2) < 0x100 && Code(c3) < 0x100
    ensures PackCodes(c0, c1, c2, c3).Integer?
    ensures PackCodes(c0, c1, c2, c3).value
         == Code(c0) + 0x100 * Code(c1) + 0x1_0000 * Code(c2) + 0x100_0000 * Code(c3)
            - (if Code(c3) < 0x80 then 0 else Two32)
  {
    PackPattern(c0, c1, c2, c3);
    SignedFromPattern(PackCodes(c0, c1, c2, c3));
  }

  lemma DigitSplit(x: nat, y: nat)
    requires x < 0x100
    ensures (x + 0x100 * y) % 0x100 == x && (x + 0x100 * y) / 0x100 == y
  {
  }

  /** Round trip: decoding the four bytes of a packed tag gives back the four
      codes, whenever each code is below 256. */
  lemma RoundTrip(c0: Number, c1: Number, c2: Number, c3: Number)
    requires Code(c0) < 0x100 && Code(c1) < 0x100 && Code(c2) < 0x100 && Code(c3) < 0x100
    ensures Unpack(PackCodes(c0, c1, c2, c3)) == (Code(c0), Code(c1), Code(c2), Code(c3))
  {
    PackPattern(c0, c1, c2, c3);
    DigitsDecode(Code(c0), Code(c1), Code(c2), Code(c3));
  }

  /** The bytes of a four-digit base-256 number are its digits. */
  lemma DigitsDecode(x0: nat, x1: nat, x2: nat, x3: nat)
    requires x0 < 0x100 && x1 < 0x100 && x2 < 0x100 && x3 < 0x100
    ensures var u := x0 + 0x100 * x1 + 0x1_0000 * x2 + 0x100_0000 * x3;
      ByteOf(u, 0) == x0 && ByteOf(u, 1) == x1 && ByteOf(u, 2) == x2 && ByteOf(u, 3) == x3
  {
    var w2 := x2 + 0x100 * x3;
    var w1 := x1 + 0x100 * w2;
    assert x0 + 0x100 * w1 == x0 + 0x100 * x1 + 0x1_0000 * x2 + 0x100_0000 * x3;
    ByteOfDigits(x0, w1, 0);
    ByteOfDigits(x0, w1, 1);
    ByteOfDigits(x0, w1, 2);
    ByteOfDigits(x1, w2, 0);
    ByteOfDigits(x1, w2, 1);
    ByteOfDigits(x2, x3, 0);
    assert ByteOf(x3, 0) == x3;
  }

  /** Byte 0 of x + 256 y is x, and byte i + 1 is byte i of y. */
  lemma ByteOfDigits(x: nat, y: nat, i: nat)
    requires x < 0x100
    ensures ByteOf(x + 0x100 * y, 0) == x
    ensures ByteOf(x + 0x100 * y, i + 1) == ByteOf(y, i)
  {
    DigitSplit(x, y);
  }

  /** Packing is injective on byte-sized codes. */
  lemma Injective(a0: Number, a1: Number, a2: Number, a3: Number,
                  b0: Number, b1: Number, b2: Number, b3: Number)
    requires Code(a0) < 0x100 && Code(a1) < 0x100 && Code(a2) < 0x100 && Code(a3) < 0x100
    requires Code(b0) < 0x100 && Code(b1) < 0x100 && Code(b2) < 0x100 && Code(b3) < 0x100
    requires PackCodes(a0, a1, a2, a3) == PackCodes(b0, b1, b2, b3)
    ensures Code(a0) == Code(b0) && Code(a1) == Code(b1) && Code(a2) == Code(b2) && Code(a3) == Code(b3)
  {
    RoundTrip(a0, a1, a2, a3);
    RoundTrip(b0, b1, b2, b3);
  }

  /** The same two facts for `NDI_LIB_FOURCC` called, as the table does, with
      one-character strings whose codes are below 256. */
  lemma CharsRoundTrip(ch0: char, ch1: char, ch2: char, ch3: char)
    requires (ch0 as int) < 0x100 && (ch1 as int) < 0x100 && (ch2 as int) < 0x100 && (ch3 as int) < 0x100
    ensures Unpack(Pack([ch0], [ch1], [ch2], [ch3])) == (ch0 as int, ch1 as int, ch2 as int, ch3 as int)
  {
    RoundTrip(CharCodeAt0([ch0]), CharCodeAt0([ch1]), CharCodeAt0([ch2]), CharCodeAt0([ch3]));
  }

  lemma CharsInjective(a0: char, a1: char, a2: char, a3: char, b0: char, b1: char, b2: char, b3: char)
    requires (a0 as int) < 0x100 && (a1 as int) < 0x100 && (a2 as int) < 0x100 && (a3 as int) < 0x100
    requires (b0 as int) < 0x100 && (b1 as int) < 0x100 && (b2 as int) < 0x100 && (b3 as int) < 0x100
    requires Pack([a0], [a1], [a2], [a3]) == Pack([b0], [b1], [b2], [b3])
    ensures a0 == b0 && a1 == b1 && a2 == b2 && a3 == b3
  {
    CharsRoundTrip(a0, a1, a2, a3);
    CharsRoundTrip(b0, b1, b2, b3);
  }

  /** Beyond one byte the codes overlap: a first character with code 256
      packs like a second character with code 1. */
  lemma WideCodesCollide()
    ensures Pack("\U{100}", "", "", "") == Pack("", "\U{1}", "", "")
    ensures Unpack(Pack("\U{100}", "", "", "")) != (0x100, 0, 0, 0)
  {
    Pow2Bytes();
    var zero := Integer(0);
    assert ShiftLeft(NaN, 8) == zero && ShiftLeft(NaN, 16) == zero && ShiftLeft(NaN, 24) == zero;
    assert ShiftLeft(Integer(1), 8) == Integer(0x100);
    assert Or(0x100, 0) == 0x100 && Or(0, 0x100) == 0x100;
    var left := BitOr(Integer(0x100), zero);
    assert left == Integer(0x100);
    assert BitOr(NaN, Integer(0x100)) == left;
    assert BitOr(left, zero) == left;
  }

  /** A last character from 128 to 255 sets the sign bit: whatever byte-sized
      characters come first, the tag is negative. */
  lemma HighLastCharacterIsNegative(ch0: char, ch1: char, ch2: char, ch3: char)
    requires (ch0 as int) < 0x100 && (ch1 as int) < 0x100 && (ch2 as int) < 0x100
    requires 0x80 <= ch3 as int < 0x100
    ensures Pack([ch0], [ch1], [ch2], [ch3]).value < 0
  {
    PackValue(CharCodeAt0([ch0]), CharCodeAt0([ch1]), CharCodeAt0([ch2]), CharCodeAt0([ch3]));
  }

  /** The pixel and sample formats of the `FourCC` table (index.js:50-63). */
  datatype Tag = UYVY | UYVA | P216 | PA16 | YV12 | I420 | NV12 | BGRA | BGRX | RGBA | RGBX | FLTp

  const AllTags: seq<Tag> := [UYVY, UYVA, P216, PA16, YV12, I420, NV12, BGRA, BGRX, RGBA, RGBX, FLTp]

  /** The field name of a tag, which is also the four characters it packs. */
  function Name(t: Tag): string {
    match t
    case UYVY => "UYVY" case UYVA => "UYVA" case P216 => "P216" case PA16 => "PA16"
    case YV12 => "YV12" case I420 => "I420" case NV12 => "NV12" case BGRA => "BGRA"
    case BGRX => "BGRX" case RGBA => "RGBA" case RGBX => "RGBX" case FLTp => "FLTp"
  }

  /** The `FOURCC_*` constants (index.js:37-48). */
  function Value(t: Tag): (r: Number)
    ensures r.Integer? && -Two31 <= r.value < Two31
  {
    match t
    case UYVY => Pack("U", "Y", "V", "Y")
    case UYVA => Pack("U", "Y", "V", "A")
    case P216 => Pack("P", "2", "1", "6")
    case PA16 => Pack("P", "A", "1", "6")
    case YV12 => Pack("Y", "V", "1", "2")
    case I420 => Pack("I", "4", "2", "0")
    case NV12 => Pack("N", "V", "1", "2")
    case BGRA => Pack("B", "G", "R", "A")
    case BGRX => Pack("B", "G", "R", "X")
    case RGBA => Pack("R", "G", "B", "A")
    case RGBX => Pack("R", "G", "B", "X")
    case FLTp => Pack("F", "L", "T", "p")
  }

  /** Each constant packs the characters of its own name. */
  lemma ValueSpellsName(t: Tag)
    ensures |Name(t)| == 4
    ensures forall i :: 0 <= i < 4 ==> (Name(t)[i] as int) < 0x80
    ensures Value(t) == Pack([Name(t)[0]], [Name(t)[1]], [Name(t)[2]], [Name(t)[3]])
  {
  }

  /** The ASCII codes of a name. */
  function Codes(s: string): (nat, nat, nat, nat)
    requires |s| == 4
  {
    (s[0] as int, s[1] as int, s[2] as int, s[3] as int)
  }

  /** The number whose base-256 digits, lowest first, are the codes of s. */
  function Spelled(s: string): nat
    requires |s| == 4
  {
    s[0] as int + 0x100 * (s[1] as int) + 0x1_0000 * (s[2] as int) + 0x100_0000 * (s[3] as int)
  }

  /** Every constant decodes to the characters of its name and is non-negative,
      because every last character is ASCII. */
  lemma {:induction false} ValueDecodes(t: Tag)
    ensures |Name(t)| == 4
    ensures Value(t).Integer? && Value(t).value >= 0
    ensures Unpack(Value(t)) == Codes(Name(t))
    ensures Value(t).value == ToUint32(Value(t)) == Spelled(Name(t))
  {
    ValueSpellsName(t);
    var s := Name(t);
    var c0, c1, c2, c3 := CharCodeAt0([s[0]]), CharCodeAt0([s[1]]), CharCodeAt0([s[2]]), CharCodeAt0([s[3]]);
    PackValue(c0, c1, c2, c3);
    RoundTrip(c0, c1, c2, c3);
  }

  /** The twelve constants are pairwise distinct. */
  lemma {:induction false} ValuesDistinct(t: Tag, u: Tag)
    requires t != u
    ensures Value(t) != Value(u)
  {
    ValueDecodes(t);
    ValueDecodes(u);
  }

  /** The twelve constants as hexadecimal numbers. */
  function Hex(t: Tag): nat {
    match t
    case UYVY => 0x59565955 case UYVA => 0x41565955 case P216 => 0x36313250
    case PA16 => 0x36314150 case YV12 => 0x32315659 case I420 => 0x30323449
    case NV12 => 0x3231564E case BGRA => 0x41524742 case BGRX => 0x58524742
    case RGBA => 0x41424752 case RGBX => 0x58424752 case FLTp => 0x70544C46
  }

  lemma {:induction false} ValueTable(t: Tag)
    ensures Value(t) == Integer(Hex(t))
  {
    ValueDecodes(t);
    assert Spelled(Name(t)) == Hex(t);
  }

  /** The inverse of Value: the tag whose constant is n, if any. */
  function FromValue(n: int): (r: Option<Tag>)
    ensures r.Some? ==> Value(r.value) == Integer(n)
  {
    FindTag(AllTags, n)
  }

  function FindTag(ts: seq<Tag>, n: int): (r: Option<Tag>)
    ensures r.Some? ==> r.value in ts && Value(r.value) == Integer(n)
    ensures r.None? ==> forall t :: t in ts ==> Value(t) != Integer(n)
  {
    if ts == [] then None
    else if Value(ts[0]) == Integer(n) then Some(ts[0])
    else FindTag(ts[1..], n)
  }

  lemma {:induction false} FindTagFinds(ts: seq<Tag>, t: Tag)
    requires t in ts
    ensures Value(t).Integer? && FindTag(ts, Value(t).value) == Some(t)
  {
    ValueDecodes(t);
    if ts[0] != t {
      ValuesDistinct(ts[0], t);
      FindTagFinds(ts[1..], t);
    }
  }

  /** Decoding a constant gives back its tag. */
  lemma {:induction false} FromValueOfValue(t: Tag)
    ensures Value(t).Integer? && FromValue(Value(t).value) == Some(t)
  {
    assert t in AllTags;
    FindTagFinds(AllTags, t);
  }
}
