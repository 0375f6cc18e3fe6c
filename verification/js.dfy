/** The few pieces of JavaScript semantics that the binding layer relies on:
    UTF-16 code units, `charCodeAt(0)`, the ToInt32/ToUint32 conversions and the
    32-bit `<<` and `|` operators (section 7.1.6, 7.1.7 and 13.9/13.12 of
    ECMA-262). Numbers that matter here are integers or NaN; no other
    floating-point value reaches these operators. */
module Js {

  const Two32: int := 0x1_0000_0000
  const Two31: int := 0x8000_0000

  /** A JavaScript number as far as the bitwise operators can tell: NaN or an integer. */
  datatype Number = NaN | Integer(value: int)

  /** The TypeErrors this layer can raise. */
  datatype TypeErrorReason =
    | ReduceOfEmptyArray     // `[].reduce(f)` with no initial value
    | ReadPropertyOfNullish  // `args[0].groups` when args[0] is undefined or null
    | NotAFunction           // calling a value that is not callable

  datatype JsError = TypeError(reason: TypeErrorReason)

  /** How a JavaScript evaluation ends: with a value or with a thrown error. */
  datatype Completion<+T> = Normal(value: T) | Throw(error: JsError)

  /** 2 to the power n. */
  function Pow2(n: nat): (r: nat)
    ensures r >= 1
  {
    if n == 0 then 1 else 2 * Pow2(n - 1)
  }

  /** Bitwise or of two naturals, one binary digit at a time. */
  function Or(a: nat, b: nat): nat
    decreases a + b
  {
    if a == 0 then b
    else if b == 0 then a
    else 2 * Or(a / 2, b / 2) + (if a % 2 == 1 || b % 2 == 1 then 1 else 0)
  }

  /** ToUint32: the 32-bit pattern of a number; NaN becomes 0. */
  function ToUint32(n: Number): (r: nat)
    ensures r < Two32
    ensures n.Integer? && 0 <= n.value < Two32 ==> r == n.value
  {
    match n
    case NaN => 0
    case Integer(v) => v % Two32
  }

  /** ToInt32: the pattern read as a two's-complement signed integer. */
  function ToInt32(n: Number): (r: int)
    ensures -Two31 <= r < Two31
  {
    var u := ToUint32(n);
    if u < Two31 then u else u - Two32
  }

  /** `a << n`: shift the 32-bit pattern of a left by n mod 32 places; the result is signed. */
  function ShiftLeft(a: Number, n: nat): (r: Number)
    ensures r.Integer? && -Two31 <= r.value < Two31
    ensures ToUint32(r) == (ToUint32(a) * Pow2(n % 32)) % Two32
  {
    Integer(ToInt32(Integer(ToUint32(a) * Pow2(n % 32))))
  }

  /** `a | b`: or the two 32-bit patterns; the result is signed. */
  function BitOr(a: Number, b: Number): (r: Number)
    requires ToUint32(a) < Two32 && ToUint32(b) < Two32
    ensures r.Integer? && -Two31 <= r.value < Two31
    ensures ToUint32(r) == Or(ToUint32(a), ToUint32(b)) % Two32
  {
    Integer(ToInt32(Integer(Or(ToUint32(a), ToUint32(b)))))
  }

  /** The UTF-16 code units of one character: astral characters take a surrogate pair. */
  function CodeUnits(c: char): (r: seq<nat>)
    ensures 1 <= |r| <= 2
    ensures forall i :: 0 <= i < |r| ==> r[i] < 0x1_0000
    ensures |r| == 1 <==> (c as int) < 0x1_0000
  {
    if (c as int) < 0x1_0000 then [c as int]
    else
      var v := c as int - 0x1_0000;
      [0xD800 + v / 0x400, 0xDC00 + v % 0x400]
  }

  /** `s.charCodeAt(0)`: the first UTF-16 code unit of s, or NaN when s is empty. */
  function CharCodeAt0(s: string): (r: Number)
    ensures r == NaN <==> s == []
    ensures r.Integer? ==> 0 <= r.value < 0x1_0000
    ensures s != [] && (s[0] as int) < 0x1_0000 ==> r == Integer(s[0] as int)
    ensures s != [] && (s[0] as int) >= 0x1_0000 ==> r == Integer(0xD800 + (s[0] as int - 0x1_0000) / 0x400)
  {
    if s == [] then NaN else Integer(CodeUnits(s[0])[0])
  }

  // Facts about the bitwise layer used by the packing proofs.

  /** Or-ing a value into bits that are all zero is addition. */
  lemma {:induction false} OrDisjoint(a: nat, b: nat, k: nat)
    requires a < Pow2(k)
    ensures Or(a, b * Pow2(k)) == a + b * Pow2(k)
  {
    if k == 0 {
      assert a == 0;
    } else if a == 0 {
    } else if b == 0 {
    } else {
      var p := Pow2(k - 1);
      var q := b * p;
      assert b * Pow2(k) == 2 * q;
      assert q >= 1;
      assert a / 2 < p;
      OrDisjoint(a / 2, b, k - 1);
      assert Or(a, 2 * q) == 2 * Or(a / 2, q) + a % 2;
    }
  }

  /** A signed 32-bit integer is its pattern read as two's complement. */
  lemma SignedFromPattern(n: Number)
    requires n.Integer? && -Two31 <= n.value < Two31
    ensures n.value == if ToUint32(n) < Two31 then ToUint32(n) else ToUint32(n) - Two32
  {
  }

  /** ToInt32 keeps the pattern, so ToUint32 recovers it. */
  lemma PatternKept(n: Number)
    ensures ToUint32(Integer(ToInt32(n))) == ToUint32(n)
  {
  }
}
