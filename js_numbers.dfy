/**
 * The parts of JavaScript's number and string semantics that the tournament code
 * relies on: integer arithmetic in which `undefined` turns into NaN, the conversion of
 * an integer to its decimal string, and the code-unit order on strings that
 * `Array.prototype.sort` uses when it is given no comparator.
 */
module JsNumbers {

  /**
   * A JavaScript number as the tournament code meets it: an integer, or NaN. Integers
   * are unbounded here; a double holds them exactly only below 2^53.
   */
  datatype Num = Finite(value: int) | NaN

  /** `a + b`; NaN absorbs everything. */
  function Add(a: Num, b: Num): Num
  {
    if a.Finite? && b.Finite? then Finite(a.value + b.value) else NaN
  }

  lemma AddAssociative(a: Num, b: Num, c: Num)
    ensures Add(Add(a, b), c) == Add(a, Add(b, c))
  {
  }

  lemma AddRearranged(a: Num, b: Num, c: Num)
    ensures Add(Add(a, b), c) == Add(Add(a, c), b)
  {
  }

  /** `a - b`; NaN absorbs everything. */
  function Sub(a: Num, b: Num): Num
  {
    if a.Finite? && b.Finite? then Finite(a.value - b.value) else NaN
  }

  /** `a !== b` on numbers: NaN is unequal to every number, itself included. */
  predicate StrictlyUnequal(a: Num, b: Num)
  {
    !(a.Finite? && b.Finite? && a.value == b.value)
  }

  /** `a >= k`: false whenever `a` is NaN. */
  predicate AtLeast(a: Num, k: int)
  {
    a.Finite? && a.value >= k
  }

  /** The decimal digit `d` as a character. */
  function DigitChar(d: nat): char
    requires d <= 9
  {
    ('0' as int + d) as char
  }

  /** The decimal form of a natural number, most significant digit first. */
  function NatToDecimal(n: nat): (s: string)
    ensures 1 <= |s|
  {
    if n < 10 then [DigitChar(n)] else NatToDecimal(n / 10) + [DigitChar(n % 10)]
  }

  /**
   * `String(n)` for an integer `n` of magnitude below 10^21; JavaScript writes larger
   * numbers in exponent form, which ranks never reach.
   */
  function NumberToString(n: int): string
  {
    if n < 0 then ['-'] + NatToDecimal(-n) else NatToDecimal(n)
  }

  /**
   * `a < b` on strings: code unit by code unit, and a proper prefix comes first.
   * The strings compared here consist of digits and '-', whose code units are their
   * character codes.
   */
  predicate StringLess(a: string, b: string)
  {
    if a == [] then b != []
    else if b == [] then false
    else if a[0] != b[0] then a[0] < b[0]
    else StringLess(a[1..], b[1..])
  }

  lemma {:induction false} StringLessAsymmetric(a: string, b: string)
    ensures StringLess(a, b) ==> !StringLess(b, a)
  {
    if a != [] && b != [] && a[0] == b[0] {
      StringLessAsymmetric(a[1..], b[1..]);
    }
  }

  lemma {:induction false} StringLessTransitive(a: string, b: string, c: string)
    ensures StringLess(a, b) && StringLess(b, c) ==> StringLess(a, c)
  {
    if a != [] && b != [] && c != [] && a[0] == b[0] && b[0] == c[0] {
      StringLessTransitive(a[1..], b[1..], c[1..]);
    }
  }

  lemma {:induction false} StringLessTotal(a: string, b: string)
    ensures a == b || StringLess(a, b) || StringLess(b, a)
  {
    if a != [] && b != [] && a[0] == b[0] {
      StringLessTotal(a[1..], b[1..]);
      if a[1..] == b[1..] {
        assert a == [a[0]] + a[1..] && b == [b[0]] + b[1..];
      }
    }
  }

  /**
   * The order `Array.prototype.sort` puts numbers in when it is called without a
   * comparator: `a` goes before `b` exactly when `String(a) < String(b)`.
   */
  predicate DefaultLess(a: int, b: int)
  {
    StringLess(NumberToString(a), NumberToString(b))
  }

  /** On single digits the string order is the numeric order. */
  lemma SingleDigitOrder(a: int, b: int)
    requires 0 <= a <= 9 && 0 <= b <= 9
    ensures DefaultLess(a, b) <==> a < b
  {
    var sa, sb := NumberToString(a), NumberToString(b);
    assert sa == [DigitChar(a)] && sb == [DigitChar(b)];
    assert (DigitChar(a) < DigitChar(b)) == (a < b);
    if a == b {
      assert !StringLess(sa[1..], sb[1..]);
    } else {
      assert sa[0] != sb[0];
    }
  }

  /** "10" sorts before "9": the first place where string order and number order part. */
  lemma TenBeforeNine()
    ensures DefaultLess(10, 9) && !DefaultLess(9, 10)
  {
    assert NumberToString(10) == "10";
    assert NumberToString(9) == "9";
  }
}
