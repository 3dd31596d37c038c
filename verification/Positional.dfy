/**
 Positional notation: fixed-width numerals in any base, most significant digit first, and the strings that spell
 them in an alphabet. Both the ids of the store (base 16) and the request ids (base 32) are such strings.
 */
module Positional {
  import opened Wrappers
  import opened Division

  type Base = b: int | b >= 2 witness 2

  function Pow(b: Base, n: nat): (p: nat)
    ensures p >= 1
  {
    if n == 0 then 1 else b * Pow(b, n - 1)
  }

  lemma {:induction false} PowAdd(b: Base, m: nat, n: nat)
    ensures Pow(b, m + n) == Pow(b, m) * Pow(b, n)
    decreases m
  {
    if m > 0 {
      PowAdd(b, m - 1, n);
      assert m + n - 1 == m - 1 + n;
      Regroup(b, Pow(b, m - 1), Pow(b, n));
    }
  }

  lemma Regroup(a: nat, b: nat, c: nat)
    ensures a * (b * c) == (a * b) * c
  {
  }

  lemma {:induction false} PowPow(k: nat, n: nat)
    requires k >= 1 && Pow(2, k) >= 2
    ensures Pow(Pow(2, k), n) == Pow(2, k * n)
    decreases n
  {
    if n > 0 {
      PowPow(k, n - 1);
      PowAdd(2, k, k * (n - 1));
      assert k * n == k + k * (n - 1);
    }
  }

  predicate AreDigits(b: Base, ds: seq<nat>) {
    forall i | 0 <= i < |ds| :: ds[i] < b
  }

  /** The number a numeral denotes. */
  function Value(b: Base, ds: seq<nat>): nat {
    if ds == [] then 0 else Value(b, ds[..|ds| - 1]) * b + ds[|ds| - 1]
  }

  /** The numeral of the low `width` digits of n. */
  function Numeral(b: Base, width: nat, n: nat): (ds: seq<nat>)
    ensures |ds| == width && AreDigits(b, ds)
  {
    if width == 0 then [] else Numeral(b, width - 1, n / b) + [n % b]
  }

  lemma {:induction false} ValueBound(b: Base, ds: seq<nat>)
    requires AreDigits(b, ds)
    ensures Value(b, ds) < Pow(b, |ds|)
    decreases |ds|
  {
    if ds != [] {
      ValueBound(b, ds[..|ds| - 1]);
      MulMonotone(Value(b, ds[..|ds| - 1]) + 1, Pow(b, |ds| - 1), b);
    }
  }

  /** Reading a numeral that is wide enough gives the number back. */
  lemma {:induction false} ValueNumeral(b: Base, width: nat, n: nat)
    requires n < Pow(b, width)
    ensures Value(b, Numeral(b, width, n)) == n
    decreases width
  {
    if width > 0 {
      var p := Pow(b, width - 1);
      MulMonotone(p, n / b, b);
      assert b * p == p * b;
      assert n / b < p;
      ValueNumeral(b, width - 1, n / b);
      assert Numeral(b, width, n)[..width - 1] == Numeral(b, width - 1, n / b);
    }
  }

  lemma {:induction false} NumeralValue(b: Base, ds: seq<nat>)
    requires AreDigits(b, ds)
    ensures Numeral(b, |ds|, Value(b, ds)) == ds
    decreases |ds|
  {
    if ds != [] {
      var front := ds[..|ds| - 1];
      NumeralValue(b, front);
      DivUnique(Value(b, ds), b, Value(b, front), ds[|ds| - 1]);
    }
  }

  lemma {:induction false} ValueConcat(b: Base, xs: seq<nat>, ys: seq<nat>)
    ensures Value(b, xs + ys) == Value(b, xs) * Pow(b, |ys|) + Value(b, ys)
    decreases |ys|
  {
    if ys == [] {
      assert xs + ys == xs;
    } else {
      var front, last := ys[..|ys| - 1], ys[|ys| - 1];
      assert (xs + ys)[..|xs + ys| - 1] == xs + front;
      ValueConcat(b, xs, front);
      var v, p := Value(b, xs), Pow(b, |front|);
      MulAdd(v * p, Value(b, front), b);
      MulAssoc(v, p, b);
    }
  }

  /** One digit off the end, then k more. */
  lemma DropDigits(b: Base, n: nat, k: nat)
    ensures n / b / Pow(b, k) == n / Pow(b, k + 1)
  {
    DivDiv(n, b, Pow(b, k));
  }

  lemma NumeralFront(b: Base, width: nat, n: nat, k: nat)
    requires k < width
    ensures Numeral(b, width, n)[..k] == Numeral(b, width - 1, n / b)[..k]
  {
  }

  /** The leading digits are the numeral of the quotient. */
  lemma {:induction false} NumeralPrefix(b: Base, width: nat, n: nat, k: nat)
    requires k <= width
    ensures Numeral(b, width, n)[..k] == Numeral(b, k, n / Pow(b, width - k))
    decreases width
  {
    if k < width {
      var m := width - 1 - k;
      NumeralFront(b, width, n, k);
      NumeralPrefix(b, width - 1, n / b, k);
      DropDigits(b, n, m);
      assert width - k == m + 1;
    }
  }

  lemma LastDigit(b: Base, width: nat, n: nat)
    requires width > 0
    ensures Numeral(b, width, n)[width - 1] == n % b
  {
  }

  /** Digit i, counted from the most significant, is a quotient by a power of the base. */
  lemma NumeralDigit(b: Base, width: nat, n: nat, i: nat)
    requires i < width
    ensures Numeral(b, width, n)[i] == n / Pow(b, width - 1 - i) % b
  {
    NumeralPrefix(b, width, n, i + 1);
    LastDigit(b, i + 1, n / Pow(b, width - (i + 1)));
    assert Numeral(b, width, n)[i] == Numeral(b, width, n)[..i + 1][i];
  }

  // ---- order ----

  /** Go's `<` on strings. */
  predicate Before(s: string, t: string) {
    if t == [] then false
    else if s == [] then true
    else s[0] < t[0] || (s[0] == t[0] && Before(s[1..], t[1..]))
  }

  lemma {:induction false} BeforeAsymmetric(s: string, t: string)
    ensures !(Before(s, t) && Before(t, s))
    decreases |s|
  {
    if s != [] && t != [] && s[0] == t[0] {
      BeforeAsymmetric(s[1..], t[1..]);
    }
  }

  predicate Ascending(alphabet: string) {
    forall i, j | 0 <= i < j < |alphabet| :: alphabet[i] < alphabet[j]
  }

  /** The string that spells a numeral. */
  function Spell(alphabet: string, ds: seq<nat>): (s: string)
    requires |alphabet| >= 2 && AreDigits(|alphabet|, ds)
    ensures |s| == |ds| && forall i | 0 <= i < |ds| :: s[i] == alphabet[ds[i]]
  {
    seq(|ds|, i requires 0 <= i < |ds| => alphabet[ds[i]])
  }

  lemma {:induction false} ValueFront(b: Base, ds: seq<nat>)
    requires ds != []
    ensures Value(b, ds) == ds[0] * Pow(b, |ds| - 1) + Value(b, ds[1..])
  {
    assert ds == [ds[0]] + ds[1..];
    ValueConcat(b, [ds[0]], ds[1..]);
    assert Value(b, [ds[0]]) == ds[0] by {
      assert [ds[0]][..0] == [];
    }
  }

  /** Over an ascending alphabet, string order on equal widths is numeric order. */
  lemma {:induction false} SpellOrder(alphabet: string, xs: seq<nat>, ys: seq<nat>)
    requires |alphabet| >= 2 && Ascending(alphabet)
    requires |xs| == |ys| && AreDigits(|alphabet|, xs) && AreDigits(|alphabet|, ys)
    ensures Before(Spell(alphabet, xs), Spell(alphabet, ys)) <==> Value(|alphabet|, xs) < Value(|alphabet|, ys)
    decreases |xs|
  {
    if xs != [] {
      var b: Base := |alphabet|;
      var p := Pow(b, |xs| - 1);
      SpellOrder(alphabet, xs[1..], ys[1..]);
      assert Spell(alphabet, xs)[1..] == Spell(alphabet, xs[1..]);
      assert Spell(alphabet, ys)[1..] == Spell(alphabet, ys[1..]);
      ValueFront(b, xs);
      ValueFront(b, ys);
      ValueBound(b, xs[1..]);
      ValueBound(b, ys[1..]);
      HeadDecides(xs[0], Value(b, xs[1..]), ys[0], Value(b, ys[1..]), p);
    }
  }

  /** Among two-part numbers with low parts below p, the high parts decide. */
  lemma HeadDecides(x: nat, r: nat, y: nat, r': nat, p: nat)
    requires r < p && r' < p
    ensures x * p + r < y * p + r' <==> x < y || (x == y && r < r')
  {
    MulMonotone(x + 1, y, p);
    MulMonotone(y + 1, x, p);
    MulAdd(x, 1, p);
    MulAdd(y, 1, p);
  }

  // ---- reading a string back ----

  function DigitOf(alphabet: string, c: char): (d: Option<nat>)
    ensures d.Some? ==> d.value < |alphabet| && alphabet[d.value] == c
    ensures d.None? <==> c !in alphabet
  {
    if alphabet == [] then None
    else if alphabet[|alphabet| - 1] == c then Some(|alphabet| - 1)
    else DigitOf(alphabet[..|alphabet| - 1], c)
  }

  function Read(alphabet: string, s: string): Option<nat>
    requires |alphabet| >= 2
  {
    if s == [] then Some(0)
    else
      match (Read(alphabet, s[..|s| - 1]), DigitOf(alphabet, s[|s| - 1]))
      case (Some(v), Some(d)) => Some(v * |alphabet| + d)
      case _ => None
  }

  /** Reading undoes spelling. */
  lemma {:induction false} ReadSpell(alphabet: string, ds: seq<nat>)
    requires |alphabet| >= 2 && Ascending(alphabet) && AreDigits(|alphabet|, ds)
    ensures Read(alphabet, Spell(alphabet, ds)) == Some(Value(|alphabet|, ds))
    decreases |ds|
  {
    if ds != [] {
      var front := ds[..|ds| - 1];
      ReadSpell(alphabet, front);
      assert Spell(alphabet, ds)[..|ds| - 1] == Spell(alphabet, front);
      var d := DigitOf(alphabet, alphabet[ds[|ds| - 1]]);
      assert d == Some(ds[|ds| - 1]);
    }
  }
}
