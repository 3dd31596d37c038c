/**
 Store ids: a 96-bit number, printed as 24 lowercase hexadecimal digits. The driver's parser takes either case;
 the string comparison of the in-memory store is only right about the printed form.
 */
module ObjectId {
  import opened Wrappers
  import opened Positional
  import opened Text

  const HEX := "0123456789abcdef"

  const DIGITS := 24

  lemma HexOk()
    ensures |HEX| == 16 && Ascending(HEX)
  {
  }

  function Limit(): nat {
    Pow(16, DIGITS)
  }

  /** ObjectID.Hex. */
  function Print(id: nat): string {
    Spell(HEX, Numeral(16, DIGITS, id))
  }

  /** ObjectIDFromHex: 24 hexadecimal digits of either case. */
  function Parse(s: string): Option<nat> {
    if |s| == DIGITS then Read(HEX, ToLower(s)) else None
  }

  predicate Canonical(s: string) {
    |s| == DIGITS && forall c <- s :: c in HEX
  }

  lemma HexIsLower(s: string)
    requires forall c <- s :: c in HEX
    ensures ToLower(s) == s
  {
    forall i | 0 <= i < |s| ensures LowerChar(s[i]) == s[i] {
      assert s[i] in HEX;
    }
  }

  /** Parsing undoes printing. */
  lemma ParsePrint(id: nat)
    requires id < Limit()
    ensures Canonical(Print(id)) && Parse(Print(id)) == Some(id)
  {
    HexOk();
    HexIsLower(Print(id));
    ReadSpell(HEX, Numeral(16, DIGITS, id));
    ValueNumeral(16, DIGITS, id);
  }

  /** A canonical string is the print of what it parses to. */
  lemma PrintParse(s: string)
    requires Canonical(s)
    ensures Parse(s).Some? && Parse(s).value < Limit() && Print(Parse(s).value) == s
  {
    HexOk();
    HexIsLower(s);
    var ds := DigitsOf(s);
    ReadSpell(HEX, ds);
    assert Spell(HEX, ds) == s;
    NumeralValue(16, ds);
    ValueBound(16, ds);
  }

  ghost function DigitsOf(s: string): (ds: seq<nat>)
    requires forall c <- s :: c in HEX
    ensures |ds| == |s| && AreDigits(16, ds) && forall i | 0 <= i < |s| :: HEX[ds[i]] == s[i]
  {
    seq(|s|, i requires 0 <= i < |s| => assert s[i] in s; DigitOf(HEX, s[i]).value)
  }

  /** Printed ids sort as strings the way the ids sort as numbers. */
  lemma PrintOrder(a: nat, b: nat)
    requires a < Limit() && b < Limit()
    ensures Before(Print(a), Print(b)) <==> a < b
    ensures Print(a) == Print(b) <==> a == b
  {
    HexOk();
    SpellOrder(HEX, Numeral(16, DIGITS, a), Numeral(16, DIGITS, b));
    ValueNumeral(16, DIGITS, a);
    ValueNumeral(16, DIGITS, b);
    ParsePrint(a);
    ParsePrint(b);
  }

  lemma {:induction false} ReadableIsHex(s: string)
    requires Read(HEX, s).Some?
    ensures forall c <- s :: c in HEX
    decreases |s|
  {
    if s != [] {
      ReadableIsHex(s[..|s| - 1]);
      assert s == s[..|s| - 1] + [s[|s| - 1]];
    }
  }

  /** Whatever parses is a printed id, but for the case of its letters. */
  lemma ParsesAsLower(s: string)
    requires Parse(s).Some?
    ensures Canonical(ToLower(s)) && Parse(ToLower(s)) == Parse(s) && Parse(s).value < Limit()
  {
    ReadableIsHex(ToLower(s));
    ToLowerStable(s);
    PrintParse(ToLower(s));
  }

  predicate HexDigit(c: char) {
    '0' <= c <= '9' || 'a' <= c <= 'f' || 'A' <= c <= 'F'
  }

  /** 24 hexadecimal digits, of either case. */
  predicate HexId(s: string) {
    |s| == 24 && forall c <- s :: HexDigit(c)
  }

  lemma HexChar(c: char)
    ensures LowerChar(c) in HEX <==> HexDigit(c)
  {
    var hex := HEX;
    assert hex[0] == '0' && hex[1] == '1' && hex[2] == '2' && hex[3] == '3' && hex[4] == '4' && hex[5] == '5';
    assert hex[6] == '6' && hex[7] == '7' && hex[8] == '8' && hex[9] == '9' && hex[10] == 'a' && hex[11] == 'b';
    assert hex[12] == 'c' && hex[13] == 'd' && hex[14] == 'e' && hex[15] == 'f';
  }

  /** Exactly those parse. */
  lemma ParsesExactly(s: string)
    ensures Parse(s).Some? <==> HexId(s)
  {
    var low := ToLower(s);
    if Parse(s).Some? {
      ReadableIsHex(low);
      forall c <- s ensures HexDigit(c) {
        var i :| 0 <= i < |s| && s[i] == c;
        HexChar(c);
        assert low[i] in low;
      }
    }
    if HexId(s) {
      forall c <- low ensures c in HEX {
        var i :| 0 <= i < |low| && low[i] == c;
        HexChar(s[i]);
        assert s[i] in s;
      }
      PrintParse(low);
      ToLowerStable(s);
    }
  }
}
