/** ULIDs: a 48-bit millisecond timestamp and 80 random bits, spelled as 26 base-32 characters. */
module Ulid {
  import opened Wrappers
  import opened Division
  import opened Positional
  import opened Words

  const ALPHABET := "0123456789ABCDEFGHJKMNPQRSTVWXYZ"

  type Byte = x: int | 0 <= x < 256

  lemma AlphabetOk()
    ensures |ALPHABET| == 32 && Ascending(ALPHABET)
  {
  }

  lemma AlphabetSize()
    ensures |ALPHABET| == 32
  {
  }

  /** The low 64 bits of the 128-bit value hi:lo after shifting right n places. */
  function ShiftRight(hi: U64, lo: U64, n: int): U64 {
    if n <= 0 then lo
    else if n < 64 then Or(Shr(lo, n), Shl(hi, 64 - n))
    else Shr(hi, n - 64)
  }

  /** hi shifted left within the word keeps its low n bits, on top. */
  lemma ShlKeeps(hi: U64, n: nat)
    requires 0 < n < 64
    ensures Shl(hi, 64 - n) == (hi % Pow(2, n)) * Pow(2, 64 - n)
  {
    WordIsPow();
    PowAdd(2, n, 64 - n);
    TopBits(hi, Pow(2, n), Pow(2, 64 - n));
  }

  /** shiftRight is the floor of the 128-bit value by 2^n, reduced to 64 bits, for every shift below 128. */
  lemma ShiftRightIsFloor(hi: U64, lo: U64, n: nat)
    requires n < 128
    ensures ShiftRight(hi, lo, n) == (hi * WORD + lo) / Pow(2, n) % WORD
  {
    WordIsPow();
    if n == 0 {
      DivUnique(hi * WORD + lo, WORD, hi, lo);
    } else if n < 64 {
      ShiftWithin(hi, lo, n);
    } else {
      PowAdd(2, 64, n - 64);
      DivDiv(hi * WORD + lo, WORD, Pow(2, n - 64));
      DivUnique(hi * WORD + lo, WORD, hi, lo);
      var s := Shr(hi, n - 64);
      DivUnique(s, WORD, 0, s);
    }
  }

  /** The reduced quotient, in two parts: the low n bits of hi on top, the top of lo below. */
  lemma QuotientWithin(hi: U64, lo: U64, n: nat, p: nat, t: nat, s: nat, y: nat)
    requires 0 < n < 64 && p == Pow(2, n) && t == Pow(2, 64 - n) && s == (hi % p) * t && y == lo / p
    ensures y < t && s + t <= WORD && (hi * WORD + lo) / p % WORD == s + y
  {
    WordIsPow();
    PowAdd(2, n, 64 - n);
    ShiftReduced(hi, lo, p, t, WORD, s, y);
  }

  lemma OrWithin(hi: U64, lo: U64, n: nat, p: nat, t: nat, s: nat, y: nat)
    requires 0 < n < 64 && p == Pow(2, n) && t == Pow(2, 64 - n) && s == (hi % p) * t && y == lo / p
    requires y < t && s + t <= WORD
    ensures ShiftRight(hi, lo, n) == s + y
  {
    ShlKeeps(hi, n);
    DisjointOr(hi % p, y, 64 - n);
    OrCommutes(Shr(lo, n), Shl(hi, 64 - n), 64);
  }

  // The quotients and products are named one lemma at a time: together they are too much for the solver.
  lemma ShiftNamed(hi: U64, lo: U64, n: nat, p: nat, t: nat, r: nat, y: nat, s: nat)
    requires 0 < n < 64 && p == Pow(2, n) && t == Pow(2, 64 - n) && r == hi % p && y == lo / p && s == r * t
    ensures ShiftRight(hi, lo, n) == (hi * WORD + lo) / p % WORD
  {
    QuotientWithin(hi, lo, n, p, t, s, y);
    OrWithin(hi, lo, n, p, t, s, y);
  }

  lemma ShiftParts(hi: U64, lo: U64, n: nat, p: nat, t: nat, r: nat, y: nat)
    requires 0 < n < 64 && p == Pow(2, n) && t == Pow(2, 64 - n) && r == hi % p && y == lo / p
    ensures ShiftRight(hi, lo, n) == (hi * WORD + lo) / p % WORD
  {
    ShiftNamed(hi, lo, n, p, t, r, y, Product(r, t));
  }

  lemma ShiftByPower(hi: U64, lo: U64, n: nat, p: nat, t: nat, y: nat)
    requires 0 < n < 64 && p == Pow(2, n) && t == Pow(2, 64 - n) && y == lo / p
    ensures ShiftRight(hi, lo, n) == (hi * WORD + lo) / p % WORD
  {
    ShiftParts(hi, lo, n, p, t, Rem(hi, p), y);
  }

  lemma ShiftWithin(hi: U64, lo: U64, n: nat)
    requires 0 < n < 64
    ensures ShiftRight(hi, lo, n) == (hi * WORD + lo) / Pow(2, n) % WORD
  {
    ShiftByPower(hi, lo, n, Pow(2, n), Pow(2, 64 - n), Quot(lo, Pow(2, n)));
  }

  lemma DisjointOr(x: nat, y: nat, k: nat)
    requires k <= 64 && y < Pow(2, k) && x * Pow(2, k) < WORD
    ensures OrBits(x * Pow(2, k), y, 64) == x * Pow(2, k) + y
  {
    WordIsPow();
    OrIsSum(x, y, k, 64);
  }

  lemma {:induction false} OrCommutes(x: nat, y: nat, bits: nat)
    ensures OrBits(x, y, bits) == OrBits(y, x, bits)
    decreases bits
  {
    if bits > 0 {
      OrCommutes(x / 2, y / 2, bits - 1);
    }
  }

  /** The 128-bit number of 16 bytes, most significant first. */
  function Big(b: seq<Byte>): nat {
    Value(256, b)
  }

  /** What encode spells: the 26 base-32 digits of the 128-bit number. */
  function Encoded(b: seq<Byte>): string
    requires |b| == 16
  {
    Spell(ALPHABET, Numeral(32, 26, Big(b)))
  }

  lemma BytePowers()
    ensures Pow(256, 8) == WORD && Pow(256, 16) == Pow(2, 128) && Pow(32, 26) == Pow(2, 130)
    ensures Pow(32, 16) == Pow(2, 80) == Pow(256, 10) && Pow(256, 6) == Pow(2, 48) && Pow(32, 10) == Pow(2, 50)
  {
    WordIsPow();
    PowPow(8, 8);
    PowPow(8, 16);
    PowPow(8, 10);
    PowPow(8, 6);
    PowPow(5, 26);
    PowPow(5, 16);
    PowPow(5, 10);
  }

  lemma Halves(b: seq<Byte>)
    requires |b| == 16
    ensures Value(256, b[0..8]) < WORD && Value(256, b[8..16]) < WORD
    ensures Big(b) == Value(256, b[0..8]) * WORD + Value(256, b[8..16])
    ensures Big(b) < Pow(2, 128) <= Pow(32, 26)
  {
    BytePowers();
    ValueBound(256, b[0..8]);
    ValueBound(256, b[8..16]);
    ValueBound(256, b);
    ValueConcat(256, b[0..8], b[8..16]);
    assert b[0..8] + b[8..16] == b;
    PowAdd(2, 128, 2);
  }

  /** Masking a word to five bits commutes with reducing to the word. */
  lemma LowFive(v: nat)
    ensures And(v % WORD, 0x1F) == v % 32
  {
    WordIsPow();
    AndMask(v % WORD, 5, 64);
    var q, r := v / WORD, v % WORD;
    var q', r' := r / 32, r % 32;
    DivUnique(v, 32, q * (WORD / 32) + q', r');
  }

  /** binary.BigEndian.Uint64. */
  function Uint64(b: seq<Byte>): U64
    requires |b| == 8
  {
    BytePowers();
    ValueBound(256, b);
    Value(256, b)
  }

  /** Five bits of the 128-bit number, starting at bit n. */
  lemma FiveBits(hi: U64, lo: U64, n: nat, p: nat, v: nat)
    requires n < 128 && p == Pow(2, n) && v == (hi * WORD + lo) / p
    ensures And(ShiftRight(hi, lo, n), 0x1F) == v % 32
  {
    ShiftRightIsFloor(hi, lo, n);
    LowFive(v);
  }

  lemma DigitIs(big: nat, i: nat, v: nat, p: nat)
    requires i < 26 && p == Pow(32, 25 - i) && v == big / p
    ensures Numeral(32, 26, big)[i] == v % 32
  {
    NumeralDigit(32, 26, big, i);
  }

  /** The digit the loop reads off at position i. */
  lemma EncodedDigit(hi: U64, lo: U64, i: nat)
    requires i < 26
    ensures And(ShiftRight(hi, lo, 125 - 5 * i), 0x1F) == Numeral(32, 26, hi * WORD + lo)[i]
  {
    var p := Pow(2, 125 - 5 * i);
    var v := (hi * WORD + lo) / p;
    ShiftPower(i);
    FiveBits(hi, lo, 125 - 5 * i, p, v);
    DigitIs(hi * WORD + lo, i, v, p);
  }

  lemma ShiftPower(i: nat)
    requires i < 26
    ensures Pow(2, 125 - 5 * i) == Pow(32, 25 - i)
  {
    WordIsPow();
    PowPow(5, 25 - i);
    assert 5 * (25 - i) == 125 - 5 * i;
  }

  /** The two words of the 16 bytes, put together. */
  lemma TwoWords(b: seq<Byte>)
    requires |b| == 16
    ensures Big(b) == Uint64(b[0..8]) * WORD + Uint64(b[8..16])
  {
    Halves(b);
  }

  lemma WrittenDigit(b: seq<Byte>, i: nat)
    requires |b| == 16 && i < 26
    ensures And(ShiftRight(Uint64(b[0..8]), Uint64(b[8..16]), 125 - 5 * i), 0x1F) == Numeral(32, 26, Big(b))[i]
  {
    TwoWords(b);
    EncodedDigit(Uint64(b[0..8]), Uint64(b[8..16]), i);
  }

  /** The character the loop writes at position i. */
  lemma EncodedChar(b: seq<Byte>, i: nat)
    requires |b| == 16 && i < 26
    ensures var d := And(ShiftRight(Uint64(b[0..8]), Uint64(b[8..16]), 125 - 5 * i), 0x1F);
      d < |ALPHABET| && ALPHABET[d] == Encoded(b)[i]
  {
    AlphabetSize();
    WrittenDigit(b, i);
  }

  method Encode(b: seq<Byte>) returns (s: string)
    requires |b| == 16
    ensures s == Encoded(b)
  {
    var hi := Uint64(b[0..8]);
    var lo := Uint64(b[8..16]);
    var out := new char[26](_ => '0');
    var shift := 125;
    for i := 0 to 26
      invariant shift == 125 - 5 * i
      invariant forall k | 0 <= k < i :: out[k] == Encoded(b)[k]
    {
      EncodedChar(b, i);
      out[i] := ALPHABET[And(ShiftRight(hi, lo, shift), 0x1F)];
      shift := shift - 5;
    }
    s := out[..];
  }

  // ---- what the encoding promises ----

  /** A base-32 decoder inverts encode on every input. */
  lemma DecodeEncode(b: seq<Byte>)
    requires |b| == 16
    ensures Read(ALPHABET, Encoded(b)) == Some(Big(b))
  {
    AlphabetOk();
    Halves(b);
    ReadSpell(ALPHABET, Numeral(32, 26, Big(b)));
    ValueNumeral(32, 26, Big(b));
  }

  lemma BigInjective(b: seq<Byte>, b': seq<Byte>)
    requires |b| == |b'| && Big(b) == Big(b')
    ensures b == b'
  {
    NumeralValue(256, b);
    NumeralValue(256, b');
  }

  /** Encoded strings sort as the numbers they encode, and two inputs never share a string. */
  lemma EncodePreservesOrder(b: seq<Byte>, b': seq<Byte>)
    requires |b| == 16 && |b'| == 16
    ensures Before(Encoded(b), Encoded(b')) <==> Big(b) < Big(b')
    ensures Encoded(b) == Encoded(b') <==> b == b'
  {
    AlphabetOk();
    Halves(b);
    Halves(b');
    ValueNumeral(32, 26, Big(b));
    ValueNumeral(32, 26, Big(b'));
    SpellOrder(ALPHABET, Numeral(32, 26, Big(b)), Numeral(32, 26, Big(b')));
    DecodeEncode(b);
    DecodeEncode(b');
    if Encoded(b) == Encoded(b') {
      BigInjective(b, b');
    }
  }

  // ---- NewULID ----

  const STAMP := 0x1_0000_0000_0000

  /** The 16 bytes NewULID encodes: the low 48 bits of the clock, then ten random bytes. */
  function Stamped(ms: int, random: seq<Byte>): seq<Byte>
    requires |random| == 10
  {
    Numeral(256, 6, ms % STAMP) + random
  }

  /** Byte i of the timestamp: an arithmetic shift of the clock, truncated to a byte. */
  lemma StampByte(ms: int, i: nat)
    requires i < 6
    ensures ms / Pow(2, 40 - 8 * i) % 256 == Numeral(256, 6, ms % STAMP)[i]
  {
    BytePowers();
    var k := 40 - 8 * i;
    var p := Pow(2, k);
    WordIsPow();
    PowPow(8, 5 - i);
    assert 8 * (5 - i) == k;
    NumeralDigit(256, 6, ms % STAMP, i);
    // STAMP = p * 256 * rest, so whole multiples of STAMP vanish modulo 256 after the shift.
    PowAdd(2, k, 8);
    PowAdd(2, k + 8, 40 - k);
    WordIsPow();
    WholeStampsVanish(ms, p, Pow(2, 40 - k));
  }

  lemma RegroupStamp(q: int, p: nat, rest: nat)
    ensures q * (p * 256 * rest) == q * rest * 256 * p
  {
  }

  /** A multiple of 256 in the quotient vanishes modulo 256. */
  lemma MultipleVanishes(ms: int, p: nat, m: int, r: nat)
    requires p > 0 && ms == m * 256 * p + r
    ensures ms / p % 256 == r / p % 256
  {
    var a, c := r / p, r % p;
    FloorUnique(ms, p, m * 256 + a, c);
    FloorUnique(m * 256 + a, 256, m + a / 256, a % 256);
  }

  lemma WholeStampsVanish(ms: int, p: nat, rest: nat)
    requires p > 0 && STAMP == p * 256 * rest
    ensures ms / p % 256 == ms % STAMP / p % 256
  {
    var q := ms / STAMP;
    RegroupStamp(q, p, rest);
    MultipleVanishes(ms, p, q * rest, ms % STAMP);
  }

  /** The number of the stamped bytes: the timestamp on top, the 80 random bits below. */
  lemma StampOnTop(ms: int, random: seq<Byte>)
    requires |random| == 10
    ensures Big(Stamped(ms, random)) / Pow(2, 80) == ms % STAMP
    ensures Big(Stamped(ms, random)) % Pow(2, 80) == Value(256, random)
  {
    BytePowers();
    WordIsPow();
    var t := Numeral(256, 6, ms % STAMP);
    ValueConcat(256, t, random);
    ValueNumeral(256, 6, ms % STAMP);
    ValueBound(256, random);
    DivUnique(Big(Stamped(ms, random)), Pow(2, 80), ms % STAMP, Value(256, random));
  }

  /** The id, read back as a number, is the clock's low 48 bits above the number of the random bytes. */
  method NewUlid(ms: int, random: seq<Byte>) returns (s: string)
    requires |random| == 10
    ensures s == Encoded(Stamped(ms, random))
    ensures |s| == 26
    ensures match Read(ALPHABET, s)
            case Some(v) => v / Pow(2, 80) == ms % STAMP && v % Pow(2, 80) == Value(256, random)
            case None => false
  {
    var b := new Byte[16](_ => 0);
    for i := 0 to 6
      invariant forall k | 0 <= k < i :: b[k] == Numeral(256, 6, ms % STAMP)[k]
    {
      StampByte(ms, i);
      b[i] := ms / Pow(2, 40 - 8 * i) % 256;
    }
    for i := 6 to 16
      invariant forall k | 0 <= k < i :: b[k] == Stamped(ms, random)[k]
    {
      b[i] := random[i - 6];
    }
    assert b[..] == Stamped(ms, random);
    StampOnTop(ms, random);
    DecodeEncode(Stamped(ms, random));
    s := Encode(b[..]);
  }

  /** Two ids are one exactly when they were made with the same low 48 bits of the clock and the same random bytes. */
  lemma SameIdIff(ms: int, random: seq<Byte>, ms': int, random': seq<Byte>)
    requires |random| == 10 && |random'| == 10
    ensures Encoded(Stamped(ms, random)) == Encoded(Stamped(ms', random')) <==> ms % STAMP == ms' % STAMP && random == random'
  {
    DecodeEncode(Stamped(ms, random));
    DecodeEncode(Stamped(ms', random'));
    StampOnTop(ms, random);
    StampOnTop(ms', random');
    if Value(256, random) == Value(256, random') {
      BigInjective(random, random');
    }
  }

  /** The first ten characters spell the low 48 bits of the clock and nothing else. */
  lemma PrefixIsTimestamp(ms: int, random: seq<Byte>)
    requires |random| == 10
    ensures Encoded(Stamped(ms, random))[..10] == Spell(ALPHABET, Numeral(32, 10, ms % STAMP))
  {
    AlphabetOk();
    BytePowers();
    StampOnTop(ms, random);
    NumeralPrefix(32, 26, Big(Stamped(ms, random)), 10);
  }

  /**
   Ids made in different milliseconds sort by the clock on their first ten characters, whatever the random
   bytes: the order is that of the clocks' low 48 bits, for every clock reading.
   */
  lemma SortsByTime(ms: int, random: seq<Byte>, ms': int, random': seq<Byte>)
    requires |random| == 10 && |random'| == 10
    ensures Before(Encoded(Stamped(ms, random))[..10], Encoded(Stamped(ms', random'))[..10]) <==> ms % STAMP < ms' % STAMP
    ensures ms % STAMP < ms' % STAMP ==> Before(Encoded(Stamped(ms, random)), Encoded(Stamped(ms', random')))
  {
    AlphabetOk();
    BytePowers();
    WordIsPow();
    PowAdd(2, 48, 2);
    PrefixIsTimestamp(ms, random);
    PrefixIsTimestamp(ms', random');
    ValueNumeral(32, 10, ms % STAMP);
    ValueNumeral(32, 10, ms' % STAMP);
    SpellOrder(ALPHABET, Numeral(32, 10, ms % STAMP), Numeral(32, 10, ms' % STAMP));
    if ms % STAMP < ms' % STAMP {
      BeforePrefix(Encoded(Stamped(ms, random)), Encoded(Stamped(ms', random')), 10);
    }
  }

  lemma {:induction false} BeforePrefix(s: string, t: string, k: nat)
    requires k <= |s| && k <= |t| && Before(s[..k], t[..k])
    ensures Before(s, t)
    decreases k
  {
    assert k > 0;
    assert s[..k][1..] == s[1..][..k - 1] && t[..k][1..] == t[1..][..k - 1];
    if s[0] == t[0] {
      BeforePrefix(s[1..], t[1..], k - 1);
    }
  }

  /** Outside the range of 48 bits the promise fails: the next millisecond wraps around and sorts first. */
  lemma WrapsAround(random: seq<Byte>)
    requires |random| == 10
    ensures Before(Encoded(Stamped(STAMP, random))[..10], Encoded(Stamped(STAMP - 1, random))[..10])
  {
    SortsByTime(STAMP, random, STAMP - 1, random);
  }
}
