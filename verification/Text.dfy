/** The string operations the domain relies on: trimming, lowercasing and UTF-8 length. */
module Text {
  /** unicode.IsSpace. */
  predicate IsSpace(c: char) {
    || '\t' <= c <= '\r' || c == ' '
    || c == '\U{0085}' || c == '\U{00A0}' || c == '\U{1680}' || '\U{2000}' <= c <= '\U{200A}'
    || c == '\U{2028}' || c == '\U{2029}' || c == '\U{202F}' || c == '\U{205F}' || c == '\U{3000}'
  }

  function TrimLeft(s: string): string {
    if s != [] && IsSpace(s[0]) then TrimLeft(s[1..]) else s
  }

  function TrimRight(s: string): string {
    if s != [] && IsSpace(s[|s| - 1]) then TrimRight(s[..|s| - 1]) else s
  }

  function TrimSpace(s: string): string {
    TrimRight(TrimLeft(s))
  }

  predicate Trimmed(s: string) {
    s != [] ==> !IsSpace(s[0]) && !IsSpace(s[|s| - 1])
  }

  function LowerChar(c: char): char {
    if 'A' <= c <= 'Z' then c - 'A' + 'a' else c
  }

  /** Lowercasing, on the ASCII letters. */
  function ToLower(s: string): (t: string)
    ensures |t| == |s| && forall i | 0 <= i < |s| :: t[i] == LowerChar(s[i])
  {
    seq(|s|, i requires 0 <= i < |s| => LowerChar(s[i]))
  }

  function Utf8Size(c: char): nat {
    if c < '\U{0080}' then 1 else if c < '\U{0800}' then 2 else if c < '\U{10000}' then 3 else 4
  }

  /** len of a Go string: its size in UTF-8 bytes. */
  function Utf8Len(s: string): nat {
    if s == [] then 0 else Utf8Len(s[..|s| - 1]) + Utf8Size(s[|s| - 1])
  }

  /** Where s has a character from c on. */
  function From(s: string, c: char): set<nat> {
    set i: nat | i < |s| && s[i] >= c
  }

  /** One byte for every character, one more for each from U+0080, from U+0800 and from U+10000 on. */
  function Bytes(s: string): nat {
    |s| + |From(s, '\U{0080}')| + |From(s, '\U{0800}')| + |From(s, '\U{10000}')|
  }

  lemma FromLast(s: string, c: char)
    requires s != []
    ensures |From(s, c)| == |From(s[..|s| - 1], c)| + if s[|s| - 1] >= c then 1 else 0
  {
    var front, last := From(s[..|s| - 1], c), |s| - 1;
    assert From(s, c) == front + if s[last] >= c then {last} else {};
  }

  lemma {:induction false} Utf8LenIsBytes(s: string)
    ensures Utf8Len(s) == Bytes(s)
    decreases |s|
  {
    if s != [] {
      Utf8LenIsBytes(s[..|s| - 1]);
      FromLast(s, '\U{0080}');
      FromLast(s, '\U{0800}');
      FromLast(s, '\U{10000}');
    }
  }

  lemma {:induction false} TrimLeftStarts(s: string)
    ensures TrimLeft(s) != [] ==> !IsSpace(TrimLeft(s)[0])
    decreases |s|
  {
    if s != [] && IsSpace(s[0]) {
      TrimLeftStarts(s[1..]);
    }
  }

  lemma {:induction false} TrimRightEnds(s: string)
    ensures var t := TrimRight(s);
      t != [] ==> t[0] == s[0] && |t| <= |s| && !IsSpace(t[|t| - 1])
    decreases |s|
  {
    if s != [] && IsSpace(s[|s| - 1]) {
      TrimRightEnds(s[..|s| - 1]);
    }
  }

  /** What TrimSpace returns has no space at either end, and a string without such spaces is returned as it is. */
  lemma TrimSpaceTrims(s: string)
    ensures Trimmed(TrimSpace(s))
    ensures Trimmed(s) ==> TrimSpace(s) == s
  {
    TrimLeftStarts(s);
    TrimRightEnds(TrimLeft(s));
  }

  /** Lowercasing is idempotent and leaves spaces where they are. */
  lemma ToLowerStable(s: string)
    ensures ToLower(ToLower(s)) == ToLower(s)
    ensures Trimmed(s) ==> Trimmed(ToLower(s))
  {
  }

  predicate Blank(s: string) {
    forall c <- s :: IsSpace(c)
  }

  lemma {:induction false} TrimLeftPad(pad: string, s: string)
    requires Blank(pad)
    ensures TrimLeft(pad + s) == TrimLeft(s)
    decreases |pad|
  {
    if pad == [] {
      assert pad + s == s;
    } else {
      assert (pad + s)[1..] == pad[1..] + s;
      TrimLeftPad(pad[1..], s);
    }
  }

  lemma {:induction false} TrimRightPad(s: string, pad: string)
    requires Blank(pad)
    ensures TrimRight(s + pad) == TrimRight(s)
    decreases |pad|
  {
    if pad == [] {
      assert s + pad == s;
    } else {
      assert (s + pad)[..|s + pad| - 1] == s + pad[..|pad| - 1];
      TrimRightPad(s, pad[..|pad| - 1]);
    }
  }

  lemma {:induction false} TrimLeftBefore(s: string, pad: string)
    requires Blank(pad)
    ensures TrimLeft(s + pad) == if TrimLeft(s) == [] then [] else TrimLeft(s) + pad
    decreases |s|
  {
    if s == [] {
      TrimLeftPad(pad, []);
      assert pad + [] == pad && s + pad == pad;
    } else if IsSpace(s[0]) {
      assert (s + pad)[1..] == s[1..] + pad;
      TrimLeftBefore(s[1..], pad);
    }
  }

  /** Spaces around a string make no difference to its trimmed form. */
  lemma TrimSpacePads(before: string, s: string, after: string)
    requires Blank(before) && Blank(after)
    ensures TrimSpace(before + s + after) == TrimSpace(s)
  {
    assert before + s + after == before + (s + after);
    TrimLeftPad(before, s + after);
    TrimLeftBefore(s, after);
    TrimRightPad(TrimLeft(s), after);
  }

  lemma {:induction false} TrimLeftLower(s: string)
    ensures TrimLeft(ToLower(s)) == ToLower(TrimLeft(s))
    decreases |s|
  {
    if s != [] && IsSpace(s[0]) {
      assert ToLower(s)[1..] == ToLower(s[1..]);
      TrimLeftLower(s[1..]);
    }
  }

  lemma {:induction false} TrimRightLower(s: string)
    ensures TrimRight(ToLower(s)) == ToLower(TrimRight(s))
    decreases |s|
  {
    if s != [] && IsSpace(s[|s| - 1]) {
      assert ToLower(s)[..|s| - 1] == ToLower(s[..|s| - 1]);
      TrimRightLower(s[..|s| - 1]);
    }
  }

  /** Trimming and lowercasing may be done in either order. */
  lemma TrimSpaceLower(s: string)
    ensures TrimSpace(ToLower(s)) == ToLower(TrimSpace(s))
  {
    TrimLeftLower(s);
    TrimRightLower(TrimLeft(s));
  }

  // ---- the same, by what comes out ----

  /** n is raw without the spaces at its ends. */
  ghost predicate TrimOf(raw: string, n: string) {
    Trimmed(n) && exists before, after :: Blank(before) && Blank(after) && raw == before + n + after
  }

  /** e is n with its ASCII capitals lowered. */
  predicate LowerOf(n: string, e: string) {
    |e| == |n| && forall i | 0 <= i < |n| :: e[i] == if 'A' <= n[i] <= 'Z' then n[i] - 'A' + 'a' else n[i]
  }

  lemma {:induction false} TrimLeftCuts(s: string) returns (pad: string)
    ensures Blank(pad) && s == pad + TrimLeft(s)
    decreases |s|
  {
    if s != [] && IsSpace(s[0]) {
      pad := TrimLeftCuts(s[1..]);
      pad := [s[0]] + pad;
    } else {
      pad := [];
    }
  }

  lemma {:induction false} TrimRightCuts(s: string) returns (pad: string)
    ensures Blank(pad) && s == TrimRight(s) + pad
    decreases |s|
  {
    if s != [] && IsSpace(s[|s| - 1]) {
      pad := TrimRightCuts(s[..|s| - 1]);
      pad := pad + [s[|s| - 1]];
    } else {
      pad := [];
    }
  }

  /** A string has one trimmed form, and TrimSpace finds it. */
  lemma TrimSpaceIs(raw: string, n: string)
    ensures TrimOf(raw, n) <==> n == TrimSpace(raw)
  {
    TrimSpaceTrims(raw);
    var before := TrimLeftCuts(raw);
    var after := TrimRightCuts(TrimLeft(raw));
    assert raw == before + TrimSpace(raw) + after;
    if TrimOf(raw, n) {
      var b, a :| Blank(b) && Blank(a) && raw == b + n + a;
      TrimSpacePads(b, n, a);
      TrimSpaceTrims(n);
    }
  }

  lemma ToLowerIs(n: string, e: string)
    ensures LowerOf(n, e) <==> e == ToLower(n)
  {
  }
}
