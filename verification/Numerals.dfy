/** Integer parsing and the ASCII text helpers around it. */
module Numerals {
  import opened Bytes

  const INT64_LIMIT: nat := 0x8000_0000_0000_0000

  const TAB: byte := 9
  const LF: byte := 10
  const VT: byte := 11
  const FF: byte := 12
  const CR: byte := 13
  const SPACE: byte := 32
  const PLUS: byte := 43
  const COMMA: byte := 44
  const MINUS: byte := 45
  const SEMICOLON: byte := 59

  // ---------------------------------------------------------------- digits

  function DigitValue(c: byte): nat {
    if 48 <= c <= 57 then c - 48
    else if 97 <= c <= 122 then c - 97 + 10
    else if 65 <= c <= 90 then c - 65 + 10
    else 99
  }

  function DigitChar(d: nat): byte
    requires d < 16
  {
    if d < 10 then 48 + d else 97 + d - 10
  }

  /** The value of an unsigned numeral, most significant digit first. */
  function NumeralValue(s: bytes, base: nat): Option<nat> {
    if s == [] then Some(0)
    else
      var front := NumeralValue(s[..|s| - 1], base);
      var d := DigitValue(s[|s| - 1]);
      if front.None? || d >= base then None else Some(front.value * base + d)
  }

  /** Signed 64-bit parse: an optional sign, at least one digit, and a value in range. */
  function ParseInt(s: bytes, base: nat): Option<int> {
    var neg := s != [] && s[0] == MINUS;
    var digits := if s != [] && (s[0] == MINUS || s[0] == PLUS) then s[1..] else s;
    if digits == [] then None
    else
      var v := NumeralValue(digits, base);
      if v.None? then None
      else if neg then if v.value <= INT64_LIMIT then Some(0 - v.value) else None
      else if v.value < INT64_LIMIT then Some(v.value) else None
  }

  /** The usual numeral of n, without leading zeros. */
  function Render(n: nat, base: nat): bytes
    requires 2 <= base <= 16
  {
    if n < base then [DigitChar(n)]
    else
      assert 0 <= n / base < n by { DivMod(n, base); }
      Render(n / base, base) + [DigitChar(n % base)]
  }

  lemma DivMod(n: nat, base: nat)
    requires base >= 2 && n >= 1
    ensures 0 <= n / base < n && 0 <= n % base < base && n == (n / base) * base + n % base
  {
    assert n == (n / base) * base + n % base;
    assert (n / base) * (base - 2) >= 0;
  }

  predicate IsDigit(c: byte) {
    48 <= c <= 57 || 97 <= c <= 102
  }

  lemma AppendDigit(s: bytes, d: nat, base: nat, v: nat)
    requires d < base <= 16 && NumeralValue(s, base) == Some(v)
    ensures NumeralValue(s + [DigitChar(d)], base) == Some(v * base + d)
  {
    assert (s + [DigitChar(d)])[..|s|] == s;
  }

  lemma {:induction false} RenderValue(n: nat, base: nat)
    requires 2 <= base <= 16
    ensures NumeralValue(Render(n, base), base) == Some(n)
    ensures Render(n, base) != []
    ensures forall i :: 0 <= i < |Render(n, base)| ==> IsDigit(Render(n, base)[i])
    decreases n
  {
    if n < base {
      AppendDigit([], n, base, 0);
      assert [] + [DigitChar(n)] == Render(n, base);
    } else {
      DivMod(n, base);
      var q, r := n / base, n % base;
      RenderValue(q, base);
      AppendDigit(Render(q, base), r, base, q);
    }
  }

  /** Parsing undoes rendering for every non-negative 64-bit value. */
  lemma ParseRendered(n: nat, base: nat)
    requires 2 <= base <= 16 && n < INT64_LIMIT
    ensures ParseInt(Render(n, base), base) == Some(n)
  {
    RenderValue(n, base);
    assert IsDigit(Render(n, base)[0]);
  }

  // ---------------------------------------------------------------- text

  predicate IsSpace(c: byte) {
    c == SPACE || TAB <= c <= CR
  }

  function TrimLeft(s: bytes): bytes {
    if s != [] && IsSpace(s[0]) then TrimLeft(s[1..]) else s
  }

  function TrimRight(s: bytes): bytes {
    if s != [] && IsSpace(s[|s| - 1]) then TrimRight(s[..|s| - 1]) else s
  }

  function TrimSpace(s: bytes): bytes {
    TrimRight(TrimLeft(s))
  }

  lemma TrimNothing(s: bytes)
    requires s == [] || (!IsSpace(s[0]) && !IsSpace(s[|s| - 1]))
    ensures TrimSpace(s) == s
  {
  }

  /** Space, tab, line feed, vertical tab, form feed or carriage return only. */
  ghost predicate Blank(s: bytes) {
    forall i :: 0 <= i < |s| ==> s[i] == 32 || 9 <= s[i] <= 13
  }

  lemma {:induction false} TrimPadded(l: bytes, x: bytes, r: bytes)
    requires Blank(l) && Blank(r) && x != [] && !IsSpace(x[0]) && !IsSpace(x[|x| - 1])
    ensures TrimSpace(l + x + r) == x
    decreases |l| + |r|
  {
    TrimLeftPad(l, x + r);
    assert l + x + r == l + (x + r);
    TrimRightPad(x, r);
  }

  lemma {:induction false} TrimLeftPad(l: bytes, x: bytes)
    requires Blank(l) && x != [] && !IsSpace(x[0])
    ensures TrimLeft(l + x) == x
  {
    if l == [] {
      assert l + x == x;
    } else {
      assert (l + x)[1..] == l[1..] + x;
      TrimLeftPad(l[1..], x);
    }
  }

  lemma {:induction false} TrimRightPad(x: bytes, r: bytes)
    requires Blank(r) && x != [] && !IsSpace(x[|x| - 1])
    ensures TrimRight(x + r) == x
  {
    if r == [] {
      assert x + r == x;
    } else {
      assert (x + r)[..|x + r| - 1] == x + r[..|r| - 1];
      TrimRightPad(x, r[..|r| - 1]);
    }
  }

  lemma {:induction false} TrimLeftSplits(s: bytes) returns (l: bytes)
    ensures Blank(l) && s == l + TrimLeft(s)
  {
    l := [];
    if s != [] && IsSpace(s[0]) {
      l := TrimLeftSplits(s[1..]);
      assert s == [s[0]] + s[1..];
      l := [s[0]] + l;
    }
  }

  lemma {:induction false} TrimRightSplits(s: bytes) returns (r: bytes)
    ensures Blank(r) && s == TrimRight(s) + r
  {
    r := [];
    if s != [] && IsSpace(s[|s| - 1]) {
      r := TrimRightSplits(s[..|s| - 1]);
      assert s == s[..|s| - 1] + [s[|s| - 1]];
      r := r + [s[|s| - 1]];
    }
  }

  lemma TrimSplits(s: bytes) returns (l: bytes, r: bytes)
    ensures Blank(l) && Blank(r) && s == l + TrimSpace(s) + r
  {
    l := TrimLeftSplits(s);
    r := TrimRightSplits(TrimLeft(s));
  }

  function IndexOf(s: bytes, c: byte): (r: Option<nat>)
    ensures r.Some? ==> r.value < |s| && s[r.value] == c && forall i :: 0 <= i < r.value ==> s[i] != c
    ensures r.None? ==> c !in s
  {
    if s == [] then None
    else if s[0] == c then Some(0)
    else
      var r := IndexOf(s[1..], c);
      if r.None? then None else Some(r.value + 1)
  }
}
