/** The tags of multipart parts: quotes around them, letter case, and their hexadecimal digits. */
module PartTags {
  import opened Bytes

  function TrimQuotes(s: string): string {
    if s != [] && s[0] == '"' then TrimQuotes(s[1..])
    else if s != [] && s[|s| - 1] == '"' then TrimQuotes(s[..|s| - 1])
    else s
  }

  function Lower(c: char): char {
    if 'A' <= c <= 'Z' then c - 'A' + 'a' else c
  }

  predicate EqualFold(a: string, b: string) {
    |a| == |b| && forall i :: 0 <= i < |a| ==> Lower(a[i]) == Lower(b[i])
  }

  function HexDigit(c: char): Option<nat> {
    if '0' <= c <= '9' then Some((c - '0') as nat)
    else if 'a' <= c <= 'f' then Some((c - 'a') as nat + 10)
    else if 'A' <= c <= 'F' then Some((c - 'A') as nat + 10)
    else None
  }

  function HexDecode(s: string): Option<bytes> {
    if s == [] then Some([])
    else if |s| == 1 then None
    else
      var hi, lo, rest := HexDigit(s[0]), HexDigit(s[1]), HexDecode(s[2..]);
      if hi.None? || lo.None? || rest.None? || hi.value * 16 + lo.value > 255 then None
      else Some([hi.value * 16 + lo.value] + rest.value)
  }

  // ---------------------------------------------------------------- what they mean

  ghost predicate Quotes(s: string) {
    forall i :: 0 <= i < |s| ==> s[i] == '"'
  }

  /** `s` is `t` between quotes, as many as there are on either side. */
  ghost predicate Quoted(s: string, before: string, t: string, after: string) {
    && s == before + t + after && Quotes(before) && Quotes(after)
    && (t != [] ==> t[0] != '"' && t[|t| - 1] != '"')
  }

  /** Trimming takes off all quotes in front and behind and nothing else. */
  lemma {:induction false} TrimMeans(s: string) returns (before: string, after: string)
    ensures Quoted(s, before, TrimQuotes(s), after)
    decreases |s|
  {
    if s != [] && s[0] == '"' {
      before, after := TrimMeans(s[1..]);
      assert s == [s[0]] + s[1..];
      before := [s[0]] + before;
    } else if s != [] && s[|s| - 1] == '"' {
      before, after := TrimMeans(s[..|s| - 1]);
      assert s == s[..|s| - 1] + [s[|s| - 1]];
      after := after + [s[|s| - 1]];
    } else {
      before, after := [], [];
    }
  }

  /** There is one way to take the quotes off. */
  lemma QuotedOnce(s: string, b: string, t: string, a: string, b': string, t': string, a': string)
    requires Quoted(s, b, t, a) && Quoted(s, b', t', a')
    ensures t == t'
  {
    if t == [] {
      AllQuotes(s, b, a, b', t', a');
    } else if t' == [] {
      AllQuotes(s, b', a', b, t, a);
    } else {
      FirstBare(s, b, t, a, b', t', a');
      FirstBare(s, b', t', a', b, t, a);
      LastBare(s, b, t, a, b', t', a');
      LastBare(s, b', t', a', b, t, a);
      assert t == s[|b|..|b| + |t|] && t' == s[|b'|..|b'| + |t'|];
    }
  }

  lemma AllQuotes(s: string, b: string, a: string, b': string, t': string, a': string)
    requires Quoted(s, b, [], a) && Quoted(s, b', t', a')
    ensures t' == []
  {
    assert forall i :: 0 <= i < |s| ==> s[i] == if i < |b| then b[i] else a[i - |b|];
    assert forall i :: 0 <= i < |t'| ==> s[i + |b'|] == t'[i];
  }

  lemma FirstBare(s: string, b: string, t: string, a: string, b': string, t': string, a': string)
    requires Quoted(s, b, t, a) && Quoted(s, b', t', a') && t != [] && t' != []
    ensures |b| <= |b'|
  {
    assert s[|b'|] == t'[0];
    assert forall i :: 0 <= i < |b| ==> s[i] == b[i];
  }

  lemma LastBare(s: string, b: string, t: string, a: string, b': string, t': string, a': string)
    requires Quoted(s, b, t, a) && Quoted(s, b', t', a') && t != [] && t' != []
    ensures |a| <= |a'|
  {
    var n := |s| - |a'| - 1;
    assert s[n] == t'[|t'| - 1];
    assert forall i :: |b| + |t| <= i < |s| ==> s[i] == a[i - |b| - |t|];
  }

  /** Two characters are the same letter or digit, whatever its case. */
  ghost predicate SameLetter(a: char, b: char) {
    || a == b
    || ('A' <= a <= 'Z' && b as int == a as int + 32)
    || ('A' <= b <= 'Z' && a as int == b as int + 32)
  }

  lemma FoldMeans(a: string, b: string)
    ensures EqualFold(a, b) <==> |a| == |b| && forall i :: 0 <= i < |a| ==> SameLetter(a[i], b[i])
  {
    forall i | 0 <= i < |a| && i < |b| ensures Lower(a[i]) == Lower(b[i]) <==> SameLetter(a[i], b[i]) {
      LowerMeans(a[i], b[i]);
    }
  }

  lemma LowerMeans(a: char, b: char)
    ensures Lower(a) == Lower(b) <==> SameLetter(a, b)
  {
  }

  /** `c` is the hexadecimal digit of value `v`, in either case. */
  ghost predicate Denotes(c: char, v: nat) {
    v < 16 && (c == "0123456789abcdef"[v] || c == "0123456789ABCDEF"[v])
  }

  ghost predicate Hexadecimal(c: char) {
    exists v: nat :: Denotes(c, v)
  }

  lemma DigitMeans(c: char)
    ensures HexDigit(c).Some? <==> Hexadecimal(c)
    ensures forall v: nat :: Denotes(c, v) <==> HexDigit(c) == Some(v)
  {
    forall v: nat ensures Denotes(c, v) <==> HexDigit(c) == Some(v) {
      DigitValue(c, v);
    }
    if HexDigit(c).Some? { assert Denotes(c, HexDigit(c).value); }
  }

  lemma DigitValue(c: char, v: nat)
    ensures Denotes(c, v) <==> HexDigit(c) == Some(v)
  {
    if v < 10 {
      assert "0123456789abcdef"[v] == '0' + v as char == "0123456789ABCDEF"[v];
    } else if v < 16 {
      assert "0123456789abcdef"[v] == 'a' + (v - 10) as char && "0123456789ABCDEF"[v] == 'A' + (v - 10) as char;
    }
  }

  /** Two digits to a byte, the higher one first. */
  ghost predicate Spells(s: string, data: bytes) {
    |s| == 2 * |data|
    && forall i :: 0 <= i < |data| ==> Denotes(s[2 * i], data[i] / 16) && Denotes(s[2 * i + 1], data[i] % 16)
  }

  ghost predicate AllHexadecimal(s: string) {
    forall i :: 0 <= i < |s| ==> Hexadecimal(s[i])
  }

  lemma AllSplit(s: string)
    requires |s| >= 2
    ensures AllHexadecimal(s) <==> Hexadecimal(s[0]) && Hexadecimal(s[1]) && AllHexadecimal(s[2..])
  {
    assert forall i :: 0 <= i < |s| - 2 ==> s[2..][i] == s[i + 2];
    if Hexadecimal(s[0]) && Hexadecimal(s[1]) && AllHexadecimal(s[2..]) {
      forall i | 0 <= i < |s| ensures Hexadecimal(s[i]) {
        assert i >= 2 ==> s[i] == s[2..][i - 2];
      }
    }
  }

  lemma {:induction false} DecodeStep(s: string)
    requires |s| >= 2
    ensures HexDecode(s).Some? <==> Hexadecimal(s[0]) && Hexadecimal(s[1]) && HexDecode(s[2..]).Some?
    ensures HexDecode(s).Some? && Spells(s[2..], HexDecode(s[2..]).value) ==> Spells(s, HexDecode(s).value)
  {
    DigitMeans(s[0]);
    DigitMeans(s[1]);
    var hi, lo, rest := HexDigit(s[0]), HexDigit(s[1]), HexDecode(s[2..]);
    if hi.Some? && lo.Some? && rest.Some? && Spells(s[2..], rest.value) {
      SpellsMore(s, rest.value, hi.value, lo.value);
    }
  }

  /** Decoding reads exactly the texts with an even number of hexadecimal digits, and gives the bytes they spell. */
  lemma {:induction false} DecodeMeans(s: string)
    ensures HexDecode(s).Some? ==> Spells(s, HexDecode(s).value)
    ensures HexDecode(s).Some? <==> |s| % 2 == 0 && AllHexadecimal(s)
  {
    if |s| >= 2 {
      DecodeMeans(s[2..]);
      DecodeStep(s);
      AllSplit(s);
    }
  }

  lemma SpellsMore(s: string, rest: bytes, hi: nat, lo: nat)
    requires |s| >= 2 && Spells(s[2..], rest) && Denotes(s[0], hi) && Denotes(s[1], lo) && hi * 16 + lo < 256
    ensures Spells(s, [hi * 16 + lo] + rest)
  {
    var data: bytes := [hi * 16 + lo] + rest;
    assert (hi * 16 + lo) / 16 == hi && (hi * 16 + lo) % 16 == lo;
    forall i | 0 <= i < |data| ensures Denotes(s[2 * i], data[i] / 16) && Denotes(s[2 * i + 1], data[i] % 16) {
      if i > 0 {
        assert s[2 * i] == s[2..][2 * (i - 1)] && s[2 * i + 1] == s[2..][2 * (i - 1) + 1];
      }
    }
  }

  /** A text spells at most one byte string. */
  lemma SpellsOnce(s: string, a: bytes, b: bytes)
    requires Spells(s, a) && Spells(s, b)
    ensures a == b
  {
    forall i | 0 <= i < |a| ensures a[i] == b[i] {
      DigitMeans(s[2 * i]);
      DigitMeans(s[2 * i + 1]);
      assert a[i] == a[i] / 16 * 16 + a[i] % 16;
    }
  }
}
