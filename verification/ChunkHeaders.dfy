/** Which lines announce the size of a chunk, and which size. */
module ChunkHeaders {
  import opened Bytes
  import opened Numerals
  import opened Framing

  ghost predicate HexDigit(c: byte) {
    48 <= c <= 57 || 65 <= c <= 70 || 97 <= c <= 102
  }

  ghost predicate HexDigits(s: bytes) {
    s != [] && forall i :: 0 <= i < |s| ==> HexDigit(s[i])
  }

  lemma {:induction false} HexHasValue(s: bytes)
    ensures NumeralValue(s, 16).Some? <==> s == [] || HexDigits(s)
  {
    if s != [] {
      var front := s[..|s| - 1];
      HexHasValue(front);
      assert forall i :: 0 <= i < |front| ==> s[i] == front[i];
    }
  }

  ghost function HexNumber(s: bytes): nat
    requires HexDigits(s)
  {
    HexHasValue(s);
    NumeralValue(s, 16).value
  }

  /** Hexadecimal notation: a digit's own value, and sixteen times what stands before it. */
  lemma HexNotation(s: bytes, d: byte)
    requires (s == [] || HexDigits(s)) && HexDigit(d)
    ensures HexDigits(s + [d])
    ensures HexNumber(s + [d]) == (if s == [] then 0 else 16 * HexNumber(s))
                                  + (if d <= 57 then d - 48 else if d <= 70 then d - 55 else d - 87)
  {
    var now := s + [d];
    assert now[..|now| - 1] == s && now[|now| - 1] == d;
    HexHasValue(s);
    HexHasValue(now);
    assert NumeralValue(now, 16) == Some(NumeralValue(s, 16).value * 16 + DigitValue(d));
  }

  /** A number in hexadecimal digits below 2^63, perhaps with a sign and white space, and perhaps an extension. */
  datatype Line = Line(front: bytes, sign: bytes, digits: bytes, back: bytes, ext: bytes)

  ghost function LineText(h: Line): bytes {
    h.front + (h.sign + h.digits) + h.back + h.ext
  }

  ghost predicate Announcing(h: Line, n: nat) {
    && Blank(h.front) && Blank(h.back) && HexDigits(h.digits) && HexNumber(h.digits) == n < 0x8000_0000_0000_0000
    && (h.sign == [] || h.sign == [43] || (h.sign == [45] && n == 0))
    && (h.ext == [] || h.ext[0] == 59)
  }

  ghost predicate Announces(line: bytes, n: nat) {
    exists h :: line == LineText(h) && Announcing(h, n)
  }

  ghost predicate AnnouncesNothing(line: bytes) {
    forall n: nat :: !Announces(line, n)
  }

  lemma SignedNumber(h: Line, n: nat)
    requires Announcing(h, n)
    ensures var x := h.sign + h.digits;
            && ParseInt(x, 16) == Some(n) && x != [] && !IsSpace(x[0]) && !IsSpace(x[|x| - 1])
            && x[|x| - 1] != CR && x[|x| - 1] != LF
            && SEMICOLON !in h.front + x + h.back
  {
    var x := h.sign + h.digits;
    HexHasValue(h.digits);
    assert HexDigit(h.digits[0]) && HexDigit(h.digits[|h.digits| - 1]);
    assert x[|x| - 1] == h.digits[|h.digits| - 1];
    if h.sign == [] { assert x == h.digits; } else { assert x[1..] == h.digits && x[0] == h.sign[0]; }
    assert SEMICOLON !in h.digits;
  }

  /** Up to the first semicolon. */
  lemma CutAt(text: bytes, ext: bytes)
    requires SEMICOLON !in text && (ext == [] || ext[0] == SEMICOLON)
    ensures CutExtension(text + ext) == text
  {
    var line := text + ext;
    assert forall i :: 0 <= i < |text| ==> line[i] == text[i];
    if ext == [] { assert line == text; } else { assert line[|text|] == SEMICOLON; }
    assert line[..|text|] == text;
  }

  /** What dropping the line end and the extension leaves of an announcing line. */
  lemma LineCut(text: bytes, back: bytes, ext: bytes) returns (r: bytes)
    requires text != [] && text[|text| - 1] != CR && text[|text| - 1] != LF && Blank(back)
    requires SEMICOLON !in text + back && (ext == [] || ext[0] == SEMICOLON)
    ensures Blank(r) && CutExtension(DropLineEnd(text + back + ext)) == text + r
  {
    assert text + back + ext == text + (back + ext);
    DropLineEndPrefix(text, back + ext);
    var rest :| DropLineEnd(text + (back + ext)) == text + rest && rest <= back + ext;
    if |rest| <= |back| {
      r := rest;
      assert rest == back[..|rest|];
      assert forall i :: 0 <= i < |rest| ==> rest[i] == (text + back)[|text| + i];
      CutAt(text + rest, []);
      assert text + rest + [] == text + rest;
    } else {
      r := back;
      var e := rest[|back|..];
      assert rest == back + e && e[0] == ext[0];
      CutAt(text + back, e);
      assert text + back + e == text + rest;
    }
  }

  lemma AnnouncedIsRead(h: Line, n: nat)
    requires Announcing(h, n)
    ensures HeaderValue(LineText(h)) == Some(n)
  {
    var x := h.sign + h.digits;
    SignedNumber(h, n);
    var text := h.front + x;
    assert text[|text| - 1] == x[|x| - 1];
    var r := LineCut(text, h.back, h.ext);
    TrimPadded(h.front, x, r);
  }

  lemma {:induction false} LineEndSplits(line: bytes) returns (e: bytes)
    ensures Blank(e) && line == DropLineEnd(line) + e
  {
    e := [];
    if line != [] && (line[|line| - 1] == LF || line[|line| - 1] == CR) {
      e := LineEndSplits(line[..|line| - 1]);
      assert line == line[..|line| - 1] + [line[|line| - 1]];
      e := e + [line[|line| - 1]];
    }
  }

  lemma ExtensionSplits(line: bytes) returns (ext: bytes)
    ensures line == CutExtension(line) + ext && (ext == [] || ext[0] == SEMICOLON)
  {
    var i := IndexOf(line, SEMICOLON);
    ext := if i.Some? then line[i.value..] else [];
  }

  lemma ParsedHex(s: bytes) returns (sign: bytes, d: bytes)
    requires ParseInt(s, 16).Some? && ParseInt(s, 16).value >= 0
    ensures s == sign + d && HexDigits(d) && HexNumber(d) == ParseInt(s, 16).value < 0x8000_0000_0000_0000
    ensures sign == [] || sign == [43] || (sign == [45] && HexNumber(d) == 0)
  {
    sign := if s[0] == MINUS || s[0] == PLUS then [s[0]] else [];
    d := if sign == [] then s else s[1..];
    assert s == sign + d;
    HexHasValue(d);
  }

  lemma ReadIsAnnounced(line: bytes) returns (h: Line)
    requires HeaderValue(line).Some?
    ensures line == LineText(h) && Announcing(h, HeaderValue(line).value)
  {
    var e := LineEndSplits(line);
    var ext := ExtensionSplits(DropLineEnd(line));
    var text := CutExtension(DropLineEnd(line));
    var l, r := TrimSplits(text);
    var sign, d := ParsedHex(TrimSpace(text));
    if ext == [] {
      h := Line(l, sign, d, r + e, []);
    } else {
      h := Line(l, sign, d, r, ext + e);
    }
    assert line == LineText(h);
  }

  /** A header line is read as a size exactly when it announces that size. */
  lemma HeaderMeans(line: bytes, n: nat)
    ensures HeaderValue(line) == Some(n) <==> Announces(line, n)
  {
    if HeaderValue(line) == Some(n) {
      var h := ReadIsAnnounced(line);
    }
    if Announces(line, n) {
      var h :| line == LineText(h) && Announcing(h, n);
      AnnouncedIsRead(h, n);
    }
  }
}
