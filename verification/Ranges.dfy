/** The Range header: parsing against an object's size, compared with section 2.1 of RFC 7233. */
module Ranges {
  import opened Bytes
  import opened Numerals

  /** What the server does with a Range header. */
  datatype Answer = Ignored | Unsatisfiable | Partial(start: nat, end: nat)

  const BYTES_UNIT: bytes := [98, 121, 116, 101, 115, 61]

  function Suffix(text: bytes, size: nat): Answer {
    var n := ParseInt(text, 10);
    if n.None? || n.value <= 0 then Ignored
    else if size == 0 then Unsatisfiable
    else Partial(size - Min(n.value, size), size - 1)
  }

  function FirstLast(first: bytes, last: bytes, size: nat): Answer {
    var a := ParseInt(first, 10);
    if a.None? || a.value < 0 then Ignored
    else
      var b := if last == [] then Some(size - 1) else ParseInt(last, 10);
      if b.None? || (last != [] && b.value < a.value) then Ignored
      else if size == 0 || a.value >= size then Unsatisfiable
      else Partial(a.value, Min(b.value, size - 1))
  }

  /** One byte range; several, or anything malformed, is ignored and the whole object served. */
  function ParseByteRange(s: bytes, size: nat): (r: Answer)
    ensures r.Partial? ==> r.start <= r.end < size
  {
    if !(BYTES_UNIT <= s) then Ignored
    else
      var spec := TrimSpace(s[|BYTES_UNIT|..]);
      if spec == [] || COMMA in spec then Ignored
      else
        var dash := IndexOf(spec, MINUS);
        if dash.None? then Ignored
        else
          var first := TrimSpace(spec[..dash.value]);
          var last := TrimSpace(spec[dash.value + 1..]);
          if first == [] then Suffix(last, size) else FirstLast(first, last, size)
  }

  // ---------------------------------------------------------------- the standard's reading

  /** 1*DIGIT, leading zeros allowed. */
  predicate Digits(s: bytes) {
    s != [] && forall i :: 0 <= i < |s| ==> 48 <= s[i] <= 57
  }

  function Value(s: bytes): nat
    requires Digits(s)
  {
    DigitsHaveValue(s);
    NumeralValue(s, 10).value
  }

  /** byte-range-spec and suffix-byte-range-spec, with numbers of any length. */
  datatype Spec = FromTo(first: bytes, last: bytes) | From(first: bytes) | Last(n: bytes)

  predicate WellFormed(spec: Spec) {
    match spec
    case FromTo(a, b) => Digits(a) && Digits(b)
    case From(a) => Digits(a)
    case Last(n) => Digits(n)
  }

  function Header(spec: Spec): bytes {
    BYTES_UNIT +
    match spec
    case FromTo(a, b) => a + [MINUS] + b
    case From(a) => a + [MINUS]
    case Last(n) => [MINUS] + n
  }

  /** A spec whose last position precedes its first is invalid, and an invalid header is to be ignored. */
  predicate Invalid(spec: Spec)
    requires WellFormed(spec)
  {
    spec.FromTo? && Value(spec.last) < Value(spec.first)
  }

  /** Byte i of an object of that size is asked for. */
  predicate Wanted(spec: Spec, size: nat, i: nat)
    requires WellFormed(spec)
  {
    i < size &&
    match spec
    case FromTo(a, b) => Value(a) <= i <= Value(b)
    case From(a) => Value(a) <= i
    case Last(n) => size - i <= Value(n)
  }

  /** The answer selects exactly the wanted bytes, refuses when there are none, ignores an invalid spec. */
  ghost predicate Conforms(spec: Spec, size: nat, r: Answer)
    requires WellFormed(spec)
  {
    match r
    case Ignored => Invalid(spec)
    case Unsatisfiable => !Invalid(spec) && forall i: nat :: !Wanted(spec, size, i)
    case Partial(a, b) => !Invalid(spec) && a <= b && forall i: nat :: a <= i <= b <==> Wanted(spec, size, i)
  }

  /** The numbers fit a signed 64-bit integer and a suffix is not of length zero. */
  predicate Representable(spec: Spec)
    requires WellFormed(spec)
  {
    match spec
    case FromTo(a, b) => Value(a) < 0x8000_0000_0000_0000 && Value(b) < 0x8000_0000_0000_0000
    case From(a) => Value(a) < 0x8000_0000_0000_0000
    case Last(n) => 0 < Value(n) < 0x8000_0000_0000_0000
  }

  // ---------------------------------------------------------------- proofs

  lemma {:induction false} DigitsHaveValue(s: bytes)
    requires forall i :: 0 <= i < |s| ==> 48 <= s[i] <= 57
    ensures NumeralValue(s, 10).Some?
  {
    if s != [] { DigitsHaveValue(s[..|s| - 1]); }
  }

  lemma DigitsText(s: bytes)
    requires Digits(s)
    ensures TrimSpace(s) == s && MINUS !in s && COMMA !in s && !IsSpace(s[0]) && !IsSpace(s[|s| - 1])
    ensures ParseInt(s, 10) == if Value(s) < INT64_LIMIT then Some(Value(s)) else None
  {
    assert 48 <= s[0] <= 57 && 48 <= s[|s| - 1] <= 57;
    DigitsHaveValue(s);
    TrimNothing(s);
  }

  /** How a header splits at its dash, given clean text on both sides. */
  lemma {:induction false} Splits(a: bytes, b: bytes, size: nat)
    requires MINUS !in a && COMMA !in a && COMMA !in b
    requires TrimSpace(a) == a && TrimSpace(b) == b
    requires a != [] ==> !IsSpace(a[0])
    requires b != [] ==> !IsSpace(b[|b| - 1])
    ensures ParseByteRange(BYTES_UNIT + (a + [MINUS] + b), size)
         == if a == [] then Suffix(b, size) else FirstLast(a, b, size)
  {
    TrimNothing(a + [MINUS] + b);
    SplitsPadded([], a + [MINUS] + b, [], a, b, size);
  }

  /** The same when the parts carry white space around them. */
  lemma {:induction false} SplitsPadded(l: bytes, spec: bytes, r: bytes, x: bytes, y: bytes, size: nat)
    requires spec == x + [MINUS] + y && MINUS !in x && COMMA !in x && COMMA !in y && TrimSpace(l + spec + r) == spec
    ensures ParseByteRange(BYTES_UNIT + (l + spec + r), size)
         == if TrimSpace(x) == [] then Suffix(TrimSpace(y), size) else FirstLast(TrimSpace(x), TrimSpace(y), size)
  {
    var text := l + spec + r;
    assert (BYTES_UNIT + text)[|BYTES_UNIT|..] == text;
    assert (BYTES_UNIT + text)[..|BYTES_UNIT|] == BYTES_UNIT;
    DashAt(x, y);
    assert spec[..|x|] == x && spec[|x| + 1..] == y;
  }

  lemma {:induction false} DashAt(x: bytes, y: bytes)
    requires MINUS !in x && COMMA !in x && COMMA !in y
    ensures IndexOf(x + [MINUS] + y, MINUS) == Some(|x|) && COMMA !in x + [MINUS] + y
  {
    var spec := x + [MINUS] + y;
    assert spec[|x|] == MINUS && forall i :: 0 <= i < |x| ==> spec[i] == x[i];
  }

  lemma {:induction false} HeaderParses(spec: Spec, size: nat)
    requires WellFormed(spec)
    ensures ParseByteRange(Header(spec), size) ==
            match spec
            case FromTo(a, b) => FirstLast(a, b, size)
            case From(a) => FirstLast(a, [], size)
            case Last(n) => Suffix(n, size)
  {
    match spec
    case FromTo(a, b) => BothParse(a, b, size);
    case From(a) => FirstParses(a, size);
    case Last(n) => LastParses(n, size);
  }

  lemma {:induction false} BothParse(a: bytes, b: bytes, size: nat)
    requires Digits(a) && Digits(b)
    ensures ParseByteRange(BYTES_UNIT + (a + [MINUS] + b), size) == FirstLast(a, b, size)
  {
    DigitsText(a);
    DigitsText(b);
    Splits(a, b, size);
  }

  lemma {:induction false} FirstParses(a: bytes, size: nat)
    requires Digits(a)
    ensures ParseByteRange(BYTES_UNIT + (a + [MINUS]), size) == FirstLast(a, [], size)
  {
    DigitsText(a);
    Splits(a, [], size);
    assert a + [MINUS] + [] == a + [MINUS];
  }

  lemma {:induction false} LastParses(n: bytes, size: nat)
    requires Digits(n)
    ensures ParseByteRange(BYTES_UNIT + ([MINUS] + n), size) == Suffix(n, size)
  {
    DigitsText(n);
    Splits([], n, size);
    assert [] + [MINUS] + n == [MINUS] + n;
  }

  lemma FirstLastConforms(a: bytes, b: bytes, size: nat)
    requires Digits(a) && Digits(b)
    ensures Conforms(FromTo(a, b), size, FirstLast(a, b, size))
            <==> Representable(FromTo(a, b)) || Invalid(FromTo(a, b))
  {
    DigitsText(a);
    DigitsText(b);
    assert Value(a) < size && Value(a) <= Value(b) ==> Wanted(FromTo(a, b), size, Value(a));
  }

  lemma FirstConforms(a: bytes, size: nat)
    requires Digits(a)
    ensures Conforms(From(a), size, FirstLast(a, [], size)) <==> Representable(From(a))
  {
    DigitsText(a);
    assert Value(a) < size ==> Wanted(From(a), size, Value(a));
  }

  lemma SuffixConforms(n: bytes, size: nat)
    requires Digits(n)
    ensures Conforms(Last(n), size, Suffix(n, size)) <==> Representable(Last(n))
  {
    DigitsText(n);
    assert Value(n) > 0 && size > 0 ==> Wanted(Last(n), size, size - 1);
  }

  /**
   For every spec of the standard's grammar and every size, the parser does what the standard says
   exactly when the numbers are representable or the spec is invalid; otherwise, with a number of 2^63
   or more or a suffix of length 0, it ignores what it should have answered.
   */
  lemma ParserConforms(spec: Spec, size: nat)
    requires WellFormed(spec)
    ensures Conforms(spec, size, ParseByteRange(Header(spec), size)) <==> Representable(spec) || Invalid(spec)
  {
    HeaderParses(spec, size);
    match spec
    case FromTo(a, b) => FirstLastConforms(a, b, size);
    case From(a) => FirstConforms(a, size);
    case Last(n) => SuffixConforms(n, size);
  }

  // ---------------------------------------------------------------- more than the grammar

  /** A plus sign or none. */
  predicate Sign(s: bytes) {
    s == [] || s == [PLUS]
  }

  lemma {:induction false} SignedText(s: bytes, d: bytes)
    requires Sign(s) && Digits(d)
    ensures ParseInt(s + d, 10) == ParseInt(d, 10)
    ensures MINUS !in s + d && COMMA !in s + d && !IsSpace((s + d)[0]) && !IsSpace((s + d)[|s + d| - 1])
  {
    DigitsText(d);
    if s == [] { assert s + d == d; } else { assert (s + d)[1..] == d && (s + d)[0] == PLUS; }
    assert (s + d)[|s + d| - 1] == d[|d| - 1];
  }

  /** The one number for which a minus sign does not matter. */
  lemma NegatedZero(d: bytes)
    requires Digits(d) && Value(d) == 0
    ensures ParseInt([MINUS] + d, 10) == ParseInt(d, 10) == Some(0)
    ensures COMMA !in [MINUS] + d && !IsSpace(([MINUS] + d)[|d|])
  {
    DigitsText(d);
    assert ([MINUS] + d)[1..] == d && ([MINUS] + d)[|d|] == d[|d| - 1];
  }

  ghost predicate CleanText(x: bytes) {
    x != [] && !IsSpace(x[0]) && !IsSpace(x[|x| - 1]) && COMMA !in x
  }

  lemma {:induction false} PaddedNumber(l: bytes, x: bytes, r: bytes, padded: bytes)
    requires Blank(l) && Blank(r) && CleanText(x)
    requires padded == l + x + r
    ensures TrimSpace(padded) == x && COMMA !in padded && (MINUS !in x ==> MINUS !in padded)
  {
    TrimPadded(l, x, r);
  }

  lemma {:induction false} PaddedPair(p: bytes, a: bytes, q: bytes, r: bytes, b: bytes, u: bytes, size: nat)
    requires Blank(p) && Blank(q) && Blank(r) && Blank(u) && CleanText(a) && CleanText(b) && MINUS !in a
    ensures ParseByteRange(BYTES_UNIT + (p + (a + q + [MINUS] + (r + b)) + u), size) == FirstLast(a, b, size)
  {
    var x, y := a + q, r + b;
    var spec := x + [MINUS] + y;
    assert spec[0] == a[0] && spec[|spec| - 1] == b[|b| - 1];
    TrimPadded(p, spec, u);
    assert [] + a + q == x && r + b + [] == y;
    PaddedNumber([], a, q, x);
    PaddedNumber(r, b, [], y);
    SplitsPadded(p, spec, u, x, y, size);
  }

  lemma {:induction false} PaddedFirst(p: bytes, a: bytes, q: bytes, u: bytes, size: nat)
    requires Blank(p) && Blank(q) && Blank(u) && CleanText(a) && MINUS !in a
    ensures ParseByteRange(BYTES_UNIT + (p + (a + q + [MINUS]) + u), size) == FirstLast(a, [], size)
  {
    var x := a + q;
    var spec := x + [MINUS];
    assert spec[0] == a[0] && spec[|spec| - 1] == MINUS;
    TrimPadded(p, spec, u);
    assert [] + a + q == x && x + [MINUS] + [] == spec;
    PaddedNumber([], a, q, x);
    SplitsPadded(p, spec, u, x, [], size);
  }

  lemma {:induction false} PaddedLast(p: bytes, r: bytes, b: bytes, u: bytes, size: nat)
    requires Blank(p) && Blank(r) && Blank(u) && CleanText(b)
    ensures ParseByteRange(BYTES_UNIT + (p + ([MINUS] + (r + b)) + u), size) == Suffix(b, size)
  {
    var y := r + b;
    var spec := [MINUS] + y;
    assert spec[0] == MINUS && spec[|spec| - 1] == b[|b| - 1];
    TrimPadded(p, spec, u);
    assert r + b + [] == y && [] + [MINUS] + y == spec;
    PaddedNumber(r, b, [], y);
    SplitsPadded(p, spec, u, [], y, size);
  }

  /** Where a lenient header may carry white space (before, around the dash, behind) and signs. */
  datatype Slack = Slack(front: bytes, plus1: bytes, left: bytes, right: bytes, plus2: bytes, back: bytes)

  /** Plus signs, and a minus sign before a last position of zero. */
  ghost predicate Allowed(spec: Spec, z: Slack)
    requires WellFormed(spec)
  {
    && Blank(z.front) && Sign(z.plus1) && Blank(z.left) && Blank(z.right) && Blank(z.back)
    && (Sign(z.plus2) || (z.plus2 == [MINUS] && spec.FromTo? && Value(spec.last) == 0))
  }

  function LenientHeader(spec: Spec, z: Slack): bytes {
    BYTES_UNIT +
    match spec
    case FromTo(a, b) => z.front + ((z.plus1 + a) + z.left + [MINUS] + (z.right + (z.plus2 + b))) + z.back
    case From(a) => z.front + ((z.plus1 + a) + z.left + [MINUS]) + z.back
    case Last(n) => z.front + ([MINUS] + (z.right + (z.plus2 + n))) + z.back
  }

  lemma {:induction false} SameNumbers(spec: Spec, z: Slack, size: nat)
    requires WellFormed(spec) && Allowed(spec, z)
    ensures match spec
            case FromTo(a, b) => FirstLast(z.plus1 + a, z.plus2 + b, size) == FirstLast(a, b, size)
            case From(a) => FirstLast(z.plus1 + a, [], size) == FirstLast(a, [], size)
            case Last(n) => Suffix(z.plus2 + n, size) == Suffix(n, size)
  {
    match spec
    case FromTo(a, b) =>
      SignedText(z.plus1, a);
      LastText(spec, z);
    case From(a) => SignedText(z.plus1, a);
    case Last(n) => SignedText(z.plus2, n);
  }

  lemma LastText(spec: Spec, z: Slack)
    requires WellFormed(spec) && Allowed(spec, z) && spec.FromTo?
    ensures ParseInt(z.plus2 + spec.last, 10) == ParseInt(spec.last, 10) && CleanText(z.plus2 + spec.last)
  {
    if Sign(z.plus2) {
      SignedText(z.plus2, spec.last);
    } else {
      NegatedZero(spec.last);
    }
  }

  /** What the grammar does not allow and the parser does, in all three forms: signs, and white space around. */
  lemma {:induction false} LenientHeaders(spec: Spec, z: Slack, size: nat)
    requires WellFormed(spec) && Allowed(spec, z)
    ensures ParseByteRange(LenientHeader(spec, z), size) == ParseByteRange(Header(spec), size)
  {
    HeaderParses(spec, size);
    SameNumbers(spec, z, size);
    match spec
    case FromTo(a, b) =>
      SignedText(z.plus1, a);
      LastText(spec, z);
      PaddedPair(z.front, z.plus1 + a, z.left, z.right, z.plus2 + b, z.back, size);
    case From(a) =>
      SignedText(z.plus1, a);
      PaddedFirst(z.front, z.plus1 + a, z.left, z.back, size);
    case Last(n) =>
      SignedText(z.plus2, n);
      PaddedLast(z.front, z.right, z.plus2 + n, z.back, size);
  }

  // ---------------------------------------------------------------- nothing else is a range

  /** The header reads as that spec: the unit, the spec with allowed slack, and numbers that make sense. */
  ghost predicate Reads(s: bytes, spec: Spec, z: Slack) {
    && WellFormed(spec) && Allowed(spec, z) && s == LenientHeader(spec, z)
    && Representable(spec) && !Invalid(spec)
  }

  ghost predicate ReadsAs(s: bytes, spec: Spec) {
    exists z :: Reads(s, spec, z)
  }

  lemma {:induction false} ValueHasDigits(s: bytes)
    requires NumeralValue(s, 10).Some?
    ensures forall i :: 0 <= i < |s| ==> 48 <= s[i] <= 57
  {
    if s != [] { ValueHasDigits(s[..|s| - 1]); }
  }

  /** A text that parses is a sign or none, and digits of that value. */
  lemma ParsedText(s: bytes) returns (sign: bytes, d: bytes)
    requires ParseInt(s, 10).Some?
    ensures s == sign + d && Digits(d) && (sign == [] || sign == [PLUS] || sign == [MINUS])
    ensures Value(d) < INT64_LIMIT || sign == [MINUS]
    ensures ParseInt(s, 10).value == if sign == [MINUS] then 0 - Value(d) else Value(d)
  {
    sign := if s[0] == MINUS || s[0] == PLUS then [s[0]] else [];
    d := if sign == [] then s else s[1..];
    assert s == sign + d;
    ValueHasDigits(d);
  }

  lemma ReadLast(l: bytes, x: bytes, y: bytes, r: bytes) returns (spec: Spec, z: Slack)
    requires Blank(l) && Blank(r) && TrimSpace(x) == [] && ParseInt(TrimSpace(y), 10).Some?
             && ParseInt(TrimSpace(y), 10).value > 0
    ensures Reads(BYTES_UNIT + (l + (x + [MINUS] + y) + r), spec, z) && spec.Last?
  {
    var l1, r1 := TrimSplits(x);
    var l2, r2 := TrimSplits(y);
    var sign, d := ParsedText(TrimSpace(y));
    spec, z := Last(d), Slack(l + l1 + r1, [], [], l2, sign, r2 + r);
    assert l + (x + [MINUS] + y) + r == z.front + ([MINUS] + (z.right + (z.plus2 + d))) + z.back;
  }

  lemma ReadFirst(l: bytes, x: bytes, y: bytes, r: bytes) returns (spec: Spec, z: Slack)
    requires Blank(l) && Blank(r) && MINUS !in x && TrimSpace(y) == []
    requires ParseInt(TrimSpace(x), 10).Some? && ParseInt(TrimSpace(x), 10).value >= 0
    ensures Reads(BYTES_UNIT + (l + (x + [MINUS] + y) + r), spec, z) && spec.From?
  {
    var l1, r1 := TrimSplits(x);
    var l2, r2 := TrimSplits(y);
    var sign, d := ParsedText(TrimSpace(x));
    NoMinus(x, l1, sign, d, r1);
    spec, z := From(d), Slack(l + l1, sign, r1, [], [], l2 + r2 + r);
    assert l + (x + [MINUS] + y) + r == z.front + ((z.plus1 + d) + z.left + [MINUS]) + z.back;
  }

  lemma NoMinus(x: bytes, l: bytes, sign: bytes, d: bytes, r: bytes)
    requires x == l + (sign + d) + r && MINUS !in x
    ensures sign != [MINUS]
  {
    assert sign != [] ==> x[|l|] == sign[0] && x[|l|] in x;
  }

  lemma ReadBoth(l: bytes, x: bytes, y: bytes, r: bytes) returns (spec: Spec, z: Slack)
    requires Blank(l) && Blank(r) && MINUS !in x
    requires ParseInt(TrimSpace(x), 10).Some? && ParseInt(TrimSpace(x), 10).value >= 0
    requires ParseInt(TrimSpace(y), 10).Some? && ParseInt(TrimSpace(y), 10).value >= ParseInt(TrimSpace(x), 10).value
    ensures Reads(BYTES_UNIT + (l + (x + [MINUS] + y) + r), spec, z) && spec.FromTo?
  {
    var l1, r1 := TrimSplits(x);
    var l2, r2 := TrimSplits(y);
    var s1, a := ParsedText(TrimSpace(x));
    var s2, b := ParsedText(TrimSpace(y));
    NoMinus(x, l1, s1, a, r1);
    spec, z := FromTo(a, b), Slack(l + l1, s1, r1, l2, s2, r2 + r);
    Regroup(l, l1, s1 + a, r1, l2, s2 + b, r2, r);
  }

  lemma Regroup(l: bytes, l1: bytes, m: bytes, r1: bytes, l2: bytes, n: bytes, r2: bytes, r: bytes)
    ensures l + ((l1 + m + r1) + [MINUS] + (l2 + n + r2)) + r
         == (l + l1) + (m + r1 + [MINUS] + (l2 + n)) + (r2 + r)
  {
  }

  /** Whatever is not ignored reads as a spec. */
  lemma AnswerReads(s: bytes, size: nat)
    requires !ParseByteRange(s, size).Ignored?
    ensures exists spec :: ReadsAs(s, spec)
  {
    var text := s[|BYTES_UNIT|..];
    assert s == BYTES_UNIT + text;
    var l, r := TrimSplits(text);
    var body := TrimSpace(text);
    var dash := IndexOf(body, MINUS).value;
    var x, y := body[..dash], body[dash + 1..];
    assert body == x + [MINUS] + y;
    assert MINUS !in x;
    ghost var spec, z;
    if TrimSpace(x) == [] {
      spec, z := ReadLast(l, x, y, r);
    } else if TrimSpace(y) == [] {
      spec, z := ReadFirst(l, x, y, r);
    } else {
      spec, z := ReadBoth(l, x, y, r);
    }
    assert Reads(s, spec, z);
    assert ReadsAs(s, spec);
  }

  /** The parser, said outright: it answers exactly the headers that read as a spec, and as that spec asks. */
  lemma ParserMeans(s: bytes, size: nat)
    ensures ParseByteRange(s, size).Ignored? <==> forall spec :: !ReadsAs(s, spec)
    ensures forall spec :: ReadsAs(s, spec) ==> Conforms(spec, size, ParseByteRange(s, size))
  {
    if !ParseByteRange(s, size).Ignored? {
      AnswerReads(s, size);
    }
    forall spec | ReadsAs(s, spec) ensures WellFormed(spec) && Conforms(spec, size, ParseByteRange(s, size)) {
      var z :| Reads(s, spec, z);
      LenientHeaders(spec, z, size);
      ParserConforms(spec, size);
    }
  }

  /** No unit, a comma anywhere, or no dash: not a range. */
  lemma NotARange(s: bytes, spec: Spec)
    requires |s| < 6 || s[..6] != [98, 121, 116, 101, 115, 61] || 44 in s || 45 !in s
    ensures !ReadsAs(s, spec)
  {
    if ReadsAs(s, spec) {
      var z :| Reads(s, spec, z);
      LenientShape(spec, z);
    }
  }

  lemma LenientShape(spec: Spec, z: Slack)
    requires WellFormed(spec) && Allowed(spec, z)
    ensures var s := LenientHeader(spec, z);
            |s| >= 6 && s[..6] == [98, 121, 116, 101, 115, 61] && 44 !in s && 45 in s
  {
    match spec
    case FromTo(a, b) =>
      PlainText(z.plus1, a);
      PlainText(z.plus2, b);
      UnitThen(z.front, z.plus1 + a + z.left, z.right + (z.plus2 + b), z.back);
    case From(a) =>
      PlainText(z.plus1, a);
      UnitThen(z.front, z.plus1 + a + z.left, [], z.back);
      assert z.plus1 + a + z.left + [MINUS] + [] == z.plus1 + a + z.left + [MINUS];
    case Last(n) =>
      PlainText(z.plus2, n);
      UnitThen(z.front, [], z.right + (z.plus2 + n), z.back);
      assert [] + [MINUS] + (z.right + (z.plus2 + n)) == [MINUS] + (z.right + (z.plus2 + n));
  }

  lemma PlainText(sign: bytes, d: bytes)
    requires Digits(d) && (Sign(sign) || sign == [MINUS])
    ensures 44 !in sign + d
  {
  }

  lemma UnitThen(front: bytes, x: bytes, y: bytes, back: bytes)
    requires 44 !in front && 44 !in x && 44 !in y && 44 !in back
    ensures var s := BYTES_UNIT + (front + (x + [MINUS] + y) + back);
            |s| >= 6 && s[..6] == [98, 121, 116, 101, 115, 61] && 44 !in s && 45 in s
  {
    var s := BYTES_UNIT + (front + (x + [MINUS] + y) + back);
    assert s[6 + |front| + |x|] == 45;
  }

  /** Decimal notation: a digit's own value, and ten times what stands before it. */
  lemma DecimalValue(s: bytes, d: byte)
    requires (s == [] || Digits(s)) && 48 <= d <= 57
    ensures Digits(s + [d]) && Value(s + [d]) == (if s == [] then 0 else 10 * Value(s)) + (d - 48)
  {
    var now := s + [d];
    assert now[..|now| - 1] == s && now[|now| - 1] == d;
    DigitsHaveValue(s);
    DigitsHaveValue(now);
    assert NumeralValue(now, 10) == Some(NumeralValue(s, 10).value * 10 + DigitValue(d));
  }
}
