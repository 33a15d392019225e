/**
The decimal text form of money: parsing, printing, and their agreement.
 */
module MoneyText {
  import opened Money

  // ---------------------------------------------------------------------------------------
  // Characters and numerals
  // ---------------------------------------------------------------------------------------

  /** White space as trimmed from both ends of the input. */
  predicate IsSpace(c: char) {
    || '\U{0009}' <= c <= '\U{000D}' || c == ' ' || c == '\U{0085}' || c == '\U{00A0}' || c == '\U{1680}'
    || '\U{2000}' <= c <= '\U{200A}' || c == '\U{2028}' || c == '\U{2029}' || c == '\U{202F}' || c == '\U{205F}'
    || c == '\U{3000}'
  }

  /** The code points with the Unicode property White_Space. */
  const WHITE_SPACE: set<int> :=
    {9, 10, 11, 12, 13, 32, 0x85, 0xA0, 0x1680, 0x2000, 0x2001, 0x2002, 0x2003, 0x2004, 0x2005, 0x2006, 0x2007, 0x2008,
     0x2009, 0x200A, 0x2028, 0x2029, 0x202F, 0x205F, 0x3000}

  lemma SpaceIsWhiteSpace(c: char)
    ensures IsSpace(c) <==> c as int in WHITE_SPACE
  {
  }

  predicate IsDigit(c: char) {
    '0' <= c <= '9'
  }

  predicate Digits(s: string) {
    forall i :: 0 <= i < |s| ==> IsDigit(s[i])
  }

  /** Whether s is a non-empty string of digits. */
  method AllDigits(s: string) returns (r: bool)
    ensures r <==> s != "" && Digits(s)
  {
    if s == "" {
      return false;
    }
    var i := 0;
    while i < |s|
      invariant 0 <= i <= |s| && Digits(s[..i])
    {
      if s[i] < '0' || s[i] > '9' {
        return false;
      }
      i := i + 1;
    }
    return true;
  }

  function DigitValue(c: char): (v: nat)
    requires IsDigit(c)
  {
    c as nat - '0' as nat
  }

  /** The number a string of digits spells. */
  function Value(s: string): (v: nat)
    requires Digits(s)
  {
    if s == "" then 0 else 10 * Value(s[..|s| - 1]) + DigitValue(s[|s| - 1])
  }

  function Pow10(n: nat): (p: nat)
    ensures p > 0
  {
    if n == 0 then 1 else 10 * Pow10(n - 1)
  }

  function Zeros(n: nat): (s: string)
    ensures |s| == n && Digits(s)
  {
    seq(n, _ => '0')
  }

  /** The decimal numeral of a natural number. */
  function Numeral(n: nat): (s: string)
    ensures s != "" && Digits(s)
    decreases n
  {
    if n < 10 then [('0' as nat + n) as char] else Numeral(n / 10) + [('0' as nat + n % 10) as char]
  }

  lemma {:induction false} NumeralSpells(n: nat)
    ensures Value(Numeral(n)) == n
    decreases n
  {
    if n >= 10 {
      NumeralSpells(n / 10);
      var s := Numeral(n);
      assert s[..|s| - 1] == Numeral(n / 10);
    } else {
      assert Numeral(n)[..0] == "";
    }
  }

  lemma {:induction false} NumeralLength(n: nat, k: nat)
    requires k > 0 && n < Pow10(k)
    ensures |Numeral(n)| <= k
    decreases k
  {
    if n >= 10 {
      NumeralLength(n / 10, k - 1);
    }
  }

  lemma {:induction false} ValueAppends(a: string, b: string)
    requires Digits(a) && Digits(b)
    ensures Digits(a + b)
    ensures Value(a + b) == Value(a) * Pow10(|b|) + Value(b)
    decreases |b|
  {
    if b == "" {
      assert a + b == a;
    } else {
      var init := b[..|b| - 1];
      ValueAppends(a, init);
      assert (a + b)[..|a + b| - 1] == a + init;
      assert Value(a) * Pow10(|b|) == 10 * (Value(a) * Pow10(|init|));
    }
  }

  lemma {:induction false} ZerosAreNothing(n: nat)
    ensures Value(Zeros(n)) == 0
  {
    if n > 0 {
      ZerosAreNothing(n - 1);
      assert Zeros(n)[..n - 1] == Zeros(n - 1);
    }
  }

  // ---------------------------------------------------------------------------------------
  // The parser
  // ---------------------------------------------------------------------------------------

  function TrimLeft(s: string): (r: string)
    ensures |r| <= |s| && r == s[|s| - |r|..]
    ensures forall i :: 0 <= i < |s| - |r| ==> IsSpace(s[i])
    ensures r != "" ==> !IsSpace(r[0])
  {
    if s != "" && IsSpace(s[0]) then TrimLeft(s[1..]) else s
  }

  function TrimRight(s: string): (r: string)
    ensures |r| <= |s| && r == s[..|r|]
    ensures forall i :: |r| <= i < |s| ==> IsSpace(s[i])
    ensures r != "" ==> !IsSpace(r[|r| - 1])
  {
    if s != "" && IsSpace(s[|s| - 1]) then TrimRight(s[..|s| - 1]) else s
  }

  function TrimSpace(s: string): (r: string) {
    TrimRight(TrimLeft(s))
  }

  /** The position of the first dot, or -1. */
  function IndexDot(s: string): (i: int)
    ensures -1 <= i < |s|
    ensures i >= 0 ==> s[i] == '.' && forall j :: 0 <= j < i ==> s[j] != '.'
    ensures i < 0 ==> forall j :: 0 <= j < |s| ==> s[j] != '.'
  {
    if s == "" then -1
    else if s[0] == '.' then 0
    else
      var i := IndexDot(s[1..]);
      if i < 0 then -1 else i + 1
  }

  function StripZeros(s: string): (r: string)
    requires Digits(s)
    ensures Digits(r)
  {
    if s != "" && s[0] == '0' then StripZeros(s[1..]) else s
  }

  function FromString(text: string): (r: Result) {
    FromTrimmed(TrimSpace(text))
  }

  function FromTrimmed(s: string): (r: Result) {
    if s == "" then Err(InvalidAmount)
    else if s[0] == '-' then FromUnsigned(s[1..], true)
    else FromUnsigned(s, false)
  }

  function FromUnsigned(s: string, negative: bool): (r: Result) {
    if s == "" then Err(InvalidAmount)
    else
      var i := IndexDot(s);
      var intPart := if i >= 0 then s[..i] else s;
      var fracPart := if i >= 0 then s[i + 1..] else "";
      if intPart == "" && fracPart == "" then Err(InvalidAmount)
      else FromParts(if intPart == "" then "0" else intPart, fracPart, negative)
  }

  function FromParts(intPart: string, fracPart: string, negative: bool): (r: Result)
    requires intPart != ""
  {
    if |fracPart| > PRECISION then Err(InvalidAmount)
    else if !Digits(intPart) || !Digits(fracPart) then Err(InvalidAmount)
    else
      var digits := StripZeros(intPart + (fracPart + Zeros(PRECISION - |fracPart|)));
      if digits == "" then Ok(0)
      else
        var v: int := Value(digits);
        FromBig(if negative then -v else v)
  }

  // ---------------------------------------------------------------------------------------
  // What a string denotes
  // ---------------------------------------------------------------------------------------

  /** The grammar of amounts: an optional minus sign, digits, optionally a dot and at most seven
      more digits; there must be a digit on one side at least. */
  ghost predicate Spells(s: string, negative: bool, whole: string, dot: bool, frac: string) {
    && s == (if negative then "-" else "") + whole + (if dot then "." else "") + frac
    && Digits(whole) && Digits(frac) && |frac| <= PRECISION
    && (dot || frac == "")
    && (whole != "" || frac != "")
  }

  /** The amount in stroops: the whole units plus the fraction scaled to seven places, with the sign. */
  ghost function Amount(negative: bool, whole: string, frac: string): (v: int)
    requires Digits(whole) && Digits(frac) && |frac| <= PRECISION
  {
    var magnitude: int := Value(whole) * STROOPS_PER_UNIT + Value(frac) * Pow10(PRECISION - |frac|);
    if negative then -magnitude else magnitude
  }

  ghost predicate Denotes(s: string, v: int) {
    exists negative, whole, dot, frac :: Spells(s, negative, whole, dot, frac) && v == Amount(negative, whole, frac)
  }

  lemma {:induction false} StrippedValue(s: string)
    requires Digits(s)
    ensures Value(StripZeros(s)) == Value(s)
    decreases |s|
  {
    if s != "" && s[0] == '0' {
      StrippedValue(s[1..]);
      assert s == "0" + s[1..];
      ValueAppends("0", s[1..]);
      assert "0"[..0] == "";
      assert Value("0") == 0;
    }
  }

  lemma PartsValue(intPart: string, fracPart: string, negative: bool)
    requires intPart != "" && Digits(intPart) && Digits(fracPart) && |fracPart| <= PRECISION
    ensures FromParts(intPart, fracPart, negative) == FromBig(Amount(negative, intPart, fracPart))
  {
    var pad := Zeros(PRECISION - |fracPart|);
    ValueAppends(fracPart, pad);
    ZerosAreNothing(PRECISION - |fracPart|);
    ValueAppends(intPart, fracPart + pad);
    StrippedValue(intPart + (fracPart + pad));
    Pow10Of7();
  }

  lemma DotIsFound(whole: string, frac: string)
    requires Digits(whole)
    ensures IndexDot(whole + "." + frac) == |whole|
    ensures IndexDot(whole) == -1
  {
    var u := whole + "." + frac;
    assert forall j :: 0 <= j < |whole| ==> u[j] == whole[j] && IsDigit(u[j]);
    assert u[|whole|] == '.';
  }

  lemma BodyIsParsed(negative: bool, whole: string, dot: bool, frac: string)
    requires Digits(whole) && Digits(frac) && |frac| <= PRECISION && (dot || frac == "") && (whole != "" || frac != "")
    ensures FromUnsigned(whole + (if dot then "." else "") + frac, negative) == FromBig(Amount(negative, whole, frac))
  {
    var u := whole + (if dot then "." else "") + frac;
    DotIsFound(whole, frac);
    if dot {
      assert u[..|whole|] == whole && u[|whole| + 1..] == frac;
    } else {
      assert u == whole;
    }
    if whole == "" {
      assert "0"[..0] == "";
      assert Value("0") == 0;
      PartsValue("0", frac, negative);
    } else {
      PartsValue(whole, frac, negative);
    }
  }

  /** A spelling is parsed into its parts. */
  lemma SpellingIsParsed(s: string, negative: bool, whole: string, dot: bool, frac: string)
    requires Spells(s, negative, whole, dot, frac)
    ensures s != "" && (s[0] == '-' <==> negative)
    ensures FromUnsigned(if negative then s[1..] else s, negative) == FromBig(Amount(negative, whole, frac))
  {
    var body := whole + (if dot then "." else "") + frac;
    assert s == (if negative then "-" else "") + body;
    assert (if negative then s[1..] else s) == body;
    BodyIsParsed(negative, whole, dot, frac);
  }

  /** Whatever the parser does not reject as invalid is a spelling. */
  lemma ParsedIsSpelling(s: string, negative: bool) returns (whole: string, dot: bool, frac: string)
    requires FromUnsigned(s, negative) != Err(InvalidAmount)
    ensures Spells((if negative then "-" else "") + s, negative, whole, dot, frac)
  {
    var i := IndexDot(s);
    whole := if i >= 0 then s[..i] else s;
    frac := if i >= 0 then s[i + 1..] else "";
    dot := i >= 0;
    var sign := if negative then "-" else "";
    if dot {
      Rejoin(s, i, sign);
    } else {
      assert sign + s == sign + s + "" + "";
    }
  }

  lemma Rejoin(s: string, i: nat, sign: string)
    requires i < |s| && s[i] == '.'
    ensures sign + s == sign + s[..i] + "." + s[i + 1..]
  {
    assert s == s[..i] + "." + s[i + 1..];
  }

  lemma DenotedIsParsed(s: string, v: int)
    requires Denotes(s, v)
    ensures FromTrimmed(s) == FromBig(v)
  {
    var negative, whole, dot, frac :| Spells(s, negative, whole, dot, frac) && v == Amount(negative, whole, frac);
    SpellingIsParsed(s, negative, whole, dot, frac);
  }

  lemma SignedIsDenoted(s: string, rest: string, negative: bool) returns (v: int)
    requires s == (if negative then "-" else "") + rest && FromUnsigned(rest, negative) != Err(InvalidAmount)
    ensures Denotes(s, v)
  {
    var whole, dot, frac := ParsedIsSpelling(rest, negative);
    v := Amount(negative, whole, frac);
  }

  lemma SignIsSplitOff(s: string) returns (rest: string, negative: bool)
    requires s != ""
    ensures s == (if negative then "-" else "") + rest && FromTrimmed(s) == FromUnsigned(rest, negative)
  {
    negative := s[0] == '-';
    if negative {
      rest := s[1..];
      assert s == "-" + rest;
    } else {
      rest := s;
      assert s == "" + rest;
    }
  }

  lemma TrimmedIsDenoted(s: string) returns (v: int)
    requires FromTrimmed(s) != Err(InvalidAmount)
    ensures Denotes(s, v)
  {
    var rest, negative := SignIsSplitOff(s);
    v := SignedIsDenoted(s, rest, negative);
  }

  predicate AllSpace(s: string) {
    forall i :: 0 <= i < |s| ==> IsSpace(s[i])
  }

  /** The text is core with white space around it, and core neither starts nor ends with any. */
  ghost predicate Surrounds(text: string, pre: string, core: string, post: string) {
    && text == pre + core + post && AllSpace(pre) && AllSpace(post)
    && (core != "" ==> !IsSpace(core[0]) && !IsSpace(core[|core| - 1]))
  }

  lemma TrimmedEnds(text: string)
    ensures var core := TrimSpace(text); core != "" ==> !IsSpace(core[0]) && !IsSpace(core[|core| - 1])
  {
    var left := TrimLeft(text);
    var core := TrimRight(left);
    if core != "" {
      assert core[0] == left[0];
    }
  }

  lemma LeftPart(text: string) returns (pre: string, left: string)
    ensures text == pre + left && AllSpace(pre) && left == TrimLeft(text)
  {
    left := TrimLeft(text);
    pre := text[..|text| - |left|];
  }

  lemma RightPart(left: string) returns (core: string, post: string)
    ensures left == core + post && AllSpace(post) && core == TrimRight(left)
  {
    core := TrimRight(left);
    post := left[|core|..];
  }

  lemma PartsJoin(text: string, pre: string, left: string, core: string, post: string)
    requires text == pre + left && left == core + post
    ensures text == pre + core + post
  {
  }

  lemma TrimmedIsSurrounded(text: string) returns (pre: string, core: string, post: string)
    ensures core == TrimSpace(text) && Surrounds(text, pre, core, post)
  {
    var left;
    pre, left := LeftPart(text);
    core, post := RightPart(left);
    PartsJoin(text, pre, left, core, post);
    TrimmedEnds(text);
  }

  /** Parsing is exact: a text is white space around a core; a core that denotes an amount yields exactly
      that amount, or an overflow when it does not fit in 64 bits, and every other text is rejected as
      invalid. In particular a core denotes at most one amount. */
  lemma ParsingIsExact(text: string) returns (pre: string, core: string, post: string)
    ensures Surrounds(text, pre, core, post)
    ensures FromString(text) == Err(InvalidAmount) <==> forall v :: !Denotes(core, v)
    ensures forall v :: Denotes(core, v) ==>
      FromString(text) == if MIN_STROOPS <= v <= MAX_STROOPS then Ok(v) else Err(Overflow)
    ensures FromString(text).Ok? ==> Denotes(core, FromString(text).stroops)
    ensures FromString(text) != Err(DivideByZero)
  {
    pre, core, post := TrimmedIsSurrounded(text);
    forall v | Denotes(core, v) ensures FromString(text) == FromBig(v) {
      DenotedIsParsed(core, v);
    }
    if FromString(text) != Err(InvalidAmount) {
      var v := TrimmedIsDenoted(core);
      DenotedIsParsed(core, v);
    }
  }

  // ---------------------------------------------------------------------------------------
  // The printer
  // ---------------------------------------------------------------------------------------

  /** The canonical form with exactly seven decimal places. */
  function ToString(m: Stroops): (s: string) {
    var magnitude := Abs(m);
    var fracText := Numeral(magnitude % STROOPS_PER_UNIT);
    (if m < 0 then "-" else "") + Numeral(magnitude / STROOPS_PER_UNIT) + "."
      + (if |fracText| < PRECISION then Zeros(PRECISION - |fracText|) else "") + fracText
  }

  lemma Pow10Of7()
    ensures Pow10(PRECISION) == STROOPS_PER_UNIT
  {
    assert Pow10(3) == 1000;
    assert Pow10(5) == 100 * Pow10(3);
  }

  lemma NothingToTrim(s: string)
    requires s != "" && !IsSpace(s[0]) && !IsSpace(s[|s| - 1])
    ensures TrimSpace(s) == s
  {
  }

  lemma PaddedFraction(n: nat) returns (frac: string)
    requires n < STROOPS_PER_UNIT
    ensures var text := Numeral(n);
      frac == (if |text| < PRECISION then Zeros(PRECISION - |text|) else "") + text
    ensures |frac| == PRECISION && Digits(frac) && Value(frac) == n
  {
    Pow10Of7();
    NumeralLength(n, PRECISION);
    var pad := Zeros(PRECISION - |Numeral(n)|);
    frac := pad + Numeral(n);
    ValueAppends(pad, Numeral(n));
    ZerosAreNothing(PRECISION - |Numeral(n)|);
    NumeralSpells(n);
  }

  lemma PrintedSpells(m: Stroops) returns (whole: string, frac: string)
    ensures Spells(ToString(m), m < 0, whole, true, frac) && Amount(m < 0, whole, frac) == m
    ensures whole == Numeral(Abs(m) / STROOPS_PER_UNIT) && whole != "" && |frac| == PRECISION
  {
    whole := Numeral(Abs(m) / STROOPS_PER_UNIT);
    NumeralSpells(Abs(m) / STROOPS_PER_UNIT);
    frac := PaddedFraction(Abs(m) % STROOPS_PER_UNIT);
    assert ToString(m) == (if m < 0 then "-" else "") + whole + "." + frac;
    assert Value(frac) * Pow10(0) == Value(frac);
  }

  /** Printing and parsing undo each other for every 64-bit amount, the least one included; the
      printed form has exactly seven decimals. */
  lemma PrintedFormParsesBack(m: Stroops)
    ensures FromString(ToString(m)) == Ok(m)
    ensures var s := ToString(m); |s| > 8 && s[|s| - 8] == '.'
  {
    var s := ToString(m);
    var whole, frac := PrintedSpells(m);
    assert s[0] == (if m < 0 then '-' else whole[0]) && s[|s| - 1] == frac[PRECISION - 1];
    NothingToTrim(s);
    assert Denotes(s, m);
    DenotedIsParsed(s, m);
  }

  // ---------------------------------------------------------------------------------------
  // The printed form is the canonical one
  // ---------------------------------------------------------------------------------------

  /** A numeral without leading zeros. */
  predicate Plain(whole: string) {
    whole == "0" || (whole != "" && whole[0] != '0')
  }

  /** Exactly seven decimals, no leading zeros, and no minus sign on zero. */
  ghost predicate Canonical(s: string, negative: bool, whole: string, frac: string) {
    && Spells(s, negative, whole, true, frac) && |frac| == PRECISION && Plain(whole)
    && (negative ==> Amount(negative, whole, frac) < 0)
  }

  lemma {:induction false} NumeralIsPlain(n: nat)
    ensures Plain(Numeral(n)) && (n > 0 ==> Numeral(n)[0] != '0')
    decreases n
  {
    if n >= 10 {
      NumeralIsPlain(n / 10);
    }
  }

  lemma {:induction false} ValueBelow(s: string)
    requires Digits(s)
    ensures Value(s) < Pow10(|s|)
  {
    if s != "" {
      ValueBelow(s[..|s| - 1]);
    }
  }

  lemma {:induction false} ValueAbove(s: string)
    requires Digits(s) && s != "" && s[0] != '0'
    ensures Value(s) >= Pow10(|s| - 1)
  {
    if |s| > 1 {
      ValueAbove(s[..|s| - 1]);
    } else {
      assert s[..0] == "";
    }
  }

  lemma {:induction false} PowersGrow(m: nat, n: nat)
    requires m <= n
    ensures Pow10(m) <= Pow10(n)
    decreases n
  {
    if m < n {
      PowersGrow(m, n - 1);
    }
  }

  lemma {:induction false} SameDigits(a: string, b: string)
    requires Digits(a) && Digits(b) && |a| == |b| && Value(a) == Value(b)
    ensures a == b
  {
    if a != "" {
      var n := |a| - 1;
      SameDigits(a[..n], b[..n]);
      assert a == a[..n] + [a[n]] && b == b[..n] + [b[n]];
    }
  }

  lemma LongerIsMore(a: string, b: string)
    requires Digits(a) && Digits(b) && a != "" && Plain(b) && |a| < |b|
    ensures Value(a) < Value(b)
  {
    ValueBelow(a);
    ValueAbove(b);
    PowersGrow(|a|, |b| - 1);
  }

  /** A number has one plain numeral. */
  lemma PlainIsUnique(a: string, b: string)
    requires Digits(a) && Digits(b) && Plain(a) && Plain(b) && Value(a) == Value(b)
    ensures a == b
  {
    if |a| < |b| {
      LongerIsMore(a, b);
    } else if |b| < |a| {
      LongerIsMore(b, a);
    } else {
      SameDigits(a, b);
    }
  }

  lemma SplitsOneWay(x: nat, y: nat, u: nat, v: nat)
    requires y < STROOPS_PER_UNIT && v < STROOPS_PER_UNIT && x * STROOPS_PER_UNIT + y == u * STROOPS_PER_UNIT + v
    ensures x == u && y == v
  {
  }

  /** Two canonical texts of one amount are the same text. */
  lemma CanonicalIsUnique(s: string, t: string, m: int, sWhole: string, sFrac: string, tWhole: string, tFrac: string,
                          sNegative: bool, tNegative: bool)
    requires Canonical(s, sNegative, sWhole, sFrac) && Amount(sNegative, sWhole, sFrac) == m
    requires Canonical(t, tNegative, tWhole, tFrac) && Amount(tNegative, tWhole, tFrac) == m
    ensures s == t
  {
    Pow10Of7();
    ValueBelow(sFrac);
    ValueBelow(tFrac);
    assert sNegative == tNegative;
    assert Value(sFrac) * Pow10(0) == Value(sFrac) && Value(tFrac) * Pow10(0) == Value(tFrac);
    SplitsOneWay(Value(sWhole), Value(sFrac), Value(tWhole), Value(tFrac));
    PlainIsUnique(sWhole, tWhole);
    SameDigits(sFrac, tFrac);
  }

  /** The printed form of an amount is its canonical text, and there is no other. */
  lemma PrintedIsCanonical(m: Stroops) returns (whole: string, frac: string)
    ensures Canonical(ToString(m), m < 0, whole, frac) && Amount(m < 0, whole, frac) == m
    ensures forall t, tNegative, tWhole, tFrac ::
      Canonical(t, tNegative, tWhole, tFrac) && Amount(tNegative, tWhole, tFrac) == m ==> t == ToString(m)
  {
    whole, frac := PrintedSpells(m);
    NumeralIsPlain(Abs(m) / STROOPS_PER_UNIT);
    forall t, tNegative, tWhole, tFrac | Canonical(t, tNegative, tWhole, tFrac) && Amount(tNegative, tWhole, tFrac) == m
      ensures t == ToString(m)
    {
      CanonicalIsUnique(t, ToString(m), m, tWhole, tFrac, whole, frac, tNegative, m < 0);
    }
  }
}
