/** Money amounts are integers of minor units. Decimal text in and out, and allocation by ratio. */
module Money {
  import opened DigitStrings

  datatype Result<+T> = Ok(value: T) | Err(reason: Error)

  datatype Error =
    | InvalidFormat
    | TooManyDecimals(got: nat, max: nat)
    | EmptyRatios
    | NegativeRatio(index: nat)
    | ZeroTotal
    | DivisionByZero   // thrown by the bigint division, not returned

  // ---------------------------------------------------------------- the accepted grammar

  /** No leading zero, unless the integer part is "0" itself. */
  predicate IsInteger(s: string)
  {
    s != "" && AllDigits(s) && (s[0] == '0' ==> |s| == 1)
  }

  /** A decimal text, taken apart. frac == "" means there is no point. */
  datatype Decimal = Decimal(negative: bool, whole: string, frac: string)

  ghost predicate WellFormed(d: Decimal)
  {
    IsInteger(d.whole) && AllDigits(d.frac)
  }

  /** The unsigned part of a decimal text. */
  function Body(whole: string, frac: string): string
  {
    if frac == "" then whole else whole + ("." + frac)
  }

  function Show(d: Decimal): string
  {
    if d.negative then "-" + Body(d.whole, d.frac) else Body(d.whole, d.frac)
  }

  /** The texts the grammar generates. */
  ghost predicate Accepts(s: string)
  {
    exists d :: WellFormed(d) && Show(d) == s
  }

  function IndexOfDot(s: string): (r: int)
    ensures -1 <= r < |s|
    ensures r >= 0 ==> s[r] == '.' && forall i :: 0 <= i < r ==> s[i] != '.'
    ensures r == -1 ==> forall i :: 0 <= i < |s| ==> s[i] != '.'
  {
    if s == "" then -1
    else if s[0] == '.' then 0
    else
      var r := IndexOfDot(s[1..]);
      assert s == [s[0]] + s[1..];
      if r == -1 then -1 else r + 1
  }

  /** Cut an unsigned text at its first point; the flag says whether there is one. */
  function CutBody(s: string): (string, string, bool)
  {
    var dot := IndexOfDot(s);
    if dot == -1 then (s, "", false) else (s[..dot], s[dot + 1..], true)
  }

  function Negative(s: string): bool
  {
    s != "" && s[0] == '-'
  }

  function Unsigned(s: string): string
  {
    if Negative(s) then s[1..] else s
  }

  function Cut(s: string): Decimal
  {
    var (whole, frac, _) := CutBody(Unsigned(s));
    Decimal(Negative(s), whole, frac)
  }

  /** The regular expression, on the unsigned text: a point must be followed by a digit. */
  predicate MatchesBody(s: string)
  {
    var (whole, frac, dotted) := CutBody(s);
    IsInteger(whole) && AllDigits(frac) && (dotted ==> frac != "")
  }

  predicate Matches(s: string)
  {
    MatchesBody(Unsigned(s))
  }

  lemma {:induction false} CutBodyShow(whole: string, frac: string)
    requires IsInteger(whole) && AllDigits(frac)
    ensures CutBody(Body(whole, frac)) == (whole, frac, frac != "")
    ensures MatchesBody(Body(whole, frac))
    ensures Body(whole, frac)[0] == whole[0]
  {
    var body := Body(whole, frac);
    assert forall i :: 0 <= i < |whole| ==> body[i] == whole[i] && body[i] != '.';
    if frac != "" {
      assert body[|whole|] == '.';
      assert IndexOfDot(body) == |whole|;
      assert body[..|whole|] == whole && body[|whole| + 1..] == frac;
    }
  }

  lemma {:induction false} ShowUnsigned(d: Decimal)
    requires WellFormed(d)
    ensures Unsigned(Show(d)) == Body(d.whole, d.frac) && Negative(Show(d)) == d.negative
  {
    CutBodyShow(d.whole, d.frac);
  }

  /** Cutting undoes showing. */
  lemma {:induction false} CutShow(d: Decimal)
    requires WellFormed(d)
    ensures Cut(Show(d)) == d && Matches(Show(d))
  {
    ShowUnsigned(d);
    CutBodyShow(d.whole, d.frac);
  }

  lemma {:induction false} ShowCut(s: string)
    requires Matches(s)
    ensures WellFormed(Cut(s)) && Show(Cut(s)) == s
  {
    var u := Unsigned(s);
    var dot := IndexOfDot(u);
    if dot != -1 {
      assert u == u[..dot] + ("." + u[dot + 1..]);
    }
    assert Negative(s) ==> s == "-" + u;
  }

  /** The recognizer accepts exactly the grammar. */
  lemma {:induction false} MatchesGrammar(s: string)
    ensures Matches(s) <==> Accepts(s)
  {
    if Matches(s) {
      ShowCut(s);
    }
    if Accepts(s) {
      var d :| WellFormed(d) && Show(d) == s;
      CutShow(d);
    }
  }

  // ---------------------------------------------------------------- parse and print

  predicate IsSpace(c: char)
  {
    var n := c as int;
    || 9 <= n <= 13 || n == 0x20 || n == 0xA0 || n == 0x1680 || 0x2000 <= n <= 0x200A || n == 0x2028 || n == 0x2029
    || n == 0x202F || n == 0x205F || n == 0x3000 || n == 0xFEFF
  }

  function TrimLeft(s: string): string
  {
    if s != "" && IsSpace(s[0]) then TrimLeft(s[1..]) else s
  }

  function TrimRight(s: string): string
  {
    if s != "" && IsSpace(s[|s| - 1]) then TrimRight(s[..|s| - 1]) else s
  }

  function Trim(s: string): string
  {
    TrimRight(TrimLeft(s))
  }

  /** White space as String.prototype.trim knows it, by code unit. */
  ghost predicate BlankUnit(n: int)
  {
    n in {9, 10, 11, 12, 13, 32, 160, 5760, 8192, 8193, 8194, 8195, 8196, 8197, 8198, 8199, 8200, 8201, 8202, 8232,
      8233,
          8239, 8287, 12288, 65279}
  }

  lemma {:induction false} SpaceIsBlank(c: char)
    ensures IsSpace(c) <==> BlankUnit(c as int)
  {
  }

  ghost predicate AllSpace(s: string)
  {
    forall i :: 0 <= i < |s| ==> IsSpace(s[i])
  }

  /** Trimming drops white space at both ends and nothing else, and leaves none there. */
  lemma {:induction false} TrimExact(s: string)
    ensures exists a, b :: AllSpace(a) && AllSpace(b) && s == a + Trim(s) + b
    ensures Trim(s) != "" ==> !BlankUnit(Trim(s)[0] as int) && !BlankUnit(Trim(s)[|Trim(s)| - 1] as int)
  {
    var a := TrimLeftDrops(s);
    var b := TrimRightDrops(TrimLeft(s));
    assert s == a + Trim(s) + b;
    TrimRightKeepsFirst(TrimLeft(s));
    if Trim(s) != "" {
      SpaceIsBlank(Trim(s)[0]);
      SpaceIsBlank(Trim(s)[|Trim(s)| - 1]);
    }
  }

  lemma {:induction false} TrimLeftDrops(s: string) returns (a: string)
    ensures AllSpace(a) && s == a + TrimLeft(s)
    ensures TrimLeft(s) != "" ==> !IsSpace(TrimLeft(s)[0])
  {
    a := "";
    if s != "" && IsSpace(s[0]) {
      var rest := TrimLeftDrops(s[1..]);
      a := [s[0]] + rest;
      assert s == [s[0]] + s[1..];
    }
  }

  lemma {:induction false} TrimRightDrops(s: string) returns (b: string)
    ensures AllSpace(b) && s == TrimRight(s) + b
    ensures TrimRight(s) != "" ==> !IsSpace(TrimRight(s)[|TrimRight(s)| - 1])
  {
    b := "";
    if s != "" && IsSpace(s[|s| - 1]) {
      var n := |s| - 1;
      var rest := TrimRightDrops(s[..n]);
      b := rest + [s[n]];
      assert s == s[..n] + [s[n]];
    }
  }

  lemma {:induction false} TrimRightKeepsFirst(s: string)
    ensures TrimRight(s) != "" ==> s != "" && TrimRight(s)[0] == s[0]
  {
    if s != "" && IsSpace(s[|s| - 1]) {
      TrimRightKeepsFirst(s[..|s| - 1]);
    }
  }

  function Signed(negative: bool, n: int): int
  {
    if negative then -n else n
  }

  function FromDecimalString(input: string, decimals: nat): Result<int>
  {
    var s := Trim(input);
    if !Matches(s) then Err(InvalidFormat) else Minor(Cut(s), decimals)
  }

  /** The fraction padded to the currency's decimals, unless it is too long. */
  function Minor(d: Decimal, decimals: nat): Result<int>
    requires AllDigits(d.whole) && AllDigits(d.frac)
  {
    if |d.frac| > decimals then Err(TooManyDecimals(|d.frac|, decimals))
    else Ok(Signed(d.negative, Value(d.whole + (d.frac + Zeros(decimals - |d.frac|)))))
  }

  function PadStart(s: string, n: nat): string
  {
    if |s| < n then Zeros(n - |s|) + s else s
  }

  function Abs(amount: int): nat
  {
    if amount < 0 then -amount else amount
  }

  function ToDecimalString(amount: int, decimals: nat): string
  {
    var digits := PadStart(Digits(Abs(amount)), decimals + 1);
    var cut := |digits| - decimals;
    var formatted := digits[..cut] + ("." + digits[cut..]);
    if amount < 0 then "-" + formatted else formatted
  }

  lemma {:induction false} SignedScales(negative: bool, v: int, x: int)
    ensures Signed(negative, v * x) == Signed(negative, v) * x
  {
  }

  /** amount / 10^decimals == (-)v / 10^m, without the division. */
  ghost predicate Denotes(amount: int, decimals: nat, negative: bool, v: nat, m: nat)
  {
    amount * Pow10(m) == Signed(negative, v) * Pow10(decimals)
  }

  lemma {:induction false} ScaledExactly(amount: int, v: nat, m: nat, k: nat, negative: bool)
    requires amount == Signed(negative, v * Pow10(k))
    ensures Denotes(amount, k + m, negative, v, m)
  {
    Pow10Add(k, m);
    SignedScales(negative, v, Pow10(k));
    MulAssociative(Signed(negative, v), Pow10(k), Pow10(m));
  }

  /** The parser refuses as malformed exactly the texts that trim to nothing the grammar generates. */
  lemma {:induction false} ParseRejectsExactly(input: string, decimals: nat)
    ensures FromDecimalString(input, decimals) == Err(InvalidFormat) <==> !Accepts(Trim(input))
  {
    MatchesGrammar(Trim(input));
  }

  lemma {:induction false} ParseShown(input: string, decimals: nat, d: Decimal)
    requires WellFormed(d) && Show(d) == Trim(input)
    ensures FromDecimalString(input, decimals) == Minor(d, decimals)
  {
    CutShow(d);
  }

  lemma {:induction false} MinorDigits(d: Decimal, k: nat)
    requires WellFormed(d)
    ensures Value(d.whole + (d.frac + Zeros(k))) == Value(d.whole + d.frac) * Pow10(k)
  {
    assert d.whole + (d.frac + Zeros(k)) == (d.whole + d.frac) + Zeros(k);
    ValuePadded(d.whole + d.frac, k);
  }

  lemma {:induction false} MinorDenotes(d: Decimal, decimals: nat)
    requires WellFormed(d) && |d.frac| <= decimals
    ensures var r := Minor(d, decimals);
      r.Ok? && Denotes(r.value, decimals, d.negative, Value(d.whole + d.frac), |d.frac|)
  {
    var k := decimals - |d.frac|;
    MinorDigits(d, k);
    ScaledExactly(Minor(d, decimals).value, Value(d.whole + d.frac), |d.frac|, k, d.negative);
  }

  /** What an accepted text is worth: the number it denotes times ten to the decimals, provided it has few enough
      fraction digits. */
  lemma {:induction false} ParseExact(input: string, decimals: nat, d: Decimal)
    requires WellFormed(d) && Show(d) == Trim(input)
    ensures var r := FromDecimalString(input, decimals);
      if |d.frac| > decimals then r == Err(TooManyDecimals(|d.frac|, decimals))
      else r.Ok? && Denotes(r.value, decimals, d.negative, Value(d.whole + d.frac), |d.frac|)
  {
    ParseShown(input, decimals, d);
    if |d.frac| <= decimals {
      MinorDenotes(d, decimals);
    }
  }

  // ---------------------------------------------------------------- printing

  lemma {:induction false} DigitsCanonical(n: nat)
    ensures IsInteger(Digits(n))
    ensures Digits(n)[0] == '0' <==> n == 0
  {
    if n >= 10 {
      DigitsCanonical(n / 10);
      assert Digits(n)[0] == Digits(n / 10)[0];
    } else {
      assert DigitOf(CharOf(n)) == n;
    }
  }

  /** One digit before the point at least, and more only without a leading zero. */
  ghost predicate Canonical(s: string, decimals: nat)
  {
    AllDigits(s) && |s| >= decimals + 1 && (|s| > decimals + 1 ==> s[0] != '0')
  }

  lemma {:induction false} PrintedDigits(n: nat, decimals: nat)
    ensures var s := PadStart(Digits(n), decimals + 1); Canonical(s, decimals) && Value(s) == n
  {
    var s := Digits(n);
    DigitsCanonical(n);
    ValueDigits(n);
    if |s| < decimals + 1 {
      ZerosInFront(s, decimals + 1 - |s|);
    }
  }

  lemma {:induction false} ZerosInFront(s: string, k: nat)
    requires AllDigits(s)
    ensures AllDigits(Zeros(k) + s) && Value(Zeros(k) + s) == Value(s)
  {
    ValueJoin(Zeros(k), s);
    ValueZeros(k);
  }

  lemma {:induction false} AtLeastOnce(lead: nat, p: nat)
    requires lead >= 1
    ensures lead * p >= p
  {
  }

  lemma {:induction false} LeadingDigit(s: string)
    requires AllDigits(s) && s != "" && s[0] != '0'
    ensures Value(s) >= Pow10(|s| - 1)
  {
    assert s == [s[0]] + s[1..];
    assert [s[0]][..0] == "";
    ValueJoin([s[0]], s[1..]);
    AtLeastOnce(Value([s[0]]), Pow10(|s| - 1));
  }

  /** Canonical digit strings are told apart by their values. */
  lemma {:induction false} CanonicalUnique(a: string, b: string, decimals: nat)
    requires Canonical(a, decimals) && Canonical(b, decimals) && Value(a) == Value(b)
    ensures a == b
  {
    if |a| < |b| {
      CanonicalLonger(a, b, decimals);
      assert false;
    } else if |b| < |a| {
      CanonicalLonger(b, a, decimals);
      assert false;
    }
    ValueInjective(a, b);
  }

  lemma {:induction false} CanonicalLonger(a: string, b: string, decimals: nat)
    requires Canonical(a, decimals) && Canonical(b, decimals) && |a| < |b|
    ensures Value(a) < Value(b)
  {
    LeadingDigit(b);
    ValueBound(a);
    Pow10Monotone(|a|, |b| - 1);
  }

  /** The printed text as a decimal, when there is at least one fraction digit. */
  function Printed(amount: int, decimals: nat): Decimal
  {
    var digits := PadStart(Digits(Abs(amount)), decimals + 1);
    var cut := |digits| - decimals;
    Decimal(amount < 0, digits[..cut], digits[cut..])
  }

  lemma {:induction false} PrintedShape(amount: int, decimals: nat)
    requires decimals >= 1
    ensures var d := Printed(amount, decimals);
      && WellFormed(d) && |d.frac| == decimals && Value(d.whole + d.frac) == Abs(amount)
      && Show(d) == ToDecimalString(amount, decimals)
  {
    PrintedDigits(Abs(amount), decimals);
    CanonicalCut(PadStart(Digits(Abs(amount)), decimals + 1), decimals);
  }

  lemma {:induction false} CanonicalCut(digits: string, decimals: nat)
    requires Canonical(digits, decimals)
    ensures var cut := |digits| - decimals;
      && IsInteger(digits[..cut]) && AllDigits(digits[cut..]) && |digits[cut..]| == decimals
      && digits[..cut] + digits[cut..] == digits
  {
  }

  lemma {:induction false} NothingToTrim(s: string)
    requires s != "" && !IsSpace(s[0]) && !IsSpace(s[|s| - 1])
    ensures Trim(s) == s
  {
  }

  lemma {:induction false} ShownIsTrimmed(d: Decimal)
    requires WellFormed(d)
    ensures Trim(Show(d)) == Show(d)
  {
    var s := Show(d);
    assert s[0] == '-' || s[0] == d.whole[0];
    assert s[|s| - 1] == if d.frac == "" then d.whole[|d.whole| - 1] else d.frac[|d.frac| - 1];
    DigitsAreNoSpace();
    NothingToTrim(s);
  }

  lemma {:induction false} DigitsAreNoSpace()
    ensures forall c :: IsDigit(c) || c == '-' ==> !IsSpace(c)
  {
  }

  /** Parsing what was printed gives the amount back, for every amount of every currency that can be made. */
  lemma {:induction false} RoundTrip(amount: int, decimals: nat)
    requires decimals >= 1  // the Currency constructor throws below one
    ensures FromDecimalString(ToDecimalString(amount, decimals), decimals) == Ok(amount)
  {
    PrintedShape(amount, decimals);
    var d := Printed(amount, decimals);
    ShownIsTrimmed(d);
    ParseShown(Show(d), decimals, d);
    MinorOfFull(d, decimals);
  }

  /** With every fraction digit present nothing is padded. */
  lemma {:induction false} MinorOfFull(d: Decimal, decimals: nat)
    requires WellFormed(d) && |d.frac| == decimals
    ensures Minor(d, decimals) == Ok(Signed(d.negative, Value(d.whole + d.frac)))
  {
    assert d.frac + Zeros(0) == d.frac;
  }

  lemma {:induction false} SameDigitsSameDecimal(d: Decimal, p: Decimal)
    requires d.negative == p.negative && |d.frac| == |p.frac| && d.whole + d.frac == p.whole + p.frac
    ensures d == p
  {
    assert (d.whole + d.frac)[..|d.whole|] == d.whole && (d.whole + d.frac)[|d.whole|..] == d.frac;
    assert (p.whole + p.frac)[..|p.whole|] == p.whole && (p.whole + p.frac)[|p.whole|..] == p.frac;
  }

  lemma {:induction false} WellFormedCanonical(d: Decimal)
    requires WellFormed(d)
    ensures Canonical(d.whole + d.frac, |d.frac|)
  {
    assert (d.whole + d.frac)[0] == d.whole[0];
  }

  /** Reprinting an accepted text returns it unchanged exactly when it already has every fraction digit and is not
      a negative zero. */
  lemma {:induction false} ReprintExact(input: string, decimals: nat, d: Decimal)
    requires decimals >= 1 && WellFormed(d) && Show(d) == Trim(input) && |d.frac| <= decimals
    ensures FromDecimalString(input, decimals).Ok?
    ensures var a := FromDecimalString(input, decimals).value;
      ToDecimalString(a, decimals) == Trim(input) <==> |d.frac| == decimals && (d.negative ==> a != 0)
  {
    ParseShown(input, decimals, d);
    var a := FromDecimalString(input, decimals).value;
    PrintedShape(a, decimals);
    var p := Printed(a, decimals);
    if |d.frac| == decimals && (d.negative ==> a != 0) {
      MinorOfFull(d, decimals);
      WellFormedCanonical(d);
      WellFormedCanonical(p);
      CanonicalUnique(d.whole + d.frac, p.whole + p.frac, decimals);
      SameDigitsSameDecimal(d, p);
    }
    if ToDecimalString(a, decimals) == Trim(input) {
      CutShow(d);
      CutShow(p);
    }
  }
}
