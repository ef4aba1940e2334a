/** Decimal amounts in files, read as whole numbers of the smallest unit at a given scale. */
module Money {
  import opened Prelude

  const MINUS: char := '-'
  const POINT: char := '.'

  predicate IsDigit(ch: char) {
    '0' <= ch <= '9'
  }

  predicate AllDigits(s: string) {
    forall i :: 0 <= i < |s| ==> IsDigit(s[i])
  }

  function DigitValue(ch: char): nat
    requires IsDigit(ch)
  {
    (ch - '0') as int
  }

  function DigitText(d: nat): char
    requires d < 10
  {
    '0' + d as char
  }

  function NatValue(s: string): nat
    requires AllDigits(s)
  {
    if s == "" then 0 else 10 * NatValue(s[..|s| - 1]) + DigitValue(s[|s| - 1])
  }

  /** n with k zeros appended: n times 10 to the k. */
  function Shift(n: int, k: nat): int {
    if k == 0 then n else 10 * Shift(n, k - 1)
  }

  /** An unsigned literal, in units of 10^-scale. */
  function Unsigned(s: string, scale: nat): Option<int> {
    var dot := IndexOf(POINT, s);
    var whole, frac := s[..dot], if dot < |s| then s[dot + 1..] else "";
    if whole == "" || !AllDigits(whole) then None
    else if dot < |s| && !(1 <= |frac| <= scale && AllDigits(frac)) then None
    else
      assert AllDigits(frac);
      Some(Shift(NatValue(whole), scale) + if frac == "" then 0 else Shift(NatValue(frac), scale - |frac|))
  }

  /** The amount a cell denotes; no value when the importer would reject the cell. */
  function Amount(s: string, scale: nat): Option<int>
    requires scale > 0
  {
    if s == "" then Some(0)
    else if s[0] == MINUS then
      var u := Unsigned(s[1..], scale);
      if u.Some? then Some(-u.value) else None
    else
      var u := Unsigned(s, scale);
      if u.Some? then Some(u.value) else None
  }

  /** The older importer's reading of an amount: two places, and never blank. */
  function StrictAmount(s: string): Option<int> {
    if s == "" then None else Amount(s, 2)
  }

  /** Amounts of money have two places. */
  function Cents(s: string): int {
    var a := Amount(s, 2);
    if a.Some? then a.value else 0
  }

  // ---------- The grammar ----------

  /** s is the literal with this sign, whole part and fraction part. */
  ghost predicate IsLiteral(s: string, negative: bool, whole: string, frac: string) {
    && whole != "" && AllDigits(whole) && AllDigits(frac)
    && s == (if negative then [MINUS] else []) + UnsignedText(whole, frac)
  }

  function UnsignedText(whole: string, frac: string): string {
    if frac == "" then whole else whole + [POINT] + frac
  }

  lemma {:induction false} ShiftSum(a: int, b: int, k: nat)
    ensures Shift(a + b, k) == Shift(a, k) + Shift(b, k)
  {
    if k > 0 {
      ShiftSum(a, b, k - 1);
    }
  }

  lemma {:induction false} ShiftShift(n: int, j: nat, k: nat)
    ensures Shift(Shift(n, j), k) == Shift(n, j + k)
  {
    if k > 0 {
      ShiftShift(n, j, k - 1);
    }
  }

  lemma {:induction false} ShiftZero(k: nat)
    ensures Shift(0, k) == 0
  {
    if k > 0 {
      ShiftZero(k - 1);
    }
  }

  lemma {:induction false} NatValueConcat(a: string, b: string)
    requires AllDigits(a) && AllDigits(b)
    ensures AllDigits(a + b) && NatValue(a + b) == Shift(NatValue(a), |b|) + NatValue(b)
  {
    if b == "" {
      assert a + b == a;
    } else {
      NatValueConcat(a, b[..|b| - 1]);
      assert (a + b)[..|a + b| - 1] == a + b[..|b| - 1];
    }
  }

  lemma PointIsFound(whole: string, frac: string)
    requires AllDigits(whole)
    ensures var s := UnsignedText(whole, frac);
            && IndexOf(POINT, s) == |whole| && s[..|whole|] == whole
            && (if |whole| < |s| then s[|whole| + 1..] else "") == frac
  {
    var s := UnsignedText(whole, frac);
    assert forall i :: 0 <= i < |whole| ==> s[i] == whole[i] && IsDigit(whole[i]);
    if frac != "" {
      assert s[|whole|] == POINT;
      assert s[|whole| + 1..] == frac;
    }
  }

  lemma ScaledDigits(whole: string, frac: string, scale: nat)
    requires AllDigits(whole) && AllDigits(frac) && |frac| <= scale
    ensures AllDigits(whole + frac)
    ensures Shift(NatValue(whole + frac), scale - |frac|)
         == Shift(NatValue(whole), scale) + Shift(NatValue(frac), scale - |frac|)
  {
    NatValueConcat(whole, frac);
    ShiftSum(Shift(NatValue(whole), |frac|), NatValue(frac), scale - |frac|);
    ShiftShift(NatValue(whole), |frac|, scale - |frac|);
  }

  lemma UnsignedReads(whole: string, frac: string, scale: nat)
    requires whole != "" && AllDigits(whole) && AllDigits(frac) && |frac| <= scale
    ensures AllDigits(whole + frac)
    ensures Unsigned(UnsignedText(whole, frac), scale) == Some(Shift(NatValue(whole + frac), scale - |frac|))
  {
    PointIsFound(whole, frac);
    ScaledDigits(whole, frac, scale);
    ShiftZero(scale);
  }

  lemma UnsignedParts(s: string, scale: nat)
    requires Unsigned(s, scale).Some?
    ensures exists whole, frac ::
              && whole != "" && AllDigits(whole) && AllDigits(frac) && |frac| <= scale
              && s == UnsignedText(whole, frac)
  {
    var dot := IndexOf(POINT, s);
    var whole, frac := s[..dot], if dot < |s| then s[dot + 1..] else "";
    assert s == UnsignedText(whole, frac);
  }

  /** The value of a literal: its digits read as one number, shifted to the scale. */
  function LiteralValue(negative: bool, whole: string, frac: string, scale: nat): int
    requires AllDigits(whole + frac) && |frac| <= scale
  {
    var n := Shift(NatValue(whole + frac), scale - |frac|);
    if negative then -n else n
  }

  lemma LiteralReads(s: string, negative: bool, whole: string, frac: string, scale: nat)
    requires scale > 0 && IsLiteral(s, negative, whole, frac) && |frac| <= scale && AllDigits(whole + frac)
    ensures Amount(s, scale) == Some(LiteralValue(negative, whole, frac, scale))
  {
    var body := UnsignedText(whole, frac);
    UnsignedReads(whole, frac, scale);
    assert body[0] == whole[0] != MINUS;
    if negative {
      assert s[1..] == body;
    } else {
      assert s == body;
    }
  }

  /** The text is a literal with at most scale places, of this value. */
  ghost predicate Denotes(s: string, scale: nat, n: int, negative: bool, whole: string, frac: string) {
    && IsLiteral(s, negative, whole, frac) && |frac| <= scale && AllDigits(whole + frac)
    && n == LiteralValue(negative, whole, frac, scale)
  }

  lemma AcceptedTextIsLiteral(s: string, scale: nat) returns (negative: bool, whole: string, frac: string)
    requires scale > 0 && s != "" && Amount(s, scale).Some?
    ensures Denotes(s, scale, Amount(s, scale).value, negative, whole, frac)
  {
    negative := s[0] == MINUS;
    var body := if negative then s[1..] else s;
    UnsignedParts(body, scale);
    whole, frac :| whole != "" && AllDigits(whole) && AllDigits(frac) && |frac| <= scale
                   && body == UnsignedText(whole, frac);
    UnsignedReads(whole, frac, scale);
    assert s == (if negative then [MINUS] else []) + body;
  }

  /** Exactly the blank cell and the literals with an optional minus, at least one digit, and
      optionally a point with 1 to scale digits are accepted, each with its exact value. */
  lemma {:induction false} AmountGrammar(s: string, scale: nat, n: int)
    requires scale > 0
    ensures Amount(s, scale) == Some(n) <==>
              (s == "" && n == 0) || exists negative, whole, frac :: Denotes(s, scale, n, negative, whole, frac)
  {
    if Amount(s, scale) == Some(n) && s != "" {
      var negative, whole, frac := AcceptedTextIsLiteral(s, scale);
    }
    if negative, whole, frac :| Denotes(s, scale, n, negative, whole, frac) {
      LiteralReads(s, negative, whole, frac, scale);
    }
  }

  // ---------- Printing ----------

  function NatText(n: nat): string {
    if n < 10 then [DigitText(n)] else NatText(n / 10) + [DigitText(n % 10)]
  }

  /** The last k digits of n, padded with zeros. */
  function PaddedText(n: nat, k: nat): string {
    if k == 0 then "" else PaddedText(n / 10, k - 1) + [DigitText(n % 10)]
  }

  /** n without its last k digits. */
  function DropDigits(n: nat, k: nat): nat {
    if k == 0 then n else DropDigits(n / 10, k - 1)
  }

  function UnsignedAmountText(n: nat, scale: nat): string {
    NatText(DropDigits(n, scale)) + [POINT] + PaddedText(n, scale)
  }

  function AmountText(n: int, scale: nat): string {
    if n < 0 then [MINUS] + UnsignedAmountText(-n, scale) else UnsignedAmountText(n, scale)
  }

  lemma {:induction false} NatTextReads(n: nat)
    ensures NatText(n) != "" && AllDigits(NatText(n)) && NatValue(NatText(n)) == n
  {
    if n >= 10 {
      NatTextReads(n / 10);
      assert NatText(n)[..|NatText(n)| - 1] == NatText(n / 10);
    }
  }

  lemma {:induction false} PaddedTextReads(n: nat, k: nat)
    ensures |PaddedText(n, k)| == k && AllDigits(PaddedText(n, k))
    ensures n == Shift(DropDigits(n, k), k) + NatValue(PaddedText(n, k))
  {
    if k > 0 {
      PaddedTextReads(n / 10, k - 1);
      assert PaddedText(n, k)[..k - 1] == PaddedText(n / 10, k - 1);
    }
  }

  lemma UnsignedAmountRoundTrip(n: nat, scale: nat)
    requires scale > 0
    ensures UnsignedAmountText(n, scale) != "" && UnsignedAmountText(n, scale)[0] != MINUS
    ensures Unsigned(UnsignedAmountText(n, scale), scale) == Some(n)
  {
    var whole, frac := NatText(DropDigits(n, scale)), PaddedText(n, scale);
    NatTextReads(DropDigits(n, scale));
    PaddedTextReads(n, scale);
    NatValueConcat(whole, frac);
    UnsignedReads(whole, frac, scale);
    assert UnsignedAmountText(n, scale)[0] == whole[0];
  }

  lemma SignedReads(negative: bool, body: string, scale: nat, n: int)
    requires scale > 0 && body != "" && body[0] != MINUS && Unsigned(body, scale) == Some(n)
    ensures Amount(if negative then [MINUS] + body else body, scale) == Some(if negative then -n else n)
  {
    assert ([MINUS] + body)[1..] == body;
  }

  /** Printing an amount with all its places and reading it back gives the amount. */
  lemma {:induction false} AmountRoundTrip(n: int, scale: nat)
    requires scale > 0
    ensures Amount(AmountText(n, scale), scale) == Some(n)
  {
    var abs: nat := if n < 0 then -n else n;
    UnsignedAmountRoundTrip(abs, scale);
    SignedReads(n < 0, UnsignedAmountText(abs, scale), scale, abs);
  }
}
