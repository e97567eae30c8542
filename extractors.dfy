/**
 * The text patterns of the report normaliser (app.py): the placeholder test
 * `^Unnamed: \d+$` used to erase extractor artefacts, and the two field
 * extractors `Money` (`Disputed Amount: (\d+)`) and `Layer` (`Layer : (\d+)`),
 * written as hand-made scanners with the semantics of Python's `re.search`:
 * the leftmost position where the literal prefix is followed by a digit, then
 * the greedy (maximal) run of digits that follows it.
 *
 * Digits are the ASCII digits '0'..'9'.
 */
module Extractors {
  import opened Wrappers
  import opened Table

  const DisputedAmountPrefix: string := "Disputed Amount: "
  const LayerPrefix: string := "Layer : "
  const PlaceholderPrefix: string := "Unnamed: "

  predicate IsDigit(c: char) { '0' <= c <= '9' }

  predicate AllDigits(s: string) { forall k :: 0 <= k < |s| ==> IsDigit(s[k]) }

  function DigitValue(c: char): nat
    requires IsDigit(c)
  {
    (c as int) - ('0' as int)
  }

  /** `int(ds)` for a string of decimal digits (leading zeros allowed). */
  function DecimalValue(ds: string): nat
    requires AllDigits(ds)
  {
    if ds == [] then 0 else 10 * DecimalValue(ds[..|ds| - 1]) + DigitValue(ds[|ds| - 1])
  }

  /** `str(n)`: the decimal numeral of `n`, without leading zeros. */
  function Decimal(n: nat): (ds: string)
    ensures ds != [] && AllDigits(ds)
    ensures n == 0 ==> ds == "0"
    ensures n > 0 ==> ds[0] != '0'
  {
    var last := ['0' + ((n % 10) as char)];
    if n < 10 then last else Decimal(n / 10) + last
  }

  lemma {:induction false} DecimalRoundTrip(n: nat)
    ensures DecimalValue(Decimal(n)) == n
  {
    var ds := Decimal(n);
    if n >= 10 {
      DecimalRoundTrip(n / 10);
      assert ds[..|ds| - 1] == Decimal(n / 10);
    }
  }

  // ---------------------------------------------------------------- placeholders

  /** The full-string match of `^Unnamed: \d+$`. */
  predicate IsPlaceholder(s: string)
  {
    |s| > |PlaceholderPrefix| && s[..|PlaceholderPrefix|] == PlaceholderPrefix && AllDigits(s[|PlaceholderPrefix|..])
  }

  /** Exactly the strings `Unnamed: ` followed by one or more digits are placeholders. */
  lemma PlaceholderShape(s: string)
    ensures IsPlaceholder(s) <==>
              exists d :: d != [] && AllDigits(d) && s == PlaceholderPrefix + d
  {
    if IsPlaceholder(s) {
      var d := s[|PlaceholderPrefix|..];
      assert s == PlaceholderPrefix + d;
    }
    forall d | d != [] && AllDigits(d) && s == PlaceholderPrefix + d
      ensures IsPlaceholder(s)
    {
      assert s[|PlaceholderPrefix|..] == d;
    }
  }

  /** `replace(r'^Unnamed: \d+$', np.nan, regex=True)` on one cell. */
  function EraseCell(c: Cell): (r: Cell)
    ensures r == Absent <==> c == Absent || (c.Str? && IsPlaceholder(c.s))
    ensures r != Absent ==> r == c
  {
    if c.Str? && IsPlaceholder(c.s) then Absent else c
  }

  /** Erasing placeholders leaves none behind, and erasing twice is erasing once. */
  lemma EraseCellIdempotent(c: Cell)
    ensures !(EraseCell(c).Str? && IsPlaceholder(EraseCell(c).s))
    ensures EraseCell(EraseCell(c)) == EraseCell(c)
  {
  }

  // ---------------------------------------------------------------- scanning

  /** The regular expression `prefix(\d+)` can start matching at position i of s. */
  predicate MatchesAt(s: string, prefix: string, i: int)
  {
    0 <= i && i + |prefix| < |s| && s[i..i + |prefix|] == prefix && IsDigit(s[i + |prefix|])
  }

  /** The leftmost position, at `from` or later, where `prefix(\d+)` matches. */
  function FindFrom(s: string, prefix: string, from: nat): (r: Option<nat>)
    requires from <= |s|
    ensures r.Some? ==> from <= r.value && MatchesAt(s, prefix, r.value)
    ensures r.Some? ==> forall j :: from <= j < r.value ==> !MatchesAt(s, prefix, j)
    ensures r.None? ==> forall j :: from <= j ==> !MatchesAt(s, prefix, j)
    decreases |s| - from
  {
    if MatchesAt(s, prefix, from) then Some(from)
    else if from == |s| then None
    else FindFrom(s, prefix, from + 1)
  }

  /** The end of the maximal run of digits that starts at position i. */
  function DigitRunEnd(s: string, i: nat): (e: nat)
    requires i <= |s|
    ensures i <= e <= |s| && AllDigits(s[i..e])
    ensures e == |s| || !IsDigit(s[e])
    decreases |s| - i
  {
    if i < |s| && IsDigit(s[i]) then
      var e := DigitRunEnd(s, i + 1);
      assert s[i..e] == [s[i]] + s[i + 1..e];
      e
    else i
  }

  /** `re.search(prefix + r'(\d+)', s)` followed by `int(match.group(1))`, or None without a match. */
  function Search(s: string, prefix: string): (r: Option<nat>)
    ensures r.None? <==> forall i :: !MatchesAt(s, prefix, i)
  {
    match FindFrom(s, prefix, 0)
    case None => None
    case Some(i) =>
      var start := i + |prefix|;
      Some(DecimalValue(s[start..DigitRunEnd(s, start)]))
  }

  /**
   * Search characterised without reference to the scanner: when i is the
   * leftmost match and e ends the maximal digit run after the prefix, the
   * result is the value of the digits between.
   */
  lemma {:induction false} SearchFinds(s: string, prefix: string, i: nat, e: nat)
    requires MatchesAt(s, prefix, i)
    requires forall j :: 0 <= j < i ==> !MatchesAt(s, prefix, j)
    requires i + |prefix| < e <= |s| && AllDigits(s[i + |prefix|..e]) && (e == |s| || !IsDigit(s[e]))
    ensures Search(s, prefix) == Some(DecimalValue(s[i + |prefix|..e]))
  {
    var found := FindFrom(s, prefix, 0);
    assert found == Some(i);
    DigitRunEndAt(s, i + |prefix|, e);
  }

  /** The digit run that starts at i ends at the first non-digit after it. */
  lemma {:induction false} DigitRunEndAt(s: string, i: nat, e: nat)
    requires i <= e <= |s| && AllDigits(s[i..e]) && (e == |s| || !IsDigit(s[e]))
    ensures DigitRunEnd(s, i) == e
    decreases e - i
  {
    if i < e {
      assert IsDigit(s[i..e][0]);
      assert s[i + 1..e] == s[i..e][1..];
      DigitRunEndAt(s, i + 1, e);
    }
  }

  /** A numeral contains no match of a pattern whose prefix does not start with a digit. */
  lemma SearchDigitsOnly(s: string, prefix: string)
    requires AllDigits(s) && prefix != [] && !IsDigit(prefix[0])
    ensures Search(s, prefix) == None
  {
    assert forall i :: !MatchesAt(s, prefix, i);
  }

  // ---------------------------------------------------------------- the two field extractors

  /** The inner function `Money`: NaN stays missing; anything else is searched as `str(value)`. */
  function Money(c: Cell): (r: Cell)
    ensures !r.Str?
    ensures !c.Str? ==> r == Absent
  {
    match c
    case Absent => Absent
    case Str(s) => ToCell(Search(s, DisputedAmountPrefix))
    case Num(n) =>
      SearchDigitsOnly(Decimal(n), DisputedAmountPrefix);
      ToCell(Search(Decimal(n), DisputedAmountPrefix))
  }

  /** The inner function `Layer`: it has no missing-value guard, so only strings may reach `re.search`. */
  function Layer(c: Cell): (r: Result<Cell, Error>)
    ensures r.Err? <==> !c.Str?
    ensures r.Err? ==> r.error == NotAString
    ensures r.Ok? ==> !r.value.Str?
  {
    match c
    case Str(s) => Ok(ToCell(Search(s, LayerPrefix)))
    case _ => Err(NotAString)
  }

  function ToCell(n: Option<nat>): (r: Cell)
    ensures r.Absent? <==> n.None?
    ensures n.Some? ==> r == Num(n.value)
  {
    match n
    case None => Absent
    case Some(v) => Num(v)
  }

  /** `Money` of a text: the number after the leftmost `Disputed Amount: ` that a digit follows. */
  lemma MoneyOfText(s: string, i: nat, e: nat)
    requires MatchesAt(s, DisputedAmountPrefix, i)
    requires forall j :: 0 <= j < i ==> !MatchesAt(s, DisputedAmountPrefix, j)
    requires i + |DisputedAmountPrefix| < e <= |s| && AllDigits(s[i + |DisputedAmountPrefix|..e])
    requires e == |s| || !IsDigit(s[e])
    ensures Money(Str(s)) == Num(DecimalValue(s[i + |DisputedAmountPrefix|..e]))
  {
    SearchFinds(s, DisputedAmountPrefix, i, e);
  }

  /** `Money` is missing for a missing cell, for a text without the pattern, and for a number. */
  lemma MoneyMissing(c: Cell)
    ensures Money(c) == Absent <==>
              c.Absent? || c.Num? || (c.Str? && forall i :: !MatchesAt(c.s, DisputedAmountPrefix, i))
  {
  }

  /** `Layer` of a text: the number after the leftmost `Layer : ` that a digit follows. */
  lemma LayerOfText(s: string, i: nat, e: nat)
    requires MatchesAt(s, LayerPrefix, i)
    requires forall j :: 0 <= j < i ==> !MatchesAt(s, LayerPrefix, j)
    requires i + |LayerPrefix| < e <= |s| && AllDigits(s[i + |LayerPrefix|..e])
    requires e == |s| || !IsDigit(s[e])
    ensures Layer(Str(s)) == Ok(Num(DecimalValue(s[i + |LayerPrefix|..e])))
  {
    SearchFinds(s, LayerPrefix, i, e);
  }

  /** `Layer` fails on anything but a string, and is missing for a text without the pattern. */
  lemma LayerMissing(c: Cell)
    ensures Layer(c).Err? <==> !c.Str?
    ensures Layer(c) == Ok(Absent) <==> c.Str? && forall i :: !MatchesAt(c.s, LayerPrefix, i)
  {
  }

  /** A field written as `Disputed Amount: <n>` and followed by a non-digit (or nothing) reads back as n. */
  lemma MoneyRoundTrip(n: nat, rest: string)
    requires rest == [] || !IsDigit(rest[0])
    ensures Money(Str(DisputedAmountPrefix + Decimal(n) + rest)) == Num(n)
  {
    RoundTripAt(DisputedAmountPrefix, n, rest);
  }

  /** A field written as `Layer : <n>` and followed by a non-digit (or nothing) reads back as n. */
  lemma LayerRoundTrip(n: nat, rest: string)
    requires rest == [] || !IsDigit(rest[0])
    ensures Layer(Str(LayerPrefix + Decimal(n) + rest)) == Ok(Num(n))
  {
    RoundTripAt(LayerPrefix, n, rest);
  }

  lemma RoundTripAt(prefix: string, n: nat, rest: string)
    requires rest == [] || !IsDigit(rest[0])
    ensures Search(prefix + Decimal(n) + rest, prefix) == Some(n)
  {
    var s := prefix + Decimal(n) + rest;
    var ds := Decimal(n);
    var e := |prefix| + |ds|;
    assert s[..|prefix|] == prefix;
    assert s[|prefix|..e] == ds;
    assert s[|prefix|] == ds[0];
    assert e < |s| ==> s[e] == rest[0];
    SearchFinds(s, prefix, 0, e);
    DecimalRoundTrip(n);
  }
}
