/** The count summary shown when multiple mode finishes
    (src/index.ts:196-200): the count in decimal, then "item" or "items",
    then "selected". */
module Summary {

  predicate IsDigit(c: char) {
    '0' <= c <= '9'
  }

  predicate AllDigits(s: string) {
    forall i :: 0 <= i < |s| ==> IsDigit(s[i])
  }

  function DigitChar(d: nat): (c: char)
    requires d < 10
    ensures IsDigit(c)
  {
    ('0' as int + d) as char
  }

  /** A natural number as JavaScript writes it in a template string. */
  function Decimal(n: nat): (s: string)
    ensures |s| >= 1 && AllDigits(s)
    ensures |s| > 1 ==> s[0] != '0'
  {
    if n < 10 then [DigitChar(n)]
    else Decimal(n / 10) + [DigitChar(n % 10)]
  }

  /** The value of a string of decimal digits. */
  function DigitsValue(s: string): nat
    requires AllDigits(s)
  {
    if s == [] then 0
    else DigitsValue(s[..|s| - 1]) * 10 + (s[|s| - 1] as int - '0' as int)
  }

  /** The decimal text reads back as the number it was written from. */
  lemma {:induction false} DecimalReadsBack(n: nat)
    ensures DigitsValue(Decimal(n)) == n
  {
    if n >= 10 {
      DecimalReadsBack(n / 10);
      var s := Decimal(n);
      assert s[..|s| - 1] == Decimal(n / 10);
    }
  }

  /** The summary text: `"<count> item selected"` or `"<count> items selected"`. */
  function SummaryText(count: nat): string {
    Decimal(count) + " " + (if count == 1 then "item" else "items") + " selected"
  }

  /** The summary starts with the decimal count, which reads back as the
      count, followed by a space; it ends "item selected" when the count is
      1 and "items selected" otherwise. */
  lemma SummaryStatesCount(count: nat)
    ensures var d := Decimal(count);
      var s := SummaryText(count);
      |s| > |d| && s[..|d|] == d && s[|d|] == ' ' && DigitsValue(d) == count &&
      (count == 1 ==> s[|d| + 1..] == "item selected") &&
      (count != 1 ==> s[|d| + 1..] == "items selected")
  {
    DecimalReadsBack(count);
    var d := Decimal(count);
    var s := SummaryText(count);
    assert s[|d| + 1..] == (if count == 1 then "item" else "items") + " selected";
  }
}
