/** Text operations the views rely on: the case-insensitive substring test
    behind Django's `icontains` lookup, and the decimal text of the integer
    date parts that `date_joined__year/month/day__icontains` compares with. */
module Text {

  /** ASCII lower-casing of one character; every other character is kept. */
  function LowerChar(c: char): (r: char)
    ensures !('A' <= r <= 'Z')
    ensures !('A' <= c <= 'Z') ==> r == c
  {
    if 'A' <= c <= 'Z' then (c as int + 32) as char else c
  }

  /** ASCII lower-casing of a whole string, character by character. */
  function Lower(s: string): (r: string)
    ensures |r| == |s|
    ensures forall i :: 0 <= i < |s| ==> r[i] == LowerChar(s[i])
  {
    seq(|s|, i requires 0 <= i < |s| => LowerChar(s[i]))
  }

  /** Specification of "`needle` is a substring of `hay`": some window of
      `hay` equals `needle`. */
  ghost predicate Occurs(needle: string, hay: string) {
    exists i :: OccursAt(needle, hay, i)
  }

  /** The window of `hay` starting at `i` equals `needle`. */
  predicate OccursAt(needle: string, hay: string, i: int) {
    0 <= i && i + |needle| <= |hay| && hay[i..i + |needle|] == needle
  }

  /** Moving the window start one place right: `needle` occurs in `hay`
      iff it is a prefix of `hay` or occurs in `hay` without its first
      character. */
  lemma OccursStep(needle: string, hay: string)
    requires |needle| <= |hay| && hay[..|needle|] != needle
    ensures Occurs(needle, hay) <==> Occurs(needle, hay[1..])
  {
    if Occurs(needle, hay) {
      var i :| OccursAt(needle, hay, i);
      assert i != 0;
      assert hay[1..][i - 1..i - 1 + |needle|] == needle;
      assert OccursAt(needle, hay[1..], i - 1);
    }
    if Occurs(needle, hay[1..]) {
      var i :| OccursAt(needle, hay[1..], i);
      assert hay[i + 1..i + 1 + |needle|] == needle;
      assert OccursAt(needle, hay, i + 1);
    }
  }

  /** Python's `needle in hay` on strings: a left-to-right scan for a
      window equal to `needle`. */
  function Contains(hay: string, needle: string): (r: bool)
    ensures r <==> Occurs(needle, hay)
    decreases |hay|
  {
    if |hay| < |needle| then false
    else if hay[..|needle|] == needle then
      assert OccursAt(needle, hay, 0);
      true
    else
      OccursStep(needle, hay);
      Contains(hay[1..], needle)
  }

  /** Django's `field__icontains=q`: `q` occurs in the field once both are
      lower-cased. */
  predicate IContains(field: string, q: string) {
    Contains(Lower(field), Lower(q))
  }

  /** Specification of the case-insensitive match. */
  ghost predicate OccursIgnoringCase(q: string, field: string) {
    Occurs(Lower(q), Lower(field))
  }

  /** Every string contains the empty string. */
  lemma EmptyOccursEverywhere(hay: string)
    ensures Occurs("", hay)
  {
    assert OccursAt("", hay, 0);
  }

  // ---------------------------------------------------------------------
  // Decimal text of natural numbers, as the database casts an extracted
  // date part to text for a `__year/__month/__day__icontains` lookup
  // ---------------------------------------------------------------------

  predicate IsDigit(c: char) { '0' <= c <= '9' }

  function DigitChar(d: nat): (c: char)
    requires d < 10
    ensures IsDigit(c)
  {
    ('0' as int + d) as char
  }

  function DigitValue(c: char): (d: nat)
    requires IsDigit(c)
    ensures d < 10
  {
    c as int - '0' as int
  }

  /** Decimal text of `n`: digits only, no leading zero, "0" for zero. */
  function DecimalText(n: nat): (s: string)
    ensures |s| >= 1
    ensures forall i :: 0 <= i < |s| ==> IsDigit(s[i])
    ensures |s| > 1 ==> s[0] != '0'
    ensures n < 10 <==> |s| == 1
  {
    if n < 10 then [DigitChar(n)] else DecimalText(n / 10) + [DigitChar(n % 10)]
  }

  /** Value of a string of decimal digits (the reading of `DecimalText`). */
  function DecimalValue(s: string): nat
    requires forall i :: 0 <= i < |s| ==> IsDigit(s[i])
  {
    if s == [] then 0 else DecimalValue(s[..|s| - 1]) * 10 + DigitValue(s[|s| - 1])
  }

  /** Reading back the decimal text of `n` gives `n`. */
  lemma {:induction false} DecimalRoundTrip(n: nat)
    ensures DecimalValue(DecimalText(n)) == n
  {
    var s := DecimalText(n);
    if n >= 10 {
      DecimalRoundTrip(n / 10);
      assert s[..|s| - 1] == DecimalText(n / 10);
    }
  }

  /** Two numbers have the same decimal text only if they are equal. */
  lemma DecimalTextInjective(m: nat, n: nat)
    requires DecimalText(m) == DecimalText(n)
    ensures m == n
  {
    DecimalRoundTrip(m);
    DecimalRoundTrip(n);
  }

  /** Decimal text has no letters, so lower-casing leaves it alone. */
  lemma LowerDecimalText(n: nat)
    ensures Lower(DecimalText(n)) == DecimalText(n)
  {
  }
}
