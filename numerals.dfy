/** Decimal integers as text: the part of Python's `int(s)` (base 10) that the service
    depends on when it reads the `X-TS` header and integer environment variables. */
module Numerals {

  import opened Wrappers
  import opened Text

  predicate IsDigit(c: char) {
    '0' <= c <= '9'
  }

  predicate AllDigits(s: string) {
    forall i :: 0 <= i < |s| ==> IsDigit(s[i])
  }

  /** The value of a string of ASCII decimal digits, most significant digit first. */
  function DigitsValue(s: string): nat
    requires AllDigits(s)
  {
    if |s| == 0 then 0 else 10 * DigitsValue(s[..|s| - 1]) + (s[|s| - 1] as int - '0' as int)
  }

  /** The whitespace `int()` skips around a literal. CPython first turns every non-ASCII
      character that `str.isspace()` accepts into a space, then skips only the ASCII space
      and `\t` to `\r`. So, unlike `str.strip()`, it keeps U+001C to U+001F. */
  predicate IsIntSpace(c: char) {
    c == ' ' || ('\t' <= c <= '\r') || (c as int >= 0x80 && IsSpace(c))
  }

  /** The most digits `int()` converts in base 10 (`sys.get_int_max_str_digits()` at its
      default, enforced since Python 3.11 and since the
      security releases 3.7.14, 3.8.14, 3.9.14 and 3.10.7); a longer literal raises `ValueError`. */
  const MAX_STR_DIGITS := 4300

  /** The digits of a literal: what follows an optional leading sign. */
  function Unsigned(t: string): string {
    if |t| > 0 && (t[0] == '-' || t[0] == '+') then t[1..] else t
  }

  /** A decimal integer literal as `int()` accepts it once surrounding whitespace is gone:
      an optional sign followed by at least one digit. */
  predicate IsIntLiteral(t: string) {
    |Unsigned(t)| > 0 && AllDigits(Unsigned(t))
  }

  /** `int(s)`: `None` where Python raises `ValueError`. Surrounding whitespace is ignored,
      a leading `-` negates, a leading `+` is allowed, and at most `MAX_STR_DIGITS` digits
      are read. */
  function ParseInt(s: string): (r: Option<int>)
    ensures var t := TrimBy(s, IsIntSpace);
            r.Some? <==> IsIntLiteral(t) && |Unsigned(t)| <= MAX_STR_DIGITS
    ensures var t := TrimBy(s, IsIntSpace);
            r.Some? ==> (if t[0] == '-' then r.value <= 0 else r.value >= 0)
  {
    var t := TrimBy(s, IsIntSpace);
    var d := Unsigned(t);
    if |d| == 0 || !AllDigits(d) || |d| > MAX_STR_DIGITS then None
    else
      var v: int := DigitsValue(d);
      Some(if t[0] == '-' then -v else v)
  }

  /** The shortest decimal digits of `n`, as Python's `str(n)` writes them. */
  function ShowNat(n: nat): (s: string)
    ensures |s| >= 1 && AllDigits(s)
    ensures DigitsValue(s) == n
  {
    if n < 10 then
      [('0' as int + n) as char]
    else
      var prefix := ShowNat(n / 10);
      var s := prefix + [('0' as int + n % 10) as char];
      assert s[..|s| - 1] == prefix;
      s
  }

  function ShowInt(n: int): string {
    if n < 0 then "-" + ShowNat(-n) else ShowNat(n)
  }

  /** Reading back what `ShowInt` writes gives the same integer, as long as it has no more
      digits than `int()` converts. */
  lemma ParseShow(n: int)
    ensures var m: nat := if n < 0 then -n else n;
            ParseInt(ShowInt(n)) == if |ShowNat(m)| <= MAX_STR_DIGITS then Some(n) else None
  {
    var s := ShowInt(n);
    TrimUnpadded(s, IsIntSpace);
    if n < 0 {
      assert s[1..] == ShowNat(-n);
    }
  }

  /** `int()` skips whitespace around a literal, ASCII (a space, `\n`) and non-ASCII
      (U+00A0, U+3000) alike: one such character on each side changes nothing. */
  lemma IntSpaceSkipped(x: char, t: string, y: char)
    requires IsIntSpace(x) && IsIntSpace(y)
    requires IsIntLiteral(t) && |Unsigned(t)| <= MAX_STR_DIGITS
    ensures ParseInt([x] + t + [y]) == ParseInt(t)
    ensures ParseInt(t).Some?
  {
    assert t[|t| - 1] == Unsigned(t)[|Unsigned(t)| - 1];
    TrimUnpadded(t, IsIntSpace);
    TrimPadded(x, t, y, IsIntSpace);
  }

  /** U+001C is whitespace to `str.strip()` but not to `int()`: it makes the text invalid. */
  lemma FileSeparatorRejected()
    ensures Strip("\U{1C}42") == "42"
    ensures ParseInt("\U{1C}42") == None
  {
    var c := "\U{1C}42";
    TrimUnpadded(c, IsIntSpace);
    assert c[1..] == "42";
    assert LeadingRun(c, IsSpace) == 1;
  }

  /** A literal with more than `MAX_STR_DIGITS` digits is refused, with or without a sign. */
  lemma TooManyDigitsRejected(d: string)
    requires AllDigits(d) && |d| > MAX_STR_DIGITS
    ensures ParseInt(d) == None && ParseInt("-" + d) == None
  {
    TrimUnpadded(d, IsIntSpace);
    TrimUnpadded("-" + d, IsIntSpace);
    assert ("-" + d)[1..] == d;
  }
}
