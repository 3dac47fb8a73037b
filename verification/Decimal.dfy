/** Decimal printing (`to_string`) and parsing (`str::parse`) of unsigned integers. */
module Decimal {
  import opened Wrappers
  import opened U64

  predicate IsDigit(c: char) {
    '0' <= c <= '9'
  }

  predicate AllDigits(s: string) {
    forall c | c in s :: IsDigit(c)
  }

  function Digit(n: nat): (c: char)
    requires n < 10
    ensures IsDigit(c) && DigitValue(c) == n
  {
    ('0' as int + n) as char
  }

  function DigitValue(c: char): (n: nat)
    requires IsDigit(c)
    ensures n < 10
  {
    c as int - '0' as int
  }

  /** The canonical decimal text of a number. */
  function Print(n: nat): (s: string)
    ensures s != "" && AllDigits(s)
    decreases n
  {
    if n < 10 then [Digit(n)] else Print(n / 10) + [Digit(n % 10)]
  }

  /** The number a text of digits denotes. */
  function Value(s: string): nat
    requires AllDigits(s)
  {
    if s == "" then 0
    else Value(s[..|s| - 1]) * 10 + DigitValue(s[|s| - 1])
  }

  /** Parsing accepts one leading plus sign and any number of leading zeros; it refuses an
      empty digit text, any other character and a value above `max`. */
  function Parse(s: string, max: nat): Option<nat> {
    var digits := if s != "" && s[0] == '+' then s[1..] else s;
    if digits == "" || !AllDigits(digits) || Value(digits) > max then None
    else Some(Value(digits))
  }

  /** `parse().unwrap_or(0)` at type `u64`. */
  function ParseOrZero(s: string): (n: u64) {
    Parse(s, MAX).GetOr(0)
  }

  lemma {:induction false} ValueOfPrint(n: nat)
    ensures Value(Print(n)) == n
    decreases n
  {
    if n < 10 {
      assert Print(n)[..0] == "";
    } else {
      ValueOfPrint(n / 10);
      var s := Print(n);
      assert s[..|s| - 1] == Print(n / 10);
      assert s[|s| - 1] == Digit(n % 10);
    }
  }

  function Pow10(k: nat): nat {
    if k == 0 then 1 else 10 * Pow10(k - 1)
  }

  lemma {:induction false} Pow10Sum(j: nat, k: nat)
    ensures Pow10(j + k) == Pow10(j) * Pow10(k)
  {
    if j > 0 {
      Pow10Sum(j - 1, k);
    }
  }

  /** A number below the k-th power of ten has at most k digits. */
  lemma {:induction false} PrintLength(n: nat, k: nat)
    requires k >= 1 && n < Pow10(k)
    ensures |Print(n)| <= k
  {
    if n >= 10 {
      PrintLength(n / 10, k - 1);
    }
  }

  lemma U64Length(n: u64)
    ensures |Print(n)| <= 20
  {
    assert Pow10(5) == 10 * Pow10(4) == 100 * Pow10(3) == 100_000;
    Pow10Sum(5, 5);
    Pow10Sum(10, 10);
    PrintLength(n, 20);
  }

  lemma ParseOfPrint(n: nat, max: nat)
    ensures Parse(Print(n), max) == if n <= max then Some(n) else None
  {
    ValueOfPrint(n);
    assert IsDigit(Print(n)[0]);
  }

  predicate NoNumber(s: string) {
    s == "" || (s[0] != '+' && exists i :: 0 <= i < |s| && !('0' <= s[i] <= '9'))
  }

  /** Texts that are no numbers count as zero; a leading plus sign is allowed. */
  lemma NoNumberIsZero(s: string)
    ensures NoNumber(s) ==> ParseOrZero(s) == 0
    ensures s != "" && AllDigits(s) ==> ParseOrZero(s) == ParseOrZero("+" + s) == if Value(s) <= MAX then Value(s) else 0
  {
    if s != "" && s[0] != '+' {
      assert forall i | 0 <= i < |s| :: s[i] in s;
    }
    if s != "" && AllDigits(s) {
      assert IsDigit(s[0]);
      assert ("+" + s)[1..] == s;
    }
  }

  /** Leading zeros do not matter. */
  lemma {:induction false} LeadingZero(s: string)
    requires AllDigits(s)
    ensures AllDigits("0" + s) && Value("0" + s) == Value(s)
  {
    var t := "0" + s;
    if s == "" {
      assert t[..0] == "" && DigitValue('0') == 0;
    } else {
      LeadingZero(s[..|s| - 1]);
      assert t[..|t| - 1] == "0" + s[..|s| - 1];
    }
  }
}
