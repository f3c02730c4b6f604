/** Decimal integers as Python prints them with f"{n}" and reads them with int(text). */
module Decimal {
  import opened Wrappers

  function DigitChar(d: nat): char
    requires d < 10
  {
    "0123456789"[d]
  }

  function DigitValue(c: char): Option<nat> {
    if '0' <= c <= '9' then Some(c as int - '0' as int) else None
  }

  function Print(n: nat): (s: string)
    ensures s != "" && forall c :: c in s ==> '0' <= c <= '9'
  {
    if n < 10 then [DigitChar(n)] else Print(n / 10) + [DigitChar(n % 10)]
  }

  // Digits, with single underscores allowed between them.
  function ParseDigits(s: string): Option<nat> {
    if s == "" then None
    else
      match DigitValue(s[|s| - 1])
      case None => None
      case Some(d) =>
        if |s| == 1 then Some(d)
        else
          match ParseDigits(if s[|s| - 2] == '_' then s[..|s| - 2] else s[..|s| - 1])
          case None => None
          case Some(n) => Some(10 * n + d)
  }

  /** int(s), for a text without white space: None stands for ValueError. */
  function ParseInt(s: string): Option<int> {
    if s != "" && (s[0] == '-' || s[0] == '+') then
      match ParseDigits(s[1..])
      case None => None
      case Some(n) => var magnitude: int := n; Some(if s[0] == '-' then -magnitude else magnitude)
    else
      match ParseDigits(s)
      case None => None
      case Some(n) => Some(n)
  }

  lemma {:induction false} ParseDigitsOfPrint(n: nat)
    ensures ParseDigits(Print(n)) == Some(n)
  {
    if n >= 10 {
      ParseDigitsOfPrint(n / 10);
      var s := Print(n);
      assert s[..|s| - 1] == Print(n / 10);
      assert s[|s| - 2] in Print(n / 10);
    }
  }

  /** Reading a printed number gives it back. */
  lemma ParseOfPrint(n: nat)
    ensures ParseInt(Print(n)) == Some(n)
  {
    ParseDigitsOfPrint(n);
    assert Print(n)[0] in Print(n);
  }
}
