/**
 * Decimal integers as Python reads and writes them: `int(s)` on a string that has already been
 * stripped, and `str(n)` / `f"{n}"`.
 */
module Numerals {
  import opened Wrappers

  predicate IsDigit(c: char) {
    '0' <= c <= '9'
  }

  function DigitValue(c: char): (d: nat)
    requires IsDigit(c)
    ensures d < 10
  {
    c as int - '0' as int
  }

  function DigitChar(d: nat): (c: char)
    requires d < 10
    ensures IsDigit(c) && DigitValue(c) == d
  {
    ('0' as int + d) as char
  }

  /** The body of a Python integer literal: ASCII digits, where a single `_` may stand between two
      digits (`1_000`). */
  predicate IsDigitRun(s: string) {
    && s != []
    && IsDigit(s[0]) && IsDigit(s[|s| - 1])
    && (forall i :: 0 <= i < |s| ==> IsDigit(s[i]) || s[i] == '_')
    && (forall i :: 0 <= i < |s| - 1 ==> IsDigit(s[i]) || IsDigit(s[i + 1]))
  }

  /** The value of a run of digits and underscores, underscores ignored. */
  function RunValue(s: string): nat
    requires forall i :: 0 <= i < |s| ==> IsDigit(s[i]) || s[i] == '_'
    decreases |s|
  {
    if s == [] then 0
    else if s[|s| - 1] == '_' then RunValue(s[..|s| - 1])
    else RunValue(s[..|s| - 1]) * 10 + DigitValue(s[|s| - 1])
  }

  /** `int(s)` for an already stripped `s`: an optional sign followed by a digit run; anything else
      is the `ValueError` case, `None`. */
  function ParseInt(s: string): (r: Option<int>)
    ensures r.Some? <==> IsDigitRun(s) || (s != [] && (s[0] == '-' || s[0] == '+') && IsDigitRun(s[1..]))
    ensures r.Some? ==> s != [] && (s[0] == '-' || s[0] == '+' || IsDigit(s[0]))
    ensures s == [] ==> r.None?
    ensures IsDigitRun(s) ==> r == Some(RunValue(s))
    ensures s != [] && s[0] == '+' && IsDigitRun(s[1..]) ==> r == Some(RunValue(s[1..]))
    ensures s != [] && s[0] == '-' && IsDigitRun(s[1..]) ==> r == Some(-(RunValue(s[1..]) as int))
  {
    if s != [] && (s[0] == '-' || s[0] == '+') then
      var body := s[1..];
      if IsDigitRun(body) then Some(if s[0] == '-' then -(RunValue(body) as int) else RunValue(body))
      else None
    else if IsDigitRun(s) then Some(RunValue(s))
    else None
  }

  /** `str(n)` for `n >= 0`: decimal digits, no leading zero. */
  function ShowNat(n: nat): (s: string)
    ensures s != [] && (forall i :: 0 <= i < |s| ==> IsDigit(s[i]))
    ensures |s| > 1 ==> s[0] != '0'
    decreases n
  {
    if n < 10 then [DigitChar(n)] else ShowNat(n / 10) + [DigitChar(n % 10)]
  }

  /** `str(n)`. */
  function ShowInt(n: int): (s: string)
    ensures s != [] && (s[0] == '-' <==> n < 0)
  {
    if n < 0 then "-" + ShowNat(-n) else ShowNat(n)
  }

  /** Reading back the digits `str` wrote gives the number. */
  lemma {:induction false} ShowNatValue(n: nat)
    ensures IsDigitRun(ShowNat(n)) && RunValue(ShowNat(n)) == n
    decreases n
  {
    if n >= 10 {
      ShowNatValue(n / 10);
      var s := ShowNat(n);
      assert s[..|s| - 1] == ShowNat(n / 10);
    }
  }

  /** `int(str(n)) == n`. */
  lemma ParseShowInt(n: int)
    ensures ParseInt(ShowInt(n)) == Some(n)
  {
    if n < 0 {
      ShowNatValue(-n);
      assert ShowInt(n)[1..] == ShowNat(-n);
    } else {
      ShowNatValue(n);
    }
  }
}
