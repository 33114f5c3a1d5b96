/**
 * The two token checks of the BLOSUM reader: Python's `int(token)` on a
 * whitespace-free token, and the pattern that a gap-cost line must match.
 */
module Tokens {
  import opened Wrappers

  predicate IsDigit(c: char) { '0' <= c <= '9' }

  /** A non-empty run of ASCII decimal digits. */
  predicate IsDigits(s: string) {
    |s| > 0 && forall k :: 0 <= k < |s| ==> IsDigit(s[k])
  }

  /** Value of a run of decimal digits, most significant digit first (leading zeros allowed). */
  function DigitsValue(s: string): nat
    requires forall k :: 0 <= k < |s| ==> IsDigit(s[k])
    decreases |s|
  {
    if s == [] then 0
    else
      assert IsDigit(s[|s| - 1]);
      DigitsValue(s[..|s| - 1]) * 10 + (s[|s| - 1] as int - '0' as int)
  }

  /** The tokens `int(...)` accepts here: an optional `+` or `-` followed by decimal digits. */
  predicate IsIntToken(s: string) {
    IsDigits(s) || (|s| >= 2 && (s[0] == '-' || s[0] == '+') && IsDigits(s[1..]))
  }

  /** Python's `int(token)`: None where Python raises ValueError. */
  function ParseInt(s: string): (r: Option<int>)
    ensures r.Some? <==> IsIntToken(s)
    ensures r.Some? && IsDigits(s) ==> r.value >= 0
    ensures r.Some? && s[0] == '-' ==> r.value <= 0
  {
    if IsDigits(s) then Some(DigitsValue(s))
    else if IsIntToken(s) then
      (if s[0] == '-' then Some(-(DigitsValue(s[1..]) as int)) else Some(DigitsValue(s[1..])))
    else None
  }

  function DigitChar(d: nat): char
    requires d < 10
  {
    ('0' as int + d) as char
  }

  /** Decimal text of a natural number, without leading zeros. */
  function ShowNat(n: nat): string
    decreases n
  {
    if n < 10 then [DigitChar(n)] else ShowNat(n / 10) + [DigitChar(n % 10)]
  }

  /** Decimal text of an integer, as Python's `str(n)` writes it. */
  function Show(n: int): string {
    if n < 0 then "-" + ShowNat(-n) else ShowNat(n)
  }

  lemma {:induction false} ShowNatDigits(n: nat)
    ensures IsDigits(ShowNat(n)) && DigitsValue(ShowNat(n)) == n
    decreases n
  {
    var s := ShowNat(n);
    if n >= 10 {
      ShowNatDigits(n / 10);
      assert s[..|s| - 1] == ShowNat(n / 10);
    }
  }

  /** Round trip: `int(str(n)) == n` for every integer. */
  lemma ParseShow(n: int)
    ensures ParseInt(Show(n)) == Some(n)
  {
    var t := ShowNat(if n < 0 then -n else n);
    ShowNatDigits(if n < 0 then -n else n);
    if n < 0 {
      assert Show(n)[1..] == t;
      assert !IsDigit(Show(n)[0]);
    }
  }

  /** The number at the end of a gap line: the regular expression `-?\d+`. */
  predicate IsGapNumber(s: string) {
    IsDigits(s) || (|s| >= 2 && s[0] == '-' && IsDigits(s[1..]))
  }

  /**
   * A gap line `<name> = <number>`: the reader joins the line's tokens with
   * single spaces and matches `^<name> = -?\d+$`. As tokens hold no
   * whitespace, the join matches exactly when there are three tokens of that
   * shape. The cost is then `int` of the third token.
   */
  function GapLine(name: string, tokens: seq<string>): (r: Option<int>)
    ensures r.Some? <==> |tokens| == 3 && tokens[0] == name && tokens[1] == "=" && IsGapNumber(tokens[2])
    ensures r.Some? ==> ParseInt(tokens[2]) == Some(r.value)
  {
    if |tokens| == 3 && tokens[0] == name && tokens[1] == "=" && IsGapNumber(tokens[2])
    then ParseInt(tokens[2])
    else None
  }

  /** Round trip: the line written for any cost `n` is accepted with cost `n`. */
  lemma GapLineShow(name: string, n: int)
    ensures GapLine(name, [name, "=", Show(n)]) == Some(n)
  {
    ParseShow(n);
    ShowNatDigits(if n < 0 then -n else n);
    if n < 0 {
      assert Show(n)[1..] == ShowNat(-n);
    }
  }

  /** A signed token that `int` would take is still refused on a gap line when it carries a `+`. */
  lemma GapLineRefusesPlus(name: string, digits: string)
    requires IsDigits(digits)
    ensures ParseInt("+" + digits) == Some(DigitsValue(digits))
    ensures GapLine(name, [name, "=", "+" + digits]) == None
  {
    assert ("+" + digits)[1..] == digits;
  }
}
