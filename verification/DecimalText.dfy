/**
 The two directions in which the approval code moves between withdrawal ids and text.
 A request stores its entity id as the raw string the client sent and parses it with
 `parseInt(entityId, 10)`; the consumer looks requests up by `String(withdrawalId)`.
 */
module DecimalText {
  import opened Common

  predicate IsDigit(c: char) {
    '0' <= c <= '9'
  }

  predicate IsSpace(c: char) {
    c == ' ' || c == '\t' || c == '\n' || c == '\r'
  }

  function DigitChar(d: nat): char
    requires d < 10
  {
    ('0' as int + d) as char
  }

  function DigitValue(c: char): nat
    requires IsDigit(c)
  {
    c as int - '0' as int
  }

  /** `String(n)` of a natural number. */
  function ToDecimal(n: nat): (s: string)
    ensures |s| > 0
    ensures forall i :: 0 <= i < |s| ==> IsDigit(s[i])
  {
    if n < 10 then [DigitChar(n)] else ToDecimal(n / 10) + [DigitChar(n % 10)]
  }

  function NumberOf(digits: string): nat
    requires forall i :: 0 <= i < |digits| ==> IsDigit(digits[i])
  {
    if digits == [] then 0
    else NumberOf(digits[..|digits| - 1]) * 10 + DigitValue(digits[|digits| - 1])
  }

  /** The longest prefix made of digits. */
  function LeadingDigits(s: string): (r: string)
    ensures r <= s
    ensures forall i :: 0 <= i < |r| ==> IsDigit(r[i])
    ensures |r| < |s| ==> !IsDigit(s[|r|])
  {
    if s == [] || !IsDigit(s[0]) then []
    else
      var rest := LeadingDigits(s[1..]);
      assert [s[0]] + rest <= [s[0]] + s[1..] == s;
      [s[0]] + rest
  }

  function TrimLeft(s: string): string {
    if s != [] && IsSpace(s[0]) then TrimLeft(s[1..]) else s
  }

  /** `parseInt(s, 10)`: optional blanks, optional sign, then a run of digits; anything after it is ignored. */
  function ParseInt(s: string): Option<int> {
    var t := TrimLeft(s);
    var signed := t != [] && (t[0] == '-' || t[0] == '+');
    var digits := LeadingDigits(if signed then t[1..] else t);
    var magnitude: int := NumberOf(digits);
    if digits == [] then None
    else if signed && t[0] == '-' then Some(-magnitude)
    else Some(magnitude)
  }

  lemma {:induction false} NumberOfDecimal(n: nat)
    ensures NumberOf(ToDecimal(n)) == n
  {
    var s := ToDecimal(n);
    if n < 10 {
      assert s[..|s| - 1] == [];
    } else {
      NumberOfDecimal(n / 10);
      assert s[..|s| - 1] == ToDecimal(n / 10);
    }
  }

  /** Parsing a printed id gives the id back, so a request found under a printed id was created for that id. */
  lemma ParsePrinted(n: nat)
    ensures ParseInt(ToDecimal(n)) == Some(n)
  {
    var s := ToDecimal(n);
    assert IsDigit(s[0]);
    NumberOfDecimal(n);
    assert LeadingDigits(s) == s;
  }

  lemma PrintedInjective(a: nat, b: nat)
    requires ToDecimal(a) == ToDecimal(b)
    ensures a == b
  {
    NumberOfDecimal(a);
    NumberOfDecimal(b);
  }

  lemma {:induction false} DigitsStop(digits: string, rest: string)
    requires forall i :: 0 <= i < |digits| ==> IsDigit(digits[i])
    requires rest != [] ==> !IsDigit(rest[0])
    ensures LeadingDigits(digits + rest) == digits
  {
    if digits == [] {
      assert digits + rest == rest;
    } else {
      assert (digits + rest)[1..] == digits[1..] + rest;
      DigitsStop(digits[1..], rest);
    }
  }

  /** Whatever follows the digits is ignored. */
  lemma {:induction false} ParseIgnoresRest(n: nat, rest: string)
    requires rest != [] ==> !IsDigit(rest[0])
    ensures ParseInt(ToDecimal(n) + rest) == Some(n)
  {
    var s := ToDecimal(n) + rest;
    DigitsStop(ToDecimal(n), rest);
    NumberOfDecimal(n);
    assert IsDigit(s[0]) && TrimLeft(s) == s;
  }

  /** A minus sign negates. */
  lemma {:induction false} ParseNegative(n: nat, rest: string)
    requires rest != [] ==> !IsDigit(rest[0])
    ensures var negated := -(n as int); ParseInt(['-'] + (ToDecimal(n) + rest)) == Some(negated)
  {
    var s := ['-'] + (ToDecimal(n) + rest);
    DigitsStop(ToDecimal(n), rest);
    NumberOfDecimal(n);
    assert s[0] == '-' && s[1..] == ToDecimal(n) + rest;
    assert TrimLeft(s) == s;
  }

  /** Text that does not start a number is refused. */
  lemma {:induction false} ParseRefuses(s: string)
    requires s == [] || (!IsDigit(s[0]) && !IsSpace(s[0]) && s[0] != '-' && s[0] != '+')
    ensures ParseInt(s) == None
  {
    assert TrimLeft(s) == s && LeadingDigits(s) == [];
  }
}
