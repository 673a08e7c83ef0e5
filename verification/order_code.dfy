/**
 The order code the main screen generates: "PEDIDO_", the clock reading in
 milliseconds, "_", and a random number below 1000. The clock reading and
 the random draw are inputs. Parsing a code back is not in the source; it is
 the partner that shows the format loses nothing.
 */
module OrderCode {
  import opened Domain

  const Prefix: string := "PEDIDO_"

  predicate IsDigit(c: char) {
    '0' <= c <= '9'
  }

  function DigitChar(d: nat): (c: char)
    requires d < 10
    ensures IsDigit(c)
  {
    ('0' as int + d) as char
  }

  function DigitValue(c: char): (d: nat)
    requires IsDigit(c)
    ensures d < 10
  {
    c as int - '0' as int
  }

  /** Decimal digits of `n`, most significant first, without leading zeros. */
  function Digits(n: nat): (s: string)
    ensures |s| > 0
    ensures forall i :: 0 <= i < |s| ==> IsDigit(s[i])
    decreases n
  {
    if n < 10 then [DigitChar(n)] else Digits(n / 10) + [DigitChar(n % 10)]
  }

  /** Java's decimal rendering of a long, with a leading '-' when negative. */
  function LongToString(x: int): string {
    if x < 0 then "-" + Digits(-x) else Digits(x)
  }

  predicate AllDigits(s: string) {
    forall i :: 0 <= i < |s| ==> IsDigit(s[i])
  }

  function ParseDigits(s: string): nat
    requires |s| > 0 && AllDigits(s)
    decreases |s|
  {
    if |s| == 1 then DigitValue(s[0])
    else ParseDigits(s[..|s| - 1]) * 10 + DigitValue(s[|s| - 1])
  }

  /** A non-empty run of digits without a leading zero, unless it is the
      single digit "0": the form Java writes a number in. */
  predicate Canonical(s: string) {
    |s| > 0 && AllDigits(s) && (|s| == 1 || s[0] != '0')
  }

  /** A number written as Java writes it, read as a natural number. */
  function ParseNat(s: string): Option<nat> {
    if Canonical(s) then Some(ParseDigits(s)) else None
  }

  /** A number with a leading '-' when negative, as Java writes a long; Java
      never writes "-0". */
  function ParseLong(s: string): Option<int> {
    if |s| > 0 && s[0] == '-' then
      match ParseNat(s[1..])
      case None => None
      case Some(n) => if n == 0 then None else Some(-(n as int))
    else
      match ParseNat(s)
      case None => None
      case Some(n) => Some(n)
  }

  /** Index of the first '_' in `s`, or |s| when there is none. */
  function FirstUnderscore(s: string): (j: nat)
    ensures j <= |s|
    ensures j < |s| ==> s[j] == '_'
    ensures forall i :: 0 <= i < j ==> s[i] != '_'
    decreases |s|
  {
    if |s| == 0 then 0
    else if s[0] == '_' then 0
    else 1 + FirstUnderscore(s[1..])
  }

  /** Reads a code back into its clock reading and its random suffix. */
  function ParseCode(code: string): Option<(int, nat)> {
    if |code| < |Prefix| || code[..|Prefix|] != Prefix then None
    else
      var rest := code[|Prefix|..];
      var j := FirstUnderscore(rest);
      if j == |rest| then None
      else
        match (ParseLong(rest[..j]), ParseNat(rest[j + 1..]))
        case (Some(millis), Some(n)) => Some((millis, n))
        case _ => None
  }

  /** The code for a clock reading and a suffix. */
  function Format(millis: int, n: nat): string {
    Prefix + LongToString(millis) + "_" + Digits(n)
  }

  /** `(int) (random * 1000)` for a draw of Math.random: the whole part of
      the scaled draw, which is below 1000. */
  function RandomSuffix(random: real): (n: nat)
    requires 0.0 <= random < 1.0
    ensures n as real <= random * 1000.0 < n as real + 1.0
    ensures n < 1000
  {
    (random * 1000.0).Floor
  }

  lemma {:induction false} ParseDigitsOfDigits(n: nat)
    ensures ParseDigits(Digits(n)) == n
    decreases n
  {
    if n >= 10 {
      var s := Digits(n);
      assert s[..|s| - 1] == Digits(n / 10);
      ParseDigitsOfDigits(n / 10);
    }
  }

  /** The digits of a number have no leading zero, and a positive number's
      first digit is not '0'. */
  lemma {:induction false} DigitsCanonical(n: nat)
    ensures Canonical(Digits(n))
    ensures n > 0 ==> Digits(n)[0] != '0'
    decreases n
  {
    if n >= 10 {
      DigitsCanonical(n / 10);
      assert Digits(n)[0] == Digits(n / 10)[0];
    }
  }

  lemma ParseNatOfDigits(n: nat)
    ensures ParseNat(Digits(n)) == Some(n)
  {
    DigitsCanonical(n);
    ParseDigitsOfDigits(n);
  }

  /** A run of digits that does not start with '0' reads as a positive number. */
  lemma {:induction false} ParseDigitsPositive(s: string)
    requires |s| > 0 && AllDigits(s) && s[0] != '0'
    ensures ParseDigits(s) > 0
    decreases |s|
  {
    if |s| > 1 {
      ParseDigitsPositive(s[..|s| - 1]);
    }
  }

  /** Writing back a number read from canonical digits gives the same digits. */
  lemma {:induction false} DigitsOfParseDigits(s: string)
    requires Canonical(s)
    ensures Digits(ParseDigits(s)) == s
    decreases |s|
  {
    if |s| == 1 {
      assert Digits(ParseDigits(s)) == [DigitChar(DigitValue(s[0]))];
    } else {
      var init := s[..|s| - 1];
      var d := DigitValue(s[|s| - 1]);
      ParseDigitsPositive(init);
      DigitsOfParseDigits(init);
      var n := ParseDigits(s);
      assert n == ParseDigits(init) * 10 + d;
      assert n >= 10 && n / 10 == ParseDigits(init) && n % 10 == d;
      assert Digits(n) == init + [DigitChar(d)];
      assert s == init + [s[|s| - 1]];
    }
  }

  /** A string that reads as a long is that long as Java writes it. */
  lemma LongToStringOfParseLong(s: string, x: int)
    requires ParseLong(s) == Some(x)
    ensures LongToString(x) == s
  {
    if |s| > 0 && s[0] == '-' {
      var n := ParseDigits(s[1..]);
      DigitsOfParseDigits(s[1..]);
      assert x == -(n as int) && n > 0;
      assert s == "-" + s[1..];
    } else {
      DigitsOfParseDigits(s);
    }
  }

  lemma ParseLongOfLongToString(x: int)
    ensures ParseLong(LongToString(x)) == Some(x)
  {
    var s := LongToString(x);
    if x < 0 {
      assert s[0] == '-';
      assert s[1..] == Digits(-x);
      ParseNatOfDigits(-x);
    } else {
      assert s == Digits(x);
      assert IsDigit(s[0]);
      ParseNatOfDigits(x);
    }
  }

  /** Reading a formatted code back gives the clock reading and suffix it
      was built from. */
  lemma {:induction false} ParseFormat(millis: int, n: nat)
    ensures ParseCode(Format(millis, n)) == Some((millis, n))
  {
    var code := Format(millis, n);
    var m := LongToString(millis);
    assert code[..|Prefix|] == Prefix;
    var rest := code[|Prefix|..];
    assert rest == m + "_" + Digits(n);
    assert forall i :: 0 <= i < |m| ==> m[i] != '_' by {
      if millis < 0 {
        assert forall i :: 1 <= i < |m| ==> m[i] == Digits(-millis)[i - 1];
      }
    }
    assert rest[|m|] == '_';
    assert FirstUnderscore(rest) == |m|;
    assert rest[..|m|] == m;
    assert rest[|m| + 1..] == Digits(n);
    ParseLongOfLongToString(millis);
    ParseNatOfDigits(n);
  }

  /** A code that reads back at all is the formatted code of what it reads
      back to: no other spelling (leading zeros, "-0") is accepted. */
  lemma ParseCodeOnlyFormat(code: string)
    ensures ParseCode(code).Some? ==> code == Format(ParseCode(code).value.0, ParseCode(code).value.1)
  {
    if ParseCode(code).Some? {
      var (millis, n) := ParseCode(code).value;
      var rest := code[|Prefix|..];
      var j := FirstUnderscore(rest);
      LongToStringOfParseLong(rest[..j], millis);
      DigitsOfParseDigits(rest[j + 1..]);
      assert rest == rest[..j] + "_" + rest[j + 1..];
      assert code == Prefix + rest;
    }
  }

  /** Parsing and formatting are inverse: a code reads back to (millis, n)
      exactly when it is the code formatted from them. */
  lemma ParseCodeIff(code: string, millis: int, n: nat)
    ensures ParseCode(code) == Some((millis, n)) <==> code == Format(millis, n)
  {
    ParseCodeOnlyFormat(code);
    ParseFormat(millis, n);
  }

  /** generateUniqueCode: the code for the clock reading `millis` and the
      draw `random` in [0, 1). It starts with "PEDIDO_", reads back to the
      clock reading and the suffix drawn, which is below 1000, and is the
      only string that reads back to that pair. Nothing checks it against
      the codes already stored. */
  function GenerateUniqueCode(millis: int, random: real): (code: string)
    requires 0.0 <= random < 1.0
    ensures |code| > |Prefix| && code[..|Prefix|] == Prefix
    ensures ParseCode(code) == Some((millis, RandomSuffix(random)))
    ensures ParseCode(code).value.1 < 1000
    ensures forall c :: ParseCode(c) == Some((millis, RandomSuffix(random))) ==> c == code
  {
    var n := RandomSuffix(random);
    ParseFormat(millis, n);
    assert forall c :: ParseCode(c) == Some((millis, n)) ==> c == Format(millis, n) by {
      forall c | ParseCode(c) == Some((millis, n))
        ensures c == Format(millis, n)
      {
        ParseCodeIff(c, millis, n);
      }
    }
    Format(millis, n)
  }

  /** Distinct (clock, suffix) pairs give distinct codes, and equal pairs the
      same code: two purchases in the same millisecond that draw the same
      suffix collide. */
  lemma FormatInjective(m1: int, n1: nat, m2: int, n2: nat)
    ensures Format(m1, n1) == Format(m2, n2) <==> m1 == m2 && n1 == n2
  {
    ParseFormat(m1, n1);
    ParseFormat(m2, n2);
  }

  /** Two generated codes are equal exactly when they were generated in the
      same millisecond and the two draws give the same suffix. */
  lemma GeneratedCodesCollide(m1: int, r1: real, m2: int, r2: real)
    requires 0.0 <= r1 < 1.0 && 0.0 <= r2 < 1.0
    ensures (GenerateUniqueCode(m1, r1) == GenerateUniqueCode(m2, r2))
            <==> m1 == m2 && RandomSuffix(r1) == RandomSuffix(r2)
  {
    FormatInjective(m1, RandomSuffix(r1), m2, RandomSuffix(r2));
  }
}
