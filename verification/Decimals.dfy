/** Decimal numerals as `Display` prints integers and `str::parse` reads them. */
module Decimals {
  import opened Results

  function Digit(n: nat): char
    requires n < 10
  {
    ('0' as int + n) as char
  }

  function PrintNat(n: nat): (s: string)
    ensures s != []
  {
    if n < 10 then [Digit(n)] else PrintNat(n / 10) + [Digit(n % 10)]
  }

  function PrintInt(n: int): string {
    if n < 0 then "-" + PrintNat(-n) else PrintNat(n)
  }

  function DigitValue(c: char): Option<nat> {
    if '0' <= c <= '9' then Some(c as int - '0' as int) else None
  }

  /** The value of one or more digits. */
  function ReadDigits(s: string): Option<nat> {
    if s == [] then None
    else
      match (DigitValue(s[|s| - 1]), if |s| == 1 then Some(0) else ReadDigits(s[..|s| - 1]))
      case (Some(d), Some(n)) => Some(n * 10 + d)
      case _ => None
  }

  function WithoutPlus(s: string): string {
    if s != [] && s[0] == '+' then s[1..] else s
  }

  /** Parsing an unsigned integer no larger than `max`. */
  function ReadNat(s: string, max: nat): Option<nat> {
    match ReadDigits(WithoutPlus(s))
    case Some(n) => if n <= max then Some(n) else None
    case None => None
  }

  /** Parsing a signed integer between `min` and `max`. */
  function ReadInt(s: string, min: int, max: int): Option<int> {
    var negative := s != [] && s[0] == '-';
    match ReadDigits(if negative then s[1..] else WithoutPlus(s))
    case None => None
    case Some(k) =>
      var n: int := if negative then 0 - k else k;
      if min <= n <= max then Some(n) else None
  }

  lemma {:induction false} PrintNatDigits(n: nat)
    ensures forall i :: 0 <= i < |PrintNat(n)| ==> '0' <= PrintNat(n)[i] <= '9'
  {
    if n >= 10 {
      PrintNatDigits(n / 10);
    }
  }

  lemma {:induction false} ReadDigitsOfPrint(n: nat)
    ensures ReadDigits(PrintNat(n)) == Some(n)
  {
    if n >= 10 {
      ReadDigitsOfPrint(n / 10);
      var s := PrintNat(n);
      assert s[..|s| - 1] == PrintNat(n / 10);
    }
  }

  lemma ReadNatOfPrint(n: nat, max: nat)
    requires n <= max
    ensures ReadNat(PrintNat(n), max) == Some(n)
  {
    PrintNatDigits(n);
    ReadDigitsOfPrint(n);
  }

  lemma ReadIntOfPrint(n: int, min: int, max: int)
    requires min <= n <= max
    ensures ReadInt(PrintInt(n), min, max) == Some(n)
  {
    var magnitude := if n < 0 then -n else n;
    PrintNatDigits(magnitude);
    ReadDigitsOfPrint(magnitude);
    if n < 0 {
      assert PrintInt(n)[1..] == PrintNat(-n);
    }
  }

  lemma PrintNatInjective(m: nat, n: nat)
    requires PrintNat(m) == PrintNat(n)
    ensures m == n
  {
    ReadDigitsOfPrint(m);
    ReadDigitsOfPrint(n);
  }

  predicate AllZeros(s: string) {
    forall i :: 0 <= i < |s| ==> s[i] == '0'
  }

  /** The text is the printed number, perhaps after zeros. */
  ghost predicate Padded(s: string, n: nat) {
    exists k: nat :: k <= |s| && AllZeros(s[..k]) && s[k..] == PrintNat(n)
  }

  lemma PaddedAt(s: string, k: nat, n: nat)
    requires k <= |s| && AllZeros(s[..k]) && s[k..] == PrintNat(n)
    ensures Padded(s, n)
  {
  }

  /** One more digit after a padded number. */
  lemma PaddedSnoc(s: string, m: nat, d: nat)
    requires Padded(s, m) && d < 10
    ensures Padded(s + [Digit(d)], m * 10 + d)
  {
    hide Padded;
    var k := PaddingOf(s, m);
    var t := s + [Digit(d)];
    if m == 0 {
      assert s[k..] == [Digit(0)] && |s| == k + 1 && s[k] == '0';
      assert t[..k + 1] == s[..k] + ['0'] && t[k + 1..] == [Digit(d)];
      PaddedAt(t, k + 1, d);
    } else {
      assert t[..k] == s[..k] && t[k..] == s[k..] + [Digit(d)];
      assert PrintNat(m * 10 + d) == PrintNat(m) + [Digit(d)];
      PaddedAt(t, k, m * 10 + d);
    }
  }

  lemma PaddingOf(s: string, n: nat) returns (k: nat)
    requires Padded(s, n)
    ensures k <= |s| && AllZeros(s[..k]) && s[k..] == PrintNat(n)
  {
    k :| k <= |s| && AllZeros(s[..k]) && s[k..] == PrintNat(n);
  }

  lemma DigitExactly(c: char, d: nat)
    ensures DigitValue(c) == Some(d) <==> d < 10 && c == Digit(d)
  {
  }

  lemma {:induction false} ReadDigitsPadded(s: string)
    requires ReadDigits(s).Some?
    ensures Padded(s, ReadDigits(s).value)
    decreases |s|
  {
    hide Padded, PrintNat;
    var front, c := s[..|s| - 1], s[|s| - 1];
    var d := DigitValue(c).value;
    DigitExactly(c, d);
    if |s| == 1 {
      OneDigit(s, d);
    } else {
      ReadDigitsPadded(front);
      PaddedSnoc(front, ReadDigits(front).value, d);
      assert s == front + [c];
    }
  }

  lemma OneDigit(s: string, d: nat)
    requires d < 10 && s == [Digit(d)]
    ensures Padded(s, d)
  {
    assert s[0..] == PrintNat(d);
    PaddedAt(s, 0, d);
  }

  lemma {:induction false} ReadDigitsAfterZeros(zeros: string, n: nat)
    requires AllZeros(zeros)
    ensures ReadDigits(zeros + PrintNat(n)) == Some(n)
    decreases n, |zeros|
  {
    var s := zeros + PrintNat(n);
    if n >= 10 {
      assert s[..|s| - 1] == zeros + PrintNat(n / 10);
      ReadDigitsAfterZeros(zeros, n / 10);
    } else {
      assert s[..|s| - 1] == zeros && s[|s| - 1] == Digit(n);
      if zeros != [] { ZerosRead(zeros); }
    }
  }

  lemma {:induction false} ZerosRead(zeros: string)
    requires AllZeros(zeros) && zeros != []
    ensures ReadDigits(zeros) == Some(0)
    decreases |zeros|
  {
    if |zeros| > 1 {
      ZerosRead(zeros[..|zeros| - 1]);
    }
  }

  lemma PaddedReads(s: string, n: nat)
    requires Padded(s, n)
    ensures ReadDigits(s) == Some(n)
  {
    hide PrintNat, ReadDigits;
    var k := PaddingOf(s, n);
    ReadDigitsAfterZeros(s[..k], n);
    assert s == s[..k] + s[k..];
  }

  lemma DigitsExactly(s: string, n: nat)
    ensures ReadDigits(s) == Some(n) <==> Padded(s, n)
  {
    hide Padded, ReadDigits;
    if ReadDigits(s).Some? {
      ReadDigitsPadded(s);
    }
    if Padded(s, n) {
      PaddedReads(s, n);
    }
  }

  /** A numeral is read exactly when it is the printed number after any zeros and at most one plus sign,
      and the number is within the bound. */
  lemma ReadNatExactly(s: string, max: nat, n: nat)
    ensures ReadNat(s, max) == Some(n) <==>
            n <= max && Padded(if s != [] && s[0] == '+' then s[1..] else s, n)
  {
    hide Padded, ReadDigits;
    DigitsExactly(WithoutPlus(s), n);
  }

  /** A signed numeral may start with a minus instead. */
  lemma ReadIntExactly(s: string, min: int, max: int, n: int)
    ensures ReadInt(s, min, max) == Some(n) <==>
            && min <= n <= max
            && if s != [] && s[0] == '-' then n <= 0 && Padded(s[1..], -n)
               else n >= 0 && Padded(if s != [] && s[0] == '+' then s[1..] else s, n)
  {
    hide Padded, ReadDigits;
    if s != [] && s[0] == '-' {
      if n <= 0 { DigitsExactly(s[1..], -n); }
    } else if n >= 0 {
      DigitsExactly(WithoutPlus(s), n);
    }
  }
}
