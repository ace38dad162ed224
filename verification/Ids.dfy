/** Note identifiers: the day in base 32, four random characters, padded to seven. */
module Ids {
  import opened Integers
  import opened Sequences

  const BASE32_CHARS := "abcdefghijklmnopqrstuvwxyz234567"
  const ID_LENGTH: nat := 7

  predicate IsDigit(c: char) {
    'a' <= c <= 'z' || '2' <= c <= '7'
  }

  function DigitValue(c: char): (n: nat)
    requires IsDigit(c)
    ensures n < 32
  {
    if 'a' <= c <= 'z' then c as int - 'a' as int else 26 + (c as int - '2' as int)
  }

  function Digit(n: nat): (c: char)
    requires n < 32
    ensures IsDigit(c) && DigitValue(c) == n
  {
    if n < 26 then ('a' as int + n) as char else ('2' as int + (n - 26)) as char
  }

  /** The table and the two ranges of the alphabet agree. */
  lemma AlphabetTable(n: nat)
    requires n < 32
    ensures |BASE32_CHARS| == 32 && BASE32_CHARS[n] == Digit(n)
  {
    if n < 16 { TableFront(n); } else { TableBack(n); }
  }

  lemma TableFront(n: nat)
    requires n < 16
    ensures BASE32_CHARS[n] == Digit(n)
  {
    if n < 8 {
      assert n in {0, 1, 2, 3, 4, 5, 6, 7};
    } else {
      assert n in {8, 9, 10, 11, 12, 13, 14, 15};
    }
  }

  lemma TableBack(n: nat)
    requires 16 <= n < 32
    ensures BASE32_CHARS[n] == Digit(n)
  {
    if n < 24 {
      assert n in {16, 17, 18, 19, 20, 21, 22, 23};
    } else {
      assert n in {24, 25, 26, 27, 28, 29, 30, 31};
    }
  }

  function Encode(n: nat): (s: string)
    ensures s != [] && forall i :: 0 <= i < |s| ==> IsDigit(s[i])
  {
    if n < 32 then [Digit(n)] else Encode(n / 32) + [Digit(n % 32)]
  }

  /** The positional value of a numeral. */
  function Decode(s: string): nat
    requires forall i :: 0 <= i < |s| ==> IsDigit(s[i])
  {
    if s == [] then 0 else Decode(s[..|s| - 1]) * 32 + DigitValue(s[|s| - 1])
  }

  /** The digits still to be produced, before those already pushed in reverse. */
  function Remaining(value: nat): string {
    if value == 0 then [] else Encode(value)
  }

  lemma DigitPushed(value: nat, encoded: string)
    requires value > 0
    ensures Remaining(value / 32) + Reversed(encoded + [Digit(value % 32)]) == Remaining(value) + Reversed(encoded)
  {
    hide Reversed, Digit;
    ReversedAppend(encoded, Digit(value % 32));
    assert Remaining(value) == Remaining(value / 32) + [Digit(value % 32)];
  }

  /** `encode_base32`: the digits are pushed lowest first, then reversed. */
  method EncodeBase32(n: U64) returns (s: string)
    ensures s == Encode(n)
  {
    if n == 0 {
      return "a";
    }
    hide Reversed, Encode, Digit;
    var value: nat := n;
    var encoded: string := [];
    assert Remaining(value) + Reversed(encoded) == Encode(n);
    while value > 0
      invariant Remaining(value) + Reversed(encoded) == Encode(n)
    {
      AlphabetTable(value % 32);
      DigitPushed(value, encoded);
      encoded := encoded + [BASE32_CHARS[value % 32]];
      value := value / 32;
    }
    s := Reversed(encoded);
  }

  lemma {:induction false} DecodeOfEncode(n: nat)
    ensures Decode(Encode(n)) == n
  {
    var s := Encode(n);
    if n >= 32 {
      assert s[..|s| - 1] == Encode(n / 32);
      DecodeOfEncode(n / 32);
    } else {
      assert s[..0] == [];
    }
  }

  /** Encoding gives back every numeral without a superfluous leading zero digit. */
  lemma {:induction false} EncodeOfDecode(s: string)
    requires s != [] && forall i :: 0 <= i < |s| ==> IsDigit(s[i])
    requires |s| > 1 ==> s[0] != 'a'
    ensures Encode(Decode(s)) == s
    ensures s != "a" ==> Decode(s) > 0
  {
    var front := s[..|s| - 1];
    assert s == front + [s[|s| - 1]];
    if front == [] {
      assert Decode(s) == DigitValue(s[0]);
    } else {
      EncodeOfDecode(front);
      assert front != "a";
      assert Decode(s) / 32 == Decode(front) && Decode(s) % 32 == DigitValue(s[|s| - 1]);
    }
  }

  function Power(k: nat): nat {
    if k == 0 then 1 else 32 * Power(k - 1)
  }

  lemma {:induction false} LengthExactly(n: nat, k: nat)
    requires k > 0
    ensures |Encode(n)| <= k <==> n < Power(k)
  {
    if k == 1 {
      assert Power(1) == 32;
    } else {
      LengthExactly(n / 32, k - 1);
      assert n < Power(k) <==> n / 32 < Power(k - 1);
      if n < 32 {
        PowerPositive(k - 1);
      }
    }
  }

  lemma {:induction false} PowerPositive(k: nat)
    ensures Power(k) >= 1
  {
    if k > 0 { PowerPositive(k - 1); }
  }

  // ----- Generated identifiers -----------------------------------------------------------------------------

  /** Whole days from 17 January 1989, none if the clock is before it. */
  function DaysSinceEpoch(day: int): nat {
    if 0 <= day < 0x1_0000_0000_0000_0000 then day else 0
  }

  predicate Drawn(draws: seq<nat>) {
    |draws| == 4 && forall i :: 0 <= i < 4 ==> draws[i] < 32
  }

  function Tail(draws: seq<nat>): (s: string)
    requires forall i :: 0 <= i < |draws| ==> draws[i] < 32
    ensures |s| == |draws| && forall i :: 0 <= i < |s| ==> IsDigit(s[i]) && DigitValue(s[i]) == draws[i]
  {
    seq(|draws|, i requires 0 <= i < |draws| => Digit(draws[i]))
  }

  function Padded(s: string): string {
    if |s| < ID_LENGTH then seq(ID_LENGTH - |s|, _ => '0') + s else s
  }

  function Generated(day: int, draws: seq<nat>): string
    requires Drawn(draws)
  {
    Padded(Encode(DaysSinceEpoch(day)) + Tail(draws))
  }

  /** `generate_with_rng`, given the numbers it draws. */
  method GenerateWithRng(day: int, draws: seq<nat>) returns (id: string)
    requires Drawn(draws)
    ensures id == Generated(day, draws)
  {
    id := EncodeBase32(DaysSinceEpoch(day));
    for i := 0 to 4
      invariant id == Encode(DaysSinceEpoch(day)) + Tail(draws)[..i]
    {
      AlphabetTable(draws[i]);
      assert Tail(draws)[..i + 1] == Tail(draws)[..i] + [Digit(draws[i])];
      id := id + [BASE32_CHARS[draws[i]]];
    }
    assert Tail(draws)[..4] == Tail(draws);
    if |id| < ID_LENGTH {
      id := seq(ID_LENGTH - |id|, _ => '0') + id;
    }
  }

  predicate IsValid(id: string) {
    |id| == ID_LENGTH && forall i :: 0 <= i < |id| ==> id[i] == '0' || IsDigit(id[i])
  }

  /** Whatever is drawn, the identifier is valid exactly until 32768 days after the epoch. */
  lemma GeneratedIsValid(day: int, draws: seq<nat>)
    requires Drawn(draws) && day < 0x1_0000_0000_0000_0000
    ensures IsValid(Generated(day, draws)) <==> day < 32_768
  {
    LengthExactly(DaysSinceEpoch(day), 3);
    assert Power(1) == 32 && Power(2) == 1024 && Power(3) == 32_768;
  }

  lemma PaddingIsUnique(s: string, t: string)
    requires s != [] && t != [] && s[0] != '0' && t[0] != '0' && Padded(s) == Padded(t)
    ensures s == t
  {
    var p, q := Padded(s), Padded(t);
    assert p[|p| - |s|..] == s && q[|q| - |t|..] == t;
  }

  /** Equal identifiers come from the same day and the same draws. */
  lemma GeneratedInjective(day: int, draws: seq<nat>, day': int, draws': seq<nat>)
    requires Drawn(draws) && Drawn(draws') && Generated(day, draws) == Generated(day', draws')
    ensures DaysSinceEpoch(day) == DaysSinceEpoch(day') && draws == draws'
  {
    var e, e' := Encode(DaysSinceEpoch(day)), Encode(DaysSinceEpoch(day'));
    var s, s' := e + Tail(draws), e' + Tail(draws');
    PaddingIsUnique(s, s');
    assert s[..|s| - 4] == e && s'[..|s'| - 4] == e';
    assert s[|s| - 4..] == Tail(draws) && s'[|s'| - 4..] == Tail(draws');
    DecodeOfEncode(DaysSinceEpoch(day));
    DecodeOfEncode(DaysSinceEpoch(day'));
    forall i | 0 <= i < 4 ensures draws[i] == draws'[i] {
      assert DigitValue(Tail(draws)[i]) == draws[i] && DigitValue(Tail(draws')[i]) == draws'[i];
    }
  }

  /** The alphabet at its ends and where it turns to digits, and an identifier of the first day. */
  lemma FirstIdentifiers(day: int)
    ensures Encode(0) == "a" && Encode(25) == "z" && Encode(26) == "2" && Encode(31) == "7" && Encode(32) == "ba"
    ensures Generated(0, [0, 1, 26, 31]) == "00aab27"
    ensures day < 0 ==> Generated(day, [0, 1, 26, 31]) == "00aab27"
  {
    assert Encode(0) + Tail([0, 1, 26, 31]) == "aab27";
  }
}
