/** Variable symbols: Fio pads them with zeroes, the member identifiers do not. */
module Symbols {

  predicate IsDigit(c: char) {
    '0' <= c <= '9'
  }

  predicate AllDigits(s: string) {
    forall i :: 0 <= i < |s| ==> IsDigit(s[i])
  }

  function TrimZeroes(s: string): string {
    if s != "" && s[0] == '0' then TrimZeroes(s[1..]) else s
  }

  function Normalize(symbol: string): string {
    var trimmed := TrimZeroes(symbol);
    if trimmed == "" then "0" else trimmed
  }

  // ---- The number a digit string denotes, and its decimal rendering ----

  function Value(s: string): nat
    requires AllDigits(s)
  {
    if s == "" then 0 else 10 * Value(s[..|s| - 1]) + (s[|s| - 1] - '0') as nat
  }

  function Decimal(n: nat): (s: string)
    ensures s != "" && AllDigits(s)
  {
    if n < 10 then [n as char + '0'] else Decimal(n / 10) + [(n % 10) as char + '0']
  }

  lemma {:induction false} LeadingZeroIsWorthless(s: string)
    requires AllDigits(s) && s != "" && s[0] == '0'
    ensures AllDigits(s[1..]) && Value(s[1..]) == Value(s)
  {
    if |s| > 1 {
      var front := s[..|s| - 1];
      LeadingZeroIsWorthless(front);
      assert s[1..][..|s[1..]| - 1] == front[1..];
    }
  }

  lemma {:induction false} TrimKeepsValue(s: string)
    requires AllDigits(s)
    ensures var t := TrimZeroes(s); AllDigits(t) && Value(t) == Value(s) && (t != "" ==> t[0] != '0')
  {
    if s != "" && s[0] == '0' {
      LeadingZeroIsWorthless(s);
      TrimKeepsValue(s[1..]);
    }
  }

  /** A digit string without a leading zero is the decimal rendering of its value. */
  lemma {:induction false} UnpaddedIsDecimal(s: string)
    requires AllDigits(s) && s != "" && s[0] != '0'
    ensures Value(s) > 0 && Decimal(Value(s)) == s
  {
    var front, last := s[..|s| - 1], s[|s| - 1];
    if |s| == 1 {
      assert front == "" && Value(front) == 0;
    } else {
      UnpaddedIsDecimal(front);
      assert Value(s) / 10 == Value(front) && Value(s) % 10 == (last - '0') as nat;
      assert front + [last] == s;
    }
  }

  /** Normalising any non-empty digit string yields the decimal rendering of the number it denotes. */
  lemma NormalizeIsDecimal(s: string)
    requires AllDigits(s)
    ensures Normalize(s) == Decimal(Value(s))
  {
    TrimKeepsValue(s);
    if TrimZeroes(s) != "" {
      UnpaddedIsDecimal(TrimZeroes(s));
    }
  }

  lemma {:induction false} ValueOfDecimal(n: nat)
    ensures Value(Decimal(n)) == n
  {
    var s := Decimal(n);
    if n >= 10 {
      ValueOfDecimal(n / 10);
      assert s[..|s| - 1] == Decimal(n / 10);
    } else {
      assert s[..0] == "";
    }
  }

  /** Two digit strings normalise alike exactly when they denote the same number. */
  lemma NormalizeIsCanonical(a: string, b: string)
    requires AllDigits(a) && AllDigits(b)
    ensures Normalize(a) == Normalize(b) <==> Value(a) == Value(b)
  {
    NormalizeIsDecimal(a);
    NormalizeIsDecimal(b);
    ValueOfDecimal(Value(a));
    ValueOfDecimal(Value(b));
  }

  /** Idempotent on every string, digits or not. */
  lemma {:induction false} NormalizeIdempotent(s: string)
    ensures Normalize(Normalize(s)) == Normalize(s)
  {
    TrimStops(s);
    assert TrimZeroes("0") == TrimZeroes("0"[1..]) == "";
  }

  lemma {:induction false} TrimStops(s: string)
    ensures TrimZeroes(s) == "" || TrimZeroes(s)[0] != '0'
  {
    if s != "" && s[0] == '0' {
      TrimStops(s[1..]);
    }
  }

  function Zeroes(n: nat): string {
    seq(n, _ => '0')
  }

  /** However many zeroes the bank puts in front of a member number, normalising
      finds the text the Orca sync stored for that member. */
  lemma PaddedMemberNumberFindsDefaultIdentifier(member: nat, padding: nat)
    ensures Normalize(Zeroes(padding) + Decimal(member)) == Decimal(member)
    decreases padding
  {
    var s := Zeroes(padding) + Decimal(member);
    if padding == 0 {
      assert s == Decimal(member);
      NormalizeIsDecimal(s);
      ValueOfDecimal(member);
    } else {
      assert s[1..] == Zeroes(padding - 1) + Decimal(member);
      PaddedMemberNumberFindsDefaultIdentifier(member, padding - 1);
    }
  }
}
