/** Decimal rendering of integers, with Rust's zero and space padding. */
module Decimal {

  predicate AllDigits(s: string)
  {
    forall i :: 0 <= i < |s| ==> '0' <= s[i] <= '9'
  }

  function DigitChar(d: int): (c: char)
    requires 0 <= d < 10
    ensures '0' <= c <= '9' && c as int - '0' as int == d
  {
    ('0' as int + d) as char
  }

  function Dec(n: nat): (s: string)
    ensures s != "" && AllDigits(s)
  {
    if n < 10 then [DigitChar(n)] else Dec(n / 10) + [DigitChar(n % 10)]
  }

  function DecInt(n: int): (s: string)
    ensures s != "" && (s[0] == '-' <==> n < 0)
    ensures AllDigits(if n < 0 then s[1..] else s)
  {
    if n < 0 then "-" + Dec(-n) else Dec(n)
  }

  function Fill(c: char, n: nat): (s: string)
    ensures |s| == n && forall i :: 0 <= i < n ==> s[i] == c
  {
    if n == 0 then "" else [c] + Fill(c, n - 1)
  }

  /** Zero-padded to at least `w` characters. */
  function Padded(n: nat, w: nat): (s: string)
    ensures s != "" && AllDigits(s) && |s| >= w
  {
    var d := Dec(n);
    if |d| < w then Fill('0', w - |d|) + d else d
  }

  /** The number a digit string spells, leading zeros allowed. */
  function DecValue(s: string): (n: nat)
    requires AllDigits(s)
  {
    if s == "" then 0 else DecValue(s[..|s| - 1]) * 10 + (s[|s| - 1] as int - '0' as int)
  }

  /** An optional minus sign and digits; zero for any other text. */
  function ReadInt(t: string): (n: int)
  {
    if t != "" && t[0] == '-' then (if AllDigits(t[1..]) then 0 - DecValue(t[1..]) as int else 0)
    else if AllDigits(t) then DecValue(t) else 0
  }

  lemma DecIntReads(n: int)
    ensures ReadInt(DecInt(n)) == n
  {
    if n < 0 {
      DecRoundTrip(-n);
      assert DecInt(n)[1..] == Dec(-n);
    } else {
      DecRoundTrip(n);
    }
  }

  lemma {:induction false} DecRoundTrip(n: nat)
    ensures DecValue(Dec(n)) == n
  {
    if n >= 10 {
      DecRoundTrip(n / 10);
      var s := Dec(n);
      assert s[..|s| - 1] == Dec(n / 10);
    } else {
      assert Dec(n)[..0] == "";
    }
  }

  lemma {:induction false} LeadingZeros(k: nat, s: string)
    requires AllDigits(s)
    ensures DecValue(Fill('0', k) + s) == DecValue(s)
    decreases |s| + k
  {
    var t := Fill('0', k) + s;
    if s != "" {
      LeadingZeros(k, s[..|s| - 1]);
      assert t[..|t| - 1] == Fill('0', k) + s[..|s| - 1];
    } else if k > 0 {
      LeadingZeros(k - 1, "");
      assert Fill('0', k) + "" == Fill('0', k) && Fill('0', k - 1) + "" == Fill('0', k - 1);
      assert t[..|t| - 1] == Fill('0', k - 1);
    }
  }

  /** Padded rendering can be read back, whatever the width. */
  lemma PaddedRoundTrip(n: nat, w: nat)
    ensures DecValue(Padded(n, w)) == n
  {
    DecRoundTrip(n);
    if |Dec(n)| < w {
      LeadingZeros(w - |Dec(n)|, Dec(n));
    }
  }

  /** Plain digits never start with a zero, except for zero itself. */
  lemma {:induction false} NoLeadingZero(n: nat)
    ensures |Dec(n)| > 1 ==> Dec(n)[0] != '0'
    ensures n < 10_000 ==> |Dec(n)| <= 4
  {
    if n >= 10 {
      NoLeadingZero(n / 10);
      assert Dec(n)[0] == Dec(n / 10)[0];
      assert n < 10_000 ==> |Dec(n / 10 / 10 / 10)| == 1;
    }
  }

  /** Padding adds zeros only up to the width. */
  lemma PaddedShape(n: nat, w: nat)
    ensures |Padded(n, w)| > w ==> Padded(n, w)[0] != '0' || w == 0
    ensures n < 10_000 ==> |Padded(n, w)| <= (if w < 4 then 4 else w)
  {
    NoLeadingZero(n);
  }

  /** Two digits, for every number below a hundred. */
  lemma TwoDigits(n: nat)
    requires n < 100
    ensures |Padded(n, 2)| == 2
  {
    if n >= 10 {
      assert |Dec(n / 10)| == 1;
    }
  }
}
