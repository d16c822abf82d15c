/** Rust's integer formatting, as far as the ledger depends on it: `{}` for keys and
    values, `{:06}` for batch and generated ids, `{:08x}` for validator ids. */
module Text {
  datatype Base = Decimal | Hex

  predicate IsDigit(c: char) {
    '0' <= c <= '9' || 'a' <= c <= 'f'
  }

  function DigitChar(d: nat): (c: char)
    requires d < 16
    ensures IsDigit(c) && DigitValue(c) == d
  {
    if d < 10 then ('0' as int + d) as char else ('a' as int + (d - 10)) as char
  }

  function DigitValue(c: char): nat {
    if '0' <= c <= '9' then c as int - '0' as int
    else if 'a' <= c <= 'f' then c as int - 'a' as int + 10
    else 0
  }

  function Quotient(n: nat, b: Base): nat { match b case Decimal => n / 10 case Hex => n / 16 }

  function Remainder(n: nat, b: Base): nat { match b case Decimal => n % 10 case Hex => n % 16 }

  function Recombine(q: nat, r: nat, b: Base): nat { match b case Decimal => 10 * q + r case Hex => 16 * q + r }

  /** The digits of `n`, most significant first. */
  function Digits(n: nat, b: Base): string
    decreases n
  {
    var last := [DigitChar(Remainder(n, b))];
    if Quotient(n, b) == 0 then last else Digits(Quotient(n, b), b) + last
  }

  /** `{}` on an unsigned integer. */
  function Dec(n: nat): string { Digits(n, Decimal) }

  function Zeros(n: nat): string {
    if n == 0 then "" else "0" + Zeros(n - 1)
  }

  /** `{:0width}` and `{:0width x}`: zero padding up to a minimum width, never truncation. */
  function Padded(n: nat, b: Base, width: nat): string {
    var digits := Digits(n, b);
    if |digits| < width then Zeros(width - |digits|) + digits else digits
  }

  /** Decimal numerals, digit by digit. */
  lemma DecIsDecimal(n: nat)
    ensures n < 10 ==> Dec(n) == ["0123456789"[n]]
    ensures n >= 10 ==> Dec(n) == Dec(n / 10) + ["0123456789"[n % 10]]
  {}

  /** Hexadecimal numerals, in lower case. */
  lemma HexIsHexadecimal(n: nat)
    ensures n < 16 ==> Digits(n, Hex) == ["0123456789abcdef"[n]]
    ensures n >= 16 ==> Digits(n, Hex) == Digits(n / 16, Hex) + ["0123456789abcdef"[n % 16]]
  {}

  /** Padding: zeros in front of the numeral, up to the width and no further. */
  lemma PaddedIs(n: nat, b: Base, width: nat)
    ensures var digits := Digits(n, b);
            && |Padded(n, b, width)| == (if |digits| < width then width else |digits|)
            && Padded(n, b, width)[|Padded(n, b, width)| - |digits|..] == digits
            && forall i :: 0 <= i < |Padded(n, b, width)| - |digits| ==> Padded(n, b, width)[i] == '0'
  {
    var k := if |Digits(n, b)| < width then width - |Digits(n, b)| else 0;
    ZerosAreZeros(k);
    assert Padded(n, b, width) == Zeros(k) + Digits(n, b);
    assert forall i :: 0 <= i < k ==> Zeros(k)[i] in Zeros(k);
  }

  function Parse(s: string, b: Base): nat {
    if s == "" then 0 else Recombine(Parse(s[..|s| - 1], b), DigitValue(s[|s| - 1]), b)
  }

  lemma {:induction false} ParseDigits(n: nat, b: Base)
    ensures Parse(Digits(n, b), b) == n
    decreases n
  {
    var q, last := Quotient(n, b), [DigitChar(Remainder(n, b))];
    assert Recombine(q, Remainder(n, b), b) == n;
    assert Parse("", b) == 0;
    if q == 0 {
      assert last[..0] == "";
    } else {
      ParseDigits(q, b);
      assert (Digits(q, b) + last)[..|Digits(q, b)|] == Digits(q, b);
    }
  }

  lemma {:induction false} ParsePadded(k: nat, s: string, b: Base)
    ensures Parse(Zeros(k) + s, b) == Parse(s, b)
    decreases k + |s|
  {
    var t := Zeros(k) + s;
    if s != "" {
      assert t[..|t| - 1] == Zeros(k) + s[..|s| - 1];
      ParsePadded(k, s[..|s| - 1], b);
    } else if k > 0 {
      ZerosSnoc(k - 1);
      assert t == Zeros(k - 1) + "0" && t[..|t| - 1] == Zeros(k - 1) + "";
      ParsePadded(k - 1, "", b);
    }
  }

  lemma {:induction false} ZerosSnoc(k: nat)
    ensures Zeros(k + 1) == Zeros(k) + "0"
  {
    if k > 0 {
      ZerosSnoc(k - 1);
    }
  }

  /** Two numbers printed alike are the same number, at every width. */
  lemma PaddedInjective(m: nat, n: nat, b: Base, width: nat)
    requires Padded(m, b, width) == Padded(n, b, width)
    ensures m == n
  {
    forall x: nat ensures Parse(Padded(x, b, width), b) == x {
      ParseDigits(x, b);
      var digits := Digits(x, b);
      if |digits| < width {
        ParsePadded(width - |digits|, digits, b);
      }
    }
  }

  lemma DecInjective(m: nat, n: nat)
    requires Dec(m) == Dec(n)
    ensures m == n
  {
    PaddedInjective(m, n, Decimal, 0);
  }

  lemma {:induction false} DigitsAreDigits(n: nat, b: Base)
    ensures Digits(n, b) != "" && forall c :: c in Digits(n, b) ==> IsDigit(c)
    decreases n
  {
    if Quotient(n, b) != 0 {
      DigitsAreDigits(Quotient(n, b), b);
    }
  }

  /** Ids printed from counters contain no separator. */
  lemma PaddedHasNoColon(n: nat, b: Base, width: nat)
    ensures ':' !in Padded(n, b, width)
  {
    DigitsAreDigits(n, b);
    ZerosAreZeros(if |Digits(n, b)| < width then width - |Digits(n, b)| else 0);
  }

  lemma {:induction false} ZerosAreZeros(n: nat)
    ensures |Zeros(n)| == n && forall c :: c in Zeros(n) ==> c == '0'
  {
    if n > 0 {
      ZerosAreZeros(n - 1);
    }
  }

  lemma NoColonAfter(k: string, n: nat, j: nat)
    requires |k| < j < |k| + 1 + |Dec(n)|
    ensures (k + ":" + Dec(n))[j] != ':'
  {
    DigitsAreDigits(n, Decimal);
    assert (k + ":" + Dec(n))[j] == Dec(n)[j - |k| - 1];
    assert Dec(n)[j - |k| - 1] in Dec(n);
  }

  /** `key:value` read back at its last colon: the value part holds digits only. */
  lemma ColonSplit(k1: string, n1: nat, k2: string, n2: nat)
    requires k1 + ":" + Dec(n1) == k2 + ":" + Dec(n2)
    ensures k1 == k2 && n1 == n2
  {
    var s1, s2 := k1 + ":" + Dec(n1), k2 + ":" + Dec(n2);
    assert s1[|k1|] == ':' && s2[|k2|] == ':' && |s1| == |s2|;
    if |k1| < |k2| {
      NoColonAfter(k1, n1, |k2|);
    } else if |k2| < |k1| {
      NoColonAfter(k2, n2, |k1|);
    }
    assert k1 == s1[..|k1|] && k2 == s2[..|k2|];
    assert Dec(n1) == s1[|k1| + 1..] && Dec(n2) == s2[|k2| + 1..];
    DecInjective(n1, n2);
  }
}
