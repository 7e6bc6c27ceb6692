/**
  The integer printer of the boot console (kernel/tk_printf.cpp).
*/
module Itoa {

  function DigitChar(r: nat): char
    requires r < 16
  {
    if r < 10 then '0' + r as char else 'a' + (r - 10) as char
  }

  function DigitValue(c: char): nat {
    if '0' <= c <= '9' then (c - '0') as nat else if 'a' <= c <= 'f' then (c - 'a') as nat + 10 else 0
  }

  /** The number a digit string denotes. */
  function Value(s: string, b: nat): nat {
    if s == [] then 0 else Value(s[..|s| - 1], b) * b + DigitValue(s[|s| - 1])
  }

  lemma DivStep(u: nat, b: nat)
    requires b >= 2
    ensures u == u / b * b + u % b && u % b < b && (u > 0 ==> u / b < u)
  {
  }

  /** The digits the remainder loop writes, lowest first. */
  function Remainders(u: nat, b: nat): (s: string)
    requires 2 <= b <= 16
    ensures s != []
    decreases u
  {
    DivStep(u, b);
    [DigitChar(u % b)] + if u / b == 0 then [] else Remainders(u / b, b)
  }

  lemma RemaindersStep(u: nat, b: nat, q: nat, r: nat)
    requires 2 <= b <= 16 && q == u / b && r == u % b
    ensures r < b && (u > 0 ==> q < u)
    ensures Remainders(u, b) == [DigitChar(r)] + (if q == 0 then [] else Remainders(q, b))
  {
    DivStep(u, b);
  }

  function Reversed(s: string): (r: string)
    ensures |r| == |s|
  {
    if s == [] then [] else Reversed(s[1..]) + [s[0]]
  }

  lemma {:induction false} ReversedAt(s: string, k: nat)
    requires k < |s|
    ensures Reversed(s)[k] == s[|s| - 1 - k]
  {
    if k < |s| - 1 {
      ReversedAt(s[1..], k);
    }
  }

  /** The digits of u as they are printed, highest first. */
  function Digits(u: nat, b: nat): string
    requires 2 <= b <= 16
  {
    Reversed(Remainders(u, b))
  }

  function LowFirst(s: string, b: nat): nat {
    if s == [] then 0 else LowFirst(s[1..], b) * b + DigitValue(s[0])
  }

  lemma {:induction false} ReversedValue(s: string, b: nat)
    ensures Value(Reversed(s), b) == LowFirst(s, b)
  {
    if s != [] {
      ReversedValue(s[1..], b);
      var r := Reversed(s[1..]);
      assert (r + [s[0]])[..|r|] == r;
    }
  }

  lemma {:induction false} RemaindersValue(u: nat, b: nat)
    requires 2 <= b <= 16
    ensures LowFirst(Remainders(u, b), b) == u
    decreases u
  {
    hide Remainders, LowFirst, DigitChar;
    DivStep(u, b);
    var q, r := u / b, u % b;
    RemaindersStep(u, b, q, r);
    var t := if q == 0 then [] else Remainders(q, b);
    LowFirstCons(r, t, b);
    if q != 0 {
      RemaindersValue(q, b);
    } else {
      LowFirstNone(b);
    }
  }

  lemma LowFirstCons(r: nat, t: string, b: nat)
    requires r < 16
    ensures LowFirst([DigitChar(r)] + t, b) == LowFirst(t, b) * b + r
  {
    assert ([DigitChar(r)] + t)[1..] == t && DigitValue(DigitChar(r)) == r;
  }

  lemma LowFirstNone(b: nat)
    ensures LowFirst([], b) == 0
  {
  }

  /** What is printed reads back as the number. */
  lemma DigitsValue(u: nat, b: nat)
    requires 2 <= b <= 16
    ensures Value(Digits(u, b), b) == u
  {
    RemaindersValue(u, b);
    ReversedValue(Remainders(u, b), b);
  }

  /** No leading zero: the first digit of a number other than 0 is not 0. */
  lemma {:induction false} NoLeadingZero(u: nat, b: nat)
    requires 2 <= b <= 16 && u > 0
    ensures Digits(u, b)[0] != '0'
    decreases u
  {
    hide Remainders;
    DivStep(u, b);
    var q, r := u / b, Remainders(u, b);
    RemaindersStep(u, b, q, u % b);
    ReversedAt(r, 0);
    if q != 0 {
      NoLeadingZero(q, b);
      ReversedAt(Remainders(q, b), 0);
    }
  }

  function Pow(b: nat, k: nat): nat {
    if k == 0 then 1 else b * Pow(b, k - 1)
  }

  lemma {:induction false} DigitsLength(u: nat, b: nat, k: nat)
    requires 2 <= b <= 16 && 1 <= k && u < Pow(b, k)
    ensures |Digits(u, b)| <= k
    decreases k
  {
    hide Remainders;
    var q := u / b;
    RemaindersStep(u, b, q, u % b);
    Shrinks(u, b, Pow(b, k - 1));
    if q != 0 {
      DigitsLength(q, b, k - 1);
    }
  }

  lemma Shrinks(u: nat, b: nat, p: nat)
    requires b >= 2 && u < b * p
    ensures u / b < p
  {
    DivStep(u, b);
    var q := u / b;
    assert q * b < p * b;
  }

  /** A 32-bit number has at most ten decimal and eight hexadecimal digits. */
  lemma WordLength(u: nat)
    requires u < 0x1_0000_0000
    ensures |Digits(u, 10)| <= 10 && |Digits(u, 16)| <= 8
  {
    assert Pow(10, 5) == 100000 by {
      assert Pow(10, 2) == 100 && Pow(10, 3) == 1000 && Pow(10, 4) == 10000;
    }
    assert Pow(10, 10) == 10_000_000_000 by {
      assert Pow(10, 6) == 1_000_000 && Pow(10, 7) == 10_000_000 && Pow(10, 8) == 100_000_000
          && Pow(10, 9) == 1_000_000_000;
    }
    assert Pow(16, 4) == 0x1_0000 by {
      assert Pow(16, 2) == 0x100 && Pow(16, 3) == 0x1000;
    }
    assert Pow(16, 8) == 0x1_0000_0000 by {
      assert Pow(16, 5) == 0x10_0000 && Pow(16, 6) == 0x100_0000 && Pow(16, 7) == 0x1000_0000;
    }
    DigitsLength(u, 10, 10);
    DigitsLength(u, 16, 8);
  }

  /** The unsigned value that is printed for the 32-bit integer d. */
  function Magnitude(base: char, d: int): nat
    requires -0x8000_0000 <= d < 0x8000_0000
  {
    if base == 'd' && d < 0 then -d else d % 0x1_0000_0000
  }

  function Divisor(base: char): nat { if base == 'x' then 16 else 10 }

  function Sign(base: char, d: int): string { if base == 'd' && d < 0 then "-" else "" }

  /** The integer a printed text denotes. */
  function Parsed(s: string, b: nat): int {
    var v: int := if s != [] && s[0] == '-' then Value(s[1..], b) else Value(s, b);
    if s != [] && s[0] == '-' then -v else v
  }

  lemma {:induction false} NoMinus(u: nat, b: nat)
    requires 2 <= b <= 16
    ensures Digits(u, b) != [] && Digits(u, b)[0] != '-'
    decreases u
  {
    hide Remainders;
    var q, r := u / b, Remainders(u, b);
    RemaindersStep(u, b, q, u % b);
    ReversedAt(r, 0);
    if q != 0 {
      NoMinus(q, b);
      ReversedAt(Remainders(q, b), 0);
    }
  }

  /** What tk_itoa prints. */
  function Printed(base: char, d: int): string
    requires -0x8000_0000 <= d < 0x8000_0000
  {
    Sign(base, d) + Digits(Magnitude(base, d), Divisor(base))
  }

  /**
    The printed text reads back: in base 10 as d for %d and as d modulo 2^32 for %u, and in base 16 as d modulo
    2^32 for %x.
  */
  lemma PrintedReadsBack(base: char, d: int)
    requires -0x8000_0000 <= d < 0x8000_0000
    ensures base == 'd' ==> Parsed(Printed(base, d), 10) == d
    ensures base == 'x' ==> Parsed(Printed(base, d), 16) == d % 0x1_0000_0000
    ensures base != 'd' && base != 'x' ==> Parsed(Printed(base, d), 10) == d % 0x1_0000_0000
  {
    hide Digits, Value;
    var t := Digits(Magnitude(base, d), Divisor(base));
    NoMinus(Magnitude(base, d), Divisor(base));
    DigitsValue(Magnitude(base, d), Divisor(base));
    assert "" + t == t && ("-" + t)[1..] == t;
  }

  /** One round of the remainder loop: the digit written is the next of the digits to come. */
  lemma RemaindersRound(written: string, all: string, u: nat, b: nat, q: nat, r: nat)
    requires 2 <= b <= 16 && q == u / b && r == u % b && written + Remainders(u, b) == all
    ensures r < 16 && |written| < |all|
    ensures if q == 0 then written + [DigitChar(r)] == all else written + [DigitChar(r)] + Remainders(q, b) == all
    ensures q < u || q == 0
  {
    hide Remainders;
    RemaindersStep(u, b, q, r);
  }

  /** The remainder loop: digits from position `at` on, lowest first; returns the position behind them. */
  method WriteRemainders(buf: array<char>, at: nat, number: nat, divisor: nat) returns (p: nat)
    requires 2 <= divisor <= 16 && at + |Remainders(number, divisor)| <= buf.Length
    modifies buf
    ensures p == at + |Remainders(number, divisor)| && buf[at..p] == Remainders(number, divisor)
    ensures buf[..at] == old(buf[..at])
  {
    hide Remainders;
    var ud: nat := number;
    p := at;
    ghost var written, all := [], Remainders(number, divisor);
    while true
      invariant p == at + |written| <= buf.Length && buf[at..p] == written
      invariant written + Remainders(ud, divisor) == all
      invariant buf[..at] == old(buf[..at])
      decreases ud
    {
      var remainder, quotient: nat := ud % divisor, ud / divisor;
      RemaindersRound(written, all, ud, divisor, quotient, remainder);
      buf[p] := if remainder < 10 then '0' + remainder as char else 'a' + (remainder - 10) as char;
      p := p + 1;
      assert buf[at..p] == written + [DigitChar(remainder)];
      written := written + [DigitChar(remainder)];
      if quotient == 0 {
        break;
      }
      ud := quotient;
    }
  }

  /** The in-place reversal of buf[lo..hi]. */
  method ReverseInPlace(buf: array<char>, lo: nat, hi: nat)
    requires lo < hi <= buf.Length
    modifies buf
    ensures buf[lo..hi] == Reversed(old(buf[lo..hi]))
    ensures forall k :: 0 <= k < lo || hi <= k < buf.Length ==> buf[k] == old(buf[k])
  {
    var p1, p2 := lo, hi - 1;
    while p1 < p2
      invariant lo <= p1 <= p2 + 1 <= hi && p1 + p2 == lo + hi - 1
      invariant forall k :: p1 <= k <= p2 ==> buf[k] == old(buf[k])
      invariant forall k :: lo <= k < p1 ==> buf[k] == old(buf[lo + hi - 1 - k])
      invariant forall k :: p2 < k < hi ==> buf[k] == old(buf[lo + hi - 1 - k])
      invariant forall k :: 0 <= k < lo || hi <= k < buf.Length ==> buf[k] == old(buf[k])
      decreases p2 - p1
    {
      buf[p1], buf[p2] := buf[p2], buf[p1];
      p1, p2 := p1 + 1, p2 - 1;
    }
    ghost var was, now := old(buf[lo..hi]), buf[lo..hi];
    forall k | 0 <= k < hi - lo ensures now[k] == Reversed(was)[k] {
      ReversedAt(was, k);
      assert now[k] == buf[lo + k] && was[hi - lo - 1 - k] == old(buf[hi - 1 - k]);
    }
  }

  /** tk_itoa on the 20-byte buffer of its caller: sign, digits, terminating NUL. */
  method TkItoa(buf: array<char>, base: char, d: int) returns (n: nat)
    requires buf.Length >= 20 && -0x8000_0000 <= d < 0x8000_0000
    modifies buf
    ensures n < 20 && buf[..n] == Printed(base, d) && buf[n] == '\0'
  {
    hide Remainders, Reversed;
    var at, ud, divisor := 0, d % 0x1_0000_0000, 10;
    if base == 'd' && d < 0 {
      buf[0] := '-';
      at, ud := 1, -d;
    } else if base == 'x' {
      divisor := 16;
    }
    WordLength(ud);
    var p := WriteRemainders(buf, at, ud, divisor);
    ghost var r := buf[at..p];
    buf[p] := '\0';
    assert buf[..at] == Sign(base, d) && buf[at..p] == r;
    ghost var sign := buf[..at];
    ReverseInPlace(buf, at, p);
    assert buf[..at] == sign && buf[..p] == buf[..at] + buf[at..p];
    return p;
  }

  /** The digits of a number are those of its quotient by the base, with the remainder behind them. */
  lemma DigitsBehind(u: nat, b: nat, q: nat, r: nat)
    requires 2 <= b <= 16 && q == u / b && r == u % b && r < 16
    ensures Digits(u, b) == (if q == 0 then "" else Digits(q, b)) + [DigitChar(r)]
  {
    hide Remainders, DigitChar;
    RemaindersStep(u, b, q, r);
    var t := if q == 0 then [] else Remainders(q, b);
    assert ([DigitChar(r)] + t)[1..] == t;
  }

  /** Texts as they appear on the console. */
  lemma DecimalText()
    ensures Printed('d', -255) == "-255"
  {
    hide Digits;
    DigitsBehind(2, 10, 0, 2);
    DigitsBehind(25, 10, 2, 5);
    DigitsBehind(255, 10, 25, 5);
  }

  lemma HexText()
    ensures Printed('x', 0x5af) == "5af"
  {
    hide Digits;
    DigitsBehind(5, 16, 0, 5);
    DigitsBehind(0x5a, 16, 5, 0xa);
    DigitsBehind(0x5af, 16, 0x5a, 0xf);
  }
}
