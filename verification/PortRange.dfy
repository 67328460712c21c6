/** Port-range strings: `N` or `N-M`. */
module PortRange {
  import opened Bytes

  datatype Range = Range(lo: nat, hi: nat)

  datatype Parsed = Valid(range: Range) | BadLow | BadHigh | Inverted | BadPort

  predicate IsDigit(c: char) {
    '0' <= c <= '9'
  }

  function DigitOf(c: char): nat
    requires IsDigit(c)
  {
    c as int - '0' as int
  }

  function CharOf(d: nat): (c: char)
    requires d < 10
    ensures IsDigit(c) && DigitOf(c) == d
  {
    ('0' as int + d) as char
  }

  predicate AllDigits(s: string) {
    forall c <- s :: IsDigit(c)
  }

  function Value(s: string): nat
    requires AllDigits(s)
  {
    if s == "" then 0 else Value(s[..|s| - 1]) * 10 + DigitOf(s[|s| - 1])
  }

  /** The digits are the decimal ones, each worth its place in their order. */
  lemma DigitsAreDecimal(c: char)
    ensures IsDigit(c) <==> c in "0123456789"
    ensures IsDigit(c) ==> DigitOf(c) < 10 && "0123456789"[DigitOf(c)] == c
  {
    if IsDigit(c) {
      assert "0123456789"[c as int - '0' as int] == c;
    }
  }

  lemma DigitOrder(c: char, d: char)
    requires IsDigit(c) && IsDigit(d)
    ensures DigitOf(c) < DigitOf(d) <==> c < d
    ensures DigitOf(c) == DigitOf(d) <==> c == d
    ensures DigitOf(c) < 10 && DigitOf(d) < 10
  {
  }

  lemma ValueByDigit(s: string)
    requires AllDigits(s) && s != ""
    ensures IsDigit(s[|s| - 1]) && AllDigits(s[..|s| - 1])
    ensures Value(s) == Value(s[..|s| - 1]) * 10 + DigitOf(s[|s| - 1])
  {
    assert s[|s| - 1] in s;
  }

  /** Of two digit strings of one length, the one first smaller at some digit has the smaller value. */
  lemma {:induction false} ValueOrder(s: string, t: string)
    requires AllDigits(s) && AllDigits(t) && |s| == |t|
    ensures Value(s) < Value(t) <==> exists i :: 0 <= i < |s| && s[..i] == t[..i] && s[i] < t[i]
  {
    if s != "" {
      hide Value, IsDigit, DigitOf;
      var n := |s| - 1;
      ValueByDigit(s);
      ValueByDigit(t);
      DigitOrder(s[n], t[n]);
      ValueOrder(s[..n], t[..n]);
      ValueInjective(s[..n], t[..n]);
      assert forall i :: 0 <= i < n ==> s[..n][..i] == s[..i] && t[..n][..i] == t[..i];
      if s[..n] == t[..n] {
        assert forall i :: 0 <= i < n ==> s[i] == s[..n][i] == t[i];
      }
    }
  }

  lemma {:induction false} ValueInjective(s: string, t: string)
    requires AllDigits(s) && AllDigits(t) && |s| == |t|
    ensures Value(s) == Value(t) <==> s == t
  {
    if s != "" {
      hide Value, IsDigit, DigitOf;
      var n := |s| - 1;
      ValueByDigit(s);
      ValueByDigit(t);
      DigitOrder(s[n], t[n]);
      ValueInjective(s[..n], t[..n]);
      assert s == s[..n] + [s[n]] && t == t[..n] + [t[n]];
    }
  }

  /** Rust's `str::parse::<u16>`: an optional plus sign, then digits that do not overflow. */
  function ParseU16(s: string): Option<nat> {
    var digits := if |s| > 1 && s[0] == '+' then s[1..] else s;
    if digits != "" && AllDigits(digits) && Value(digits) <= 65535 then Some(Value(digits)) else None
  }

  /** `str::split_once`: the parts before and after the first dash. */
  function SplitOnce(s: string): (r: Option<(string, string)>)
    ensures r.None? <==> '-' !in s
    ensures r.Some? ==> s == r.value.0 + "-" + r.value.1 && '-' !in r.value.0
  {
    if s == "" then None
    else if s[0] == '-' then Some(("", s[1..]))
    else match SplitOnce(s[1..])
      case None => None
      case Some((a, b)) =>
        assert s == [s[0]] + s[1..];
        Some(([s[0]] + a, b))
  }

  function Parse(s: string): Parsed {
    match SplitOnce(s)
    case Some((low, high)) =>
      (match ParseU16(low)
       case None => BadLow
       case Some(lo) =>
         match ParseU16(high)
         case None => BadHigh
         case Some(hi) => if lo > hi then Inverted else Valid(Range(lo, hi)))
    case None =>
      (match ParseU16(s)
       case None => BadPort
       case Some(port) => Valid(Range(port, port)))
  }

  // ---- the shortest string of a range ----

  function Decimal(n: nat): (s: string)
    ensures s != "" && AllDigits(s)
    decreases n
  {
    if n < 10 then [CharOf(n)] else Decimal(n / 10) + [CharOf(n % 10)]
  }

  function Canonical(r: Range): string {
    if r.lo == r.hi then Decimal(r.lo) else Decimal(r.lo) + "-" + Decimal(r.hi)
  }

  lemma {:induction false} ValueOfDecimal(n: nat)
    ensures Value(Decimal(n)) == n
    decreases n
  {
    if n < 10 {
      assert [CharOf(n)][..0] == "";
    } else {
      ValueOfDecimal(n / 10);
      assert Decimal(n)[..|Decimal(n)| - 1] == Decimal(n / 10);
    }
  }

  lemma ParseOfDecimal(n: nat)
    requires n <= 65535
    ensures ParseU16(Decimal(n)) == Some(n) && '-' !in Decimal(n)
  {
    ValueOfDecimal(n);
    assert Decimal(n)[0] in Decimal(n);
  }

  lemma {:induction false} SplitAtDash(a: string, b: string)
    requires '-' !in a
    ensures SplitOnce(a + "-" + b) == Some((a, b))
  {
    var s := a + "-" + b;
    if a == "" {
      assert s[1..] == b;
    } else {
      assert s[1..] == a[1..] + "-" + b;
      SplitAtDash(a[1..], b);
      assert [a[0]] + a[1..] == a;
    }
  }

  /** Every range of port numbers has a string that stands for it. */
  lemma CanonicalParses(r: Range)
    ensures Parse(Canonical(r)) == Valid(r) <==> r.lo <= r.hi <= 65535
  {
    if r.lo <= r.hi <= 65535 {
      ParseOfDecimal(r.lo);
      ParseOfDecimal(r.hi);
      if r.lo != r.hi {
        SplitAtDash(Decimal(r.lo), Decimal(r.hi));
      }
    }
  }

  // ---- what is accepted ----

  function Zeros(n: nat): string {
    seq(n, _ => '0')
  }

  lemma ValueSnoc(front: string, c: char)
    requires AllDigits(front) && IsDigit(c)
    ensures AllDigits(front + [c]) && Value(front + [c]) == Value(front) * 10 + DigitOf(c)
  {
    assert (front + [c])[..|front|] == front;
  }

  lemma DecimalSnoc(n: nat, c: char)
    requires IsDigit(c)
    ensures Decimal(n * 10 + DigitOf(c)) == if n == 0 then [c] else Decimal(n) + [c]
  {
    var m := n * 10 + DigitOf(c);
    assert m / 10 == n && m % 10 == DigitOf(c) && CharOf(DigitOf(c)) == c;
  }

  /** Digits are some zeros and the decimal form of their value. */
  lemma {:induction false} DigitsAreCanonical(s: string) returns (zeros: nat)
    requires s != "" && AllDigits(s)
    ensures s == Zeros(zeros) + Decimal(Value(s))
  {
    hide Value, Decimal;
    var front, last := s[..|s| - 1], s[|s| - 1];
    assert s == front + [last];
    ValueSnoc(front, last);
    DecimalSnoc(Value(front), last);
    if front == "" {
      ValueOfNothing();
      return 0;
    }
    zeros := DigitsAreCanonical(front);
    if Value(front) == 0 {
      DecimalSnoc(0, '0');
      assert front == Zeros(zeros + 1);
      zeros := zeros + 1;
    }
  }

  lemma ValueOfNothing()
    ensures Value("") == 0
  {
  }

  lemma {:induction false} ZerosAreWorthless(n: nat, s: string)
    requires AllDigits(s)
    ensures AllDigits(Zeros(n) + s) && Value(Zeros(n) + s) == Value(s)
    decreases n + |s|
  {
    var t := Zeros(n) + s;
    if s != "" {
      ZerosAreWorthless(n, s[..|s| - 1]);
      assert t[..|t| - 1] == Zeros(n) + s[..|s| - 1];
    } else if n > 0 {
      ZerosAreWorthless(n - 1, "");
      assert t[..|t| - 1] == Zeros(n - 1) + "";
    }
  }

  ghost predicate Denotes(s: string, n: nat) {
    exists plus: string, zeros: nat ::
      (plus == "" || plus == "+") && s == plus + (Zeros(zeros) + Decimal(n))
  }

  lemma ParsedDenotes(s: string)
    requires ParseU16(s).Some?
    ensures Denotes(s, ParseU16(s).value)
  {
    hide Value, Decimal;
    var plus := if |s| > 1 && s[0] == '+' then "+" else "";
    var digits := s[|plus|..];
    var zeros := DigitsAreCanonical(digits);
    assert s == plus + (Zeros(zeros) + Decimal(ParseU16(s).value));
  }

  lemma DenotedParses(plus: string, zeros: nat, n: nat)
    requires plus == "" || plus == "+"
    requires n <= 65535
    ensures ParseU16(plus + (Zeros(zeros) + Decimal(n))) == Some(n)
  {
    hide Value, Decimal;
    var digits := Zeros(zeros) + Decimal(n);
    var s := plus + digits;
    ZerosAreWorthless(zeros, Decimal(n));
    ValueOfDecimal(n);
    assert digits != "" && digits[0] in digits;
    assert s[|plus|..] == digits;
    assert plus == "" ==> s == digits;
  }

  /** Exactly these strings stand for port `n`: a plus sign or none, zeros, its decimal form. */
  lemma ParseU16Exactly(s: string, n: nat)
    ensures ParseU16(s) == Some(n) <==> n <= 65535 && Denotes(s, n)
  {
    hide Value, Decimal, Zeros;
    if ParseU16(s) == Some(n) {
      ParsedDenotes(s);
    }
    if n <= 65535 && Denotes(s, n) {
      var plus: string, zeros: nat :| (plus == "" || plus == "+") && s == plus + (Zeros(zeros) + Decimal(n));
      DenotedParses(plus, zeros, n);
    }
  }

  /** A string is accepted exactly as a port number, or as two with a dash between, in order. */
  lemma ParseExactly(s: string, r: Range)
    ensures Parse(s) == Valid(r) <==>
              || (r.lo == r.hi && ParseU16(s) == Some(r.lo))
              || (r.lo <= r.hi && exists low: string, high: string ::
                    s == low + "-" + high && ParseU16(low) == Some(r.lo) && ParseU16(high) == Some(r.hi))
  {
    if '-' in s {
      NoDashInPort(s);
    }
    forall low: string, high: string | s == low + "-" + high && ParseU16(low) == Some(r.lo)
      ensures SplitOnce(s) == Some((low, high))
    {
      NoDashInPort(low);
      SplitAtDash(low, high);
    }
  }

  lemma NoDashInPort(s: string)
    ensures ParseU16(s).Some? ==> '-' !in s
  {
  }
}
