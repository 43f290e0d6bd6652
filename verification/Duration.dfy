/** Durations as text: seconds and a fraction, or a hexadecimal escape for nanosecond counts that are
    not below one second (src/ofp/durationsec.cpp; the integer reader is StringRef::consumeInteger in
    external/yaml-io/src/Support/StringRef.cpp). */
module Duration {
  import opened Bytes
  import opened Options

  const TWO64 := 0x1_0000_0000_0000_0000
  const BILLION := 1_000_000_000

  datatype DurationSec = DurationSec(sec: nat, nsec: nat)
  {
    predicate Valid() { sec < TWO32 && nsec < TWO32 }
  }

  // ---- reading integers ----

  /** The value of a digit; 36 for any other character. */
  function DigitValue(c: char): nat {
    if '0' <= c <= '9' then (c - '0') as int
    else if 'a' <= c <= 'z' then (c - 'a') as int + 10
    else if 'A' <= c <= 'Z' then (c - 'A') as int + 10
    else 36
  }

  predicate AllDigits(s: string, radix: nat) { forall i :: 0 <= i < |s| ==> DigitValue(s[i]) < radix }

  function Value(s: string, radix: nat): nat {
    if s == "" then 0 else Value(s[..|s| - 1], radix) * radix + DigitValue(s[|s| - 1])
  }

  /** Length of the run of digits at the front. */
  function DigitRun(s: string, radix: nat): (n: nat)
    ensures n <= |s| && AllDigits(s[..n], radix)
    ensures n < |s| ==> DigitValue(s[n]) >= radix
  {
    if s == "" || DigitValue(s[0]) >= radix then 0 else 1 + DigitRun(s[1..], radix)
  }

  /** Consumes the digits at the front; fails without any, or when the value needs more than 32 bits. */
  function ConsumeInteger(s: string, radix: nat): Option<(nat, string)> {
    var n := DigitRun(s, radix);
    if n == 0 || Value(s[..n], radix) >= TWO32 then None else Some((Value(s[..n], radix), s[n..]))
  }

  lemma {:induction false} RunCovers(s: string, k: nat, radix: nat)
    requires k <= |s| && AllDigits(s[..k], radix)
    ensures DigitRun(s, radix) >= k
  {
    if k > 0 {
      assert s[..k][0] == s[0] && s[1..][..k - 1] == s[..k][1..];
      RunCovers(s[1..], k - 1, radix);
    }
  }

  lemma {:induction false} ValueGrows(s: string, k: nat, radix: nat)
    requires k <= |s| && radix >= 1
    ensures Value(s[..k], radix) <= Value(s, radix)
  {
    if k < |s| {
      hide DigitValue;
      var t := s[..|s| - 1];
      ValueGrows(t, k, radix);
      assert t[..k] == s[..k];
      Scaled(Value(t, radix), radix);
    } else {
      assert s[..k] == s;
    }
  }

  lemma Scaled(v: nat, radix: nat)
    requires radix >= 1
    ensures v <= v * radix
  {}

  lemma ValueSnoc(s: string, c: char, radix: nat)
    ensures Value(s + [c], radix) == Value(s, radix) * radix + DigitValue(c)
  {
    assert (s + [c])[..|s|] == s;
  }

  /** A value of 32 bits or less reads as long; the digits seen so far bound it from below. */
  lemma {:induction false} TooBig(s: string, k: nat, radix: nat)
    requires k <= |s| && radix >= 1 && AllDigits(s[..k], radix) && Value(s[..k], radix) >= TWO32
    ensures ConsumeInteger(s, radix).None?
  {
    hide Value, AllDigits;
    RunCovers(s, k, radix);
    var n := DigitRun(s, radix);
    assert s[..n][..k] == s[..k];
    ValueGrows(s[..n], k, radix);
  }

  /** consumeUnsignedInteger on 64-bit words and the narrowing of consumeInteger<UInt32>. The
      overflow test divides the wrapped product back, and is exact. */
  method ConsumeUInt32(str: string, radix: nat) returns (r: Option<(nat, string)>)
    requires radix == 10 || radix == 16
    ensures r == ConsumeInteger(str, radix)
  {
    hide Value, AllDigits, DigitRun, DigitValue;
    if str == "" { return None; }
    var str2, result := str, 0;
    ghost var k := 0;
    assert Value(str[..0], radix) == 0 by { EmptyValue(radix); }
    assert AllDigits(str[..0], radix) by { EmptyValue(radix); }
    while str2 != ""
      invariant k <= |str| && str2 == str[k..]
      invariant AllDigits(str[..k], radix) && result == Value(str[..k], radix) < TWO64
      decreases |str2|
    {
      var charVal := DigitValue(str2[0]);
      if charVal >= radix { break; }
      assert str[..k + 1] == str[..k] + [str2[0]];
      ValueSnoc(str[..k], str2[0], radix);
      DigitsSnoc(str[..k], str2[0], radix);
      var overflow;
      result, overflow := AddDigit(result, charVal, radix);
      if overflow {
        TooBig(str, k + 1, radix);
        return None;
      }
      str2 := str2[1..];
      k := k + 1;
    }
    assert str == str[..k] + str2;
    RunOf(str[..k], str2, radix);
    if |str| == |str2| || result % TWO32 != result { return None; }
    return Some((result, str2));
  }

  /** The step on wrapped words, and the test that finds the wrap. */
  method AddDigit(prev: nat, charVal: nat, radix: nat) returns (result: nat, overflow: bool)
    requires (radix == 10 || radix == 16) && charVal < radix && prev < TWO64
    ensures overflow <==> prev * radix + charVal >= TWO64
    ensures !overflow ==> result == prev * radix + charVal
  {
    result := (prev * radix + charVal) % TWO64;
    WrapTest(prev, charVal, radix);
    overflow := result / radix < prev;
  }

  lemma EmptyValue(radix: nat)
    ensures Value("", radix) == 0 && AllDigits("", radix)
  {}

  lemma DigitsSnoc(s: string, c: char, radix: nat)
    requires AllDigits(s, radix) && DigitValue(c) < radix
    ensures AllDigits(s + [c], radix)
  {}

  lemma WrapTest(prev: nat, c: nat, radix: nat)
    requires (radix == 10 || radix == 16) && c < radix && prev < TWO64
    ensures (prev * radix + c) % TWO64 / radix < prev <==> prev * radix + c >= TWO64
  {
    if radix == 10 { var n := prev * 10 + c; } else { var n := prev * 16 + c; }
  }

  lemma {:induction false} RunOf(a: string, b: string, radix: nat)
    requires AllDigits(a, radix) && (b == "" || DigitValue(b[0]) >= radix)
    ensures DigitRun(a + b, radix) == |a| && (a + b)[..|a|] == a && (a + b)[|a|..] == b
  {
    if a == "" {
      assert a + b == b;
    } else {
      assert (a + b)[1..] == a[1..] + b;
      RunOf(a[1..], b, radix);
    }
  }

  // ---- the parser ----

  function Pow10(n: nat): (p: nat)
    ensures p >= 1
  {
    if n == 0 then 1 else 10 * Pow10(n - 1)
  }

  /** Nanoseconds from what follows the point; all of it counts as digits, digits or not. */
  function Nanoseconds(s: string): Option<nat> {
    if s != "" && s[0] == 'x' then
      match ConsumeInteger(s[1..], 16)
      case None => None
      case Some((nsec, _)) => Some(nsec)
    else
      match ConsumeInteger(s, 10)
      case None => None
      case Some((nsec, _)) => if nsec > 999999999 || |s| > 9 then None else Some(nsec * Pow10(9 - |s|))
  }

  /** What the text means. */
  function Meaning(s: string): Option<DurationSec> {
    match ConsumeInteger(s, 10)
    case None => None
    case Some((sec, rest)) =>
      if rest == "" then Some(DurationSec(sec, 0))
      else if rest[0] != '.' then None
      else
        match Nanoseconds(rest[1..])
        case None => None
        case Some(nsec) => Some(DurationSec(sec, nsec))
  }

  lemma {:induction false} ValueBound(s: string)
    requires AllDigits(s, 10)
    ensures Value(s, 10) < Pow10(|s|)
  {
    if s != "" { ValueBound(s[..|s| - 1]); }
  }

  /** DurationSec::parse; the multiplications of the scaling loop stay within 32 bits. */
  method Parse(s0: string) returns (r: Option<DurationSec>)
    ensures r == Meaning(s0)
    ensures r.Some? ==> r.value.Valid()
  {
    var i := ConsumeUInt32(s0, 10);
    if i.None? { return None; }
    var sec, s := i.value.0, i.value.1;
    if s == "" { return Some(DurationSec(sec, 0)); }
    if s[0] != '.' { return None; }
    s := s[1..];
    var base := 10;
    if s != "" && s[0] == 'x' {
      s := s[1..];
      base := 16;
    }
    var digits := |s|;
    i := ConsumeUInt32(s, base);
    if i.None? { return None; }
    var nsec := i.value.0;
    if base == 10 {
      if nsec > 999999999 || digits > 9 { return None; }
      nsec := Scale(s, nsec, digits);
    }
    return Some(DurationSec(sec, nsec));
  }

  method Scale(s: string, nsec0: nat, digits0: nat) returns (nsec: nat)
    requires digits0 == |s| <= 9 && nsec0 == Value(s[..DigitRun(s, 10)], 10)
    ensures nsec == nsec0 * Pow10(9 - digits0) < BILLION
  {
    hide Pow10, Value, DigitRun, AllDigits;
    nsec := nsec0;
    var digits := digits0;
    ValueBound(s[..DigitRun(s, 10)]);
    Pow10Monotone(DigitRun(s, 10), digits);
    Pow10Nine();
    while digits < 9
      invariant digits0 <= digits <= 9
      invariant nsec * Pow10(9 - digits) == nsec0 * Pow10(9 - digits0)
      invariant nsec < Pow10(digits)
    {
      Pow10Step(digits);
      Pow10Step(8 - digits);
      Pow10Monotone(digits + 1, 9);
      assert nsec * 10 < TWO32;
      Regroup(nsec, 10, Pow10(8 - digits));
      nsec := nsec * 10;
      digits := digits + 1;
    }
  }

  lemma Regroup(a: nat, k: nat, b: nat)
    ensures a * (k * b) == (a * k) * b
  {}

  lemma Pow10Step(n: nat)
    ensures Pow10(n + 1) == 10 * Pow10(n)
  {}

  lemma Pow10Nine()
    ensures Pow10(0) == 1 && Pow10(9) == BILLION
  {
    assert Pow10(3) == 1000;
    assert Pow10(6) == 1000000;
  }

  lemma {:induction false} Pow10Monotone(a: nat, b: nat)
    requires a <= b
    ensures Pow10(a) <= Pow10(b)
    decreases b
  {
    if a < b { Pow10Monotone(a, b - 1); }
  }

  // ---- the printer ----

  function Digit(n: nat): (c: char)
    requires n < 16
    ensures DigitValue(c) == n
  {
    if n < 10 then '0' + n as char else 'a' + (n - 10) as char
  }

  /** %u and %x: no leading zeros. */
  function Digits(n: nat, radix: nat): (s: string)
    requires radix == 10 || radix == 16
    ensures s != "" && AllDigits(s, radix)
  {
    if n < radix then [Digit(n)]
    else if radix == 10 then Digits(n / 10, 10) + [Digit(n % 10)]
    else Digits(n / 16, 16) + [Digit(n % 16)]
  }

  /** %09u for a number that fits: exactly `width` digits. */
  function FixedDigits(n: nat, width: nat): (s: string)
    ensures |s| == width && AllDigits(s, 10)
  {
    if width == 0 then "" else FixedDigits(n / 10, width - 1) + [Digit(n % 10)]
  }

  /** operator<<. */
  function Print(d: DurationSec): string {
    if d.sec == 0 && d.nsec == 0 then "0"
    else if d.nsec < BILLION then Digits(d.sec, 10) + "." + FixedDigits(d.nsec, 9)
    else Digits(d.sec, 10) + "." + "x" + Digits(d.nsec, 16)
  }

  lemma {:induction false} ValueDigits(n: nat, radix: nat)
    requires radix == 10 || radix == 16
    ensures Value(Digits(n, radix), radix) == n
  {
    hide DigitValue, AllDigits;
    var s := Digits(n, radix);
    if n < radix {
      assert Value([Digit(n)], radix) == Value([], radix) * radix + n;
    } else if radix == 10 {
      ValueDigits(n / 10, 10);
      assert s[..|s| - 1] == Digits(n / 10, 10);
    } else {
      ValueDigits(n / 16, 16);
      assert s[..|s| - 1] == Digits(n / 16, 16);
    }
  }

  lemma {:induction false} ValueFixed(n: nat, width: nat)
    requires n < Pow10(width)
    ensures Value(FixedDigits(n, width), 10) == n
  {
    hide DigitValue, AllDigits;
    if width != 0 {
      ValueFixed(n / 10, width - 1);
      FixedSnoc(n, width);
      ValueSnoc(FixedDigits(n / 10, width - 1), Digit(n % 10), 10);
    }
  }

  lemma FixedSnoc(n: nat, width: nat)
    requires width > 0
    ensures FixedDigits(n, width) == FixedDigits(n / 10, width - 1) + [Digit(n % 10)]
  {}

  lemma ConsumeOf(a: string, b: string, radix: nat)
    requires a != "" && AllDigits(a, radix) && Value(a, radix) < TWO32 && (b == "" || DigitValue(b[0]) >= radix)
    ensures ConsumeInteger(a + b, radix) == Some((Value(a, radix), b))
  {
    RunOf(a, b, radix);
  }

  lemma {:induction false} MeaningOfParts(sec: string, rest: string)
    requires sec != "" && AllDigits(sec, 10) && Value(sec, 10) < TWO32
    ensures Meaning(sec) == Some(DurationSec(Value(sec, 10), 0))
    ensures Meaning(sec + "." + rest) ==
      match Nanoseconds(rest) { case None => None case Some(nsec) => Some(DurationSec(Value(sec, 10), nsec)) }
  {
    hide ConsumeInteger, Nanoseconds, Value, AllDigits;
    ConsumeOf(sec, "", 10);
    assert sec + "" == sec;
    ConsumeOf(sec, "." + rest, 10);
    assert sec + "." + rest == sec + ("." + rest);
    assert ("." + rest)[1..] == rest;
  }

  lemma {:induction false} DecimalNanoseconds(frac: string, junk: string)
    requires frac != "" && AllDigits(frac, 10) && |frac| + |junk| <= 9
    requires junk == "" || DigitValue(junk[0]) >= 10
    ensures Nanoseconds(frac + junk) == Some(Value(frac, 10) * Pow10(9 - |frac| - |junk|))
  {
    hide ConsumeInteger, Value, Pow10;
    ValueBound(frac);
    Pow10Monotone(|frac|, 9);
    Pow10Nine();
    ConsumeOf(frac, junk, 10);
    assert DigitValue((frac + junk)[0]) < 10;
  }

  /** A fraction of one to nine digits has its exact value: k digits stand for Value / 10^k seconds. */
  lemma {:induction false} FractionIsExact(sec: string, frac: string)
    requires sec != "" && AllDigits(sec, 10) && Value(sec, 10) < TWO32
    requires AllDigits(frac, 10) && 1 <= |frac| <= 9
    ensures var d := Meaning(sec + "." + frac);
      d.Some? && d.value.sec == Value(sec, 10) && d.value.nsec * Pow10(|frac|) == Value(frac, 10) * BILLION
  {
    hide Meaning, Value, AllDigits, Pow10, Nanoseconds;
    MeaningOfParts(sec, frac);
    PlainNanoseconds(frac);
    Pow10Add(9 - |frac|, |frac|);
    Pow10Nine();
    Regroup(Value(frac, 10), Pow10(9 - |frac|), Pow10(|frac|));
  }

  lemma {:induction false} PlainNanoseconds(frac: string)
    requires AllDigits(frac, 10) && 1 <= |frac| <= 9
    ensures Nanoseconds(frac) == Some(Value(frac, 10) * Pow10(9 - |frac|))
  {
    hide Value, AllDigits, Pow10, Nanoseconds;
    DecimalNanoseconds(frac, "");
    assert frac + "" == frac;
  }

  lemma {:induction false} Pow10Add(a: nat, b: nat)
    ensures Pow10(a) * Pow10(b) == Pow10(a + b)
  {
    if a != 0 {
      Pow10Add(a - 1, b);
      assert 10 * Pow10(a - 1) * Pow10(b) == 10 * (Pow10(a - 1) * Pow10(b));
    }
  }

  /** Text behind the digits is not rejected, and it shifts the fraction: the result is the value of
      the digits exactly when nothing follows them or they are all zero. */
  lemma {:induction false} JunkIsExactIff(sec: string, frac: string, junk: string)
    requires sec != "" && AllDigits(sec, 10) && Value(sec, 10) < TWO32
    requires AllDigits(frac, 10) && frac != "" && |frac| + |junk| <= 9 && (junk == "" || DigitValue(junk[0]) >= 10)
    ensures Meaning(sec + "." + (frac + junk)).Some?
    ensures Meaning(sec + "." + (frac + junk)) == Meaning(sec + "." + frac) <==> junk == "" || Value(frac, 10) == 0
  {
    hide Meaning, Value, AllDigits, Pow10, Nanoseconds, DigitValue;
    MeaningOfParts(sec, frac);
    MeaningOfParts(sec, frac + junk);
    PlainNanoseconds(frac);
    DecimalNanoseconds(frac, junk);
    if junk == "" {
      assert frac + junk == frac;
    } else {
      Pow10Step(8 - |frac|);
      Pow10Monotone(9 - |frac| - |junk|, 8 - |frac|);
      SameProductIff(Value(frac, 10), Pow10(9 - |frac|), Pow10(9 - |frac| - |junk|));
    }
  }

  /** One and a half seconds, and one and a twentieth. */
  lemma {:induction false} JunkShifts()
    ensures Meaning("1.5") == Some(DurationSec(1, 500_000_000)) && Meaning("1.5s") == Some(DurationSec(1, 50_000_000))
  {
    hide Meaning, Pow10, Nanoseconds;
    assert Value("1", 10) == 1 && Value("5", 10) == 5 by { assert Value("", 10) == 0; }
    Pow10Nine();
    Pow10Step(8);
    Pow10Step(7);
    PlainNanoseconds("5");
    DecimalNanoseconds("5", "s");
    MeaningOfParts("1", "5");
    MeaningOfParts("1", "5s");
    assert "1" + "." + "5" == "1.5" && "1" + "." + "5s" == "1.5s" && "5" + "s" == "5s";
  }

  lemma SameProductIff(v: nat, p: nat, q: nat)
    requires q < p
    ensures v * q == v * p <==> v == 0
  {
    if v > 0 { assert v * (p - q) > 0; }
  }

  /** Printing and parsing returns the same duration, for every 32-bit pair. */
  lemma {:induction false} PrintParse(d: DurationSec)
    requires d.Valid()
    ensures Meaning(Print(d)) == Some(d)
  {
    hide Meaning, Value, AllDigits, Digits, FixedDigits, Pow10, Nanoseconds;
    ValueDigits(d.sec, 10);
    var sec := Digits(d.sec, 10);
    if d.sec == 0 && d.nsec == 0 {
      assert Digits(0, 10) == "0" by { ZeroDigits(); }
      MeaningOfParts(sec, "");
    } else if d.nsec < BILLION {
      var frac := FixedDigits(d.nsec, 9);
      MeaningOfParts(sec, frac);
      Pow10Nine();
      ValueFixed(d.nsec, 9);
      DecimalNanoseconds(frac, "");
      assert frac + "" == frac;
    } else {
      var hex := Digits(d.nsec, 16);
      ValueDigits(d.nsec, 16);
      MeaningOfParts(sec, "x" + hex);
      HexNanoseconds(hex);
      assert sec + "." + "x" + hex == sec + "." + ("x" + hex);
    }
  }

  /** The digits printed, and those read in either case. */
  lemma DigitTable(n: nat)
    requires n < 16
    ensures Digit(n) == "0123456789abcdef"[n]
    ensures DigitValue("0123456789abcdef"[n]) == n && DigitValue("0123456789ABCDEF"[n]) == n
  {}

  /** What is printed: nine decimal digits below one second of nanoseconds, hexadecimal digits above. */
  lemma {:induction false} PrintedForm(d: DurationSec)
    requires d.Valid()
    ensures d == DurationSec(0, 0) ==> Print(d) == "0"
    ensures d != DurationSec(0, 0) && d.nsec < 1_000_000_000 ==> exists sec, frac ::
      PrintedAs(d, sec, frac, 10) && |frac| == 9 && Print(d) == sec + "." + frac
    ensures d.nsec >= 1_000_000_000 ==> exists sec, frac ::
      PrintedAs(d, sec, frac, 16) && (|frac| == 1 || frac[0] != '0') && Print(d) == sec + ".x" + frac
  {
    hide Value, AllDigits, Digits, FixedDigits;
    ValueDigits(d.sec, 10);
    NoLeadingZero(d.sec, 10);
    if d.nsec < BILLION {
      Pow10Nine();
      ValueFixed(d.nsec, 9);
      assert PrintedAs(d, Digits(d.sec, 10), FixedDigits(d.nsec, 9), 10);
    } else {
      ValueDigits(d.nsec, 16);
      NoLeadingZero(d.nsec, 16);
      assert "." + "x" == ".x";
      assert Digits(d.sec, 10) + "." + "x" == Digits(d.sec, 10) + ".x";
      assert PrintedAs(d, Digits(d.sec, 10), Digits(d.nsec, 16), 16);
    }
  }

  predicate PrintedAs(d: DurationSec, sec: string, frac: string, radix: nat) {
    && sec != "" && AllDigits(sec, 10) && Value(sec, 10) == d.sec && (|sec| == 1 || sec[0] != '0')
    && frac != "" && AllDigits(frac, radix) && Value(frac, radix) == d.nsec
  }

  lemma {:induction false} NoLeadingZero(n: nat, radix: nat)
    requires radix == 10 || radix == 16
    ensures var s := Digits(n, radix); |s| == 1 || s[0] != '0'
  {
    if n >= radix {
      NoLeadingZero(n / radix, radix);
      if n / radix < radix { assert Digit(n / radix) != '0'; }
    }
  }

  lemma ZeroDigits()
    ensures Digits(0, 10) == "0"
  {}

  lemma {:induction false} HexNanoseconds(hex: string)
    requires hex != "" && AllDigits(hex, 16) && Value(hex, 16) < TWO32
    ensures Nanoseconds("x" + hex) == Some(Value(hex, 16))
  {
    hide ConsumeInteger;
    ConsumeOf(hex, "", 16);
    assert hex + "" == hex;
    assert ("x" + hex)[1..] == hex;
  }

  // ---- exactly which texts are accepted ----

  /** The characters behind a number do not continue it. */
  predicate Stops(junk: string, radix: nat) { junk == "" || DigitValue(junk[0]) >= radix }

  predicate IsNumber(s: string, radix: nat) { s != "" && AllDigits(s, radix) && Value(s, radix) < TWO32 }

  /** A fraction of up to nine characters that begins with digits; all characters shift the value. */
  predicate DecimalPart(t: string, frac: string, junk: string, nsec: nat) {
    && t == frac + junk && frac != "" && AllDigits(frac, 10) && |frac| + |junk| <= 9 && Stops(junk, 10)
    && nsec == Value(frac, 10) * Pow10(9 - |frac| - |junk|)
  }

  /** The escape: hexadecimal digits, and anything behind them. */
  predicate HexPart(t: string, hex: string, junk: string, nsec: nat) {
    t == "x" + hex + junk && IsNumber(hex, 16) && Stops(junk, 16) && nsec == Value(hex, 16)
  }

  lemma {:induction false} ConsumedIs(s: string, radix: nat)
    requires ConsumeInteger(s, radix).Some?
    ensures var n := DigitRun(s, radix);
      ConsumeInteger(s, radix) == Some((Value(s[..n], radix), s[n..]))
      && IsNumber(s[..n], radix) && Stops(s[n..], radix)
      && s == s[..n] + s[n..]
  {
    hide Value, DigitRun;
  }

  lemma {:induction false} NanosecondsSplit(t: string, nsec: nat) returns (a: string, junk: string)
    requires Nanoseconds(t) == Some(nsec)
    ensures DecimalPart(t, a, junk, nsec) || HexPart(t, a, junk, nsec)
  {
    hide ConsumeInteger, Value, DigitRun, Pow10, AllDigits, Stops;
    if t != "" && t[0] == 'x' {
      ConsumedIs(t[1..], 16);
      var n := DigitRun(t[1..], 16);
      a, junk := t[1..][..n], t[1..][n..];
      assert t == "x" + a + junk;
    } else {
      ConsumedIs(t, 10);
      var n := DigitRun(t, 10);
      a, junk := t[..n], t[n..];
    }
  }

  lemma {:induction false} HexWithJunk(hex: string, junk: string)
    requires IsNumber(hex, 16) && Stops(junk, 16)
    ensures Nanoseconds("x" + hex + junk) == Some(Value(hex, 16))
  {
    hide ConsumeInteger, Value, AllDigits;
    ConsumeOf(hex, junk, 16);
    assert ("x" + hex + junk)[1..] == hex + junk;
  }

  ghost predicate IsFraction(t: string, nsec: nat) {
    (exists frac, junk :: DecimalPart(t, frac, junk, nsec)) || (exists hex, junk :: HexPart(t, hex, junk, nsec))
  }

  lemma {:induction false} NanosecondsIff(t: string, nsec: nat)
    ensures Nanoseconds(t) == Some(nsec) <==> IsFraction(t, nsec)
  {
    hide Nanoseconds, Value, AllDigits, Pow10;
    if Nanoseconds(t) == Some(nsec) { var a, junk := NanosecondsSplit(t, nsec); }
    forall frac, junk | DecimalPart(t, frac, junk, nsec) ensures Nanoseconds(t) == Some(nsec) {
      DecimalNanoseconds(frac, junk);
    }
    forall hex, junk | HexPart(t, hex, junk, nsec) ensures Nanoseconds(t) == Some(nsec) {
      HexWithJunk(hex, junk);
    }
  }

  ghost predicate IsDuration(s: string, sec: string, t: string, d: DurationSec) {
    s == sec + "." + t && IsNumber(sec, 10) && d.sec == Value(sec, 10) && IsFraction(t, d.nsec)
  }

  /** A text is accepted, with a certain value, if and only if it is a number of seconds alone or with a
      point and one of the two kinds of fraction. */
  lemma {:induction false} AcceptedIff(s: string, d: DurationSec)
    ensures Meaning(s) == Some(d) <==>
      || (IsNumber(s, 10) && d == DurationSec(Value(s, 10), 0))
      || exists sec, t :: IsDuration(s, sec, t, d)
  {
    hide Nanoseconds, Value, AllDigits, IsFraction, ConsumeInteger, DigitRun;
    if Meaning(s) == Some(d) {
      ConsumedIs(s, 10);
      var n := DigitRun(s, 10);
      var sec, rest := s[..n], s[n..];
      if rest == "" {
        assert s == sec;
      } else {
        NanosecondsIff(rest[1..], d.nsec);
        assert s == sec + "." + rest[1..];
        assert IsDuration(s, sec, rest[1..], d);
      }
    }
    if IsNumber(s, 10) { MeaningOfParts(s, ""); }
    forall sec, t | IsDuration(s, sec, t, d) ensures Meaning(s) == Some(d) {
      MeaningOfParts(sec, t);
      NanosecondsIff(t, d.nsec);
    }
  }

  /** Behind the hexadecimal form text is dropped without a trace. */
  lemma {:induction false} HexJunkIsDropped(sec: string, hex: string, junk: string)
    requires IsNumber(sec, 10) && IsNumber(hex, 16) && Stops(junk, 16)
    ensures Meaning(sec + "." + ("x" + hex + junk)) == Some(DurationSec(Value(sec, 10), Value(hex, 16)))
  {
    hide Meaning, Value, AllDigits, Nanoseconds;
    MeaningOfParts(sec, "x" + hex + junk);
    HexWithJunk(hex, junk);
  }
}
