/** The parts of Go's standard library that the client's core relies on:
    byte strings and []byte conversions, decimal formatting (fmt's %d and
    strconv.Itoa), strconv.ParseInt in base 10, integer division that
    truncates toward zero, time.Unix, strings.Index, strings.SplitN with a
    limit of two, and strings.Replace with a limit of one. */
module GoStd {
  import opened Wrappers

  /** A Go byte. */
  newtype byte = b: int | 0 <= b < 256
  type Bytes = seq<byte>

  // ---------------------------------------------------------------------
  // Byte strings

  /** A Go string is a sequence of bytes: in this model every character of
      such a string is below 256 and stands for one byte. */
  predicate IsByteString(s: string) {
    forall i | 0 <= i < |s| :: s[i] as int < 256
  }

  /** []byte(s) */
  function ToBytes(s: string): (b: Bytes)
    requires IsByteString(s)
    ensures |b| == |s|
    ensures forall i | 0 <= i < |s| :: b[i] as int == s[i] as int
  {
    seq(|s|, i requires 0 <= i < |s| => s[i] as int as byte)
  }

  /** string(b) */
  function FromBytes(b: Bytes): (s: string)
    ensures IsByteString(s)
    ensures ToBytes(s) == b
  {
    seq(|b|, i requires 0 <= i < |b| => b[i] as int as char)
  }

  lemma FromBytesOfToBytes(s: string)
    requires IsByteString(s)
    ensures FromBytes(ToBytes(s)) == s
  {
    var t := FromBytes(ToBytes(s));
    assert |t| == |s|;
    forall i | 0 <= i < |s| ensures t[i] == s[i] {
      assert ToBytes(t)[i] == ToBytes(s)[i];
    }
  }

  lemma FromBytesConcat(a: Bytes, b: Bytes)
    ensures FromBytes(a + b) == FromBytes(a) + FromBytes(b)
  {
  }

  lemma ToBytesConcat(s: string, t: string)
    requires IsByteString(s) && IsByteString(t)
    ensures IsByteString(s + t)
    ensures ToBytes(s + t) == ToBytes(s) + ToBytes(t)
  {
  }

  // ---------------------------------------------------------------------
  // Decimal numbers

  predicate IsDigit(c: char) { '0' <= c <= '9' }

  predicate IsDigits(s: string) {
    forall i | 0 <= i < |s| :: IsDigit(s[i])
  }

  function DigitChar(d: nat): (c: char)
    requires d < 10
    ensures IsDigit(c)
  {
    ('0' as int + d) as char
  }

  function DigitValue(c: char): (d: nat)
    requires IsDigit(c)
    ensures d < 10
  {
    c as int - '0' as int
  }

  /** The decimal digits of a natural number, most significant first, with no
      leading zero. */
  function NatDecimal(n: nat): (s: string)
    ensures |s| >= 1 && IsDigits(s) && IsByteString(s)
    ensures s[0] == '0' ==> n == 0
  {
    if n < 10 then [DigitChar(n)] else NatDecimal(n / 10) + [DigitChar(n % 10)]
  }

  /** fmt.Sprintf("%d", n) and strconv.Itoa(n): a minus sign for negative
      numbers, then the digits of the magnitude. */
  function Decimal(n: int): (s: string)
    ensures |s| >= 1 && IsByteString(s)
    ensures forall i | 0 <= i < |s| :: IsDigit(s[i]) || (i == 0 && s[i] == '-')
  {
    if n < 0 then "-" + NatDecimal(-n) else NatDecimal(n)
  }

  /** The value of a string of decimal digits. */
  function DigitsValue(s: string): nat
    requires IsDigits(s)
  {
    if s == [] then 0 else 10 * DigitsValue(s[..|s| - 1]) + DigitValue(s[|s| - 1])
  }

  /** Reading back the digits that NatDecimal writes gives the number. */
  lemma {:induction false} DigitsValueOfNatDecimal(n: nat)
    ensures DigitsValue(NatDecimal(n)) == n
  {
    if n >= 10 {
      var s := NatDecimal(n);
      assert s[..|s| - 1] == NatDecimal(n / 10);
      DigitsValueOfNatDecimal(n / 10);
    }
  }

  lemma NatDecimalInjective(a: nat, b: nat)
    requires NatDecimal(a) == NatDecimal(b)
    ensures a == b
  {
    DigitsValueOfNatDecimal(a);
    DigitsValueOfNatDecimal(b);
  }

  /** Distinct numbers have distinct decimal representations. */
  lemma DecimalInjective(a: int, b: int)
    requires Decimal(a) == Decimal(b)
    ensures a == b
  {
    var s := Decimal(a);
    if a < 0 {
      assert s[0] == '-';
      assert !IsDigit(s[0]);
      assert b < 0;
      assert s[1..] == NatDecimal(-a);
      assert Decimal(b)[1..] == NatDecimal(-b);
      NatDecimalInjective(-a, -b);
    } else {
      assert IsDigit(NatDecimal(a)[0]);
      assert b >= 0;
      NatDecimalInjective(a, b);
    }
  }

  const MinInt64: int := -0x8000_0000_0000_0000
  const MaxInt64: int := 0x7fff_ffff_ffff_ffff
  const MaxUint64: int := 0xffff_ffff_ffff_ffff
  const TwoTo64: int := 0x1_0000_0000_0000_0000

  /** Go's 64-bit int arithmetic: x reduced into the int64 range modulo 2^64. */
  function WrapInt64(x: int): (r: int)
    ensures MinInt64 <= r <= MaxInt64
    ensures (x - r) % TwoTo64 == 0
    ensures MinInt64 <= x <= MaxInt64 ==> r == x
  {
    (x - MinInt64) % TwoTo64 + MinInt64
  }

  datatype NumError = ErrSyntax | ErrRange

  /** The length of the run of digits that opens s. */
  function DigitRun(s: string): (n: nat)
    ensures n <= |s| && IsDigits(s[..n])
    ensures n < |s| ==> !IsDigit(s[n])
  {
    if s == [] || !IsDigit(s[0]) then 0
    else
      var n := 1 + DigitRun(s[1..]);
      assert s[..n] == [s[0]] + s[1..][..n - 1];
      n
  }

  /** A string of digits is one run. */
  lemma DigitRunAll(s: string)
    requires IsDigits(s)
    ensures DigitRun(s) == |s| && s[..DigitRun(s)] == s
  {
  }

  /** A prefix of a digit string is worth no more than the whole string. */
  lemma {:induction false} DigitsValuePrefix(s: string, k: nat)
    requires IsDigits(s) && k <= |s|
    ensures DigitsValue(s[..k]) <= DigitsValue(s)
  {
    if k < |s| {
      var init := s[..|s| - 1];
      assert init[..k] == s[..k];
      assert DigitsValue(s) == 10 * DigitsValue(init) + DigitValue(s[|s| - 1]);
      DigitsValuePrefix(init, k);
    } else {
      assert s[..k] == s;
    }
  }

  /** strconv.ParseInt(s, 10, 64): an optional sign, then at least one decimal
      digit and nothing else. The digits are read from the left, and reading
      stops with a range error as soon as the value read so far exceeds
      2^64 - 1, so such an opening run of digits is a range error even when a
      non-digit follows it; otherwise any other character, or no digit at
      all, is a syntax error, and a value outside int64 is a range error. */
  function ParseInt64(s: string): (r: Result<int, NumError>)
    ensures r.Success? ==> MinInt64 <= r.value <= MaxInt64
    ensures s == [] ==> r == Failure(ErrSyntax)
  {
    if s == [] then Failure(ErrSyntax)
    else
      var digits := if s[0] == '+' || s[0] == '-' then s[1..] else s;
      if DigitsValue(digits[..DigitRun(digits)]) > MaxUint64 then Failure(ErrRange)
      else if digits == [] || !IsDigits(digits) then Failure(ErrSyntax)
      else
        var v: int := if s[0] == '-' then -(DigitsValue(digits) as int) else DigitsValue(digits);
        if v < MinInt64 || v > MaxInt64 then Failure(ErrRange) else Success(v)
  }

  /** Digits worth more than 2^64 - 1 are a range error whatever follows
      them. */
  lemma ParseInt64RangeBeforeSyntax(d: string, rest: string)
    requires d != [] && IsDigits(d) && DigitsValue(d) > MaxUint64
    ensures ParseInt64(d + rest) == Failure(ErrRange)
  {
    var s := d + rest;
    assert IsDigit(s[0]);
    var n := DigitRun(s);
    assert s[..n][..|d|] == d;
    DigitsValuePrefix(s[..n], |d|);
  }

  /** ParseInt64 reads back every 64-bit number that Decimal writes. */
  lemma ParseInt64OfDecimal(n: int)
    requires MinInt64 <= n <= MaxInt64
    ensures ParseInt64(Decimal(n)) == Success(n)
  {
    var s := Decimal(n);
    var digits := if n < 0 then NatDecimal(-n) else NatDecimal(n);
    if n < 0 {
      assert s[0] == '-' && s[1..] == digits;
    } else {
      assert s == digits && IsDigit(s[0]);
    }
    DigitRunAll(digits);
    DigitsValueOfNatDecimal(if n < 0 then -n else n);
    assert DigitsValue(digits[..DigitRun(digits)]) <= MaxUint64;
  }

  /** A string with a character that is neither a digit nor a leading sign
      does not parse. */
  lemma ParseInt64RejectsNonDigit(s: string, i: nat)
    requires i < |s| && !IsDigit(s[i]) && (i == 0 ==> s[i] != '+' && s[i] != '-')
    ensures ParseInt64(s).Failure?
  {
    if s[0] == '+' || s[0] == '-' {
      assert s[1..][i - 1] == s[i];
    }
  }

  // ---------------------------------------------------------------------
  // Integer division as Go computes it

  /** Go's a / d: the quotient truncated toward zero. */
  function Quo(a: int, d: int): int
    requires d > 0
  {
    if a >= 0 then a / d else -((-a) / d)
  }

  /** Go's a % d: the remainder has the sign of a. */
  function Rem(a: int, d: int): (r: int)
    requires d > 0
    ensures a == d * Quo(a, d) + r
    ensures a >= 0 ==> 0 <= r < d
    ensures a < 0 ==> -d < r <= 0
  {
    a - d * Quo(a, d)
  }

  // ---------------------------------------------------------------------
  // time.Time reduced to its Unix seconds and nanoseconds

  const NanosPerSecond: int := 1_000_000_000

  datatype Time = Time(sec: int, nsec: int)

  /** The zero time.Time, January 1 of year 1, in Unix seconds. */
  const ZeroTime: Time := Time(-62_135_596_800, 0)

  /** time.Unix(sec, nsec): nanoseconds outside [0, 1e9) are carried into the
      seconds so that the result is normalised. */
  function Unix(sec: int, nsec: int): (t: Time)
    ensures 0 <= t.nsec < NanosPerSecond
    ensures t.sec * NanosPerSecond + t.nsec == sec * NanosPerSecond + nsec
    ensures 0 <= nsec < NanosPerSecond ==> t == Time(sec, nsec)
  {
    if nsec < 0 || nsec >= NanosPerSecond then
      var n := Quo(nsec, NanosPerSecond);
      var s1, ns1 := sec + n, Rem(nsec, NanosPerSecond);
      if ns1 < 0 then Time(s1 - 1, ns1 + NanosPerSecond) else Time(s1, ns1)
    else
      Time(sec, nsec)
  }

  // ---------------------------------------------------------------------
  // strings

  predicate MatchesAt<T(==)>(s: seq<T>, pat: seq<T>, i: nat) {
    i + |pat| <= |s| && s[i..i + |pat|] == pat
  }

  /** strings.Index: the position of the first occurrence of pat in s. */
  function IndexOf<T(==)>(s: seq<T>, pat: seq<T>): (r: Option<nat>)
    ensures r.Some? ==> MatchesAt(s, pat, r.value)
    ensures r.Some? ==> forall j: nat | j < r.value :: !MatchesAt(s, pat, j)
    ensures r.None? ==> forall j: nat :: !MatchesAt(s, pat, j)
    decreases |s|
  {
    if |pat| > |s| then None
    else if s[..|pat|] == pat then Some(0)
    else
      var rest := IndexOf(s[1..], pat);
      assert forall j: nat | 0 < j :: MatchesAt(s, pat, j) == MatchesAt(s[1..], pat, j - 1) by {
        forall j: nat | 0 < j ensures MatchesAt(s, pat, j) == MatchesAt(s[1..], pat, j - 1) {
          if j + |pat| <= |s| {
            assert s[1..][j - 1..j - 1 + |pat|] == s[j..j + |pat|];
          }
        }
      }
      assert !MatchesAt(s, pat, 0);
      match rest
      case None => None
      case Some(k) => Some(k + 1)
  }

  /** A match with no earlier match is the one strings.Index finds. */
  lemma IndexOfFirst<T>(s: seq<T>, pat: seq<T>, i: nat)
    requires MatchesAt(s, pat, i)
    requires forall j: nat | j < i :: !MatchesAt(s, pat, j)
    ensures IndexOf(s, pat) == Some(i)
  {
    var r := IndexOf(s, pat);
    assert r.Some? && r.value == i;
  }

  /** strings.SplitN(s, sep, 2) for a one-character separator: the text before
      the first separator and the text after it, or s alone when it has no
      separator. */
  function SplitN2(s: string, sep: char): (parts: seq<string>)
    ensures |parts| == 1 || |parts| == 2
    ensures |parts| == 1 <==> sep !in s
    ensures |parts| == 1 ==> parts[0] == s
    ensures |parts| == 2 ==> sep !in parts[0] && parts[0] + [sep] + parts[1] == s
  {
    match IndexOf(s, [sep])
    case None =>
      assert forall j | 0 <= j < |s| :: s[j] != sep by {
        forall j | 0 <= j < |s| ensures s[j] != sep {
          assert !MatchesAt(s, [sep], j);
        }
      }
      [s]
    case Some(i) =>
      assert forall j | 0 <= j < i :: s[j] != sep by {
        forall j | 0 <= j < i ensures s[j] != sep {
          assert !MatchesAt(s, [sep], j);
        }
      }
      assert s[i..i + 1] == [sep];
      assert s[..i] + [sep] + s[i + 1..] == s;
      [s[..i], s[i + 1..]]
  }

  /** The parts that SplitN2 returns for text + sep + rest when text has no
      separator: the text, then everything after the first separator. */
  lemma SplitN2Joined(text: string, sep: char, rest: string)
    requires sep !in text
    ensures SplitN2(text + [sep] + rest, sep) == [text, rest]
  {
    var s := text + [sep] + rest;
    var parts := SplitN2(s, sep);
    assert s[|text|] == sep;
    assert |parts| == 2;
    assert |parts[0]| == |text|;
    assert parts[0] == s[..|parts[0]|];
  }

  /** strings.Replace(s, pat, rep, 1): the first occurrence of pat is replaced
      by rep; an empty pat matches at the beginning. */
  function Replace1<T(==)>(s: seq<T>, pat: seq<T>, rep: seq<T>): (r: seq<T>)
    ensures |r| == |s| || |r| == |s| - |pat| + |rep|
  {
    if pat == [] then rep + s
    else
      match IndexOf(s, pat)
      case None => s
      case Some(i) => s[..i] + rep + s[i + |pat|..]
  }

  /** Replace1 leaves a string without pat as it is. */
  lemma Replace1Absent<T>(s: seq<T>, pat: seq<T>, rep: seq<T>)
    requires pat != []
    requires forall j: nat :: !MatchesAt(s, pat, j)
    ensures Replace1(s, pat, rep) == s
  {
  }

  /** When the first occurrence of pat is at i, Replace1 keeps everything
      before i and everything after that occurrence, and puts rep between. */
  lemma Replace1AtFirst<T>(s: seq<T>, pat: seq<T>, rep: seq<T>, i: nat)
    requires pat != []
    requires MatchesAt(s, pat, i)
    requires forall j: nat | j < i :: !MatchesAt(s, pat, j)
    ensures Replace1(s, pat, rep) == s[..i] + rep + s[i + |pat|..]
  {
    IndexOfFirst(s, pat, i);
  }
}
