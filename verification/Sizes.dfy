/** Sizes with units: parsing, conversion between units, and the decimal text they are written in. */
module Sizes {
  import opened Collections

  // ---------- decimal text ----------

  predicate AllDigits(s: string) {
    forall i :: 0 <= i < |s| ==> IsDigit(s[i])
  }

  /** The decimal text of a natural number, as str() gives it. */
  function Digits(n: nat): (s: string)
    ensures |s| > 0 && AllDigits(s)
  {
    if n < 10 then [DigitChar(n)] else Digits(n / 10) + [DigitChar(n % 10)]
  }

  function DigitChar(d: nat): (c: char)
    requires d < 10
    ensures IsDigit(c) && DigitValue(c) == d
  {
    '0' + d as char
  }

  function DigitValue(c: char): nat
    requires IsDigit(c)
  {
    (c - '0') as nat
  }

  function Value(s: string): nat
    requires AllDigits(s)
  {
    if s == "" then 0 else 10 * Value(s[..|s| - 1]) + DigitValue(s[|s| - 1])
  }

  lemma {:induction false} ValueOfDigits(n: nat)
    ensures Value(Digits(n)) == n
  {
    if n >= 10 {
      ValueOfDigits(n / 10);
      assert Digits(n)[..|Digits(n)| - 1] == Digits(n / 10);
    } else {
      assert Digits(n)[..0] == "";
    }
  }

  /** The number of digits at the start of a text. */
  function LeadingDigits(s: string): (d: nat)
    ensures d <= |s| && AllDigits(s[..d])
    ensures d < |s| ==> !IsDigit(s[d])
  {
    if s == "" || !IsDigit(s[0]) then 0 else 1 + LeadingDigits(s[1..])
  }

  lemma LeadingDigitsOf(a: string, b: string)
    requires AllDigits(a) && (b != "" ==> !IsDigit(b[0]))
    ensures LeadingDigits(a + b) == |a|
  {
    if a == "" {
      assert a + b == b;
    } else {
      assert (a + b)[1..] == a[1..] + b;
      LeadingDigitsOf(a[1..], b);
    }
  }

  // ---------- units ----------

  /** The binary logarithm of a unit letter. */
  function Log(c: char): Option<nat> {
    match c
    case 'b' => Some(0)
    case 'k' => Some(10)
    case 'm' => Some(20)
    case 'g' => Some(30)
    case 't' => Some(40)
    case 'p' => Some(50)
    case 'e' => Some(60)
    case 'z' => Some(70)
    case 'y' => Some(80)
    case _ => None
  }

  function Lower(c: char): char {
    if 'A' <= c <= 'Z' then c + 32 as char else c
  }

  function LowerAll(s: string): (r: string)
    ensures |r| == |s| && forall i :: 0 <= i < |s| ==> r[i] == Lower(s[i])
  {
    seq(|s|, i requires 0 <= i < |s| => Lower(s[i]))
  }

  function Pow2(n: nat): (p: nat)
    ensures p > 0
  {
    if n == 0 then 1 else 2 * Pow2(n - 1)
  }

  lemma Pow2Sum(a: nat, b: nat)
    ensures Pow2(a + b) == Pow2(a) * Pow2(b)
  {
    if a > 0 {
      Pow2Sum(a - 1, b);
      assert Pow2(a + b) == 2 * Pow2(a - 1 + b);
    }
  }

  const UNITS := "bkmgtpezy"
  const CAPITALS := "BKMGTPEZY"

  /** Each unit is 1024 of the one before it, from the byte up, in either case. */
  lemma UnitTable(i: nat)
    requires i < 9
    ensures Log(UNITS[i]).Some? && Log(Lower(CAPITALS[i])) == Log(UNITS[i])
    ensures i == 0 ==> Pow2(Log(UNITS[i]).value) == 1
    ensures i < 8 ==> Log(UNITS[i + 1]).Some? && Pow2(Log(UNITS[i + 1]).value) == 1024 * Pow2(Log(UNITS[i]).value)
  {
    LetterLog(i);
    Pow2Ten();
    if i < 8 {
      LetterLog(i + 1);
      Pow2Sum(10, 10 * i);
    }
  }

  lemma LetterLog(i: nat)
    requires i < 9
    ensures Log(UNITS[i]) == Log(Lower(CAPITALS[i])) == Some(10 * i)
  {
  }

  /** No other letter is a unit. */
  lemma OnlyUnits(c: char)
    ensures Log(c).Some? <==> c in UNITS
  {
    if c in UNITS {
      var i :| 0 <= i < 9 && UNITS[i] == c;
      LetterLog(i);
    } else {
      assert UNITS[0] == 'b' && UNITS[1] == 'k' && UNITS[2] == 'm' && UNITS[3] == 'g' && UNITS[4] == 't';
      assert UNITS[5] == 'p' && UNITS[6] == 'e' && UNITS[7] == 'z' && UNITS[8] == 'y';
    }
  }

  lemma Pow2Ten()
    ensures Pow2(10) == 1024 && Pow2(0) == 1
  {
    assert Pow2(5) == 32;
    Pow2Sum(5, 5);
  }

  /** The first digit counts most. */
  lemma DigitsExample()
    ensures AllDigits("1024") && Value("1024") == 1024 && Digits(1024) == "1024"
  {
    assert "1024"[..3] == "102" && "102"[..2] == "10" && "10"[..1] == "1" && "1"[..0] == "";
    assert Digits(1) == "1" && Digits(10) == "1" + "0" && Digits(102) == "10" + "2" && Digits(1024) == "102" + "4";
  }

  /** Whether `q` is the least integer whose multiple of `d` reaches `n`. */
  ghost predicate IsCeil(n: int, d: int, q: int) {
    q * d - d < n <= q * d
  }

  lemma CeilExists(n: int, d: int)
    requires d > 0
    ensures exists q :: IsCeil(n, d, q)
  {
    var x := (-n) / d;
    assert -n == x * d + (-n) % d;
    assert (-x) * d == -(x * d);
    assert IsCeil(n, d, -x);
  }

  ghost function CeilDiv(n: int, d: int): (q: int)
    requires d > 0
    ensures IsCeil(n, d, q)
  {
    CeilExists(n, d);
    var q :| IsCeil(n, d, q);
    q
  }

  lemma CeilDivIs(n: int, d: int, q: int)
    requires d > 0
    ensures q == CeilDiv(n, d) <==> IsCeil(n, d, q)
  {
    if IsCeil(n, d, q) {
      CeilUnique(n, d, q, CeilDiv(n, d));
      CeilUnique(n, d, CeilDiv(n, d), q);
    }
  }

  lemma CeilUnique(n: int, d: int, q: int, r: int)
    requires d > 0 && IsCeil(n, d, q) && IsCeil(n, d, r)
    ensures q <= r
  {
    if r < q {
      MulMono(r, q - 1, d);
    }
  }

  lemma MulMono(a: int, b: int, d: int)
    requires a <= b && d > 0
    ensures a * d <= b * d
  {
  }

  lemma CeilDivTwice(n: int, a: int, b: int)
    requires a > 0 && b > 0
    ensures a * b > 0 && CeilDiv(CeilDiv(n, a), b) == CeilDiv(n, a * b)
  {
    var q := CeilDiv(n, a);
    var r := CeilDiv(q, b);
    CeilDivIs(n, a, q);
    CeilDivIs(q, b, r);
    MulMono(r * b - b, q - 1, a);
    MulMono(q, r * b, a);
    assert (r * b - b) * a == r * (a * b) - a * b && (q - 1) * a == q * a - a && r * b * a == r * (a * b);
    CeilDivIs(n, a * b, r);
  }

  // ---------- conversion ----------

  /** A size text taken apart: an optional sign, digits, and the letter after them if it is a unit. */
  datatype SizeText = SizeText(negative: bool, count: nat, log: nat)

  function Parse(value: string): Option<SizeText> {
    var text := LowerAll(value);
    if text != "" && (text[0] == '-' || text[0] == '+') then Counted(text[0] == '-', text[1..]) else Counted(false, text)
  }

  /** What follows the sign. */
  function Counted(negative: bool, rest: string): Option<SizeText> {
    var d := LeadingDigits(rest);
    if d == 0 then None
    else
      var unit := if d < |rest| then Log(rest[d]) else None;
      Some(SizeText(negative, Value(rest[..d]), unit.GetOr(0)))
  }

  /**
   * A size text is a sign or none, digits, and anything: the character after the digits is the unit if it is
   * one, and the size is in bytes otherwise. Without a digit there the text is not a size.
   */
  lemma ParseIs(sign: string, d: string, rest: string)
    requires (sign == "" || sign == "-" || sign == "+") && AllDigits(d) && (rest != "" ==> !IsDigit(rest[0]))
    requires sign == "" && d == "" && rest != "" ==> rest[0] != '-' && rest[0] != '+'
    ensures Parse(sign + d + rest) == if d == "" then None
      else Some(SizeText(sign == "-", Value(d), if rest == "" then 0 else Log(Lower(rest[0])).GetOr(0)))
  {
    var low := LowerAll(rest);
    LowerParts(sign, d, rest);
    if rest != "" {
      LowerNoDigit(rest[0]);
    }
    if sign == "" {
      assert sign + d + low == d + low;
      ParseUnsigned(sign + d + rest, d, low);
    } else {
      ParseSigned(sign + d + rest, sign[0], d, low);
    }
    CountedIs(sign == "-", d, low);
  }

  lemma LowerNoDigit(c: char)
    requires !IsDigit(c)
    ensures !IsDigit(Lower(c)) && (c != '-' && c != '+' ==> Lower(c) != '-' && Lower(c) != '+')
  {
  }

  lemma CountedIs(negative: bool, d: string, low: string)
    requires AllDigits(d) && (low != "" ==> !IsDigit(low[0]))
    ensures Counted(negative, d + low) == if d == "" then None
      else Some(SizeText(negative, Value(d), if low == "" then 0 else Log(low[0]).GetOr(0)))
  {
    LeadingDigitsOf(d, low);
    assert (d + low)[..|d|] == d;
    assert low != "" ==> (d + low)[|d|] == low[0];
  }

  lemma ParseUnsigned(value: string, d: string, low: string)
    requires LowerAll(value) == d + low && AllDigits(d)
    requires d == "" && low != "" ==> low[0] != '-' && low[0] != '+'
    ensures Parse(value) == Counted(false, d + low)
  {
    var text := LowerAll(value);
    if d != "" {
      assert text[0] == d[0] && IsDigit(d[0]);
    } else {
      assert text == low;
    }
  }

  lemma ParseSigned(value: string, sign: char, d: string, low: string)
    requires LowerAll(value) == [sign] + d + low && (sign == '-' || sign == '+')
    ensures Parse(value) == Counted(sign == '-', d + low)
  {
    var text := LowerAll(value);
    assert text[0] == sign && text[1..] == d + low;
  }

  lemma LowerParts(sign: string, d: string, rest: string)
    requires (sign == "" || sign == "-" || sign == "+") && AllDigits(d)
    ensures LowerAll(sign + d + rest) == sign + d + LowerAll(rest)
  {
    assert forall c :: IsDigit(c) || c == '-' || c == '+' ==> Lower(c) == c;
  }

  /** A size is its number times its unit; a negative one is no bytes at all. */
  lemma SizeIs(n: nat, unit: char, capital: bool, i: nat)
    requires i < 9 && unit == if capital then CAPITALS[i] else UNITS[i]
    ensures Log(UNITS[i]).Some? && SizeInBytes(Digits(n) + [unit]) == Some(n * Pow2(Log(UNITS[i]).value))
    ensures SizeInBytes(Digits(n)) == Some(n) && SizeInBytes("-" + Digits(n) + [unit]) == Some(0)
  {
    LetterLog(i);
    LowerLetter(i);
    SizeWith(n, unit, 10 * i);
    BareSize(n);
  }

  lemma SizeWith(n: nat, unit: char, log: nat)
    requires !IsDigit(unit) && Log(Lower(unit)) == Some(log)
    ensures SizeInBytes(Digits(n) + [unit]) == Some(n * Pow2(log)) && SizeInBytes("-" + Digits(n) + [unit]) == Some(0)
  {
    var d := Digits(n);
    ValueOfDigits(n);
    ParseIs("", d, [unit]);
    ParseIs("-", d, [unit]);
    assert "" + d + [unit] == d + [unit];
    Parsed(d + [unit], false, n, log);
    Parsed("-" + d + [unit], true, n, log);
  }

  lemma BareSize(n: nat)
    ensures SizeInBytes(Digits(n)) == Some(n)
  {
    ValueOfDigits(n);
    ParseIs("", Digits(n), "");
    assert "" + Digits(n) + "" == Digits(n);
    Parsed(Digits(n), false, n, 0);
    Pow2Ten();
  }

  lemma Parsed(value: string, negative: bool, n: nat, log: nat)
    requires Parse(value) == Some(SizeText(negative, n, log))
    ensures SizeInBytes(value) == Some(if negative then 0 else n * Pow2(log))
  {
    var count: int := n;
    SignOfProduct(count, Pow2(log));
    SignOfProduct(-count, Pow2(log));
  }

  lemma LowerLetter(i: nat)
    requires i < 9
    ensures Lower(UNITS[i]) == Lower(CAPITALS[i]) == UNITS[i] && !IsDigit(UNITS[i]) && !IsDigit(CAPITALS[i])
  {
  }

  function Signed(t: SizeText): int {
    var n: int := t.count;
    if t.negative then -n else n
  }

  /** The size in bytes. */
  function Bytes(t: SizeText): int {
    Signed(t) * Pow2(t.log)
  }

  /** The size as text in a unit, rounded up; zero and negative sizes are a bare "0". */
  ghost function InUnit(bytes: int, unit: char): string
    requires Log(unit).Some?
  {
    if bytes <= 0 then "0" else Digits(CeilNat(bytes, Pow2(Log(unit).value))) + [unit]
  }

  ghost function CeilNat(n: int, d: int): nat
    requires n > 0 && d > 0
  {
    CeilPositive(n, d);
    CeilDiv(n, d)
  }

  /** What conversion yields: nothing for an unreadable text or unit, else the rounded-up size. */
  ghost function Converted(value: string, units: string): Option<string> {
    if units == "" || Log(Lower(units[0])).None? then None
    else match Parse(value)
      case None => None
      case Some(t) => Some(InUnit(Bytes(t), Lower(units[0])))
  }

  /** Truncation toward zero. */
  function Truncated(x: real): int {
    if x >= 0.0 then x.Floor else -((-x).Floor)
  }

  /** The conversion as it is computed: scale by a power of two, add one if a fraction remains, truncate. */
  method ConvertSize(value: string, units: string) returns (r: Option<string>)
    ensures r == Converted(value, units)
  {
    if units == "" {
      return None;
    }
    var target := Lower(units[0]);
    if Log(target).None? {
      return None;
    }
    var parsed := Parse(value);
    if parsed.None? {
      return None;
    }
    var whole := RoundUp(Signed(parsed.value), parsed.value.log, Log(target).value);
    if whole <= 0 {
      return Some("0");
    }
    return Some(Digits(whole) + [target]);
  }

  method RoundUp(count: int, from: nat, target: nat) returns (whole: int)
    ensures ScaledRight(whole, count * Pow2(from), Pow2(target))
  {
    var val := Scaled(count, from, target);
    ScaledIs(count, from, target);
    if val - Truncated(val) as real > 0.0 {
      val := val + 1.0;
    }
    whole := Truncated(val);
  }

  /** Multiplication by a power of two whose exponent may be negative. */
  function Scaled(count: int, from: nat, target: nat): real {
    if from >= target then count as real * Pow2(from - target) as real else count as real / Pow2(target - from) as real
  }

  /** What adding one for a remaining fraction and truncating does to a scaled number. */
  function RoundedUp(x: real): int {
    Truncated(if x - Truncated(x) as real > 0.0 then x + 1.0 else x)
  }

  /** Scaling a count is the same as dividing its size in bytes by the target unit. */
  lemma {:induction false} ScaledIs(count: int, from: nat, target: nat)
    ensures ScaledRight(RoundedUp(Scaled(count, from, target)), count * Pow2(from), Pow2(target))
  {
    if from >= target {
      PowSplit(from - target, target, from);
      ScaleUp(count, Pow2(from), Pow2(target), Pow2(from - target), Scaled(count, from, target));
    } else {
      PowSplit(from, target - from, target);
      ScaleDown(count, Pow2(from), Pow2(target), Pow2(target - from), Scaled(count, from, target));
    }
  }

  lemma PowSplit(a: nat, b: nat, c: nat)
    requires c == a + b
    ensures Pow2(c) == Pow2(a) * Pow2(b)
  {
    Pow2Sum(a, b);
  }

  ghost predicate ScaledRight(up: int, bytes: int, unit: int)
    requires unit > 0
  {
    if bytes <= 0 then up <= 0 else up == CeilDiv(bytes, unit) && up > 0
  }

  lemma ScaleUp(c: int, pf: nat, pt: nat, up: nat, x: real)
    requires pf > 0 && pt > 0 && up > 0 && pf == up * pt
    requires x == c as real * up as real
    ensures ScaledRight(RoundedUp(x), c * pf, pt)
  {
    RealProduct(c, up);
    RoundedUpIs(x);
    assert c * pf == c * up * pt by {
      assert c * (up * pt) == c * up * pt;
    }
    CeilDivMultiple(c * up, pt);
    SignOfProduct(c * up, pt);
  }

  lemma ScaleDown(c: int, pf: nat, pt: nat, down: nat, x: real)
    requires pf > 0 && pt > 0 && down > 0 && pt == pf * down
    requires x == c as real / down as real
    ensures ScaledRight(RoundedUp(x), c * pf, pt)
  {
    RealQuotient(c as real, down as real);
    RealCeil(c, down, x);
    CancelFactor(c, pf, down);
    SignOfProduct(c, pf);
    CeilPositive(c * pf, pt);
  }

  lemma CeilPositive(n: int, p: int)
    requires p > 0
    ensures n > 0 ==> CeilDiv(n, p) > 0
  {
    SignOfProduct(CeilDiv(n, p), p);
  }

  lemma RealProduct(a: int, b: int)
    ensures a as real * b as real == (a * b) as real
  {
  }

  lemma RealQuotient(a: real, b: real)
    requires b > 0.0
    ensures (a / b) * b == a
  {
  }

  lemma CancelFactor(n: int, a: nat, b: nat)
    requires a > 0 && b > 0
    ensures a * b > 0 && CeilDiv(n * a, a * b) == CeilDiv(n, b)
  {
    CeilDivTwice(n * a, a, b);
    CeilDivMultiple(n, a);
  }

  lemma CeilDivMultiple(q: int, d: int)
    requires d > 0
    ensures CeilDiv(q * d, d) == q
  {
    assert (q - 1) * d == q * d - d;
    CeilDivIs(q * d, d, q);
  }

  lemma SignOfProduct(a: int, p: int)
    requires p > 0
    ensures a <= 0 <==> a * p <= 0
  {
  }

  lemma RealMono(a: real, b: real, d: real)
    requires d > 0.0
    ensures a < b <==> a * d < b * d
    ensures a == b <==> a * d == b * d
  {
  }

  lemma RoundedUpIs(x: real)
    ensures if x <= 0.0 then RoundedUp(x) <= 0
      else RoundedUp(x) == if x == x.Floor as real then x.Floor else x.Floor + 1
  {
  }

  lemma RealCeil(n: int, d: int, x: real)
    requires d > 0 && x * d as real == n as real
    ensures if n <= 0 then RoundedUp(x) <= 0 else RoundedUp(x) == CeilDiv(n, d)
  {
    RealMono(0.0, x, d as real);
    RoundedUpIs(x);
    if n > 0 {
      var f := x.Floor;
      FloorBounds(n, d, x, f);
      if n == f * d {
        CeilDivIs(n, d, f);
      } else {
        assert (f + 1) * d == f * d + d;
        CeilDivIs(n, d, f + 1);
      }
    }
  }

  lemma FloorBounds(n: int, d: int, x: real, f: int)
    requires d > 0 && x * d as real == n as real && f as real <= x < f as real + 1.0
    ensures f * d <= n < f * d + d
    ensures x == f as real <==> n == f * d
  {
    RealProduct(f, d);
    RealProduct(f + 1, d);
    Between(n, f * d, (f + 1) * d, x, f as real, (f + 1) as real, d as real);
    Distribute(f, d);
  }

  /** Order is kept by multiplication with a positive number. */
  lemma Between(n: int, lo: int, hi: int, x: real, low: real, high: real, d: real)
    requires d > 0.0 && low <= x < high
    requires x * d == n as real && low * d == lo as real && high * d == hi as real
    ensures lo <= n < hi && (x == low <==> n == lo)
  {
    RealMono(low, x, d);
    RealMono(x, high, d);
  }

  lemma Distribute(f: int, d: int)
    ensures (f + 1) * d == f * d + d
  {
  }

  /** The size in bytes, if the text can be read: strip the unit letters off the size in bytes and read the rest. */
  method SizeAsInt(value: string) returns (r: Option<int>)
    ensures r == SizeInBytes(value)
  {
    var text := ConvertSize(value, "b");
    if text.None? {
      return None;
    }
    var s := text.value;
    var n := |s|;
    while n > 0 && 'a' <= s[n - 1] <= 'z'
      invariant 0 <= n <= |s| && forall i :: n <= i < |s| ==> 'a' <= s[i] <= 'z'
    {
      n := n - 1;
    }
    ghost var t := Parse(value).value;
    if Bytes(t) > 0 {
      CeilDivIs(Bytes(t), 1, Bytes(t));
      ghost var d := Digits(Bytes(t));
      assert s == d + ['b'];
      assert n == |d| && s[..n] == d by {
        assert s[|d|] == 'b';
        assert IsDigit(d[|d| - 1]) && s[|d| - 1] == d[|d| - 1];
      }
      ValueOfDigits(Bytes(t));
    } else {
      assert s == "0" && s[0] == '0';
      assert n == 1;
      assert s[..n] == "0";
      assert Value("0") == 0 by {
        assert "0"[..0] == "";
      }
    }
    return Some(Value(s[..n]));
  }

  function SizeInBytes(value: string): Option<int> {
    match Parse(value)
    case None => None
    case Some(t) => Some(if Bytes(t) <= 0 then 0 else Bytes(t))
  }

  // ---------- what conversion means ----------

  lemma ParseInUnit(bytes: int, unit: char)
    requires Log(unit).Some?
    ensures Parse(InUnit(bytes, unit)) == Some(
      if bytes <= 0 then SizeText(false, 0, 0)
      else SizeText(false, CeilDiv(bytes, Pow2(Log(unit).value)), Log(unit).value))
  {
    if bytes <= 0 {
      assert Digits(0) == "0" == Digits(0) + "";
      ParseDigits(0, "");
    } else {
      ParseDigits(CeilNat(bytes, Pow2(Log(unit).value)), [unit]);
    }
  }

  /** Decimal text with at most a unit letter is read as written. */
  lemma ParseDigits(n: nat, tail: string)
    requires tail == "" || (|tail| == 1 && Log(tail[0]).Some?)
    ensures Parse(Digits(n) + tail) == Some(SizeText(false, n, if tail == "" then 0 else Log(tail[0]).value))
  {
    var text := Digits(n) + tail;
    assert LowerAll(text) == text by {
      assert tail != "" ==> Lower(tail[0]) == tail[0];
    }
    assert IsDigit(text[0]);
    LeadingDigitsOf(Digits(n), tail);
    assert text[..|Digits(n)|] == Digits(n);
    ValueOfDigits(n);
  }

  /** Reading back what was written in a unit gives the least multiple of the unit that is not below the size. */
  lemma SizeOfInUnit(bytes: int, unit: char)
    requires Log(unit).Some?
    ensures SizeInBytes(InUnit(bytes, unit)) ==
      Some(if bytes <= 0 then 0 else CeilDiv(bytes, Pow2(Log(unit).value)) * Pow2(Log(unit).value))
  {
    var p := Pow2(Log(unit).value);
    ParseInUnit(bytes, unit);
    if bytes > 0 {
      CeilDivIs(bytes, p, CeilDiv(bytes, p));
      SignOfProduct(CeilDiv(bytes, p), p);
    }
  }

  /**
   * For a readable size the result is the least multiple of the target unit that is not below it, written
   * in that unit; a negative size counts as zero.
   */
  lemma ConversionIsCeiling(value: string, units: string)
    requires Converted(value, units).Some? && SizeInBytes(value).Some?
    ensures var size := SizeInBytes(value).value;
      var unit := Pow2(Log(Lower(units[0])).value);
      var r := SizeInBytes(Converted(value, units).value);
      r.Some? && r.value % unit == 0 && r.value - unit < size <= r.value
  {
    var bytes := Bytes(Parse(value).value);
    var u := Lower(units[0]);
    SizeOfInUnit(bytes, u);
    CeilMultiple(if bytes <= 0 then 0 else bytes, Pow2(Log(u).value));
  }

  lemma CeilMultiple(n: int, p: int)
    requires p > 0
    ensures (CeilDiv(n, p) * p) % p == 0 && CeilDiv(n, p) * p - p < n <= CeilDiv(n, p) * p
    ensures n == 0 ==> CeilDiv(n, p) * p == 0
  {
    var q := CeilDiv(n, p);
    CeilDivIs(n, p, q);
    assert (q - 1) * p == q * p - p;
    MultipleOf(q, p);
    CeilDivMultiple(0, p);
  }

  lemma MultipleOf(q: int, d: int)
    requires d > 0
    ensures (q * d) % d == 0
  {
    var x, y := (q * d) / d, (q * d) % d;
    assert q * d == x * d + y && 0 <= y < d;
    assert (q - x) * d == y;
    if q - x >= 1 {
      MulMono(1, q - x, d);
    }
    if q - x <= -1 {
      MulMono(q - x, -1, d);
    }
  }

  /** Converting to a unit that divides the text's own unit loses nothing. */
  lemma DownConversionExact(value: string, units: string)
    requires Converted(value, units).Some?
    requires Parse(value).value.log >= Log(Lower(units[0])).value
    ensures SizeInBytes(Converted(value, units).value) == SizeInBytes(value)
  {
    var t := Parse(value).value;
    var u := Lower(units[0]);
    var k := Log(u).value;
    SizeOfInUnit(Bytes(t), u);
    Pow2Sum(t.log - k, k);
    MultipleStays(Signed(t), Pow2(t.log - k), Pow2(k), Bytes(t));
  }

  lemma MultipleStays(a: int, b: int, c: int, n: int)
    requires c > 0 && n == a * (b * c)
    ensures CeilDiv(n, c) * c == n
  {
    assert n == (a * b) * c;
    CeilDivMultiple(a * b, c);
  }

  /** Going through a finer unit first gives the same text as converting directly. */
  lemma ThroughFinerUnit(value: string, finer: string, units: string)
    requires Converted(value, finer).Some? && Converted(value, units).Some?
    requires Log(Lower(finer[0])).value <= Log(Lower(units[0])).value
    ensures Converted(Converted(value, finer).value, units) == Converted(value, units)
  {
    var bytes := Bytes(Parse(value).value);
    var f, u := Lower(finer[0]), Lower(units[0]);
    var a, b := Log(f).value, Log(u).value;
    ParseInUnit(bytes, f);
    if bytes > 0 {
      FinerFirst(bytes, a, b);
      InUnitSame(CeilDiv(bytes, Pow2(a)) * Pow2(a), bytes, u);
    }
  }

  lemma FinerFirst(n: int, a: nat, b: nat)
    requires n > 0 && a <= b
    ensures var m := CeilDiv(n, Pow2(a)) * Pow2(a);
      m > 0 && CeilDiv(m, Pow2(b)) == CeilDiv(n, Pow2(b))
  {
    var q := CeilDiv(n, Pow2(a));
    CeilDivIs(n, Pow2(a), q);
    SignOfProduct(q, Pow2(a));
    Pow2Sum(a, b - a);
    CeilDivTwice(n, Pow2(a), Pow2(b - a));
    CancelFactor(q, Pow2(a), Pow2(b - a));
  }

  lemma InUnitSame(a: int, b: int, unit: char)
    requires Log(unit).Some? && a > 0 && b > 0
    requires CeilDiv(a, Pow2(Log(unit).value)) == CeilDiv(b, Pow2(Log(unit).value))
    ensures InUnit(a, unit) == InUnit(b, unit)
  {
  }
}
