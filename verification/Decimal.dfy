/** Decimal text of integers and comma-separated lists: printed as JavaScript does, read as Go does. */
module Decimal {

  const MAX_UINT64 := 0xFFFF_FFFF_FFFF_FFFF
  const MIN_INT64 := -0x8000_0000_0000_0000
  const MAX_INT64 := 0x7FFF_FFFF_FFFF_FFFF

  predicate FitsInt64(n: int) {
    MIN_INT64 <= n <= MAX_INT64
  }

  function DigitChar(d: nat): char
    requires d < 10
  {
    '0' + d as char
  }

  predicate IsDigit(c: char) {
    '0' <= c <= '9'
  }

  function PrintNat(n: nat): (s: string)
    ensures s != "" && forall c | c in s :: IsDigit(c)
  {
    if n < 10 then [DigitChar(n)] else PrintNat(n / 10) + [DigitChar(n % 10)]
  }

  /** `Number.prototype.toString` of an integer below 10^21. */
  function PrintInt(n: int): (s: string)
    ensures s != "" && ',' !in s
  {
    if n < 0 then "-" + PrintNat(-n) else PrintNat(n)
  }

  datatype UintResult = Value(n: nat) | NotADigit | TooLarge

  /** The digit loop of `strconv.ParseUint`: the first offending character decides about the error. */
  function ParseUint(s: string, acc: nat): UintResult {
    if s == "" then Value(acc)
    else if !IsDigit(s[0]) then NotADigit
    else
      var n := 10 * acc + (s[0] - '0') as int;
      if n > MAX_UINT64 then TooLarge else ParseUint(s[1..], n)
  }

  /** A failed conversion still returns a number: 0, or the nearest representable one. */
  datatype AtoiResult = Parsed(n: int) | SyntaxError | RangeError(nearest: int)

  /** `strconv.Atoi` with 64-bit `int`. */
  function Atoi(s: string): AtoiResult {
    var negative := s != "" && s[0] == '-';
    var digits := if s != "" && (s[0] == '-' || s[0] == '+') then s[1..] else s;
    if digits == "" then SyntaxError
    else match ParseUint(digits, 0)
      case NotADigit => SyntaxError
      case TooLarge => RangeError(if negative then MIN_INT64 else MAX_INT64)
      case Value(v) =>
        var n := (if negative then -1 else 1) * v;
        if n < MIN_INT64 then RangeError(MIN_INT64)
        else if n > MAX_INT64 then RangeError(MAX_INT64)
        else Parsed(n)
  }

  lemma {:induction false} ParsePrinted(n: nat, rest: string)
    ensures ParseUint(PrintNat(n) + rest, 0) == if n <= MAX_UINT64 then ParseUint(rest, n) else TooLarge
  {
    if n < 10 {
      assert (PrintNat(n) + rest)[1..] == rest;
    } else {
      var tail := [DigitChar(n % 10)] + rest;
      assert PrintNat(n) + rest == PrintNat(n / 10) + tail;
      ParsePrinted(n / 10, tail);
      assert tail[1..] == rest;
    }
  }

  /** Reading back a printed integer gives that integer exactly when it fits into 64 bits. */
  lemma AtoiOfPrinted(n: int)
    ensures Atoi(PrintInt(n)) == if FitsInt64(n) then Parsed(n) else RangeError(if n < 0 then MIN_INT64 else MAX_INT64)
  {
    var v: nat := if n < 0 then -n else n;
    ParsePrinted(v, "");
    assert PrintNat(v) + "" == PrintNat(v);
    if n < 0 {
      assert PrintInt(n)[1..] == PrintNat(v);
    } else {
      assert IsDigit(PrintNat(v)[0]);
    }
  }

  // ------------------------------------------------------- separated lists

  /** `strings.Split(s, ",")`. */
  function Split(s: string): (parts: seq<string>)
    ensures parts != []
  {
    if s == "" then [""]
    else
      var rest := Split(s[1..]);
      if s[0] == ',' then [""] + rest else [[s[0]] + rest[0]] + rest[1..]
  }

  /** `Array.prototype.toString` of elements already printed. */
  function Join(parts: seq<string>): string {
    if parts == [] then ""
    else if |parts| == 1 then parts[0]
    else parts[0] + "," + Join(parts[1..])
  }

  lemma {:induction false} SplitFirst(a: string, rest: string)
    requires ',' !in a
    ensures Split(a) == [a]
    ensures Split(a + "," + rest) == [a] + Split(rest)
  {
    var whole := a + "," + rest;
    if a == "" {
      assert whole[1..] == rest;
    } else {
      SplitFirst(a[1..], rest);
      assert whole[1..] == a[1..] + "," + rest;
      assert a == [a[0]] + a[1..];
    }
  }

  lemma {:induction false} SplitOfJoined(parts: seq<string>)
    requires parts != [] && forall p | p in parts :: ',' !in p
    ensures Split(Join(parts)) == parts
  {
    if |parts| == 1 {
      SplitFirst(parts[0], "");
    } else {
      SplitOfJoined(parts[1..]);
      SplitFirst(parts[0], Join(parts[1..]));
    }
  }

  /** The parts of a text are comma-free, and joining them gives the text back. */
  lemma {:induction false} JoinOfSplit(s: string)
    ensures Join(Split(s)) == s && forall p | p in Split(s) :: ',' !in p
  {
    if s != "" {
      JoinOfSplit(s[1..]);
      var rest := Split(s[1..]);
      if s[0] == ',' {
        assert ([""] + rest)[1..] == rest;
        assert s == "," + s[1..];
      } else {
        assert s == [s[0]] + s[1..];
        var parts := Split(s);
        assert parts[1..] == rest[1..];
        forall p | p in parts
          ensures ',' !in p
        {
          assert p == parts[0] || p in rest[1..];
          assert rest[0] in rest;
        }
      }
    }
  }

  function Pow10(k: nat): nat {
    if k == 0 then 1 else 10 * Pow10(k - 1)
  }

  /** The number a decimal text stands for: each digit times the power of ten of its place. */
  function Worth(s: string): int {
    if s == "" then 0 else (s[0] as int - '0' as int) * Pow10(|s| - 1) + Worth(s[1..])
  }

  lemma {:induction false} WorthOfLonger(s: string, c: char)
    ensures Worth(s + [c]) == 10 * Worth(s) + (c as int - '0' as int)
  {
    if s == "" {
      assert ([c])[1..] == "" && Worth("") == 0 && s + [c] == [c];
    } else {
      WorthOfLonger(s[1..], c);
      assert (s + [c])[1..] == s[1..] + [c];
      var d, p := s[0] as int - '0' as int, Pow10(|s| - 1);
      assert Pow10(|s|) == 10 * p;
      assert d * (10 * p) == 10 * (d * p);
    }
  }

  /** The text of a number is worth that number, and has no leading zero. */
  lemma {:induction false} PrintedWorth(n: nat)
    ensures Worth(PrintNat(n)) == n
    ensures n > 0 ==> PrintNat(n)[0] != '0'
  {
    if n < 10 {
      assert PrintNat(n) == [DigitChar(n)];
      WorthOfLonger("", DigitChar(n));
      assert "" + [DigitChar(n)] == [DigitChar(n)];
    } else {
      PrintedWorth(n / 10);
      WorthOfLonger(PrintNat(n / 10), DigitChar(n % 10));
    }
  }

  predicate AllDigits(s: string) {
    forall c | c in s :: IsDigit(c)
  }

  lemma Product(d: nat, p: nat)
    ensures d * p >= 0
  {
  }

  lemma {:induction false} WorthBounds(s: string)
    requires AllDigits(s)
    ensures Worth(s) >= 0 && Pow10(|s|) >= 1
  {
    if s != "" {
      assert s == [s[0]] + s[1..];
      assert s[0] in s && AllDigits(s[1..]);
      WorthBounds(s[1..]);
      Product((s[0] - '0') as int, Pow10(|s| - 1));
    }
  }

  lemma AppendDigit(acc: nat, d: nat, p: nat, w: nat)
    requires p >= 1
    ensures (10 * acc + d) * p + w == acc * (10 * p) + (d * p + w)
    ensures 10 * acc + d <= (10 * acc + d) * p + w
  {
    assert (10 * acc + d) * p == acc * (10 * p) + d * p;
    assert (10 * acc + d) * (p - 1) >= 0;
  }

  /** The digit loop succeeds exactly for digits whose worth is not too large. */
  lemma {:induction false} ParseUintIff(s: string, acc: nat)
    requires acc <= MAX_UINT64
    ensures ParseUint(s, acc).Value? <==> AllDigits(s) && acc * Pow10(|s|) + Worth(s) <= MAX_UINT64
    ensures ParseUint(s, acc).Value? ==> ParseUint(s, acc).n == acc * Pow10(|s|) + Worth(s)
  {
    if s != "" {
      var rest := s[1..];
      assert s == [s[0]] + rest;
      if IsDigit(s[0]) {
        var d: nat := (s[0] - '0') as int;
        assert AllDigits(s) <==> AllDigits(rest);
        if AllDigits(rest) {
          WorthBounds(rest);
          AppendDigit(acc, d, Pow10(|rest|), Worth(rest));
        }
        if 10 * acc + d <= MAX_UINT64 {
          ParseUintIff(rest, 10 * acc + d);
        }
      }
    }
  }

  /** What `Atoi` reads: an optional sign and at least one digit, and nothing else, if the number fits into
      64 bits. Leading zeros do not matter. */
  lemma AtoiIff(s: string, n: int)
    ensures
      var digits := if s != "" && (s[0] == '-' || s[0] == '+') then s[1..] else s;
      Atoi(s) == Parsed(n) <==>
      digits != "" && AllDigits(digits) && FitsInt64(n)
      && n == if s[0] == '-' then -Worth(digits) else Worth(digits)
  {
    var digits := if s != "" && (s[0] == '-' || s[0] == '+') then s[1..] else s;
    if digits != "" {
      ParseUintIff(digits, 0);
    }
  }
}
