/** Values with physical units: parsing, choosing a prefix, printing. Values are exact reals. */
module Units {
  import opened Wrappers

  datatype PrefixType = NoPrefix | Metric | Exponential

  datatype UnitType = UnitType(displayFormat: string, prefix: PrefixType)

  /** `Units`, in the order of its keys. */
  const FLOPS := UnitType("FLOP/s", Metric)
  const BITS := UnitType("Bit/s", Metric)
  const DEG_C := UnitType("°C", NoPrefix)
  const BYTES := UnitType("B/s", Metric)
  const BYTE := UnitType("B", Metric)
  const PERCENTAGE := UnitType("%", NoPrefix)
  const PACKETS := UnitType("Packet/s", Exponential)
  const WATTS := UnitType("W", Metric)
  const OPS := UnitType("OP/s", Metric)
  const HERTZ := UnitType("Hz", Metric)
  const PLAIN := UnitType("", NoPrefix)

  const UNIT_TYPES: seq<UnitType> := [FLOPS, BITS, DEG_C, BYTES, BYTE, PERCENTAGE, PACKETS, WATTS, OPS, HERTZ, PLAIN]

  datatype Prefix = Kilo | Mega | Giga | Tera | Kibi | Mebi | Gibi | Tebi | Unprefixed

  /** `Prefixes`, in the order of its keys. */
  const PREFIXES: seq<Prefix> := [Kilo, Mega, Giga, Tera, Kibi, Mebi, Gibi, Tebi, Unprefixed]

  function Short(p: Prefix): string {
    match p
    case Kilo => "k" case Mega => "M" case Giga => "G" case Tera => "T"
    case Kibi => "Ki" case Mebi => "Mi" case Gibi => "Gi" case Tebi => "Ti"
    case Unprefixed => ""
  }

  /** Base to the power of the exponent. */
  function Factor(p: Prefix): real {
    match p
    case Kilo => 1000.0
    case Mega => 1_000_000.0
    case Giga => 1_000_000_000.0
    case Tera => 1_000_000_000_000.0
    case Kibi => 1024.0
    case Mebi => 1_048_576.0
    case Gibi => 1_073_741_824.0
    case Tebi => 1_099_511_627_776.0
    case Unprefixed => 1.0
  }

  /** `String.prototype.includes`. */
  predicate Includes(s: string, sub: string) {
    sub <= s || (s != "" && Includes(s[1..], sub))
  }

  function FindType(types: seq<UnitType>, str: string): UnitType {
    if types == [] then PLAIN
    else if Includes(str, types[0].displayFormat) then types[0]
    else FindType(types[1..], str)
  }

  function GetBaseUnit(str: string): UnitType {
    FindType(UNIT_TYPES, str)
  }

  function FindPrefix(ps: seq<Prefix>, str: string, format: string): Prefix {
    if ps == [] then Unprefixed
    else if str == Short(ps[0]) + format then ps[0]
    else FindPrefix(ps[1..], str, format)
  }

  function GetPrefix(str: string, t: UnitType): Prefix {
    if t.prefix.Metric? then FindPrefix(PREFIXES, str, t.displayFormat) else Unprefixed
  }

  datatype Unit = Unit(value: real, unitType: UnitType)

  /** The constructor. */
  function Parse(val: real, unit: string): Unit {
    var base := GetBaseUnit(unit);
    Unit(val * Factor(GetPrefix(unit, base)), base)
  }

  predicate Readable(scaled: real) {
    1.0 <= scaled < 1000.0
  }

  function FindReadable(ps: seq<Prefix>, value: real): Option<Prefix> {
    if ps == [] then None
    else if Readable(value / Factor(ps[0])) then Some(ps[0])
    else FindReadable(ps[1..], value)
  }

  function BestPrefix(u: Unit): Option<Prefix> {
    if Readable(u.value) then Some(Unprefixed)
    else if u.unitType.prefix.Metric? then FindReadable(PREFIXES, u.value)
    else Some(Unprefixed)
  }

  /** Without a best prefix the value is printed as it is. */
  function OrNone(best: Option<Prefix>): Prefix {
    if best.Some? then best.value else Unprefixed
  }

  function UnitText(t: UnitType, best: Option<Prefix>): string {
    if t.prefix.Exponential? then t.displayFormat
    else if best.Some? then Short(best.value) + t.displayFormat
    else t.displayFormat
  }

  /** The number and the unit text that `toString` prints, before rounding the number. */
  function Scaled(u: Unit): real {
    u.value / Factor(OrNone(BestPrefix(u)))
  }

  function PrefixToString(u: Unit): string {
    UnitText(u.unitType, BestPrefix(u))
  }

  /** `toFixed(2)`: the nearest hundredth, the larger one among two. */
  function ToFixed2(x: real): real {
    (100.0 * x + 0.5).Floor as real / 100.0
  }

  // ------------------------------------------------------------- searches

  lemma {:induction false} FindTypeAt(types: seq<UnitType>, str: string, i: nat)
    requires i < |types| && Includes(str, types[i].displayFormat)
    requires forall j | 0 <= j < i :: !Includes(str, types[j].displayFormat)
    ensures FindType(types, str) == types[i]
  {
    if i > 0 {
      FindTypeAt(types[1..], str, i - 1);
    }
  }

  lemma {:induction false} FindPrefixAt(ps: seq<Prefix>, str: string, format: string, i: nat)
    requires i < |ps| && str == Short(ps[i]) + format
    requires forall j | 0 <= j < i :: str != Short(ps[j]) + format
    ensures FindPrefix(ps, str, format) == ps[i]
  {
    if i > 0 {
      FindPrefixAt(ps[1..], str, format, i - 1);
    }
  }

  lemma {:induction false} FindReadableAt(ps: seq<Prefix>, v: real, i: nat)
    requires i <= |ps| && (i < |ps| ==> Readable(v / Factor(ps[i])))
    requires forall j | 0 <= j < i :: !Readable(v / Factor(ps[j]))
    ensures FindReadable(ps, v) == if i < |ps| then Some(ps[i]) else None
  {
    if i > 0 {
      FindReadableAt(ps[1..], v, i - 1);
    }
  }

  lemma {:induction false} IncludesChars(s: string, sub: string, c: char)
    requires Includes(s, sub) && c in sub
    ensures c in s
  {
    if sub <= s {
      assert s[..|sub|] == sub;
    } else {
      IncludesChars(s[1..], sub, c);
    }
  }

  /** What `includes` means. */
  lemma {:induction false} IncludesIff(s: string, sub: string)
    ensures Includes(s, sub) <==> exists k :: 0 <= k <= |s| && sub <= s[k..]
  {
    if sub <= s {
      assert s[0..] == s;
    } else if s != "" {
      IncludesIff(s[1..], sub);
      if k :| 0 <= k <= |s| && sub <= s[k..] {
        assert k > 0 by { assert s[0..] == s; }
        assert s[1..][k - 1..] == s[k..];
      }
      if k :| 0 <= k <= |s[1..]| && sub <= s[1..][k..] {
        assert s[1..][k..] == s[k + 1..];
      }
    } else {
      assert s[0..] == s;
    }
  }

  lemma {:induction false} IncludesSuffix(a: string, sub: string)
    ensures Includes(a + sub, sub)
  {
    if a == "" {
      assert a + sub == sub;
    } else {
      IncludesSuffix(a[1..], sub);
      assert (a + sub)[1..] == a[1..] + sub;
    }
  }

  // ------------------------------------------------------------------ laws

  /** A metric value is shown with a mantissa in [1, 1000) exactly when it lies between 1 and 1000 tebi;
      below 1000 tera the prefix is a decimal one. */
  lemma ReadableIff(u: Unit)
    requires u.unitType.prefix.Metric?
    ensures Readable(Scaled(u)) <==> 1.0 <= u.value < 1000.0 * Factor(Tebi)
    ensures 1.0 <= u.value < 1000.0 * Factor(Tera) ==>
              BestPrefix(u).Some? && BestPrefix(u).value in {Unprefixed, Kilo, Mega, Giga, Tera}
  {
    if !Readable(u.value) {
      PrefixFound(u.value);
    }
  }

  /** A prefix that units of type `t` are printed with. */
  predicate PrefixFits(t: UnitType, p: Prefix) {
    t.prefix.Metric? || p == Unprefixed
  }

  /** A character of the format of type `j` that no prefixed text of the later type `i` has. */
  function Marker(j: nat, i: nat): char {
    match j
    case 0 => 'F' case 1 => if i == 6 then 'B' else 't' case 2 => '°'
    case 3 => if i == 4 then '/' else 'B'
    case 4 => 'B' case 5 => '%' case 6 => 'a' case 7 => 'W' case 8 => 'O' case _ => 'H'
  }

  /** The printed unit is recognised as the type it was printed from, although `includes` also finds short
      formats inside longer ones. */
  lemma BaseUnitOfPrinted(i: nat, p: Prefix)
    requires i < |UNIT_TYPES|
    ensures GetBaseUnit(Short(p) + UNIT_TYPES[i].displayFormat) == UNIT_TYPES[i]
  {
    var str := Short(p) + UNIT_TYPES[i].displayFormat;
    IncludesSuffix(Short(p), UNIT_TYPES[i].displayFormat);
    forall j | 0 <= j < i
      ensures !Includes(str, UNIT_TYPES[j].displayFormat)
    {
      var c := Marker(j, i);
      MarkerWorks(j, i, p);
      if Includes(str, UNIT_TYPES[j].displayFormat) {
        IncludesChars(str, UNIT_TYPES[j].displayFormat, c);
      }
    }
    FindTypeAt(UNIT_TYPES, str, i);
  }

  lemma MarkerWorks(j: nat, i: nat, p: Prefix)
    requires j < i < |UNIT_TYPES|
    ensures Marker(j, i) in UNIT_TYPES[j].displayFormat
    ensures Marker(j, i) !in Short(p) + UNIT_TYPES[i].displayFormat
  {
    MarkerInFormat(j, i);
    MarkerNotInLater(j, i);
    NoMarkerInShort(p, Marker(j, i));
  }

  lemma NoMarkerInShort(p: Prefix, c: char)
    requires c in {'F', 't', '°', '/', 'B', '%', 'a', 'W', 'O', 'H'}
    ensures c !in Short(p)
  {
  }

  lemma MarkerNotInLater(j: nat, i: nat)
    requires j < i < |UNIT_TYPES|
    ensures Marker(j, i) !in UNIT_TYPES[i].displayFormat
  {
    match i {
      case 1 => assert UNIT_TYPES[1].displayFormat == "Bit/s";
      case 2 => assert UNIT_TYPES[2].displayFormat == "°C";
      case 3 => assert UNIT_TYPES[3].displayFormat == "B/s";
      case 4 => assert UNIT_TYPES[4].displayFormat == "B";
      case 5 => assert UNIT_TYPES[5].displayFormat == "%";
      case 6 => assert UNIT_TYPES[6].displayFormat == "Packet/s";
      case 7 => assert UNIT_TYPES[7].displayFormat == "W";
      case 8 => assert UNIT_TYPES[8].displayFormat == "OP/s";
      case 9 => assert UNIT_TYPES[9].displayFormat == "Hz";
      case _ => assert UNIT_TYPES[10].displayFormat == "";
    }
  }

  lemma MarkerInFormat(j: nat, i: nat)
    requires j < i < |UNIT_TYPES|
    ensures Marker(j, i) in UNIT_TYPES[j].displayFormat
  {
    var f := UNIT_TYPES[j].displayFormat;
    match j {
      case 0 => assert f[0] == 'F';
      case 1 => assert f[0] == 'B' && f[2] == 't';
      case 2 => assert f[0] == '°';
      case 3 => assert f[0] == 'B' && f[1] == '/';
      case 4 => assert f[0] == 'B';
      case 5 => assert f[0] == '%';
      case 6 => assert f[1] == 'a';
      case 7 => assert f[0] == 'W';
      case 8 => assert f[0] == 'O';
      case _ => assert f[0] == 'H';
    }
  }

  lemma SameSuffix(a: string, b: string, suffix: string)
    ensures a + suffix == b + suffix ==> a == b
  {
    if a + suffix == b + suffix {
      assert |a| == |b|;
      assert (a + suffix)[..|a|] == a && (b + suffix)[..|b|] == b;
    }
  }

  /** The printed prefix is recognised, too. */
  lemma PrefixOfPrinted(t: UnitType, p: Prefix)
    requires t.prefix.Metric?
    ensures GetPrefix(Short(p) + t.displayFormat, t) == p
  {
    var i := match p
      case Kilo => 0 case Mega => 1 case Giga => 2 case Tera => 3
      case Kibi => 4 case Mebi => 5 case Gibi => 6 case Tebi => 7 case Unprefixed => 8;
    assert PREFIXES[i] == p;
    forall j | 0 <= j < i
      ensures Short(p) + t.displayFormat != Short(PREFIXES[j]) + t.displayFormat
    {
      assert Short(p) != Short(PREFIXES[j]);
      SameSuffix(Short(p), Short(PREFIXES[j]), t.displayFormat);
    }
    FindPrefixAt(PREFIXES, Short(p) + t.displayFormat, t.displayFormat, i);
  }

  /** Type and prefix are recognised in the printed unit. */
  lemma PrintedUnitRecognised(t: UnitType, best: Option<Prefix>)
    requires t in UNIT_TYPES && PrefixFits(t, OrNone(best))
    ensures GetBaseUnit(UnitText(t, best)) == t
    ensures GetPrefix(UnitText(t, best), t) == OrNone(best)
  {
    var i :| 0 <= i < |UNIT_TYPES| && UNIT_TYPES[i] == t;
    assert UnitText(t, best) == Short(OrNone(best)) + t.displayFormat;
    BaseUnitOfPrinted(i, OrNone(best));
    if t.prefix.Metric? {
      PrefixOfPrinted(t, OrNone(best));
    }
  }

  lemma Cancel(v: real, p: Prefix)
    ensures v / Factor(p) * Factor(p) == v
  {
  }

  lemma ParsedAs(x: real, str: string, t: UnitType, p: Prefix)
    requires GetBaseUnit(str) == t && GetPrefix(str, t) == p
    ensures Parse(x, str).value == x * Factor(p) && Parse(x, str).unitType == t
  {
  }

  lemma ParseUndoes(v: real, str: string, t: UnitType, p: Prefix)
    requires GetBaseUnit(str) == t && GetPrefix(str, t) == p
    ensures Parse(v / Factor(p), str) == Unit(v, t)
  {
    ParsedAs(v / Factor(p), str, t, p);
    Cancel(v, p);
  }

  /** Whichever prefix is used for printing, it is undone by parsing. */
  lemma ScaleParse(v: real, t: UnitType, best: Option<Prefix>)
    requires t in UNIT_TYPES && PrefixFits(t, OrNone(best))
    ensures Parse(v / Factor(OrNone(best)), UnitText(t, best)) == Unit(v, t)
  {
    PrintedUnitRecognised(t, best);
    ParseUndoes(v, UnitText(t, best), t, OrNone(best));
  }

  lemma ParseOf(x: real, t: UnitType, p: Prefix)
    requires t in UNIT_TYPES && t.prefix.Metric?
    ensures Parse(x, Short(p) + t.displayFormat) == Unit(x * Factor(p), t)
  {
    PrintedUnitRecognised(t, Some(p));
    ParsedAs(x, Short(p) + t.displayFormat, t, p);
  }

  /** What the prefixes of a metric unit mean when they are read. */
  lemma PrefixesRead(x: real, t: UnitType)
    requires t in UNIT_TYPES && t.prefix.Metric?
    ensures Parse(x, "k" + t.displayFormat) == Unit(x * 1_000.0, t)
    ensures Parse(x, "M" + t.displayFormat) == Unit(x * 1_000_000.0, t)
    ensures Parse(x, "G" + t.displayFormat) == Unit(x * 1_000_000_000.0, t)
    ensures Parse(x, "T" + t.displayFormat) == Unit(x * 1_000_000_000_000.0, t)
  {
    ParseOf(x, t, Kilo);
    ParseOf(x, t, Mega);
    ParseOf(x, t, Giga);
    ParseOf(x, t, Tera);
  }

  lemma BinaryPrefixesRead(x: real, t: UnitType)
    requires t in UNIT_TYPES && t.prefix.Metric?
    ensures Parse(x, "Ki" + t.displayFormat) == Unit(x * 1024.0, t)
    ensures Parse(x, "Mi" + t.displayFormat) == Unit(x * (1024.0 * 1024.0), t)
    ensures Parse(x, "Gi" + t.displayFormat) == Unit(x * (1024.0 * 1024.0 * 1024.0), t)
    ensures Parse(x, "Ti" + t.displayFormat) == Unit(x * (1024.0 * 1024.0 * 1024.0 * 1024.0), t)
    ensures Parse(x, t.displayFormat) == Unit(x, t)
  {
    ParseOf(x, t, Kibi);
    ParseOf(x, t, Mebi);
    ParseOf(x, t, Gibi);
    ParseOf(x, t, Tebi);
    ParseOf(x, t, Unprefixed);
    assert "" + t.displayFormat == t.displayFormat;
  }

  /** Which prefix is found for a value outside [1, 1000). */
  lemma PrefixFound(v: real)
    requires !Readable(v)
    ensures FindReadable(PREFIXES, v) ==
            if v < 1_000.0 then None
            else if v < 1_000_000.0 then Some(Kilo)
            else if v < 1_000_000_000.0 then Some(Mega)
            else if v < 1_000_000_000_000.0 then Some(Giga)
            else if v < 1_000_000_000_000_000.0 then Some(Tera)
            else if v < 1_099_511_627_776_000.0 then Some(Tebi)
            else None
  {
    var i := if v < 1_000.0 then 9
             else if v < 1_000_000.0 then 0
             else if v < 1_000_000_000.0 then 1
             else if v < 1_000_000_000_000.0 then 2
             else if v < 1_000_000_000_000_000.0 then 3
             else if v < 1_099_511_627_776_000.0 then 7
             else 9;
    FindReadableAt(PREFIXES, v, i);
  }

  lemma NoPrefixPrinted(t: UnitType, best: Option<Prefix>)
    requires OrNone(best) == Unprefixed
    ensures UnitText(t, best) == t.displayFormat
  {
    assert "" + t.displayFormat == t.displayFormat;
  }

  /** What is printed, number before rounding and unit: metric values from 1000 on with the first of k, M, G, T
      that makes them less than 1000, or with Ti up to 1000 tebi; all other values as they are. */
  lemma WhatIsPrinted(u: Unit)
    ensures
      var v, format := u.value, u.unitType.displayFormat;
      (Scaled(u), PrefixToString(u)) ==
      if !u.unitType.prefix.Metric? || v < 1_000.0 then (v, format)
      else if v < 1_000_000.0 then (v / 1_000.0, "k" + format)
      else if v < 1_000_000_000.0 then (v / 1_000_000.0, "M" + format)
      else if v < 1_000_000_000_000.0 then (v / 1_000_000_000.0, "G" + format)
      else if v < 1_000_000_000_000_000.0 then (v / 1_000_000_000_000.0, "T" + format)
      else if v < 1_099_511_627_776_000.0 then (v / 1_099_511_627_776.0, "Ti" + format)
      else (v, format)
  {
    if !Readable(u.value) {
      PrefixFound(u.value);
    }
    if OrNone(BestPrefix(u)) == Unprefixed {
      NoPrefixPrinted(u.unitType, BestPrefix(u));
    }
  }

  /** Whatever its value and unit, a quantity read back from its scaled number and printed unit is the same
      quantity of the same type. */
  lemma PrintParseRoundTrip(u: Unit)
    requires u.unitType in UNIT_TYPES
    ensures Parse(Scaled(u), PrefixToString(u)) == u
  {
    ScaleParse(u.value, u.unitType, BestPrefix(u));
  }

  /** The printed number has two decimals and is the nearest such number, the larger one of two. */
  lemma RoundingError(x: real) returns (hundredths: int)
    ensures 100.0 * ToFixed2(x) == hundredths as real
    ensures x - 0.005 < ToFixed2(x) <= x + 0.005
  {
    hundredths := (100.0 * x + 0.5).Floor;
  }

  /** What is printed with two decimals stands for a value that differs from the exact one by at most a
      two-hundredth of it. */
  lemma RoundingIsRelativelySmall(u: Unit)
    requires u.unitType.prefix.Metric? && 1.0 <= u.value < 1000.0 * Factor(Tebi)
    ensures
      var printed := ToFixed2(Scaled(u)) * Factor(OrNone(BestPrefix(u)));
      u.value - u.value / 200.0 <= printed <= u.value + u.value / 200.0
  {
    var x, f := Scaled(u), Factor(OrNone(BestPrefix(u)));
    ReadableIff(u);
    Cancel(u.value, OrNone(BestPrefix(u)));
    var _ := RoundingError(x);
    ScaleBounds(x, ToFixed2(x), f);
  }

  lemma ScaleBounds(x: real, y: real, f: real)
    requires x >= 1.0 && f >= 1.0 && x - 0.005 <= y <= x + 0.005
    ensures x * f - x * f / 200.0 <= y * f <= x * f + x * f / 200.0
  {
    assert x - x / 200.0 <= y <= x + x / 200.0;
    MulMono(x - x / 200.0, y, f);
    MulMono(y, x + x / 200.0, f);
    assert (x - x / 200.0) * f == x * f - x * f / 200.0;
    assert (x + x / 200.0) * f == x * f + x * f / 200.0;
  }

  lemma MulMono(a: real, b: real, f: real)
    requires a <= b && f >= 0.0
    ensures a * f <= b * f
  {
    assert (b - a) * f >= 0.0;
  }

  /** The two decimals can still show 1000: exactly when the mantissa is 999.995 or more. */
  lemma MantissaRoundsUpIff(u: Unit)
    requires u.unitType.prefix.Metric? && Readable(Scaled(u))
    ensures ToFixed2(Scaled(u)) == 1000.0 <==> Scaled(u) >= 999.995
  {
  }
}
