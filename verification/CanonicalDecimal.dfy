/** Canonical decimal text: a bounded parser and printer whose string equality
    stands for numeric equality.

    The Unicode character tables are a parameter: `str.isdigit` accepts more than
    the ASCII digits, and the leading-zero rule sees only the ASCII zero. */
module CanonicalDecimal {
  import opened Options

  /** `isDigit` is str.isdigit on one character; `decimal` the ASCII digit of the
      same value, for characters Decimal reads (superscripts are digits without). */
  datatype Unicode = Unicode(isSpace: char -> bool, isDigit: char -> bool, decimal: char -> Option<char>)

  predicate AsciiDigit(c: char) { '0' <= c <= '9' }

  /** What any version of the tables satisfies. */
  ghost predicate Sensible(u: Unicode) {
    && (forall c :: u.decimal(c).Some? ==> u.isDigit(c) && AsciiDigit(u.decimal(c).value))
    && (forall c :: AsciiDigit(c) ==> u.isDigit(c) && u.decimal(c) == Some(c) && !u.isSpace(c))
    && !u.isDigit('-') && !u.isDigit('.') && !u.isDigit('+')
    && !u.isSpace('-') && !u.isSpace('.')
  }

  // ---------- numbers and digits ----------

  function DigitOf(c: char): int {
    if AsciiDigit(c) then c as int - '0' as int else 0
  }

  function CharOf(d: int): char
    requires 0 <= d < 10
  {
    ('0' as int + d) as char
  }

  /** The number a digit string spells. */
  function ValueOf(ds: string): int {
    if ds == "" then 0 else ValueOf(ds[..|ds| - 1]) * 10 + DigitOf(ds[|ds| - 1])
  }

  /** Shortest decimal digits. */
  function ToDigits(n: int): string
    requires 0 <= n
    decreases n
  {
    if n < 10 then [CharOf(n)] else ToDigits(n / 10) + [CharOf(n % 10)]
  }

  /** What is left of `n` without its last `width` digits. */
  function Whole(n: int, width: nat): (r: int)
    requires 0 <= n
    ensures 0 <= r
    decreases width
  {
    if width == 0 then n else Whole(n / 10, width - 1)
  }

  /** The last `width` digits of `n`. */
  function Fixed(n: int, width: nat): string
    requires 0 <= n
    decreases width
  {
    if width == 0 then "" else Fixed(n / 10, width - 1) + [CharOf(n % 10)]
  }

  /** `n` with `k` zeros appended. */
  function Scale(n: int, k: nat): int
    decreases k
  {
    if k == 0 then n else Scale(n * 10, k - 1)
  }

  /** `x` with its point moved `k` places to the left. */
  function Shift(x: real, k: nat): real
    decreases k
  {
    if k == 0 then x else Shift(x / 10.0, k - 1)
  }

  // ---------- strings ----------

  function LStrip(u: Unicode, s: string): string {
    if s != "" && u.isSpace(s[0]) then LStrip(u, s[1..]) else s
  }

  function RStripSpace(u: Unicode, s: string): string {
    if s != "" && u.isSpace(s[|s| - 1]) then RStripSpace(u, s[..|s| - 1]) else s
  }

  /** str.strip. */
  function Strip(u: Unicode, s: string): string {
    RStripSpace(u, LStrip(u, s))
  }

  /** str.rstrip of one character. */
  function RStrip(s: string, c: char): string {
    if s != "" && s[|s| - 1] == c then RStrip(s[..|s| - 1], c) else s
  }

  /** str.partition on ".": what is before, and what is after if there is a point. */
  function Partition(s: string): (string, Option<string>) {
    if s == "" then ("", None)
    else if s[0] == '.' then ("", Some(s[1..]))
    else var (before, after) := Partition(s[1..]); ([s[0]] + before, after)
  }

  predicate IsDigitText(u: Unicode, s: string) {
    s != "" && forall i :: 0 <= i < |s| ==> u.isDigit(s[i])
  }

  /** The digits Decimal reads; None when some character has no decimal value. */
  function Decimals(u: Unicode, s: string): (r: Option<string>)
    ensures r.Some? ==> |r.value| == |s|
  {
    if s == "" then Some("")
    else
      match Decimals(u, s[..|s| - 1])
      case None => None
      case Some(ds) => if u.decimal(s[|s| - 1]).None? then None else Some(ds + [u.decimal(s[|s| - 1]).value])
  }

  // ---------- the function ----------

  /** A parsed text: sign, digits before the point, digits after it. */
  datatype Parsed = Parsed(negative: bool, integer: string, fraction: string)

  /** The checks and the Decimal constructor; None is ValueError. */
  function Parse(u: Unicode, value: string, maxInteger: nat, maxPlaces: nat): Option<Parsed> {
    ParseStripped(u, Strip(u, value), maxInteger, maxPlaces)
  }

  function ParseStripped(u: Unicode, text: string, maxInteger: nat, maxPlaces: nat): Option<Parsed> {
    var negative := text != "" && text[0] == '-';
    var (integer, fraction) := Partition(if negative then text[1..] else text);
    if text == "" || text[0] == '+' then None
    else ParseParts(u, negative, integer, fraction, maxInteger, maxPlaces)
  }

  function ParseParts(u: Unicode, negative: bool, integer: string, fraction: Option<string>,
                      maxInteger: nat, maxPlaces: nat): (r: Option<Parsed>)
    ensures r.Some? ==> 1 <= |r.value.integer| <= maxInteger && |r.value.fraction| <= maxPlaces
  {
    if !IsDigitText(u, integer) then None
    else if |integer| > 1 && integer[0] == '0' then None
    else if |integer| > maxInteger then None
    else if fraction.Some? && (!IsDigitText(u, fraction.value) || |fraction.value| > maxPlaces) then None
    else
      var whole := Decimals(u, integer);
      var places := if fraction.Some? then Decimals(u, fraction.value) else Some("");
      if whole.None? || places.None? then None else Some(Parsed(negative, whole.value, places.value))
  }

  function Signed(negative: bool, s: string): string {
    if negative then "-" + s else s
  }

  /** The unscaled integer of the decimal. */
  function Coefficient(p: Parsed): (n: int)
    ensures 0 <= n
  {
    NonNegative(p.integer + p.fraction);
    ValueOf(p.integer + p.fraction)
  }

  /** format(number, "f"): no exponent, as many places as were given. */
  function Format(p: Parsed): string {
    var n, f := Coefficient(p), |p.fraction|;
    Signed(p.negative, ToDigits(Whole(n, f)) + (if f == 0 then "" else "." + Fixed(n, f)))
  }

  /** The formatted number without trailing zeros, bare point or negative zero. */
  function Trimmed(p: Parsed): string {
    var formatted := Format(p);
    var trimmed := if '.' in formatted then RStrip(RStrip(formatted, '0'), '.') else formatted;
    if trimmed == "-0" || trimmed == "" then "0" else trimmed
  }

  function Canonical(u: Unicode, value: string, maxInteger: nat, maxPlaces: nat): Option<string> {
    match Parse(u, value, maxInteger, maxPlaces)
    case None => None
    case Some(p) => Some(Trimmed(p))
  }

  // ---------- what a text denotes ----------

  /** The number, as a real. */
  function Number(p: Parsed): real {
    var magnitude := Shift(Coefficient(p) as real, |p.fraction|);
    if p.negative then -magnitude else magnitude
  }

  /** The number in units of the last permitted place. */
  function Units(p: Parsed, places: nat): int
    requires |p.fraction| <= places
  {
    var magnitude := Scale(Coefficient(p), places - |p.fraction|);
    if p.negative then -magnitude else magnitude
  }

  // ---------- arithmetic ----------

  lemma {:induction false} NonNegative(ds: string)
    ensures 0 <= ValueOf(ds)
  {
    if ds != "" {
      NonNegative(ds[..|ds| - 1]);
    }
  }

  lemma {:induction false} ScaleOut(n: int, k: nat)
    ensures Scale(n, k + 1) == Scale(n, k) * 10
    decreases k
  {
    if k > 0 {
      ScaleOut(n * 10, k - 1);
    }
  }

  lemma {:induction false} ScaleAdd(n: int, a: nat, b: nat)
    ensures Scale(Scale(n, a), b) == Scale(n, a + b)
    decreases a
  {
    if a > 0 {
      ScaleAdd(n * 10, a - 1, b);
    }
  }

  lemma {:induction false} ScaleSum(m: int, n: int, k: nat)
    ensures Scale(m + n, k) == Scale(m, k) + Scale(n, k)
    decreases k
  {
    if k > 0 {
      ScaleSum(m * 10, n * 10, k - 1);
    }
  }

  lemma {:induction false} ScaleGrows(m: int, n: int, k: nat)
    requires m < n
    ensures Scale(m, k) < Scale(n, k)
    decreases k
  {
    if k > 0 {
      ScaleGrows(m * 10, n * 10, k - 1);
    }
  }

  lemma {:induction false} ScaleZero(k: nat)
    ensures Scale(0, k) == 0
  {
    if k > 0 {
      ScaleZero(k - 1);
    }
  }

  lemma {:induction false} ScaleShift(n: int, k: nat, f: nat)
    ensures Shift(Scale(n, k) as real, f + k) == Shift(n as real, f)
    decreases k
  {
    if k > 0 {
      ScaleShift(n * 10, k - 1, f + 1);
      assert (n * 10) as real / 10.0 == n as real;
    }
  }

  lemma {:induction false} ShiftNegates(x: real, k: nat)
    ensures Shift(-x, k) == -Shift(x, k)
    decreases k
  {
    if k > 0 {
      ShiftNegates(x / 10.0, k - 1);
      assert (-x) / 10.0 == -(x / 10.0);
    }
  }

  lemma {:induction false} ShiftInjective(x: real, y: real, k: nat)
    requires Shift(x, k) == Shift(y, k)
    ensures x == y
    decreases k
  {
    if k > 0 {
      ShiftInjective(x / 10.0, y / 10.0, k - 1);
    }
  }

  lemma NumberInUnits(p: Parsed, places: nat)
    requires |p.fraction| <= places
    ensures Number(p) == Shift(Units(p, places) as real, places)
  {
    ScaleShift(Coefficient(p), places - |p.fraction|, |p.fraction|);
    ShiftNegates(Scale(Coefficient(p), places - |p.fraction|) as real, places);
  }

  /** Two texts denote one number exactly when their units agree. */
  lemma SameNumber(p: Parsed, q: Parsed, places: nat)
    requires |p.fraction| <= places && |q.fraction| <= places
    ensures Number(p) == Number(q) <==> Units(p, places) == Units(q, places)
  {
    NumberInUnits(p, places);
    NumberInUnits(q, places);
    if Number(p) == Number(q) {
      ShiftInjective(Units(p, places) as real, Units(q, places) as real, places);
    }
  }

  // ---------- digit strings ----------

  predicate AllAscii(s: string) {
    forall i :: 0 <= i < |s| ==> AsciiDigit(s[i])
  }

  lemma {:induction false} DigitsShape(n: int)
    requires 0 <= n
    ensures ToDigits(n) != "" && AllAscii(ToDigits(n))
    ensures |ToDigits(n)| > 1 ==> ToDigits(n)[0] != '0'
    ensures ValueOf(ToDigits(n)) == n
    decreases n
  {
    if n >= 10 {
      DigitsShape(n / 10);
      assert (ToDigits(n / 10) + [CharOf(n % 10)])[..|ToDigits(n / 10)|] == ToDigits(n / 10);
    } else {
      assert [CharOf(n)][..0] == "";
    }
  }

  lemma {:induction false} FixedShape(n: int, width: nat)
    requires 0 <= n
    ensures |Fixed(n, width)| == width && AllAscii(Fixed(n, width))
    decreases width
  {
    if width > 0 {
      FixedShape(n / 10, width - 1);
    }
  }

  /** Cutting a number into two parts loses nothing. */
  lemma {:induction false} CutValue(n: int, width: nat)
    requires 0 <= n
    ensures Scale(Whole(n, width), width) + ValueOf(Fixed(n, width)) == n
    decreases width
  {
    if width > 0 {
      CutValue(n / 10, width - 1);
      FixedShape(n / 10, width - 1);
      var head := Fixed(n / 10, width - 1);
      assert (head + [CharOf(n % 10)])[..width - 1] == head;
      ScaleOut(Whole(n, width), width - 1);
    }
  }

  lemma {:induction false} StripShape(ds: string)
    ensures |RStrip(ds, '0')| <= |ds| && RStrip(ds, '0') == ds[..|RStrip(ds, '0')|]
    ensures RStrip(ds, '0') != "" ==> RStrip(ds, '0')[|RStrip(ds, '0')| - 1] != '0'
    ensures ValueOf(ds) == Scale(ValueOf(RStrip(ds, '0')), |ds| - |RStrip(ds, '0')|)
  {
    if ds != "" && ds[|ds| - 1] == '0' {
      var head := ds[..|ds| - 1];
      StripShape(head);
      ScaleOut(ValueOf(RStrip(head, '0')), |head| - |RStrip(head, '0')|);
    }
  }

  lemma {:induction false} ValueBound(ds: string)
    ensures ValueOf(ds) < Scale(1, |ds|)
  {
    if ds != "" {
      ValueBound(ds[..|ds| - 1]);
      ScaleOut(1, |ds| - 1);
    }
  }

  lemma {:induction false} ShortDigits(n: int, width: nat)
    requires 0 <= n < Scale(1, width) && width >= 1
    ensures |ToDigits(n)| <= width
    decreases width
  {
    if n >= 10 {
      ScaleOut(1, width - 1);
      if width > 1 {
        ShortDigits(n / 10, width - 1);
      }
    }
  }

  lemma {:induction false} ValueJoin(a: string, b: string)
    ensures ValueOf(a + b) == Scale(ValueOf(a), |b|) + ValueOf(b)
  {
    if b == "" {
      assert a + b == a;
    } else {
      var n := |b| - 1;
      assert (a + b)[..|a + b| - 1] == a + b[..n];
      ValueJoin(a, b[..n]);
      ScaleOut(ValueOf(a), n);
    }
  }

  /** Cutting off the last `width` digits bounds what is left. */
  lemma {:induction false} WholeBound(n: int, width: nat, bound: int)
    requires 0 <= n < Scale(bound, width)
    ensures Whole(n, width) < bound
    decreases width
  {
    if width > 0 {
      ScaleOut(bound, width - 1);
      WholeBound(n / 10, width - 1, bound);
    }
  }

  // ---------- the printer as a function of the number ----------

  /** Point and places. */
  function Tail(places: string): string {
    if places == "" then "" else "." + places
  }

  /** Places without trailing zeros. */
  function Places(n: int, f: nat): string
    requires 0 <= n
  {
    RStrip(Fixed(n, f), '0')
  }

  function Unsigned(n: int, f: nat): string
    requires 0 <= n
  {
    ToDigits(Whole(n, f)) + Tail(Places(n, f))
  }

  function Magnitude(units: int): (m: int)
    ensures 0 <= m
  {
    if units < 0 then -units else units
  }

  /** The canonical text of `units / 10^places`. */
  function PrintUnits(units: int, places: nat): string {
    Signed(units < 0, Unsigned(Magnitude(units), places))
  }

  /** One more place, one more zero, the same parts. */
  lemma PartsShift(n: int, f: nat)
    requires 0 <= n
    ensures Whole(n * 10, f + 1) == Whole(n, f)
    ensures Places(n * 10, f + 1) == Places(n, f)
  {
    assert (n * 10) / 10 == n && (n * 10) % 10 == 0;
    FixedShape(n, f);
    assert Fixed(n * 10, f + 1) == Fixed(n, f) + "0";
    assert (Fixed(n, f) + "0")[..f] == Fixed(n, f);
  }

  lemma {:induction false} PartsScale(n: int, f: nat, k: nat)
    requires 0 <= n
    ensures 0 <= Scale(n, k)
    ensures Whole(Scale(n, k), f + k) == Whole(n, f)
    ensures Places(Scale(n, k), f + k) == Places(n, f)
    decreases k
  {
    if k > 0 {
      PartsScale(n * 10, f + 1, k - 1);
      PartsShift(n, f);
    }
  }

  lemma Join(a: string, b: string, c: string)
    ensures a + b + c == a + (b + c)
  {
  }

  lemma LastOf(a: string, b: string)
    requires b != ""
    ensures (a + b)[|a + b| - 1] == b[|b| - 1]
  {
  }

  lemma RStripStops(s: string, c: char)
    requires s != "" && s[|s| - 1] != c
    ensures RStrip(s, c) == s
  {
  }

  lemma {:induction false} RStripAfter(head: string, ds: string)
    requires head != "" && head[|head| - 1] != '0'
    ensures RStrip(head + ds, '0') == head + RStrip(ds, '0')
  {
    if ds == "" {
      assert head + ds == head;
    } else {
      LastOf(head, ds);
      if ds[|ds| - 1] == '0' {
        assert (head + ds)[..|head + ds| - 1] == head + ds[..|ds| - 1];
        RStripAfter(head, ds[..|ds| - 1]);
      }
    }
  }

  lemma DropPoint(head: string)
    requires head != "" && head[|head| - 1] != '.'
    ensures RStrip(head + ".", '.') == head
  {
    assert (head + ".")[..|head|] == head;
    RStripStops(head, '.');
  }

  lemma KeepPoint(head: string, places: string)
    requires places != "" && places[|places| - 1] != '.'
    ensures RStrip(head + "." + places, '.') == head + ("." + places)
  {
    Join(head, ".", places);
    LastOf(head + ".", places);
    RStripStops(head + "." + places, '.');
  }

  /** The two rstrip calls on a formatted number with a point. */
  lemma TrimPoint(head: string, ds: string)
    requires head != "" && head[|head| - 1] != '.' && AllAscii(ds)
    ensures RStrip(RStrip(head + "." + ds, '0'), '.') == head + Tail(RStrip(ds, '0'))
  {
    LastOf(head, ".");
    RStripAfter(head + ".", ds);
    StripShape(ds);
    var places := RStrip(ds, '0');
    if places == "" {
      DropPoint(head);
    } else {
      KeepPoint(head, places);
    }
  }

  lemma SignedJoin(negative: bool, a: string, b: string)
    ensures Signed(negative, a + b) == Signed(negative, a) + b
  {
    Join("-", a, b);
  }

  lemma SignedEnd(negative: bool, whole: string)
    requires whole != ""
    ensures Signed(negative, whole) != "" && Signed(negative, whole)[|Signed(negative, whole)| - 1] == whole[|whole| - 1]
  {
    LastOf("-", whole);
  }

  lemma HasPoint(head: string, places: string)
    ensures '.' in head + "." + places
  {
    assert (head + "." + places)[|head|] == '.';
  }

  lemma PointForm(negative: bool, whole: string, ds: string)
    requires whole != "" && whole[|whole| - 1] != '.' && AllAscii(ds)
    ensures var text := Signed(negative, whole + ("." + ds));
            '.' in text && RStrip(RStrip(text, '0'), '.') == Signed(negative, whole + Tail(RStrip(ds, '0')))
  {
    var head := Signed(negative, whole);
    SignedEnd(negative, whole);
    SignedJoin(negative, whole, "." + ds);
    Join(head, ".", ds);
    HasPoint(head, ds);
    TrimPoint(head, ds);
    SignedJoin(negative, whole, Tail(RStrip(ds, '0')));
  }

  lemma NoPoint(negative: bool, whole: string)
    requires AllAscii(whole)
    ensures '.' !in Signed(negative, whole)
  {
  }

  /** The formatted text after the trailing zeros and the bare point are gone. */
  lemma FormatTrimmed(p: Parsed)
    ensures (if '.' in Format(p) then RStrip(RStrip(Format(p), '0'), '.') else Format(p))
            == Signed(p.negative, Unsigned(Coefficient(p), |p.fraction|))
  {
    var n, f := Coefficient(p), |p.fraction|;
    var whole := ToDigits(Whole(n, f));
    DigitsShape(Whole(n, f));
    if f == 0 {
      assert whole + "" == whole;
      NoPoint(p.negative, whole);
    } else {
      FixedShape(n, f);
      PointForm(p.negative, whole, Fixed(n, f));
    }
  }

  lemma {:induction false} ZeroFixed(f: nat)
    ensures Places(0, f) == "" && Whole(0, f) == 0
  {
    if f > 0 {
      ZeroFixed(f - 1);
      PartsShift(0, f - 1);
    }
  }

  lemma PartsOfZero(n: int, f: nat)
    requires 0 <= n && ToDigits(Whole(n, f)) == "0" && Places(n, f) == ""
    ensures n == 0
  {
    DigitsShape(Whole(n, f));
    assert "0"[..0] == "";
    assert ValueOf("0") == 0;
    CutValue(n, f);
    StripShape(Fixed(n, f));
    ScaleZero(f);
    ScaleZero(|Fixed(n, f)|);
  }

  lemma OneCharacter(whole: string, places: string)
    requires whole != "" && whole + Tail(places) == "0"
    ensures whole == "0" && places == ""
  {
    var text := whole + Tail(places);
    assert |text| == |whole| + |Tail(places)|;
    assert text[0] == whole[0];
  }

  /** Zero prints as "0", and nothing else does. */
  lemma ZeroPrints(n: int, f: nat)
    requires 0 <= n
    ensures Unsigned(n, f) == "0" <==> n == 0
  {
    ZeroFixed(f);
    DigitsShape(Whole(n, f));
    if Unsigned(n, f) == "0" {
      OneCharacter(ToDigits(Whole(n, f)), Places(n, f));
      PartsOfZero(n, f);
    }
  }

  /** Only the sign of zero is dropped. */
  lemma SignOfZero(negative: bool, text: string)
    requires text != "" && text[0] != '-'
    ensures var signed := Signed(negative, text);
            (if signed == "-0" || signed == "" then "0" else signed) == Signed(negative && text != "0", text)
  {
    assert ("-" + text)[1..] == text;
    assert "-0"[1..] == "0";
  }

  lemma UnsignedStarts(n: int, f: nat)
    requires 0 <= n
    ensures Unsigned(n, f) != "" && AsciiDigit(Unsigned(n, f)[0])
  {
    DigitsShape(Whole(n, f));
    assert Unsigned(n, f)[0] == ToDigits(Whole(n, f))[0];
  }

  lemma TrimmedIs(p: Parsed)
    ensures Trimmed(p) == Signed(p.negative && Coefficient(p) != 0, Unsigned(Coefficient(p), |p.fraction|))
  {
    var n, f := Coefficient(p), |p.fraction|;
    FormatTrimmed(p);
    ZeroPrints(n, f);
    UnsignedStarts(n, f);
    SignOfZero(p.negative, Unsigned(n, f));
  }

  lemma UnsignedScales(n: int, f: nat, places: nat)
    requires 0 <= n && f <= places
    ensures 0 <= Scale(n, places - f) && Unsigned(Scale(n, places - f), places) == Unsigned(n, f)
  {
    PartsScale(n, f, places - f);
  }

  lemma ScaleSign(n: int, k: nat)
    requires 0 <= n
    ensures 0 <= Scale(n, k) && (Scale(n, k) == 0 <==> n == 0)
  {
    ScaleZero(k);
    if n > 0 {
      ScaleGrows(0, n, k);
    }
  }

  lemma UnitsMagnitude(p: Parsed, places: nat)
    requires |p.fraction| <= places
    ensures Magnitude(Units(p, places)) == Scale(Coefficient(p), places - |p.fraction|)
    ensures Units(p, places) < 0 <==> p.negative && Coefficient(p) != 0
  {
    ScaleSign(Coefficient(p), places - |p.fraction|);
  }

  lemma PrintOfScaled(units: int, n: int, f: nat, places: nat)
    requires 0 <= n && f <= places && Magnitude(units) == Scale(n, places - f)
    ensures PrintUnits(units, places) == Signed(units < 0, Unsigned(n, f))
  {
    UnsignedScales(n, f, places);
  }

  lemma PrintOfUnits(p: Parsed, places: nat)
    requires |p.fraction| <= places
    ensures PrintUnits(Units(p, places), places)
            == Signed(p.negative && Coefficient(p) != 0, Unsigned(Coefficient(p), |p.fraction|))
  {
    UnitsMagnitude(p, places);
    PrintOfScaled(Units(p, places), Coefficient(p), |p.fraction|, places);
  }

  /** The output is the canonical text of the number, whatever the input looked like. */
  lemma PrintsItsUnits(p: Parsed, maxPlaces: nat)
    requires |p.fraction| <= maxPlaces
    ensures Trimmed(p) == PrintUnits(Units(p, maxPlaces), maxPlaces)
  {
    TrimmedIs(p);
    PrintOfUnits(p, maxPlaces);
  }

  // ---------- reading the output back ----------

  lemma {:induction false} PartitionDigits(s: string)
    requires AllAscii(s)
    ensures Partition(s) == (s, None)
  {
    if s != "" {
      PartitionDigits(s[1..]);
      assert s == [s[0]] + s[1..];
    }
  }

  lemma {:induction false} PartitionAtPoint(s: string, rest: string)
    requires AllAscii(s)
    ensures Partition(s + ("." + rest)) == (s, Some(rest))
  {
    var whole := s + ("." + rest);
    if s != "" {
      assert whole[0] == s[0];
      PartitionAtPoint(s[1..], rest);
      assert whole[1..] == s[1..] + ("." + rest);
      assert s == [s[0]] + s[1..];
    } else {
      assert whole[0] == '.' && whole[1..] == rest;
    }
  }

  lemma PartitionPrinted(whole: string, places: string)
    requires AllAscii(whole)
    ensures Partition(whole + Tail(places)) == (whole, if places == "" then None else Some(places))
  {
    if places == "" {
      assert whole + "" == whole;
      PartitionDigits(whole);
    } else {
      PartitionAtPoint(whole, places);
    }
  }

  lemma {:induction false} DecimalsOfAscii(u: Unicode, ds: string)
    requires Sensible(u) && AllAscii(ds)
    ensures Decimals(u, ds) == Some(ds)
  {
    if ds != "" {
      DecimalsOfAscii(u, ds[..|ds| - 1]);
      assert ds == ds[..|ds| - 1] + [ds[|ds| - 1]];
    }
  }

  lemma PartsParse(u: Unicode, negative: bool, whole: string, places: string, maxInteger: nat, maxPlaces: nat)
    requires Sensible(u) && AllAscii(whole) && AllAscii(places)
    requires 1 <= |whole| <= maxInteger && (|whole| > 1 ==> whole[0] != '0') && |places| <= maxPlaces
    ensures ParseParts(u, negative, whole, if places == "" then None else Some(places), maxInteger, maxPlaces)
            == Some(Parsed(negative, whole, places))
  {
    DecimalsOfAscii(u, whole);
    DecimalsOfAscii(u, places);
  }

  lemma StripIdle(u: Unicode, s: string)
    requires s != "" && !u.isSpace(s[0]) && !u.isSpace(s[|s| - 1])
    ensures Strip(u, s) == s
  {
  }

  lemma PrintedEnds(negative: bool, whole: string, places: string)
    requires whole != "" && AllAscii(whole) && AllAscii(places)
    ensures var body := whole + Tail(places);
            var text := Signed(negative, body);
            && body != "" && AsciiDigit(body[0]) && AsciiDigit(text[|text| - 1])
            && (negative ==> text[0] == '-' && text[1..] == body)
  {
    var body := whole + Tail(places);
    assert body[0] == whole[0];
    if places == "" {
      assert body == whole;
    } else {
      LastOf(whole, "." + places);
      LastOf(".", places);
    }
    SignedEnd(negative, body);
  }

  /** Parsing a printed text gives back its sign and digits. */
  lemma ParsePrinted(u: Unicode, negative: bool, whole: string, places: string, maxInteger: nat, maxPlaces: nat)
    requires Sensible(u) && AllAscii(whole) && AllAscii(places)
    requires 1 <= |whole| <= maxInteger && (|whole| > 1 ==> whole[0] != '0') && |places| <= maxPlaces
    ensures Parse(u, Signed(negative, whole + Tail(places)), maxInteger, maxPlaces)
            == Some(Parsed(negative, whole, places))
  {
    PrintedEnds(negative, whole, places);
    StripIdle(u, Signed(negative, whole + Tail(places)));
    PartitionPrinted(whole, places);
    PartsParse(u, negative, whole, places, maxInteger, maxPlaces);
  }

  lemma PrintedUnits(m: int, places: nat)
    requires 0 <= m
    ensures var whole, tail := ToDigits(Whole(m, places)), Places(m, places);
            |tail| <= places && AllAscii(tail) && Scale(ValueOf(whole + tail), places - |tail|) == m
  {
    PlacesAre(m, places);
    DigitsShape(Whole(m, places));
    CutValue(m, places);
    ValueJoin(ToDigits(Whole(m, places)), Places(m, places));
    JoinScales(Whole(m, places), ValueOf(Places(m, places)), |Places(m, places)|, places - |Places(m, places)|);
  }

  lemma PlacesAre(m: int, places: nat)
    requires 0 <= m
    ensures var tail := Places(m, places);
            |tail| <= places && AllAscii(tail) && Scale(ValueOf(tail), places - |tail|) == ValueOf(Fixed(m, places))
  {
    FixedShape(m, places);
    StripShape(Fixed(m, places));
  }

  lemma JoinScales(whole: int, tail: int, a: nat, b: nat)
    ensures Scale(Scale(whole, a) + tail, b) == Scale(whole, a + b) + Scale(tail, b)
  {
    ScaleSum(Scale(whole, a), tail, b);
    ScaleAdd(whole, a, b);
  }

  /** The integer part never grows. */
  lemma WholePart(p: Parsed, maxInteger: nat, maxPlaces: nat)
    requires 1 <= |p.integer| <= maxInteger && |p.fraction| <= maxPlaces
    ensures var n := Scale(Coefficient(p), maxPlaces - |p.fraction|);
            0 <= n && |ToDigits(Whole(n, maxPlaces))| <= maxInteger
  {
    var i, k := |p.integer|, maxPlaces - |p.fraction|;
    var v := Coefficient(p);
    PartsScale(v, 0, k);
    ValueBound(p.integer + p.fraction);
    ScaleGrows(v, Scale(1, i + |p.fraction|), k);
    ScaleAdd(1, i + |p.fraction|, k);
    ScaleAdd(1, i, maxPlaces);
    WholeBound(Scale(v, k), maxPlaces, Scale(1, i));
    ShortDigits(Whole(Scale(v, k), maxPlaces), i);
  }

  lemma PrintIsSigned(units: int, places: nat)
    ensures var m := Magnitude(units);
            PrintUnits(units, places) == Signed(units < 0, ToDigits(Whole(m, places)) + Tail(Places(m, places)))
  {
  }

  lemma UnitsOf(units: int, places: nat)
    ensures var m := Magnitude(units);
            var back := Parsed(units < 0, ToDigits(Whole(m, places)), Places(m, places));
            |back.fraction| <= places && Units(back, places) == units
  {
    PrintedUnits(Magnitude(units), places);
  }

  lemma MagnitudeParses(u: Unicode, negative: bool, m: int, maxInteger: nat, maxPlaces: nat)
    requires Sensible(u) && 0 <= m && |ToDigits(Whole(m, maxPlaces))| <= maxInteger
    ensures Parse(u, Signed(negative, ToDigits(Whole(m, maxPlaces)) + Tail(Places(m, maxPlaces))), maxInteger, maxPlaces)
            == Some(Parsed(negative, ToDigits(Whole(m, maxPlaces)), Places(m, maxPlaces)))
  {
    DigitsShape(Whole(m, maxPlaces));
    PrintedUnits(m, maxPlaces);
    ParsePrinted(u, negative, ToDigits(Whole(m, maxPlaces)), Places(m, maxPlaces), maxInteger, maxPlaces);
  }

  /** A printed number reads back as itself. */
  lemma PrintParses(u: Unicode, units: int, maxInteger: nat, maxPlaces: nat)
    requires Sensible(u) && |ToDigits(Whole(Magnitude(units), maxPlaces))| <= maxInteger
    ensures var back := Parse(u, PrintUnits(units, maxPlaces), maxInteger, maxPlaces);
            back.Some? && |back.value.fraction| <= maxPlaces && Units(back.value, maxPlaces) == units
  {
    PrintIsSigned(units, maxPlaces);
    MagnitudeParses(u, units < 0, Magnitude(units), maxInteger, maxPlaces);
    UnitsOf(units, maxPlaces);
  }

  lemma NumberIsKept(u: Unicode, p: Parsed, maxInteger: nat, maxPlaces: nat)
    requires Sensible(u) && 1 <= |p.integer| <= maxInteger && |p.fraction| <= maxPlaces
    ensures var back := Parse(u, PrintUnits(Units(p, maxPlaces), maxPlaces), maxInteger, maxPlaces);
            back.Some? && Number(back.value) == Number(p)
  {
    WholePart(p, maxInteger, maxPlaces);
    UnitsMagnitude(p, maxPlaces);
    var units := Units(p, maxPlaces);
    PrintParses(u, units, maxInteger, maxPlaces);
    SameNumber(p, Parse(u, PrintUnits(units, maxPlaces), maxInteger, maxPlaces).value, maxPlaces);
  }

  // ---------- the theorems ----------

  /** Every accepted text maps to an accepted text of the same value. */
  lemma ValueIsKept(u: Unicode, value: string, maxInteger: nat, maxPlaces: nat)
    requires Sensible(u) && Parse(u, value, maxInteger, maxPlaces).Some?
    ensures var out := Canonical(u, value, maxInteger, maxPlaces).value;
            var back := Parse(u, out, maxInteger, maxPlaces);
            back.Some? && Number(back.value) == Number(Parse(u, value, maxInteger, maxPlaces).value)
  {
    var p := Parse(u, value, maxInteger, maxPlaces).value;
    PrintsItsUnits(p, maxPlaces);
    NumberIsKept(u, p, maxInteger, maxPlaces);
  }

  /** The outputs are equal exactly when the numbers are: -0, -0.0, trailing zeros
      and foreign digits included. */
  lemma EqualExactlyWhenSame(u: Unicode, x: string, y: string, maxInteger: nat, maxPlaces: nat)
    requires Sensible(u) && Parse(u, x, maxInteger, maxPlaces).Some? && Parse(u, y, maxInteger, maxPlaces).Some?
    ensures Canonical(u, x, maxInteger, maxPlaces) == Canonical(u, y, maxInteger, maxPlaces)
            <==> Number(Parse(u, x, maxInteger, maxPlaces).value) == Number(Parse(u, y, maxInteger, maxPlaces).value)
  {
    var p, q := Parse(u, x, maxInteger, maxPlaces).value, Parse(u, y, maxInteger, maxPlaces).value;
    PrintsItsUnits(p, maxPlaces);
    PrintsItsUnits(q, maxPlaces);
    SameNumber(p, q, maxPlaces);
    ValueIsKept(u, x, maxInteger, maxPlaces);
    ValueIsKept(u, y, maxInteger, maxPlaces);
  }

  lemma Idempotent(u: Unicode, value: string, maxInteger: nat, maxPlaces: nat)
    requires Sensible(u) && Parse(u, value, maxInteger, maxPlaces).Some?
    ensures var out := Canonical(u, value, maxInteger, maxPlaces);
            Canonical(u, out.value, maxInteger, maxPlaces) == out
  {
    ValueIsKept(u, value, maxInteger, maxPlaces);
    EqualExactlyWhenSame(u, value, Canonical(u, value, maxInteger, maxPlaces).value, maxInteger, maxPlaces);
  }

  /** The balance checks compare canonical texts: the correction goes ahead exactly
      when the current value is the approved previous one and not the requested one. */
  predicate BalanceCheck(current: Option<string>, previous: Option<string>, amount: Option<string>) {
    current.Some? && previous.Some? && amount.Some? && current == previous && current != amount
  }

  lemma BalanceCheckIsNumeric(u: Unicode, shown: string, previous: string, amount: string, maxInteger: nat, maxPlaces: nat)
    requires Sensible(u) && Parse(u, shown, maxInteger, maxPlaces).Some?
    requires Parse(u, previous, maxInteger, maxPlaces).Some? && Parse(u, amount, maxInteger, maxPlaces).Some?
    ensures BalanceCheck(Canonical(u, shown, maxInteger, maxPlaces), Canonical(u, previous, maxInteger, maxPlaces),
                         Canonical(u, amount, maxInteger, maxPlaces))
            <==> Number(Parse(u, shown, maxInteger, maxPlaces).value) == Number(Parse(u, previous, maxInteger, maxPlaces).value)
                 && Number(Parse(u, shown, maxInteger, maxPlaces).value) != Number(Parse(u, amount, maxInteger, maxPlaces).value)
  {
    EqualExactlyWhenSame(u, shown, previous, maxInteger, maxPlaces);
    EqualExactlyWhenSame(u, shown, amount, maxInteger, maxPlaces);
  }

  // ---------- which texts are accepted ----------

  predicate Spaces(u: Unicode, s: string) {
    forall i :: 0 <= i < |s| ==> u.isSpace(s[i])
  }

  predicate Trim(u: Unicode, s: string) {
    s == "" || (!u.isSpace(s[0]) && !u.isSpace(s[|s| - 1]))
  }

  lemma {:induction false} LStripExactly(u: Unicode, s: string) returns (left: string)
    ensures s == left + LStrip(u, s) && Spaces(u, left)
    ensures LStrip(u, s) == "" || !u.isSpace(LStrip(u, s)[0])
  {
    left := "";
    if s != "" && u.isSpace(s[0]) {
      var rest := LStripExactly(u, s[1..]);
      left := [s[0]] + rest;
    }
  }

  lemma {:induction false} RStripExactly(u: Unicode, s: string) returns (right: string)
    ensures s == RStripSpace(u, s) + right && Spaces(u, right)
    ensures RStripSpace(u, s) == "" || !u.isSpace(RStripSpace(u, s)[|RStripSpace(u, s)| - 1])
  {
    right := "";
    if s != "" && u.isSpace(s[|s| - 1]) {
      var rest := RStripExactly(u, s[..|s| - 1]);
      right := rest + [s[|s| - 1]];
    }
  }

  /** Stripping takes away white space at both ends, and all of it. */
  lemma StripExactly(u: Unicode, s: string) returns (left: string, right: string)
    ensures s == left + Strip(u, s) + right && Spaces(u, left) && Spaces(u, right)
    ensures Trim(u, Strip(u, s))
  {
    left := LStripExactly(u, s);
    right := RStripExactly(u, LStrip(u, s));
    var core := Strip(u, s);
    if core != "" {
      assert LStrip(u, s)[0] == core[0];
    }
  }

  lemma {:induction false} LStripTakes(u: Unicode, left: string, rest: string)
    requires Spaces(u, left) && (rest == "" || !u.isSpace(rest[0]))
    ensures LStrip(u, left + rest) == rest
  {
    if left == "" {
      assert left + rest == rest;
    } else {
      assert (left + rest)[1..] == left[1..] + rest;
      LStripTakes(u, left[1..], rest);
    }
  }

  lemma {:induction false} RStripTakes(u: Unicode, rest: string, right: string)
    requires Spaces(u, right) && (rest == "" || !u.isSpace(rest[|rest| - 1]))
    ensures RStripSpace(u, rest + right) == rest
  {
    if right == "" {
      assert rest + right == rest;
    } else {
      var n := |right| - 1;
      assert (rest + right)[..|rest + right| - 1] == rest + right[..n];
      RStripTakes(u, rest, right[..n]);
    }
  }

  lemma StripTakes(u: Unicode, left: string, core: string, right: string)
    requires Spaces(u, left) && Spaces(u, right) && core != "" && Trim(u, core)
    ensures Strip(u, left + core + right) == core
  {
    assert left + core + right == left + (core + right);
    assert (core + right)[0] == core[0];
    LStripTakes(u, left, core + right);
    RStripTakes(u, core, right);
  }

  /** The text after the sign, as it is cut at the first point. */
  lemma {:induction false} PartitionExactly(s: string)
    ensures var (before, after) := Partition(s);
            && '.' !in before
            && s == before + match after case None => "" case Some(places) => "." + places
  {
    if s != "" && s[0] != '.' {
      PartitionExactly(s[1..]);
      assert s == [s[0]] + s[1..];
    }
  }

  /** `read` spells the digits of `text`, character by character. */
  predicate Spells(u: Unicode, text: string, read: string) {
    |read| == |text| && forall i :: 0 <= i < |text| ==> u.decimal(text[i]) == Some(read[i])
  }

  lemma {:induction false} DecimalsSpell(u: Unicode, text: string)
    ensures Decimals(u, text).Some? <==> forall i :: 0 <= i < |text| ==> u.decimal(text[i]).Some?
    ensures Decimals(u, text).Some? ==> Spells(u, text, Decimals(u, text).value)
  {
    if text != "" {
      DecimalsSpell(u, text[..|text| - 1]);
    }
  }

  /** A sign, digits without a leading zero, perhaps a point and digits. */
  function Written(negative: bool, whole: string, places: Option<string>): string {
    (if negative then "-" else "") + whole + (match places case None => "" case Some(p) => "." + p)
  }

  /** The digits are digits, within the limits, and none of them is only typographic. */
  predicate WellWritten(u: Unicode, whole: string, places: Option<string>, maxInteger: nat, maxPlaces: nat) {
    && 1 <= |whole| <= maxInteger && (|whole| > 1 ==> whole[0] != '0') && Readable(u, whole)
    && match places case None => true case Some(p) => 1 <= |p| <= maxPlaces && Readable(u, p)
  }

  predicate Readable(u: Unicode, s: string) {
    forall i :: 0 <= i < |s| ==> u.isDigit(s[i]) && u.decimal(s[i]).Some?
  }

  lemma PartsExactly(u: Unicode, negative: bool, whole: string, places: Option<string>, maxInteger: nat, maxPlaces: nat)
    ensures ParseParts(u, negative, whole, places, maxInteger, maxPlaces).Some?
            <==> WellWritten(u, whole, places, maxInteger, maxPlaces)
    ensures WellWritten(u, whole, places, maxInteger, maxPlaces) ==>
              var p := ParseParts(u, negative, whole, places, maxInteger, maxPlaces).value;
              && p.negative == negative && Spells(u, whole, p.integer)
              && (match places case None => p.fraction == "" case Some(f) => Spells(u, f, p.fraction))
  {
    DecimalsSpell(u, whole);
    if places.Some? {
      DecimalsSpell(u, places.value);
    }
  }

  lemma {:induction false} PartitionOfWritten(u: Unicode, whole: string, places: Option<string>)
    requires Sensible(u) && Readable(u, whole)
    ensures Partition(Written(false, whole, places)) == (whole, places)
  {
    if whole == "" {
      match places
      case None =>
      case Some(p) =>
        assert Written(false, whole, places) == "." + p;
        assert ("." + p)[1..] == p;
    } else {
      PartitionOfWritten(u, whole[1..], places);
      assert Written(false, whole, places)[1..] == Written(false, whole[1..], places);
      assert whole == [whole[0]] + whole[1..];
    }
  }

  /** Surrounded by white space, such a text is accepted and its digits are read as they
      are; a leading zero, an empty fraction or a plus sign is refused. */
  lemma WrittenIsAccepted(u: Unicode, left: string, negative: bool, whole: string, places: Option<string>, right: string,
                          maxInteger: nat, maxPlaces: nat)
    requires Sensible(u) && Spaces(u, left) && Spaces(u, right) && Trim(u, Written(negative, whole, places))
    requires WellWritten(u, whole, places, maxInteger, maxPlaces)
    ensures var r := Parse(u, left + Written(negative, whole, places) + right, maxInteger, maxPlaces);
            && r.Some? && r.value.negative == negative && Spells(u, whole, r.value.integer)
            && (match places case None => r.value.fraction == "" case Some(f) => Spells(u, f, r.value.fraction))
  {
    var core := Written(negative, whole, places);
    StripTakes(u, left, core, right);
    PartitionOfWritten(u, whole, places);
    PartsExactly(u, negative, whole, places, maxInteger, maxPlaces);
    assert u.isDigit(whole[0]) && whole[0] != '-' && whole[0] != '+';
    if negative {
      assert core[1..] == Written(false, whole, places);
    } else {
      assert core[0] == whole[0];
    }
  }

  /** Nothing else is. */
  lemma AcceptedIsWritten(u: Unicode, value: string, maxInteger: nat, maxPlaces: nat)
    returns (left: string, negative: bool, whole: string, places: Option<string>, right: string)
    requires Parse(u, value, maxInteger, maxPlaces).Some?
    ensures Spaces(u, left) && Spaces(u, right) && value == left + Written(negative, whole, places) + right
    ensures Trim(u, Written(negative, whole, places)) && WellWritten(u, whole, places, maxInteger, maxPlaces)
  {
    left, right := StripExactly(u, value);
    var core := Strip(u, value);
    negative := core[0] == '-';
    var unsigned := if negative then core[1..] else core;
    PartitionExactly(unsigned);
    var cut := Partition(unsigned);
    whole, places := cut.0, cut.1;
    PartsExactly(u, negative, whole, places, maxInteger, maxPlaces);
    assert core == Written(negative, whole, places);
  }

  // ---------- the shape of the output ----------

  /** ASCII digits without a leading zero, no point without places, no trailing zero,
      no negative zero. */
  predicate Shapely(negative: bool, whole: string, places: Option<string>, maxPlaces: nat) {
    && whole != "" && AllAscii(whole) && (|whole| > 1 ==> whole[0] != '0')
    && (match places
        case None => negative ==> whole != "0"
        case Some(p) => 1 <= |p| <= maxPlaces && AllAscii(p) && p[|p| - 1] != '0')
  }

  lemma OutputExactly(u: Unicode, value: string, maxInteger: nat, maxPlaces: nat)
    returns (negative: bool, whole: string, places: Option<string>)
    requires Parse(u, value, maxInteger, maxPlaces).Some?
    ensures Canonical(u, value, maxInteger, maxPlaces) == Some(Written(negative, whole, places))
    ensures Shapely(negative, whole, places, maxPlaces)
  {
    var p := Parse(u, value, maxInteger, maxPlaces).value;
    PrintsItsUnits(p, maxPlaces);
    negative, whole, places := ShapeOf(Units(p, maxPlaces), maxPlaces);
  }

  /** Only zero has the digits of zero. */
  lemma ZeroIsBare(m: int, maxPlaces: nat)
    requires 0 <= m && ToDigits(Whole(m, maxPlaces)) == "0" && Places(m, maxPlaces) == ""
    ensures m == 0
  {
    PrintedUnits(m, maxPlaces);
    assert "0" + "" == "0" && "0"[..0] == "" && ValueOf("0") == 0;
    ScaleZero(maxPlaces);
  }

  lemma PlacesShape(m: int, maxPlaces: nat)
    requires 0 <= m
    ensures var tail := Places(m, maxPlaces);
            |tail| <= maxPlaces && AllAscii(tail) && (tail != "" ==> tail[|tail| - 1] != '0')
  {
    PrintedUnits(m, maxPlaces);
    StripShape(Fixed(m, maxPlaces));
  }

  lemma SignedIsWritten(negative: bool, whole: string, tail: string)
    ensures Signed(negative, whole + Tail(tail)) == Written(negative, whole, if tail == "" then None else Some(tail))
  {
    if negative {
      assert "-" + (whole + Tail(tail)) == "-" + whole + Tail(tail);
    } else {
      assert "" + whole == whole;
    }
  }

  lemma ShapeOf(units: int, maxPlaces: nat) returns (negative: bool, whole: string, places: Option<string>)
    ensures PrintUnits(units, maxPlaces) == Written(negative, whole, places)
    ensures Shapely(negative, whole, places, maxPlaces)
  {
    var m := Magnitude(units);
    var tail := Places(m, maxPlaces);
    negative, whole, places := units < 0, ToDigits(Whole(m, maxPlaces)), if tail == "" then None else Some(tail);
    PrintIsSigned(units, maxPlaces);
    SignedIsWritten(negative, whole, tail);
    DigitsShape(Whole(m, maxPlaces));
    PlacesShape(m, maxPlaces);
    if whole == "0" && tail == "" {
      ZeroIsBare(m, maxPlaces);
    }
  }
}
