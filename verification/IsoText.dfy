/** UTC datetimes, their `isoformat()` text, and how the text compares in SQL. The sent_at column holds
    text, so its MAX is a text maximum. */
module IsoText {
  import opened Prelude

  // ---------------------------------------------------------------- text order

  /** SQLite's BINARY collation on the strings that occur here. */
  predicate TextLess(a: string, b: string)
    decreases |a|
  {
    b != [] && (a == [] || a[0] < b[0] || (a[0] == b[0] && TextLess(a[1..], b[1..])))
  }

  lemma {:induction false} TextOrderTotal(a: string, b: string)
    ensures TextLess(a, b) || a == b || TextLess(b, a)
    ensures !(TextLess(a, b) && TextLess(b, a)) && !TextLess(a, a)
    decreases |a|
  {
    if a != [] && b != [] {
      TextOrderTotal(a[1..], b[1..]);
      assert a == [a[0]] + a[1..] && b == [b[0]] + b[1..];
    }
    if a != [] { TextOrderTotal(a[1..], a[1..]); }
  }

  lemma {:induction false} TextOrderTransitive(a: string, b: string, c: string)
    requires TextLess(a, b) && TextLess(b, c)
    ensures TextLess(a, c)
    decreases |a|
  {
    if a != [] && a[0] == b[0] == c[0] {
      TextOrderTransitive(a[1..], b[1..], c[1..]);
    }
  }

  lemma {:induction false} CommonPrefix(p: string, a: string, b: string)
    ensures TextLess(p + a, p + b) <==> TextLess(a, b)
    decreases |p|
  {
    if p == [] {
      assert p + a == a && p + b == b;
    } else {
      CommonPrefix(p[1..], a, b);
      assert (p + a)[1..] == p[1..] + a && (p + b)[1..] == p[1..] + b;
    }
  }

  // ---------------------------------------------------------------- fixed-width numbers

  function Digit(n: nat): char
    requires n < 10
  {
    '0' + n as char
  }

  function Pow10(w: nat): nat {
    if w == 0 then 1 else 10 * Pow10(w - 1)
  }

  /** `n` in decimal, zero-padded to `w` digits. */
  function Pad(n: nat, w: nat): (s: string)
    ensures |s| == w
  {
    if w == 0 then "" else Pad(n / 10, w - 1) + [Digit(n % 10)]
  }

  lemma {:induction false} DigitIs(n: nat)
    requires n < 10
    ensures Digit(n) == "0123456789"[n]
  {
  }

  lemma {:induction false} PadTwo(n: nat)
    requires n < 100
    ensures Pad(n, 2) == ["0123456789"[n / 10], "0123456789"[n % 10]]
  {
    DigitIs(n / 10);
    DigitIs(n % 10);
    assert Pad(n / 10, 1) == Pad(n / 10 / 10, 0) + [Digit(n / 10 % 10)];
  }

  function Number(s: string): Option<nat> {
    if s == [] then Some(0) else
      var c := s[|s| - 1];
      var high := Number(s[..|s| - 1]);
      if high.None? || !('0' <= c <= '9') then None else Some(10 * high.value + (c as nat - '0' as nat))
  }

  lemma {:induction false} NumberReadsPad(n: nat, w: nat)
    requires n < Pow10(w)
    ensures Number(Pad(n, w)) == Some(n)
  {
    if w > 0 {
      NumberReadsPad(n / 10, w - 1);
      assert Pad(n, w)[..w - 1] == Pad(n / 10, w - 1);
    }
  }

  /** Equal widths: text order is numeric order, whatever follows. */
  lemma {:induction false} PadOrder(n: nat, m: nat, w: nat, a: string, b: string)
    requires n < m < Pow10(w)
    ensures TextLess(Pad(n, w) + a, Pad(m, w) + b)
  {
    if n / 10 < m / 10 {
      PadOrder(n / 10, m / 10, w - 1, [Digit(n % 10)] + a, [Digit(m % 10)] + b);
      assert Pad(n, w) + a == Pad(n / 10, w - 1) + ([Digit(n % 10)] + a);
      assert Pad(m, w) + b == Pad(m / 10, w - 1) + ([Digit(m % 10)] + b);
    } else {
      var p := Pad(n / 10, w - 1);
      CommonPrefix(p, [Digit(n % 10)] + a, [Digit(m % 10)] + b);
      assert Pad(n, w) + a == p + ([Digit(n % 10)] + a);
      assert Pad(m, w) + b == p + ([Digit(m % 10)] + b);
    }
  }

  // ---------------------------------------------------------------- fields and their text

  /** A number of fixed width followed by fixed text. */
  datatype Field = Field(value: nat, width: nat, after: string)

  predicate Fits(fs: seq<Field>) {
    forall k :: 0 <= k < |fs| ==> fs[k].value < Pow10(fs[k].width)
  }

  /** The same layout: widths and separators agree. */
  predicate SameLayout(fs: seq<Field>, gs: seq<Field>) {
    |fs| == |gs| && forall k :: 0 <= k < |fs| ==> fs[k].width == gs[k].width && fs[k].after == gs[k].after
  }

  function Render(fs: seq<Field>, tail: string): string {
    if fs == [] then tail else Pad(fs[0].value, fs[0].width) + (fs[0].after + Render(fs[1..], tail))
  }

  /** The first differing field decides. */
  predicate FieldsLess(fs: seq<Field>, gs: seq<Field>)
    requires |fs| == |gs|
  {
    fs != [] && (fs[0].value < gs[0].value || (fs[0].value == gs[0].value && FieldsLess(fs[1..], gs[1..])))
  }

  lemma {:induction false} RenderOrder(fs: seq<Field>, gs: seq<Field>, a: string, b: string)
    requires SameLayout(fs, gs) && Fits(fs) && Fits(gs)
    ensures FieldsLess(fs, gs) ==> TextLess(Render(fs, a), Render(gs, b))
    ensures fs == gs ==> (TextLess(Render(fs, a), Render(gs, b)) <==> TextLess(a, b))
    decreases |fs|
  {
    if fs != [] {
      var f, g := fs[0], gs[0];
      var x, y := f.after + Render(fs[1..], a), g.after + Render(gs[1..], b);
      RenderOrder(fs[1..], gs[1..], a, b);
      if f.value < g.value {
        PadOrder(f.value, g.value, f.width, x, y);
      } else if f.value == g.value {
        CommonPrefix(Pad(f.value, f.width), x, y);
        CommonPrefix(f.after, Render(fs[1..], a), Render(gs[1..], b));
      }
    }
  }

  /** Reads fields of the given layout off the front of `s`. */
  function Scan(layout: seq<Field>, s: string): Option<(seq<nat>, string)> {
    if layout == [] then Some(([], s)) else
      var w, after := layout[0].width, layout[0].after;
      if |s| < w + |after| || s[w..w + |after|] != after then None else
        var n, rest := Number(s[..w]), Scan(layout[1..], s[w + |after|..]);
        if n.None? || rest.None? then None else Some(([n.value] + rest.value.0, rest.value.1))
  }

  function Values(fs: seq<Field>): (vs: seq<nat>)
    ensures |vs| == |fs|
  {
    seq(|fs|, k requires 0 <= k < |fs| => fs[k].value)
  }

  lemma {:induction false} CutThree(a: string, b: string, c: string)
    ensures var s := a + (b + c);
            s[..|a|] == a && s[|a|..|a| + |b|] == b && s[|a| + |b|..] == c
  {
  }

  /** One field is scanned off the front of what its rendering begins. */
  lemma {:induction false} ScanOne(layout: seq<Field>, f: Field, rest: string, tail: (seq<nat>, string))
    requires layout != [] && layout[0].width == f.width && layout[0].after == f.after
    requires Number(Pad(f.value, f.width)) == Some(f.value) && Scan(layout[1..], rest) == Some(tail)
    ensures Scan(layout, Pad(f.value, f.width) + (f.after + rest)) == Some(([f.value] + tail.0, tail.1))
  {
    CutThree(Pad(f.value, f.width), f.after, rest);
  }

  lemma {:induction false} ValuesNext(fs: seq<Field>)
    requires fs != []
    ensures Values(fs) == [fs[0].value] + Values(fs[1..])
  {
  }

  lemma {:induction false} ScanReadsRender(layout: seq<Field>, fs: seq<Field>, tail: string)
    requires SameLayout(layout, fs) && Fits(fs)
    ensures Scan(layout, Render(fs, tail)) == Some((Values(fs), tail))
    decreases |fs|
  {
    if fs == [] {
      assert Values(fs) == [];
    } else {
      NumberReadsPad(fs[0].value, fs[0].width);
      ScanReadsRender(layout[1..], fs[1..], tail);
      ScanOne(layout, fs[0], Render(fs[1..], tail), (Values(fs[1..]), tail));
      ValuesNext(fs);
    }
  }

  // ---------------------------------------------------------------- datetimes

  datatype DateTime = DateTime(year: nat, month: nat, day: nat, hour: nat, minute: nat, second: nat, micro: nat)

  predicate IsLeap(y: nat) {
    y % 4 == 0 && (y % 100 != 0 || y % 400 == 0)
  }

  function DaysIn(y: nat, m: nat): nat {
    if m == 2 then (if IsLeap(y) then 29 else 28)
    else if m == 4 || m == 6 || m == 9 || m == 11 then 30 else 31
  }

  predicate ValidDateTime(d: DateTime) {
    && 1 <= d.year <= 9999 && 1 <= d.month <= 12 && 1 <= d.day <= DaysIn(d.year, d.month)
    && d.hour < 24 && d.minute < 60 && d.second < 60 && d.micro < 1000000
  }

  function DateFields(d: DateTime): seq<Field> {
    [Field(d.year, 4, "-"), Field(d.month, 2, "-"), Field(d.day, 2, "T"),
     Field(d.hour, 2, ":"), Field(d.minute, 2, ":"), Field(d.second, 2, "")]
  }

  /** The fraction is printed only when it is not zero. */
  function Fraction(micro: nat): string {
    if micro == 0 then "+00:00" else "." + Render([Field(micro, 6, "")], "+00:00")
  }

  /** `datetime.isoformat()` of an aware UTC datetime. */
  function Print(d: DateTime): string {
    Render(DateFields(d), Fraction(d.micro))
  }

  lemma {:induction false} RenderNext(before: string, fs: seq<Field>, k: nat, tail: string)
    requires k < |fs|
    ensures before + Render(fs[k..], tail)
         == before + Pad(fs[k].value, fs[k].width) + fs[k].after + Render(fs[k + 1..], tail)
  {
    assert fs[k..][1..] == fs[k + 1..];
    var a, b, c := Pad(fs[k].value, fs[k].width), fs[k].after, Render(fs[k + 1..], tail);
    assert before + (a + (b + c)) == before + a + b + c;
  }

  lemma {:induction false} RenderThree(before: string, fs: seq<Field>, k: nat, tail: string)
    requires k + 3 <= |fs|
    ensures before + Render(fs[k..], tail)
         == before + Pad(fs[k].value, fs[k].width) + fs[k].after
            + Pad(fs[k + 1].value, fs[k + 1].width) + fs[k + 1].after
            + Pad(fs[k + 2].value, fs[k + 2].width) + fs[k + 2].after + Render(fs[k + 3..], tail)
  {
    var one := before + Pad(fs[k].value, fs[k].width) + fs[k].after;
    var two := one + Pad(fs[k + 1].value, fs[k + 1].width) + fs[k + 1].after;
    RenderNext(before, fs, k, tail);
    RenderNext(one, fs, k + 1, tail);
    RenderNext(two, fs, k + 2, tail);
  }

  /** The fraction and the offset, spelled out. */
  lemma {:induction false} FractionIs(micro: nat)
    ensures Fraction(micro) == (if micro == 0 then "" else "." + Pad(micro, 6)) + "+00:00"
  {
    if micro != 0 {
      RenderNext("", [Field(micro, 6, "")], 0, "+00:00");
      assert [Field(micro, 6, "")][0..] == [Field(micro, 6, "")];
      assert "." + (Pad(micro, 6) + "+00:00") == "." + Pad(micro, 6) + "+00:00";
    }
  }

  function DateText(year: nat, month: nat, day: nat): string {
    Pad(year, 4) + "-" + Pad(month, 2) + "-" + Pad(day, 2)
  }

  function ClockText(hour: nat, minute: nat, second: nat): string {
    Pad(hour, 2) + ":" + Pad(minute, 2) + ":" + Pad(second, 2)
  }

  lemma {:induction false} DateIsPrinted(d: DateTime)
    ensures Print(d) == DateText(d.year, d.month, d.day) + "T" + Render(DateFields(d)[3..], Fraction(d.micro))
  {
    var f, tail := DateFields(d), Fraction(d.micro);
    assert f[0..] == f && "" + Render(f, tail) == Render(f, tail) && "" + Pad(d.year, 4) == Pad(d.year, 4);
    RenderThree("", f, 0, tail);
  }

  lemma {:induction false} ClockIsPrinted(d: DateTime)
    ensures Render(DateFields(d)[3..], Fraction(d.micro))
         == ClockText(d.hour, d.minute, d.second) + Fraction(d.micro)
  {
    var f, tail := DateFields(d), Fraction(d.micro);
    assert "" + Render(f[3..], tail) == Render(f[3..], tail) && "" + Pad(d.hour, 2) == Pad(d.hour, 2);
    RenderThree("", f, 3, tail);
    assert f[6..] == [];
    assert ClockText(d.hour, d.minute, d.second) + "" == ClockText(d.hour, d.minute, d.second);
  }

  /** The text, spelled out. */
  lemma {:induction false} PrintIs(d: DateTime)
    ensures Print(d) == DateText(d.year, d.month, d.day) + "T"
                        + (ClockText(d.hour, d.minute, d.second)
                           + ((if d.micro == 0 then "" else "." + Pad(d.micro, 6)) + "+00:00"))
  {
    DateIsPrinted(d);
    ClockIsPrinted(d);
    FractionIs(d.micro);
  }

  /** `datetime.fromisoformat` on that format. */
  function Parse(s: string): Option<DateTime> {
    var r := Scan(DateFields(DateTime(0, 0, 0, 0, 0, 0, 0)), s);
    if r.None? || |r.value.0| != 6 then None else
      var (v, tail) := r.value;
      if tail == "+00:00" then Some(DateTime(v[0], v[1], v[2], v[3], v[4], v[5], 0))
      else if tail == "" || tail[0] != '.' then None else
        var f := Scan([Field(0, 6, "")], tail[1..]);
        if f.None? || |f.value.0| != 1 || f.value.1 != "+00:00" then None
        else Some(DateTime(v[0], v[1], v[2], v[3], v[4], v[5], f.value.0[0]))
  }

  lemma {:induction false} Widths()
    ensures Pow10(0) == 1 && Pow10(2) == 100 && Pow10(4) == 10000 && Pow10(6) == 1000000
  {
    assert Pow10(3) == 1000;
  }

  lemma {:induction false} DateFieldsFit(d: DateTime)
    requires ValidDateTime(d)
    ensures Fits(DateFields(d)) && Fits([Field(d.micro, 6, "")])
  {
    Widths();
  }

  /** Parsing inverts printing. */
  lemma {:induction false} ParseInvertsPrint(d: DateTime)
    requires ValidDateTime(d)
    ensures Parse(Print(d)) == Some(d)
  {
    DateFieldsFit(d);
    ScanReadsRender(DateFields(DateTime(0, 0, 0, 0, 0, 0, 0)), DateFields(d), Fraction(d.micro));
    assert Values(DateFields(d)) == [d.year, d.month, d.day, d.hour, d.minute, d.second];
    if d.micro != 0 {
      ScanReadsRender([Field(0, 6, "")], [Field(d.micro, 6, "")], "+00:00");
      assert Values([Field(d.micro, 6, "")]) == [d.micro];
      assert Fraction(d.micro)[1..] == Render([Field(d.micro, 6, "")], "+00:00");
    }
  }

  /** A printed fraction sorts by value, and after no fraction: '+' comes before '.'. */
  lemma {:induction false} FractionOrder(a: nat, b: nat)
    requires a < b < 1000000
    ensures TextLess(Fraction(a), Fraction(b))
  {
    Widths();
    if a == 0 {
      assert Fraction(b)[0] == '.';
    } else {
      var fs, gs := [Field(a, 6, "")], [Field(b, 6, "")];
      RenderOrder(fs, gs, "+00:00", "+00:00");
      CommonPrefix(".", Render(fs, "+00:00"), Render(gs, "+00:00"));
    }
  }

  /** Python's comparison of two UTC datetimes: field by field. */
  predicate Before(a: DateTime, b: DateTime) {
    || a.year < b.year || (a.year == b.year && (
       || a.month < b.month || (a.month == b.month && (
          || a.day < b.day || (a.day == b.day && (
             || a.hour < b.hour || (a.hour == b.hour && (
                || a.minute < b.minute || (a.minute == b.minute && (
                   || a.second < b.second || (a.second == b.second && a.micro < b.micro)))))))))))
  }

  lemma {:induction false} FieldsFrom(fs: seq<Field>, gs: seq<Field>, k: nat)
    requires |fs| == |gs| && k <= |fs|
    ensures FieldsLess(fs[k..], gs[k..]) <==>
            k < |fs| && (fs[k].value < gs[k].value
                         || (fs[k].value == gs[k].value && FieldsLess(fs[k + 1..], gs[k + 1..])))
  {
    if k < |fs| {
      assert fs[k..][1..] == fs[k + 1..] && gs[k..][1..] == gs[k + 1..];
    }
  }

  lemma {:induction false} SameFields(a: DateTime, b: DateTime)
    ensures DateFields(a) == DateFields(b)
       <==> a.year == b.year && a.month == b.month && a.day == b.day
            && a.hour == b.hour && a.minute == b.minute && a.second == b.second
  {
    var f, g := DateFields(a), DateFields(b);
    if f == g {
      assert f[0] == g[0] && f[1] == g[1] && f[2] == g[2] && f[3] == g[3] && f[4] == g[4] && f[5] == g[5];
    }
  }

  lemma {:induction false} FieldsDecide(a: DateTime, b: DateTime)
    ensures Before(a, b) <==>
              FieldsLess(DateFields(a), DateFields(b)) || (DateFields(a) == DateFields(b) && a.micro < b.micro)
  {
    var f, g := DateFields(a), DateFields(b);
    assert f[0..] == f && g[0..] == g;
    FieldsFrom(f, g, 0);
    FieldsFrom(f, g, 1);
    FieldsFrom(f, g, 2);
    FieldsFrom(f, g, 3);
    FieldsFrom(f, g, 4);
    FieldsFrom(f, g, 5);
    FieldsFrom(f, g, 6);
    SameFields(a, b);
  }

  lemma {:induction false} PrintOrder(a: DateTime, b: DateTime)
    requires ValidDateTime(a) && ValidDateTime(b) && Before(a, b)
    ensures TextLess(Print(a), Print(b))
  {
    DateFieldsFit(a);
    DateFieldsFit(b);
    FieldsDecide(a, b);
    RenderOrder(DateFields(a), DateFields(b), Fraction(a.micro), Fraction(b.micro));
    if DateFields(a) == DateFields(b) {
      FractionOrder(a.micro, b.micro);
    }
  }

  // ---------------------------------------------------------------- instants

  /** Days from 0001-01-01 to the first day of year `y` (Python's proleptic Gregorian ordinals). */
  function DaysBeforeYear(y: nat): nat
    requires y >= 1
  {
    (y - 1) * 365 + (y - 1) / 4 - (y - 1) / 100 + (y - 1) / 400
  }

  function DaysBeforeMonth(y: nat, m: nat): nat
    requires 1 <= m <= 13
  {
    if m == 1 then 0 else DaysBeforeMonth(y, m - 1) + DaysIn(y, m - 1)
  }

  function DayNumber(y: nat, m: nat, d: nat): int
    requires y >= 1 && 1 <= m <= 12
  {
    DaysBeforeYear(y) + DaysBeforeMonth(y, m) + d - DaysBeforeYear(2001) - 1
  }

  /** Microseconds from 2001-01-01T00:00:00 UTC. */
  function Micros(d: DateTime): int
    requires ValidDateTime(d)
  {
    (((DayNumber(d.year, d.month, d.day) * 24 + d.hour) * 60 + d.minute) * 60 + d.second) * 1000000 + d.micro
  }

  lemma {:induction false} LeapYears(y: nat)
    requires y >= 1
    ensures y / 4 - y / 100 + y / 400 == (y - 1) / 4 - (y - 1) / 100 + (y - 1) / 400 + (if IsLeap(y) then 1 else 0)
  {
    QuotientSteps(y, 4);
    QuotientSteps(y, 100);
    QuotientSteps(y, 400);
    Multiples(y);
  }

  lemma {:induction false} QuotientSteps(y: nat, n: nat)
    requires y >= 1 && n > 1
    ensures y / n == (y - 1) / n + (if y % n == 0 then 1 else 0)
  {
    var q, r := y / n, y % n;
    assert y == q * n + r;
    if r == 0 {
      assert y - 1 == (q - 1) * n + (n - 1);
      QuotientIs(y - 1, n, q - 1, n - 1);
    } else {
      QuotientIs(y - 1, n, q, r - 1);
    }
  }

  lemma {:induction false} QuotientIs(a: int, n: int, q: int, r: int)
    requires n > 0 && 0 <= r < n && a == q * n + r
    ensures a / n == q && a % n == r
  {
    var d := a / n - q;
    assert d * n == r - a % n;
    MultipleBound(d, n);
  }

  lemma {:induction false} MultipleBound(d: int, n: int)
    requires n > 0
    ensures d >= 1 ==> d * n >= n
    ensures d <= -1 ==> d * n <= -n
  {
  }

  lemma {:induction false} Multiples(y: nat)
    ensures y % 400 == 0 ==> y % 100 == 0
    ensures y % 100 == 0 ==> y % 4 == 0
  {
    if y % 400 == 0 { QuotientIs(y, 100, 4 * (y / 400), 0); }
    if y % 100 == 0 { QuotientIs(y, 4, 25 * (y / 100), 0); }
  }

  lemma {:induction false} MonthTable(y: nat)
    ensures DaysBeforeMonth(y, 13) == 365 + (if IsLeap(y) then 1 else 0)
  {
    var leap := if IsLeap(y) then 1 else 0;
    assert DaysBeforeMonth(y, 2) == 31;
    assert DaysBeforeMonth(y, 4) == 90 + leap;
    assert DaysBeforeMonth(y, 6) == 151 + leap;
    assert DaysBeforeMonth(y, 8) == 212 + leap;
    assert DaysBeforeMonth(y, 10) == 273 + leap;
    assert DaysBeforeMonth(y, 12) == 334 + leap;
  }

  lemma {:induction false} YearLength(y: nat)
    requires y >= 1
    ensures DaysBeforeYear(y + 1) == DaysBeforeYear(y) + 365 + (if IsLeap(y) then 1 else 0)
    ensures DaysBeforeMonth(y, 13) == 365 + (if IsLeap(y) then 1 else 0)
  {
    LeapYears(y);
    MonthTable(y);
  }

  lemma {:induction false} YearsIncrease(y: nat, z: nat)
    requires 1 <= y < z
    ensures DaysBeforeYear(y) + 365 + (if IsLeap(y) then 1 else 0) <= DaysBeforeYear(z)
    decreases z - y
  {
    YearLength(y);
    if y + 1 < z {
      YearsIncrease(y + 1, z);
    }
  }

  lemma {:induction false} MonthsIncrease(y: nat, m: nat, n: nat)
    requires 1 <= m < n <= 13
    ensures DaysBeforeMonth(y, m) + DaysIn(y, m) <= DaysBeforeMonth(y, n)
    decreases n
  {
    if m < n - 1 {
      MonthsIncrease(y, m, n - 1);
    }
  }

  lemma {:induction false} DaysOrder(a: DateTime, b: DateTime)
    requires ValidDateTime(a) && ValidDateTime(b)
    requires a.year < b.year || (a.year == b.year && (a.month < b.month || (a.month == b.month && a.day < b.day)))
    ensures DayNumber(a.year, a.month, a.day) < DayNumber(b.year, b.month, b.day)
  {
    if a.year < b.year {
      YearsIncrease(a.year, b.year);
      MonthsIncrease(a.year, a.month, 13);
      YearLength(a.year);
    } else if a.month < b.month {
      MonthsIncrease(a.year, a.month, b.month);
    }
  }

  lemma {:induction false} InstantOrder(a: DateTime, b: DateTime)
    requires ValidDateTime(a) && ValidDateTime(b) && Before(a, b)
    ensures Micros(a) < Micros(b)
  {
    if a.year != b.year || a.month != b.month || a.day != b.day {
      DaysOrder(a, b);
    }
  }

  /** For UTC datetimes the order of the texts is the order of the instants. */
  lemma {:induction false} TextOrderIsTimeOrder(a: DateTime, b: DateTime)
    requires ValidDateTime(a) && ValidDateTime(b)
    ensures TextLess(Print(a), Print(b)) <==> Micros(a) < Micros(b)
    ensures Print(a) == Print(b) <==> Micros(a) == Micros(b)
  {
    TextOrderTotal(Print(a), Print(b));
    if Before(a, b) {
      PrintOrder(a, b);
      InstantOrder(a, b);
    } else if Before(b, a) {
      PrintOrder(b, a);
      InstantOrder(b, a);
    } else {
      assert a == b;
    }
  }

  // ---------------------------------------------------------------- the datetime of an instant

  datatype Date = Date(year: nat, month: nat, day: nat)

  predicate ValidDate(d: Date) {
    1 <= d.year && 1 <= d.month <= 12 && 1 <= d.day <= DaysIn(d.year, d.month)
  }

  function NextDay(d: Date): Date {
    if d.day < DaysIn(d.year, d.month) then d.(day := d.day + 1)
    else if d.month < 12 then Date(d.year, d.month + 1, 1)
    else Date(d.year + 1, 1, 1)
  }

  /** The date `n` days after 2001-01-01. */
  function DateAfter(n: nat): Date {
    if n == 0 then Date(2001, 1, 1) else NextDay(DateAfter(n - 1))
  }

  lemma {:induction false} NextDayIsNext(d: Date)
    requires ValidDate(d)
    ensures var e := NextDay(d);
            && ValidDate(e) && DayNumber(e.year, e.month, e.day) == DayNumber(d.year, d.month, d.day) + 1
            && (e.year == d.year || e == Date(d.year + 1, 1, 1))
  {
    YearLength(d.year);
    if d.month < 12 {
      assert DaysBeforeMonth(d.year, d.month + 1) == DaysBeforeMonth(d.year, d.month) + DaysIn(d.year, d.month);
    } else {
      assert DaysBeforeMonth(d.year, 13) == DaysBeforeMonth(d.year, 12) + DaysIn(d.year, 12);
    }
  }

  lemma {:induction false} DateAfterDays(n: nat)
    ensures var d := DateAfter(n);
            ValidDate(d) && d.year >= 2001 && DayNumber(d.year, d.month, d.day) == n && (d.year - 2001) * 365 <= n
    decreases n
  {
    if n > 0 {
      DateAfterDays(n - 1);
      NextDayIsNext(DateAfter(n - 1));
      YearsSince(DateAfter(n).year);
    }
  }

  lemma {:induction false} YearsSince(y: nat)
    requires y >= 2001
    ensures DaysBeforeYear(y) >= DaysBeforeYear(2001) + (y - 2001) * 365
    decreases y
  {
    if y > 2001 {
      YearsSince(y - 1);
      YearLength(y - 1);
    }
  }

  /** `APPLE_EPOCH + timedelta(microseconds=us)`. */
  function FromMicros(us: nat): DateTime {
    var seconds := us / 1000000;
    var date := DateAfter(seconds / 86400);
    DateTime(date.year, date.month, date.day, seconds / 3600 % 24, seconds / 60 % 60, seconds % 60, us % 1000000)
  }

  /** 2^51 microseconds reach into the year 2072, so four digits of year are enough. */
  const IN_RANGE: nat := 2251799813685248

  lemma {:induction false} FromMicrosIsInverse(us: nat)
    requires us <= IN_RANGE
    ensures ValidDateTime(FromMicros(us)) && Micros(FromMicros(us)) == us
  {
    var s := us / 1000000;
    DateAfterDays(s / 86400);
    ClockReads(s);
  }

  lemma {:induction false} ClockReads(s: nat)
    ensures s == ((s / 86400 * 24 + s / 3600 % 24) * 60 + s / 60 % 60) * 60 + s % 60
  {
    assert s / 60 / 60 == s / 3600;
    assert s / 3600 / 24 == s / 86400;
  }

  /** The text stored for an instant. */
  function Stamp(us: nat): string {
    Print(FromMicros(us))
  }

  lemma {:induction false} StampOrder(a: nat, b: nat)
    requires a <= IN_RANGE && b <= IN_RANGE
    ensures TextLess(Stamp(a), Stamp(b)) <==> a < b
    ensures Stamp(a) == Stamp(b) <==> a == b
  {
    FromMicrosIsInverse(a);
    FromMicrosIsInverse(b);
    TextOrderIsTimeOrder(FromMicros(a), FromMicros(b));
  }

  // ---------------------------------------------------------------- MAX over text

  predicate IsMaxText(s: set<string>, m: string) {
    m in s && forall x :: x in s ==> x == m || TextLess(x, m)
  }

  lemma {:induction false} MaxTextExists(s: set<string>)
    requires s != {}
    ensures exists m :: m in s && IsMaxText(s, m)
  {
    var x :| x in s;
    if s == {x} {
      assert IsMaxText(s, x);
    } else {
      MaxTextExists(s - {x});
      var m :| m in s - {x} && IsMaxText(s - {x}, m);
      TextOrderTotal(x, m);
      var best := if TextLess(m, x) then x else m;
      forall y | y in s ensures y == best || TextLess(y, best) {
        if y != x && y != m && TextLess(m, x) { TextOrderTransitive(y, m, x); }
      }
      assert IsMaxText(s, best);
    }
  }

  lemma {:induction false} MaxTextUnique(s: set<string>)
    ensures forall m, n :: IsMaxText(s, m) && IsMaxText(s, n) ==> m == n
  {
    forall m, n | IsMaxText(s, m) && IsMaxText(s, n) ensures m == n {
      TextOrderTotal(m, n);
    }
  }

  /** SQL's MAX over a text column; None over no rows. */
  function MaxText(s: set<string>): (m: Option<string>)
    ensures s == {} ==> m == None
    ensures s != {} ==> m.Some? && IsMaxText(s, m.value)
  {
    if s == {} then None else
      MaxTextExists(s);
      MaxTextUnique(s);
      var m :| m in s && IsMaxText(s, m);
      Some(m)
  }

  /** MAX(sent_at) over stamped instants is the stamp of the latest one. */
  lemma {:induction false} MaxTextIsLatest(instants: set<nat>, latest: nat)
    requires latest in instants
    requires forall u :: u in instants ==> u <= latest && u <= IN_RANGE
    ensures MaxText(set u | u in instants :: Stamp(u)) == Some(Stamp(latest))
    ensures Parse(Stamp(latest)) == Some(FromMicros(latest))
  {
    var texts := set u | u in instants :: Stamp(u);
    assert Stamp(latest) in texts;
    var m := MaxText(texts).value;
    var u :| u in instants && m == Stamp(u);
    StampOrder(u, latest);
    StampOrder(latest, u);
    TextOrderTotal(m, Stamp(latest));
    FromMicrosIsInverse(latest);
    ParseInvertsPrint(FromMicros(latest));
  }
}
