/** The text of a date, and the byte order on such texts as an order on points of time. */
module DateOrder {
  import opened Bits
  import opened GatewayWire

  // ----- the comparison of fixed-size strings

  /** A plain char compares as a signed number. */
  function CharValue(b: byte): int {
    if b < 0x80 then b else b - 0x100
  }

  /** Whether x comes after y: decided by the first difference. */
  predicate Greater(x: seq<byte>, y: seq<byte>)
    requires |x| == |y|
  {
    x != [] && if x[0] != y[0] then CharValue(x[0]) > CharValue(y[0]) else Greater(x[1..], y[1..])
  }

  method IsGreater(lhs: Date, rhs: Date) returns (r: bool)
    ensures r == Greater(lhs, rhs)
  {
    assert lhs[0..] == lhs && rhs[0..] == rhs;
    for i := 0 to DATE_SIZE
      invariant Greater(lhs[i..], rhs[i..]) == Greater(lhs, rhs)
    {
      if lhs[i] != rhs[i] {
        return CharValue(lhs[i]) > CharValue(rhs[i]);
      }
      assert lhs[i..][1..] == lhs[i + 1..] && rhs[i..][1..] == rhs[i + 1..];
    }
    r := false;
  }

  /** Of two strings one comes after the other, unless they are the same. */
  lemma {:induction false} GreaterTotal(x: seq<byte>, y: seq<byte>)
    requires |x| == |y|
    ensures Greater(x, y) ==> !Greater(y, x) && x != y
    ensures Greater(x, y) || Greater(y, x) || x == y
  {
    if x != [] {
      GreaterTotal(x[1..], y[1..]);
      assert x == [x[0]] + x[1..] && y == [y[0]] + y[1..];
    }
  }

  lemma {:induction false} GreaterTransitive(x: seq<byte>, y: seq<byte>, z: seq<byte>)
    requires |x| == |y| == |z| && Greater(x, y) && Greater(y, z)
    ensures Greater(x, z)
  {
    if x[0] == y[0] == z[0] {
      GreaterTransitive(x[1..], y[1..], z[1..]);
    }
  }

  /** The strings first differ at i, and x has there the greater byte, one from 0x80 up counting as negative. */
  predicate GreaterAt(x: seq<byte>, y: seq<byte>, i: nat) {
    i < |x| && i < |y| && x[..i] == y[..i] &&
    var a: int, b: int := x[i], y[i];
    (if a < 0x80 then a else a - 0x100) > if b < 0x80 then b else b - 0x100
  }

  lemma {:induction false} GreaterLater(x: seq<byte>, y: seq<byte>, i: nat)
    requires x != [] && y != [] && x[0] == y[0]
    ensures GreaterAt(x, y, i + 1) <==> GreaterAt(x[1..], y[1..], i)
  {
    if i + 1 < |x| && i + 1 < |y| {
      assert x[..i + 1] == [x[0]] + x[1..][..i] && y[..i + 1] == [y[0]] + y[1..][..i];
    }
  }

  lemma {:induction false} GreaterExactly(x: seq<byte>, y: seq<byte>)
    requires |x| == |y|
    ensures Greater(x, y) <==> exists i: nat :: GreaterAt(x, y, i)
  {
    if x != [] && x[0] == y[0] {
      GreaterExactly(x[1..], y[1..]);
      assert !GreaterAt(x, y, 0);
      if i: nat :| GreaterAt(x[1..], y[1..], i) {
        GreaterLater(x, y, i);
      }
      if i: nat :| GreaterAt(x, y, i) {
        GreaterLater(x, y, i - 1);
      }
    } else if Greater(x, y) {
      assert GreaterAt(x, y, 0);
    } else if x != [] {
      forall i: nat | i > 0 ensures !GreaterAt(x, y, i) {
        assert i <= |x| ==> x[..i][0] != y[..i][0];
      }
    }
  }

  lemma {:induction false} GreaterConcat(a: seq<byte>, b: seq<byte>, c: seq<byte>, d: seq<byte>)
    requires |a| == |b| && |c| == |d|
    ensures Greater(a + c, b + d) <==> Greater(a, b) || (a == b && Greater(c, d))
  {
    if a == [] {
      assert a + c == c && b + d == d;
    } else {
      assert (a + c)[1..] == a[1..] + c && (b + d)[1..] == b[1..] + d;
      GreaterConcat(a[1..], b[1..], c, d);
      assert a == [a[0]] + a[1..] && b == [b[0]] + b[1..];
    }
  }

  // ----- decimal fields

  function Power10(k: nat): (p: int)
    ensures p >= 1
  {
    if k == 0 then 1 else 10 * Power10(k - 1)
  }

  /** A number below 10 to the k in k decimal digits, zeros in front. */
  function Decimal(n: nat, k: nat): (text: seq<byte>)
    ensures |text| == k
    decreases k, n
  {
    if k == 0 then [] else Decimal(n / 10, k - 1) + [0x30 + n % 10]
  }

  lemma {:induction false} DecimalOrder(m: nat, n: nat, k: nat)
    requires m < Power10(k) && n < Power10(k)
    ensures Greater(Decimal(m, k), Decimal(n, k)) <==> m > n
    ensures Decimal(m, k) == Decimal(n, k) <==> m == n
    decreases k
  {
    if k > 0 {
      DecimalOrder(m / 10, n / 10, k - 1);
      var a, b := Decimal(m / 10, k - 1), Decimal(n / 10, k - 1);
      var c: seq<byte>, d: seq<byte> := [0x30 + m % 10], [0x30 + n % 10];
      GreaterConcat(a, b, c, d);
      LastDigit(m, n);
      assert a + c == b + d ==> a == b && c == d by {
        if a + c == b + d {
          assert a == (a + c)[..k - 1] && b == (b + d)[..k - 1] && c[0] == (a + c)[k - 1] && d[0] == (b + d)[k - 1];
        }
      }
    }
  }

  lemma {:induction false} LastDigit(m: nat, n: nat)
    ensures m > n <==> m / 10 > n / 10 || (m / 10 == n / 10 && m % 10 > n % 10)
    ensures m == n <==> m / 10 == n / 10 && m % 10 == n % 10
  {
  }

  /** A number, its width and what stands behind it. */
  datatype Field = Field(value: nat, width: nat, separator: seq<byte>)

  function FieldsText(fields: seq<Field>): seq<byte> {
    if fields == [] then []
    else Decimal(fields[0].value, fields[0].width) + fields[0].separator + FieldsText(fields[1..])
  }

  /** The same layout, every number within its width. */
  predicate Aligned(f: seq<Field>, g: seq<Field>) {
    && |f| == |g|
    && forall i :: 0 <= i < |f| ==>
      && f[i].width == g[i].width && f[i].separator == g[i].separator
      && f[i].value < Power10(f[i].width) && g[i].value < Power10(g[i].width)
  }

  predicate ValuesGreater(f: seq<Field>, g: seq<Field>)
    requires |f| == |g|
  {
    f != [] && if f[0].value != g[0].value then f[0].value > g[0].value else ValuesGreater(f[1..], g[1..])
  }

  lemma {:induction false} FieldsOrder(f: seq<Field>, g: seq<Field>)
    requires Aligned(f, g)
    ensures |FieldsText(f)| == |FieldsText(g)|
    ensures Greater(FieldsText(f), FieldsText(g)) <==> ValuesGreater(f, g)
  {
    if f != [] {
      FieldsOrder(f[1..], g[1..]);
      DecimalOrder(f[0].value, g[0].value, f[0].width);
      var a, b := Decimal(f[0].value, f[0].width), Decimal(g[0].value, g[0].width);
      var s := f[0].separator;
      GreaterConcat(a + s, b + s, FieldsText(f[1..]), FieldsText(g[1..]));
      GreaterConcat(a, b, s, s);
      GreaterTotal(s, s);
      assert a + s == b + s ==> a == b by {
        assert a == (a + s)[..|a|] && b == (b + s)[..|b|];
      }
    }
  }

  // ----- dates

  /** A broken-down local time. */
  datatype Time = Time(year: nat, month: nat, day: nat, hour: nat, minute: nat, second: nat)

  predicate ValidTime(t: Time) {
    && 1 <= t.month <= 12 && 1 <= t.day <= 31
    && t.hour < 24 && t.minute < 60 && t.second <= 60
  }

  /** Calendar order. */
  predicate After(t: Time, u: Time) {
    if t.year != u.year then t.year > u.year
    else if t.month != u.month then t.month > u.month
    else if t.day != u.day then t.day > u.day
    else if t.hour != u.hour then t.hour > u.hour
    else if t.minute != u.minute then t.minute > u.minute
    else t.second > u.second
  }

  /** A year takes four digits, or as many as it needs. */
  function YearWidth(year: nat): (k: nat)
    ensures k >= 4
  {
    if year <= 9999 then 4 else 1 + YearWidth(year / 10)
  }

  function Fields(t: Time): (f: seq<Field>)
    ensures |f| == 6
  {
    [Field(t.year, YearWidth(t.year), [0x2D]), Field(t.month, 2, [0x2D]), Field(t.day, 2, [0x20]),
     Field(t.hour, 2, [0x3A]), Field(t.minute, 2, [0x3A]), Field(t.second, 2, [])]
  }

  /** The time as YYYY-MM-DD HH:MM:SS. */
  function TimeToString(t: Time): seq<byte> {
    FieldsText(Fields(t))
  }

  function WidthsFrom(f: seq<Field>): nat {
    if f == [] then 0 else f[0].width + |f[0].separator| + WidthsFrom(f[1..])
  }

  lemma {:induction false} TextWidth(f: seq<Field>)
    ensures |FieldsText(f)| == WidthsFrom(f)
  {
    if f != [] {
      TextWidth(f[1..]);
    }
  }

  lemma {:induction false} FiveLeft(f: seq<Field>)
    requires |f| == 6
    ensures f[1..][1..] == f[2..] && f[2..][1..] == f[3..] && f[3..][1..] == f[4..]
    ensures f[4..][1..] == f[5..] && f[5..][1..] == []
  {
  }

  lemma {:induction false} TextLength(t: Time)
    ensures |TimeToString(t)| == YearWidth(t.year) + 15
  {
    var f := Fields(t);
    TextWidth(f);
    FiveLeft(f);
    assert WidthsFrom(f[5..]) == 2;
    assert WidthsFrom(f[4..]) == 5;
    assert WidthsFrom(f[3..]) == 8;
    assert WidthsFrom(f[2..]) == 11;
    assert WidthsFrom(f[1..]) == 14;
  }

  lemma {:induction false} TwoDigits(n: nat)
    requires n < 100
    ensures Decimal(n, 2) == [0x30 + n / 10, 0x30 + n % 10]
  {
    assert Decimal(n / 10, 1) == Decimal(n / 10 / 10, 0) + [0x30 + n / 10 % 10];
  }

  lemma {:induction false} FourDigits(n: nat)
    requires n <= 9999
    ensures Decimal(n, 4) == [0x30 + n / 1000, 0x30 + n / 100 % 10, 0x30 + n / 10 % 10, 0x30 + n % 10]
  {
    TwoDigits(n / 100);
    assert n / 10 / 10 == n / 100;
    assert Decimal(n, 4) == Decimal(n / 10, 3) + [0x30 + n % 10];
    assert Decimal(n / 10, 3) == Decimal(n / 100, 2) + [0x30 + n / 10 % 10];
  }

  lemma {:induction false} TextParts(t: Time)
    ensures TimeToString(t) ==
            Decimal(t.year, YearWidth(t.year)) + [0x2D] + Decimal(t.month, 2) + [0x2D] + Decimal(t.day, 2) + [0x20] +
            Decimal(t.hour, 2) + [0x3A] + Decimal(t.minute, 2) + [0x3A] + Decimal(t.second, 2)
  {
    var f := Fields(t);
    FiveLeft(f);
    assert FieldsText(f[5..]) == Decimal(t.second, 2);
    assert FieldsText(f[4..]) == Decimal(t.minute, 2) + [0x3A] + FieldsText(f[5..]);
    assert FieldsText(f[3..]) == Decimal(t.hour, 2) + [0x3A] + FieldsText(f[4..]);
    assert FieldsText(f[2..]) == Decimal(t.day, 2) + [0x20] + FieldsText(f[3..]);
    assert FieldsText(f[1..]) == Decimal(t.month, 2) + [0x2D] + FieldsText(f[2..]);
    assert FieldsText(f) == Decimal(t.year, YearWidth(t.year)) + [0x2D] + FieldsText(f[1..]);
  }

  /** A year has four digits, or so many that its first is not zero. */
  lemma {:induction false} YearWidthIs(year: nat)
    ensures var k := YearWidth(year); year < Power10(k) && (k > 4 ==> year >= Power10(k - 1))
  {
    assert Power10(4) == 10000;
    if year > 9999 {
      YearWidthIs(year / 10);
    }
  }

  /** The text of a time with a year of four digits, digit by digit. */
  lemma {:induction false} TextSpelled(t: Time)
    requires ValidTime(t) && t.year <= 9999
    ensures TimeToString(t) ==
            [0x30 + t.year / 1000, 0x30 + t.year / 100 % 10, 0x30 + t.year / 10 % 10, 0x30 + t.year % 10] + [0x2D] +
            [0x30 + t.month / 10, 0x30 + t.month % 10] + [0x2D] + [0x30 + t.day / 10, 0x30 + t.day % 10] + [0x20] +
            [0x30 + t.hour / 10, 0x30 + t.hour % 10] + [0x3A] + [0x30 + t.minute / 10, 0x30 + t.minute % 10] + [0x3A] +
            [0x30 + t.second / 10, 0x30 + t.second % 10]
  {
    TextParts(t);
    FourDigits(t.year);
    TwoDigits(t.month);
    TwoDigits(t.day);
    TwoDigits(t.hour);
    TwoDigits(t.minute);
    TwoDigits(t.second);
  }

  /** The 20 bytes of a date: the text and the zero behind it, or what of a longer text there is room for. */
  function DateOf(t: Time): Date {
    TextLength(t);
    (TimeToString(t) + [0])[..DATE_SIZE]
  }

  /** The copying loop of BindParams: reading one past the end of a string gives a zero byte. */
  method FillDate(bulk: array<byte>, t: Time)
    requires bulk.Length == DATE_SIZE
    modifies bulk
    ensures bulk[..] == DateOf(t)
  {
    var text := TimeToString(t);
    TextLength(t);
    for i := 0 to DATE_SIZE
      invariant bulk[..i] == DateOf(t)[..i]
    {
      bulk[i] := if i < |text| then text[i] else 0;
    }
  }

  /** The order of six values, spelled out. */
  predicate SixGreater(f: seq<Field>, g: seq<Field>)
    requires |f| == |g| == 6
  {
    if f[0].value != g[0].value then f[0].value > g[0].value
    else if f[1].value != g[1].value then f[1].value > g[1].value
    else if f[2].value != g[2].value then f[2].value > g[2].value
    else if f[3].value != g[3].value then f[3].value > g[3].value
    else if f[4].value != g[4].value then f[4].value > g[4].value
    else f[5].value > g[5].value
  }

  lemma {:induction false} SixFields(f: seq<Field>, g: seq<Field>)
    requires |f| == |g| == 6
    ensures ValuesGreater(f, g) <==> SixGreater(f, g)
  {
    FiveLeft(f);
    FiveLeft(g);
    assert ValuesGreater(f[5..], g[5..]) <==> f[5].value > g[5].value;
    assert ValuesGreater(f[4..], g[4..]) <==>
        if f[4].value != g[4].value then f[4].value > g[4].value else ValuesGreater(f[5..], g[5..]);
    assert ValuesGreater(f[3..], g[3..]) <==>
        if f[3].value != g[3].value then f[3].value > g[3].value else ValuesGreater(f[4..], g[4..]);
    assert ValuesGreater(f[2..], g[2..]) <==>
        if f[2].value != g[2].value then f[2].value > g[2].value else ValuesGreater(f[3..], g[3..]);
    assert ValuesGreater(f[1..], g[1..]) <==>
        if f[1].value != g[1].value then f[1].value > g[1].value else ValuesGreater(f[2..], g[2..]);
  }

  lemma {:induction false} YearFits(year: nat)
    ensures year < Power10(YearWidth(year))
  {
    assert Power10(4) == 10000;
    if year > 9999 {
      YearFits(year / 10);
    }
  }

  lemma {:induction false} FieldsAligned(t: Time, u: Time)
    requires ValidTime(t) && ValidTime(u) && YearWidth(t.year) == YearWidth(u.year)
    ensures Aligned(Fields(t), Fields(u))
  {
    YearFits(t.year);
    YearFits(u.year);
    assert Power10(2) == 100;
  }

  lemma {:induction false} CalendarOrder(t: Time, u: Time)
    ensures ValuesGreater(Fields(t), Fields(u)) <==> After(t, u)
  {
    SixFields(Fields(t), Fields(u));
  }

  // ----- what of a text fits into n characters

  /** A number without its last k digits. */
  function Top(n: nat, k: nat): nat
    decreases k, n
  {
    if k == 0 then n else Top(n / 10, k - 1)
  }

  lemma {:induction false} TopDigits(n: nat, j: nat, k: nat)
    ensures Decimal(n, j + k)[..j] == Decimal(Top(n, k), j)
    ensures n < Power10(j + k) ==> Top(n, k) < Power10(j)
    decreases k
  {
    if k == 0 {
      assert Decimal(n, j)[..j] == Decimal(n, j);
    } else {
      TopDigits(n / 10, j, k - 1);
      assert Decimal(n, j + k)[..j] == Decimal(n / 10, j + k - 1)[..j];
    }
  }

  lemma {:induction false} TopOrder(m: nat, n: nat, k: nat)
    ensures Top(m, k) > Top(n, k) ==> m > n
    decreases k
  {
    if k > 0 {
      TopOrder(m / 10, n / 10, k - 1);
    }
  }

  /** How many of n characters a field takes. */
  function Taken(r: Field, n: nat): (k: nat)
    ensures k <= n
  {
    if r.width + |r.separator| <= n then r.width + |r.separator| else n
  }

  /** A field cut short to n characters. */
  function Cut(r: Field, n: nat): (q: Field)
    ensures q.width + |q.separator| == Taken(r, n)
  {
    if r.width + |r.separator| <= n then r
    else if r.width <= n then r.(separator := r.separator[..n - r.width])
    else Field(Top(r.value, r.width - n), n, [])
  }

  /** The fields of the first n characters: whole ones, at most one cut short, and empty ones behind. */
  function Fit(f: seq<Field>, n: nat): (g: seq<Field>)
    ensures |g| == |f|
  {
    if f == [] then [] else [Cut(f[0], n)] + Fit(f[1..], n - Taken(f[0], n))
  }

  lemma {:induction false} CutText(r: Field, n: nat)
    ensures var whole, q := Decimal(r.value, r.width) + r.separator, Cut(r, n);
            Decimal(q.value, q.width) + q.separator == whole[..Taken(r, n)]
  {
    if n < r.width {
      TopDigits(r.value, n, r.width - n);
    }
  }

  lemma {:induction false} PrefixOfTwo(x: seq<byte>, y: seq<byte>, n: nat)
    ensures var k := if |x| <= n then |x| else n;
            x[..k] + (if n - k <= |y| then y[..n - k] else y) == if n <= |x + y| then (x + y)[..n] else x + y
  {
  }

  lemma {:induction false} FitText(f: seq<Field>, n: nat)
    ensures FieldsText(Fit(f, n)) == if n <= |FieldsText(f)| then FieldsText(f)[..n] else FieldsText(f)
    decreases |f|
  {
    if f != [] {
      var k, g, q := Taken(f[0], n), Fit(f, n), Cut(f[0], n);
      CutText(f[0], n);
      FitText(f[1..], n - k);
      assert g[0] == q && g[1..] == Fit(f[1..], n - k);
      PrefixOfTwo(Decimal(f[0].value, f[0].width) + f[0].separator, FieldsText(f[1..]), n);
    }
  }

  lemma {:induction false} CutAligned(r: Field, q: Field, n: nat)
    requires r.width == q.width && r.separator == q.separator
    requires r.value < Power10(r.width) && q.value < Power10(q.width)
    ensures var x, y := Cut(r, n), Cut(q, n);
            && x.width == y.width && x.separator == y.separator
            && x.value < Power10(x.width) && y.value < Power10(y.width)
            && (x.value > y.value ==> r.value > q.value)
  {
    if n < r.width {
      TopDigits(r.value, n, r.width - n);
      TopDigits(q.value, n, r.width - n);
      TopOrder(r.value, q.value, r.width - n);
    }
  }

  lemma {:induction false} AlignedFirst(f: seq<Field>, g: seq<Field>)
    requires f != [] && g != [] && Aligned([f[0]], [g[0]]) && Aligned(f[1..], g[1..])
    ensures Aligned(f, g)
  {
    var x, y := [f[0]], [g[0]];
    assert x[0].width == y[0].width && x[0].separator == y[0].separator;
    forall i | 0 < i < |f| ensures f[i] == f[1..][i - 1] && g[i] == g[1..][i - 1] {
    }
  }

  lemma {:induction false} FitAligned(f: seq<Field>, g: seq<Field>, n: nat)
    requires Aligned(f, g)
    ensures Aligned(Fit(f, n), Fit(g, n))
    decreases |f|
  {
    if f != [] {
      var x, y, k := Fit(f, n), Fit(g, n), Taken(f[0], n);
      CutAligned(f[0], g[0], n);
      FitAligned(f[1..], g[1..], n - k);
      assert x[0] == Cut(f[0], n) && x[1..] == Fit(f[1..], n - k);
      assert y[0] == Cut(g[0], n) && y[1..] == Fit(g[1..], n - k);
      AlignedFirst(x, y);
    }
  }

  lemma {:induction false} NothingFits(f: seq<Field>, g: seq<Field>)
    requires Aligned(f, g)
    ensures !ValuesGreater(Fit(f, 0), Fit(g, 0))
    decreases |f|
  {
    if f != [] {
      NothingFits(f[1..], g[1..]);
      CutAligned(f[0], g[0], 0);
      var x, y := Fit(f, 0), Fit(g, 0);
      assert x[0] == Cut(f[0], 0) && y[0] == Cut(g[0], 0) && x[0].width == 0;
      assert x[1..] == Fit(f[1..], 0) && y[1..] == Fit(g[1..], 0);
    }
  }

  /** What fits never contradicts the whole. */
  lemma {:induction false} FitOrder(f: seq<Field>, g: seq<Field>, n: nat)
    requires Aligned(f, g) && ValuesGreater(Fit(f, n), Fit(g, n))
    ensures ValuesGreater(f, g)
    decreases |f|
  {
    var x, y, k := Fit(f, n), Fit(g, n), Taken(f[0], n);
    assert x[0] == Cut(f[0], n) && y[0] == Cut(g[0], n);
    assert x[1..] == Fit(f[1..], n - k) && y[1..] == Fit(g[1..], n - k);
    CutAligned(f[0], g[0], n);
    if x[0].value == y[0].value {
      if Cut(f[0], n) == f[0] {
        FitOrder(f[1..], g[1..], n - k);
      } else {
        NothingFits(f[1..], g[1..]);
      }
    }
  }

  // ----- the order of dates

  function Values(f: seq<Field>): (v: seq<nat>)
    ensures |v| == |f| && forall i :: 0 <= i < |f| ==> v[i] == f[i].value
  {
    seq(|f|, i requires 0 <= i < |f| => f[i].value)
  }

  lemma {:induction false} ValuesTotal(f: seq<Field>, g: seq<Field>)
    requires |f| == |g|
    ensures ValuesGreater(f, g) || ValuesGreater(g, f) <==> Values(f) != Values(g)
    ensures !(ValuesGreater(f, g) && ValuesGreater(g, f))
    decreases |f|
  {
    if f == [] {
      assert Values(f) == Values(g);
    } else {
      ValuesTotal(f[1..], g[1..]);
      assert Values(f) == [f[0].value] + Values(f[1..]) && Values(g) == [g[0].value] + Values(g[1..]);
    }
  }

  /** What of the year, month, day, hour, minute and second is left in the 20 bytes. */
  function Kept(t: Time): (v: seq<nat>)
    ensures |v| == 6
  {
    Values(Fit(Fields(t), DATE_SIZE))
  }

  /** The 20 bytes are the text of what fits, and a zero behind a year of four digits. */
  lemma {:induction false} DateIsFit(t: Time)
    ensures DateOf(t) == FieldsText(Fit(Fields(t), DATE_SIZE)) + if t.year <= 9999 then [0] else []
  {
    TextLength(t);
    FitText(Fields(t), DATE_SIZE);
  }

  lemma {:induction false} GreaterAppend(x: seq<byte>, y: seq<byte>, z: seq<byte>)
    requires |x| == |y|
    ensures Greater(x + z, y + z) <==> Greater(x, y)
  {
    GreaterConcat(x, y, z, z);
    GreaterTotal(z, z);
  }

  /** For years of as many digits, byte order is the order of what is left, and never contradicts the calendar. */
  lemma {:induction false} SameWidthOrder(t: Time, u: Time)
    requires ValidTime(t) && ValidTime(u) && YearWidth(t.year) == YearWidth(u.year)
    ensures Greater(DateOf(t), DateOf(u)) ==> After(t, u)
    ensures Greater(DateOf(t), DateOf(u)) || Greater(DateOf(u), DateOf(t)) <==> Kept(t) != Kept(u)
  {
    var f, g := Fit(Fields(t), DATE_SIZE), Fit(Fields(u), DATE_SIZE);
    FieldsAligned(t, u);
    FieldsAligned(u, t);
    FitAligned(Fields(t), Fields(u), DATE_SIZE);
    FitAligned(Fields(u), Fields(t), DATE_SIZE);
    FieldsOrder(f, g);
    FieldsOrder(g, f);
    DateIsFit(t);
    DateIsFit(u);
    GreaterAppend(FieldsText(f), FieldsText(g), if t.year <= 9999 then [0] else []);
    GreaterAppend(FieldsText(g), FieldsText(f), if t.year <= 9999 then [0] else []);
    ValuesTotal(f, g);
    if ValuesGreater(f, g) {
      FitOrder(Fields(t), Fields(u), DATE_SIZE);
    }
    CalendarOrder(t, u);
  }

  /** A year of more digits is compared by as many of them as the other has. */
  lemma {:induction false} LongerYearOrder(t: Time, u: Time)
    requires YearWidth(t.year) > YearWidth(u.year) && YearWidth(u.year) < DATE_SIZE
    ensures var top := Top(t.year, YearWidth(t.year) - YearWidth(u.year));
            && (Greater(DateOf(t), DateOf(u)) <==> top >= u.year)
            && (Greater(DateOf(u), DateOf(t)) <==> top < u.year)
  {
    var j, k := YearWidth(u.year), YearWidth(t.year) - YearWidth(u.year);
    var top := Top(t.year, k);
    YearFits(t.year);
    YearFits(u.year);
    TopDigits(t.year, j, k);
    DecimalOrder(top, u.year, j);
    var x, y := DateOf(t), DateOf(u);
    YearInFront(t, j);
    YearInFront(u, j);
    assert x == x[..j] + x[j..] && y == y[..j] + y[j..];
    assert Decimal(u.year, j)[..j] == Decimal(u.year, j);
    GreaterConcat(x[..j], y[..j], x[j..], y[j..]);
    GreaterTotal(x, y);
  }

  lemma {:induction false} DigitAt(n: nat, k: nat, j: nat)
    requires j < k
    ensures 0x30 <= Decimal(n, k)[j] <= 0x39
    decreases k
  {
    if j < k - 1 {
      DigitAt(n / 10, k - 1, j);
    }
  }

  /** The date begins with the year's digits; behind them stands a hyphen. */
  lemma {:induction false} YearInFront(t: Time, j: nat)
    requires j <= YearWidth(t.year) && j < DATE_SIZE
    ensures DateOf(t)[..j] == Decimal(t.year, YearWidth(t.year))[..j]
    ensures if j < YearWidth(t.year) then 0x30 <= DateOf(t)[j] <= 0x39 else DateOf(t)[j] == 0x2D
  {
    var year, f := Decimal(t.year, YearWidth(t.year)), Fields(t);
    TextLength(t);
    assert TimeToString(t) == year + [0x2D] + FieldsText(f[1..]);
    if j < YearWidth(t.year) {
      DigitAt(t.year, YearWidth(t.year), j);
    }
  }

  /** Byte order on the two dates is calendar order, both ways. */
  predicate OrderKept(t: Time, u: Time) {
    (Greater(DateOf(t), DateOf(u)) <==> After(t, u)) && (Greater(DateOf(u), DateOf(t)) <==> After(u, t))
  }

  lemma {:induction false} AfterTotal(t: Time, u: Time)
    ensures After(t, u) || After(u, t) <==> t != u
    ensures !(After(t, u) && After(u, t))
  {
  }

  lemma {:induction false} MoreDigitsIsLater(m: nat, n: nat)
    requires YearWidth(m) > YearWidth(n)
    ensures m > n
    decreases m
  {
    if n > 9999 {
      MoreDigitsIsLater(m / 10, n / 10);
    }
  }

  /**
   * The order is kept exactly if years of as many digits leave the two times distinguishable, or the longer year, cut
   * to the digits of the shorter, is not below it. Years of 20 digits and more have no room at all.
   */
  lemma {:induction false} OrderKeptExactly(t: Time, u: Time)
    requires ValidTime(t) && ValidTime(u) && YearWidth(t.year) < DATE_SIZE && YearWidth(u.year) < DATE_SIZE
    ensures OrderKept(t, u) <==>
            var j, k := YearWidth(t.year), YearWidth(u.year);
            if j == k then Kept(t) == Kept(u) ==> t == u
            else if j > k then Top(t.year, j - k) >= u.year
            else Top(u.year, k - j) >= t.year
  {
    var j, k := YearWidth(t.year), YearWidth(u.year);
    GreaterTotal(DateOf(t), DateOf(u));
    GreaterTotal(DateOf(u), DateOf(t));
    AfterTotal(t, u);
    if j == k {
      SameWidthOrder(t, u);
      SameWidthOrder(u, t);
    } else if j > k {
      LongerYearOrder(t, u);
      MoreDigitsIsLater(t.year, u.year);
    } else {
      LongerYearOrder(u, t);
      MoreDigitsIsLater(u.year, t.year);
    }
  }

  lemma {:induction false} LastWithin(f: seq<Field>)
    requires f != []
    ensures f[|f| - 1].width + |f[|f| - 1].separator| <= WidthsFrom(f)
    decreases |f|
  {
    if |f| > 1 {
      LastWithin(f[1..]);
    }
  }

  /** If the fields before the last fill the space, nothing of the last is left. */
  lemma {:induction false} LastLeftOut(f: seq<Field>, n: nat)
    requires f != [] && Aligned(f, f)
    requires n + f[|f| - 1].width + |f[|f| - 1].separator| <= WidthsFrom(f)
    ensures Fit(f, n)[|f| - 1].value == 0
    decreases |f|
  {
    if |f| == 1 {
      assert f[1..] == [] && n == 0;
      CutAligned(f[0], f[0], 0);
      assert Fit(f, 0)[0] == Cut(f[0], 0);
    } else {
      LastWithin(f[1..]);
      LastLeftOut(f[1..], n - Taken(f[0], n));
    }
  }

  /** Up to six digits of the year, all that precedes the seconds is left. */
  lemma {:induction false} SecondsCut(t: Time)
    requires YearWidth(t.year) <= 6
    ensures var f := Fields(t);
            Fit(f, DATE_SIZE) == f[..5] + Fit(f[5..], 7 - YearWidth(t.year))
  {
    var f, n := Fields(t), DATE_SIZE - YearWidth(t.year);
    FiveLeft(f);
    var last := Fit(f[5..], n - 13);
    assert Fit(f[4..], n - 10) == [f[4]] + last;
    assert Fit(f[3..], n - 7) == [f[3]] + ([f[4]] + last);
    assert Fit(f[2..], n - 4) == [f[2]] + ([f[3]] + ([f[4]] + last));
    assert Fit(f[1..], n - 1) == [f[1]] + ([f[2]] + ([f[3]] + ([f[4]] + last)));
    assert Fit(f, DATE_SIZE) == [f[0]] + ([f[1]] + ([f[2]] + ([f[3]] + ([f[4]] + last))));
  }

  /** What is left: everything up to five digits of the year, the seconds in tens for six, no seconds for more. */
  lemma {:induction false} KeptOf(t: Time)
    requires ValidTime(t)
    ensures var all := [t.year, t.month, t.day, t.hour, t.minute, t.second];
            && (YearWidth(t.year) <= 5 ==> Kept(t) == all)
            && (YearWidth(t.year) == 6 ==> Kept(t) == all[5 := t.second / 10])
            && (YearWidth(t.year) >= 7 ==> Kept(t)[5] == 0)
  {
    var f, w := Fields(t), YearWidth(t.year);
    if w <= 6 {
      SecondsCut(t);
      assert f[5..] == [f[5]] && Top(t.second, 1) == t.second / 10;
    } else {
      FieldsAligned(t, t);
      TextWidth(f);
      TextLength(t);
      LastLeftOut(f, DATE_SIZE);
    }
  }

  /** For years up to 9999, the format's four digits, byte order on dates is calendar order. */
  lemma {:induction false} DatesFollowTheCalendar(t: Time, u: Time)
    requires ValidTime(t) && ValidTime(u) && t.year <= 9999 && u.year <= 9999
    ensures Greater(DateOf(t), DateOf(u)) <==> After(t, u)
    ensures DateOf(t) == DateOf(u) <==> t == u
  {
    OrderKeptExactly(t, u);
    KeptOf(t);
    KeptOf(u);
    GreaterTotal(DateOf(t), DateOf(u));
    AfterTotal(t, u);
  }

  /** Five digits against four: a date that sorts before an earlier one. */
  lemma {:induction false} LongYearSortsFirst()
    ensures var t, u := Time(10000, 1, 1, 0, 0, 0), Time(9999, 1, 1, 0, 0, 0);
            After(t, u) && Greater(DateOf(u), DateOf(t))
  {
  }
}
