/** `iso_from_ms` of backend/src/config.rs: text that sorts as time does. */
module IsoText {
  import opened Bytes
  import opened Numerals
  import opened JsonValue
  import opened Calendar

  const DAY := 86_400_000

  // ==== padded numerals ====

  function Zeros(n: nat): (z: Text)
    ensures |z| == n
  {
    seq(n, _ => '0')
  }

  /** `{:0w}` for a number that is not negative. */
  function Padded(n: nat, w: nat): Text {
    var s := Decimal(n);
    if |s| < w then Zeros(w - |s|) + s else s
  }

  /** `{:04}`: the sign counts as one place. */
  function PaddedYear(y: int): Text {
    if y < 0 then "-" + Padded(-y, 3) else Padded(y, 4)
  }

  function TenTo(w: nat): (p: nat)
    ensures p > 0
  {
    if w == 0 then 1 else 10 * TenTo(w - 1)
  }

  /** The last `w` digits of a number. */
  function Digits(n: nat, w: nat): (d: Text)
    ensures |d| == w
    decreases w
  {
    if w == 0 then [] else Digits(n / 10, w - 1) + [LowerHexDigit(n % 10)]
  }

  lemma {:induction false} DigitsOfZero(w: nat)
    ensures Digits(0, w) == Zeros(w)
  {
    if w > 0 {
      DigitsOfZero(w - 1);
    }
  }

  lemma {:induction false} DecimalDigits(n: nat, w: nat)
    requires n < TenTo(w) && w > 0
    ensures |Decimal(n)| <= w && Digits(n, w) == Zeros(w - |Decimal(n)|) + Decimal(n)
    decreases w
  {
    if n < 10 {
      DigitsOfZero(w - 1);
    } else {
      DecimalDigits(n / 10, w - 1);
      var front := Decimal(n / 10);
      assert Decimal(n) == front + [LowerHexDigit(n % 10)];
      Assoc(Zeros(w - 1 - |front|), front, [LowerHexDigit(n % 10)]);
    }
  }

  lemma PaddedIsDigits(n: nat, w: nat)
    requires n < TenTo(w) && w > 0
    ensures Padded(n, w) == Digits(n, w)
  {
    hide Decimal, Digits;
    DecimalDigits(n, w);
    NilLeft(Decimal(n));
    assert Zeros(0) == [];
  }

  // ==== order of text ====

  lemma {:induction false} BeforeFront(a: Text, b: Text, x: Text, y: Text)
    requires |a| == |b| && Before(a, b)
    ensures Before(a + x, b + y)
  {
    assert (a + x)[0] == a[0] && (b + y)[0] == b[0];
    if a[0] == b[0] {
      BeforeFront(a[1..], b[1..], x, y);
      assert (a + x)[1..] == a[1..] + x && (b + y)[1..] == b[1..] + y;
    }
  }

  lemma {:induction false} BeforeBack(a: Text, x: Text, y: Text)
    requires Before(x, y)
    ensures Before(a + x, a + y)
  {
    if a == [] {
      NilLeft(x);
      NilLeft(y);
    } else {
      BeforeBack(a[1..], x, y);
      assert (a + x)[1..] == a[1..] + x && (a + y)[1..] == a[1..] + y;
    }
  }

  lemma DigitOrder(x: int, y: int)
    requires 0 <= x < y < 10
    ensures Before([LowerHexDigit(x)], [LowerHexDigit(y)])
  {
  }

  lemma {:induction false} DigitsOrder(n: nat, m: nat, w: nat)
    requires n < m < TenTo(w)
    ensures Before(Digits(n, w), Digits(m, w))
    decreases w
  {
    hide Before, LowerHexDigit;
    if n / 10 < m / 10 {
      DigitsOrder(n / 10, m / 10, w - 1);
      BeforeFront(Digits(n / 10, w - 1), Digits(m / 10, w - 1), [LowerHexDigit(n % 10)], [LowerHexDigit(m % 10)]);
    } else {
      DigitOrder(n % 10, m % 10);
      BeforeBack(Digits(n / 10, w - 1), [LowerHexDigit(n % 10)], [LowerHexDigit(m % 10)]);
    }
  }

  /** A numeral of fixed width and the byte after it. */
  datatype Part = Part(value: nat, width: nat, end: Byte)

  predicate IsPart(p: Part) {
    p.width > 0 && p.value < TenTo(p.width)
  }

  function Join(parts: seq<Part>): Text {
    if parts == [] then [] else Padded(parts[0].value, parts[0].width) + ([parts[0].end] + Join(parts[1..]))
  }

  predicate SameShape(a: seq<Part>, b: seq<Part>) {
    && |a| == |b|
    && forall i :: 0 <= i < |a| ==> IsPart(a[i]) && IsPart(b[i]) && a[i].width == b[i].width && a[i].end == b[i].end
  }

  predicate Less(a: seq<Part>, b: seq<Part>) {
    && a != [] && b != []
    && (a[0].value < b[0].value || (a[0].value == b[0].value && Less(a[1..], b[1..])))
  }

  lemma {:induction false} JoinOrder(a: seq<Part>, b: seq<Part>)
    requires SameShape(a, b) && Less(a, b)
    ensures Before(Join(a), Join(b))
  {
    hide Before, Padded, TenTo;
    var p, q := a[0], b[0];
    PaddedIsDigits(p.value, p.width);
    PaddedIsDigits(q.value, q.width);
    if p.value < q.value {
      DigitsOrder(p.value, q.value, p.width);
      BeforeFront(Padded(p.value, p.width), Padded(q.value, q.width), [p.end] + Join(a[1..]), [q.end] + Join(b[1..]));
    } else {
      JoinOrder(a[1..], b[1..]);
      BeforeBack([p.end], Join(a[1..]), Join(b[1..]));
      BeforeBack(Padded(p.value, p.width), [p.end] + Join(a[1..]), [q.end] + Join(b[1..]));
    }
  }

  // ==== instants ====

  /** The parts after the year, from the month to the milliseconds. */
  function TailParts(d: Date, rest: nat): seq<Part>
    requires IsDate(d) && rest < DAY
  {
    var secs := rest / 1000;
    [Part(d.month, 2, '-'), Part(d.day, 2, 'T'), Part(secs / 3600, 2, ':'), Part(secs % 3600 / 60, 2, ':'),
     Part(secs % 60, 2, '.'), Part(rest % 1000, 3, 'Z')]
  }

  /** `iso_from_ms` */
  function IsoFromMs(ms: int): Text {
    var d := CivilFromDays(ms / DAY);
    CivilIsDate(ms / DAY);
    PaddedYear(d.year) + ("-" + Join(TailParts(d, ms % DAY)))
  }

  predicate HasFourDigitYear(ms: int) {
    0 <= CivilFromDays(ms / DAY).year <= 9999
  }

  function AllParts(ms: int): seq<Part>
    requires HasFourDigitYear(ms)
  {
    var d := CivilFromDays(ms / DAY);
    CivilIsDate(ms / DAY);
    [Part(d.year, 4, '-')] + TailParts(d, ms % DAY)
  }

  lemma IsoIsJoin(ms: int)
    requires HasFourDigitYear(ms)
    ensures IsoFromMs(ms) == Join(AllParts(ms))
  {
    hide CivilFromDays, TailParts, Padded, IsDate;
    var d := CivilFromDays(ms / DAY);
    CivilIsDate(ms / DAY);
    var parts := AllParts(ms);
    assert parts[1..] == TailParts(d, ms % DAY);
  }

  lemma TailShape(d: Date, rest: nat)
    requires IsDate(d) && rest < DAY
    ensures forall i :: 0 <= i < 6 ==> IsPart(TailParts(d, rest)[i])
  {
    assert TenTo(2) == 100 && TenTo(3) == 1000;
  }

  lemma PartsShape(a: int, b: int)
    requires HasFourDigitYear(a) && HasFourDigitYear(b)
    ensures SameShape(AllParts(a), AllParts(b))
  {
    hide CivilFromDays, IsDate, TenTo;
    CivilIsDate(a / DAY);
    CivilIsDate(b / DAY);
    TailShape(CivilFromDays(a / DAY), a % DAY);
    TailShape(CivilFromDays(b / DAY), b % DAY);
    YearFits(CivilFromDays(a / DAY).year);
    YearFits(CivilFromDays(b / DAY).year);
  }

  lemma YearFits(y: int)
    requires 0 <= y <= 9999
    ensures y < TenTo(4)
  {
    assert TenTo(4) == 10 * TenTo(3) && TenTo(3) == 1000;
  }

  /** Order of the clock parts is order within the day. */
  lemma ClockOrder(x: nat, y: nat)
    requires x < y < DAY
    ensures var s, t := x / 1000, y / 1000;
      || s / 3600 < t / 3600
      || (s / 3600 == t / 3600 && s % 3600 / 60 < t % 3600 / 60)
      || (s / 3600 == t / 3600 && s % 3600 / 60 == t % 3600 / 60 && s % 60 < t % 60)
      || (s / 3600 == t / 3600 && s % 3600 / 60 == t % 3600 / 60 && s % 60 == t % 60 && x % 1000 < y % 1000)
  {
    var s, t := x / 1000, y / 1000;
    assert s < t || (s == t && x % 1000 < y % 1000);
    if s < t {
      HourOrder(s, t);
    }
  }

  lemma HourOrder(s: nat, t: nat)
    requires s < t
    ensures s / 3600 < t / 3600
      || (s / 3600 == t / 3600 && s % 3600 / 60 < t % 3600 / 60)
      || (s / 3600 == t / 3600 && s % 3600 / 60 == t % 3600 / 60 && s % 60 < t % 60)
  {
    assert s / 3600 < t / 3600 || (s / 3600 == t / 3600 && s % 3600 < t % 3600);
    if s % 3600 < t % 3600 {
      MinuteOrder(s % 3600, t % 3600);
      MinuteRest(s);
      MinuteRest(t);
    }
  }

  lemma MinuteOrder(s: nat, t: nat)
    requires s < t
    ensures s / 60 < t / 60 || (s / 60 == t / 60 && s % 60 < t % 60)
  {
  }

  lemma MinuteRest(s: nat)
    ensures s % 3600 % 60 == s % 60
  {
  }

  lemma ListOrder(a: seq<Part>, b: seq<Part>, k: nat)
    requires |a| == |b| && k < |a| && a[k].value < b[k].value
    requires forall i :: 0 <= i < k ==> a[i].value == b[i].value
    ensures Less(a, b)
    decreases k
  {
    if k > 0 {
      ListOrder(a[1..], b[1..], k - 1);
    }
  }

  lemma EarlierParts(a: int, b: int)
    requires HasFourDigitYear(a) && HasFourDigitYear(b) && a < b
    ensures Less(AllParts(a), AllParts(b))
  {
    hide CivilFromDays, IsDate, Less;
    var x, y := AllParts(a), AllParts(b);
    CivilIsDate(a / DAY);
    CivilIsDate(b / DAY);
    if a / DAY < b / DAY {
      CivilOrder(a / DAY, b / DAY);
      ListOrder(x, y, if x[0].value < y[0].value then 0 else if x[1].value < y[1].value then 1 else 2);
    } else {
      ClockOrder(a % DAY, b % DAY);
      ListOrder(x, y,
        if x[3].value < y[3].value then 3 else if x[4].value < y[4].value then 4
        else if x[5].value < y[5].value then 5 else 6);
    }
  }

  lemma IsoForward(a: int, b: int)
    requires HasFourDigitYear(a) && HasFourDigitYear(b) && a < b
    ensures Before(IsoFromMs(a), IsoFromMs(b))
  {
    hide Join, Before, Less, SameShape, IsoFromMs, AllParts, HasFourDigitYear;
    IsoIsJoin(a);
    IsoIsJoin(b);
    PartsShape(a, b);
    EarlierParts(a, b);
    JoinOrder(AllParts(a), AllParts(b));
  }

  /** For the years 0 to 9999, byte order of the text is order of the instants. */
  lemma IsoOrder(a: int, b: int)
    requires HasFourDigitYear(a) && HasFourDigitYear(b)
    ensures a < b <==> Before(IsoFromMs(a), IsoFromMs(b))
  {
    hide Before, IsoFromMs, HasFourDigitYear;
    if a < b {
      IsoForward(a, b);
    } else {
      BeforeIrreflexive(IsoFromMs(a));
      if b < a {
        IsoForward(b, a);
        if Before(IsoFromMs(a), IsoFromMs(b)) {
          BeforeTransitive(IsoFromMs(a), IsoFromMs(b), IsoFromMs(a));
        }
      }
    }
  }

  /** Those years are a range of instants. */
  lemma FourDigitYears(ms: int)
    ensures HasFourDigitYear(ms) <==> -62_167_219_200_000 <= ms < 253_402_300_800_000
  {
    hide CivilFromDays;
    var day := ms / DAY;
    EdgeDays();
    CivilOrder(day, -719_528);
    CivilOrder(2_932_896, day);
    CivilIsDate(day);
  }

  lemma EdgeDays()
    ensures CivilFromDays(-719_528) == Date(0, 1, 1) && CivilFromDays(2_932_896) == Date(9999, 12, 31)
  {
    hide CivilFromDays;
    DateIsCivil(Date(0, 1, 1));
    DateIsCivil(Date(9999, 12, 31));
  }

  // ==== the text itself ====

  function Two(n: nat): Text
    requires n < 100
  {
    [UPPER_DIGITS[n / 10], UPPER_DIGITS[n % 10]]
  }

  function Three(n: nat): Text
    requires n < 1000
  {
    [UPPER_DIGITS[n / 100]] + Two(n % 100)
  }

  /** The text after the year, with its separators. */
  function Tail(month: nat, day: nat, hour: nat, minute: nat, second: nat, ms: nat): Text
    requires month < 100 && day < 100 && hour < 24 && minute < 60 && second < 60 && ms < 1000
  {
    "-" + (Two(month) + ("-" + (Two(day) + ("T" + (Two(hour) + (":" + (Two(minute) + (":" + (
      Two(second) + ("." + (Three(ms) + "Z")))))))))))
  }

  lemma DigitsTwo(n: nat)
    requires n < 100
    ensures Digits(n, 2) == Two(n)
  {
    hide LowerHexDigit;
    DigitTable('0', n / 10);
    DigitTable('0', n % 10);
    assert n / 10 < 10 && Digits(n / 10 / 10, 0) == [];
    assert Digits(n, 2) == Digits(n / 10, 1) + [LowerHexDigit(n % 10)];
  }

  lemma PaddedTwo(n: nat)
    requires n < 100
    ensures Padded(n, 2) == Two(n)
  {
    hide Padded, Digits, Two, TenTo;
    HundredFits(n);
    PaddedIsDigits(n, 2);
    DigitsTwo(n);
  }

  lemma PaddedThree(n: nat)
    requires n < 1000
    ensures Padded(n, 3) == Three(n)
  {
    hide LowerHexDigit, Padded, TenTo;
    ThousandFits(n);
    PaddedIsDigits(n, 3);
    DigitsTwo(n / 10);
    DigitTable('0', n % 10);
    assert n / 10 / 10 == n / 100 && n / 10 % 10 == n % 100 / 10 && n % 100 % 10 == n % 10;
    assert Digits(n, 3) == Digits(n / 10, 2) + [LowerHexDigit(n % 10)];
  }

  lemma JoinCons(parts: seq<Part>, p: Part, more: seq<Part>)
    requires parts == [p] + more
    ensures Join(parts) == Padded(p.value, p.width) + ([p.end] + Join(more))
  {
    assert parts[1..] == more;
  }

  lemma JoinTail(month: nat, day: nat, hour: nat, minute: nat, second: nat, ms: nat)
    requires month < 100 && day < 100 && hour < 24 && minute < 60 && second < 60 && ms < 1000
    ensures "-" + Join([Part(month, 2, '-'), Part(day, 2, 'T'), Part(hour, 2, ':'), Part(minute, 2, ':'),
        Part(second, 2, '.'), Part(ms, 3, 'Z')])
      == Tail(month, day, hour, minute, second, ms)
  {
    hide Padded, Two, Three, Join;
    var p1, p2, p3 := Part(month, 2, '-'), Part(day, 2, 'T'), Part(hour, 2, ':');
    var p4, p5, p6 := Part(minute, 2, ':'), Part(second, 2, '.'), Part(ms, 3, 'Z');
    JoinCons([p1, p2, p3, p4, p5, p6], p1, [p2, p3, p4, p5, p6]);
    JoinCons([p2, p3, p4, p5, p6], p2, [p3, p4, p5, p6]);
    JoinCons([p3, p4, p5, p6], p3, [p4, p5, p6]);
    JoinCons([p4, p5, p6], p4, [p5, p6]);
    JoinCons([p5, p6], p5, [p6]);
    JoinCons([p6], p6, []);
    JoinNothing();
    PaddedTwo(month);
    PaddedTwo(day);
    PaddedTwo(hour);
    PaddedTwo(minute);
    PaddedTwo(second);
    PaddedThree(ms);
  }

  lemma JoinNothing()
    ensures Join([]) == []
  {
  }

  /** Every instant is written as its date and its time of day, which add up to it. */
  lemma IsoExactly(ms: int) returns (hour: nat, minute: nat, second: nat, rest: nat)
    ensures hour < 24 && minute < 60 && second < 60 && rest < 1000
    ensures ms % 86_400_000 == hour * 3_600_000 + minute * 60_000 + second * 1000 + rest
    ensures var d := CivilFromDays(ms / 86_400_000);
      d.month < 100 && d.day < 100 &&
      IsoFromMs(ms) == PaddedYear(d.year) + Tail(d.month, d.day, hour, minute, second, rest)
  {
    hide CivilFromDays, Padded, Join, PaddedYear, Tail;
    var d, clock := CivilFromDays(ms / DAY), ms % DAY;
    CivilIsDate(ms / DAY);
    hour, minute, second, rest := clock / 3_600_000, clock / 60_000 % 60, clock / 1000 % 60, clock % 1000;
    Clock(clock);
    JoinTail(d.month, d.day, hour, minute, second, rest);
  }

  lemma Clock(clock: nat)
    requires clock < DAY
    ensures var s := clock / 1000;
      && s / 3600 == clock / 3_600_000 < 24 && s % 3600 / 60 == clock / 60_000 % 60 && s % 60 == clock / 1000 % 60
    ensures clock ==
      clock / 3_600_000 * 3_600_000 + clock / 60_000 % 60 * 60_000 + clock / 1000 % 60 * 1000 + clock % 1000
  {
    var s := clock / 1000;
    assert clock / 3_600_000 == s / 3600 && clock / 60_000 == s / 60;
    assert s % 3600 / 60 == s / 60 % 60;
  }

  lemma PaddedFour(n: nat)
    requires n < 10_000
    ensures Padded(n, 4) == Two(n / 100) + Two(n % 100)
  {
    hide LowerHexDigit, Padded, TenTo;
    YearFits(n);
    PaddedIsDigits(n, 4);
    HundredFits(n / 100);
    PaddedIsDigits(n / 100, 2);
    PaddedTwo(n / 100);
    DigitTable('0', n % 100 / 10);
    DigitTable('0', n % 10);
    assert n / 10 / 10 == n / 100 && n / 10 % 10 == n % 100 / 10 && n % 100 % 10 == n % 10;
    assert Digits(n, 4) == Digits(n / 10, 3) + [LowerHexDigit(n % 10)];
    assert Digits(n / 10, 3) == Digits(n / 100, 2) + [LowerHexDigit(n / 10 % 10)];
  }

  lemma ThousandFits(n: nat)
    requires n < 1000
    ensures n < TenTo(3)
  {
    assert TenTo(2) == 100;
  }

  lemma HundredFits(n: nat)
    requires n < 100
    ensures n < TenTo(2)
  {
    assert TenTo(2) == 10 * TenTo(1) && TenTo(1) == 10;
  }

  lemma {:induction false} DecimalIsLong(n: nat, w: nat)
    requires n >= TenTo(w)
    ensures |Decimal(n)| > w
    decreases w
  {
    if w > 0 {
      assert n / 10 >= TenTo(w - 1);
      DecimalIsLong(n / 10, w - 1);
      assert Decimal(n) == Decimal(n / 10) + [LowerHexDigit(n % 10)];
    }
  }

  /** Years are written in four places or more, one of them for the sign of a year before 0. */
  lemma YearExactly(y: int)
    ensures PaddedYear(y) ==
      if 0 <= y <= 9999 then Two(y / 100) + Two(y % 100)
      else if y > 9999 then Decimal(y)
      else "-" + if y >= -999 then Three(-y) else Decimal(-y)
  {
    hide Decimal, Two, Three;
    assert TenTo(3) == 1000 && TenTo(4) == 10 * TenTo(3);
    if 0 <= y <= 9999 {
      PaddedFour(y);
    } else if y > 9999 {
      DecimalIsLong(y, 4);
    } else if y >= -999 {
      PaddedThree(-y);
    } else {
      DecimalIsLong(-y, 3);
    }
  }
}
