/** The text of a charging schedule, and what it means: chargeController_SetTimes in main/chargeController.c. */
module ChargeSchedule {
  const SCHEDULE_SIZE: nat := 196
  const MAX_SCHEDULES: nat := 14
  const ITEM: nat := 14

  // ----- what the code makes of the text

  predicate IsDigit(c: char) {
    '0' <= c <= '9'
  }

  function DigitValue(c: char): nat
    requires IsDigit(c)
  {
    c as int - '0' as int
  }

  function Digits(s: string, value: nat): nat {
    if s == [] || !IsDigit(s[0]) then value
    else Digits(s[1..], value * 10 + DigitValue(s[0]))
  }

  /** The C library's atoi: white space, a sign, digits up to the first other character. */
  function Atoi(s: string): int {
    if s == [] then 0
    else if s[0] == ' ' || '\t' <= s[0] <= '\r' then Atoi(s[1..])
    else if s[0] == '-' then 0 - Digits(s[1..], 0)
    else if s[0] == '+' then Digits(s[1..], 0)
    else Digits(s, 0)
  }

  /** Pausing days as a byte of weekday bits, first and past-the-end minute of the day. */
  datatype TimeSchedule = TimeSchedule(days: nat, start: int, stop: int, isPaused: bool)

  const UNSET := TimeSchedule(0, 0, 0, false)

  function StopMinutes(hour: int, minute: int): int {
    (if hour == 0 && minute == 0 then 24 else hour) * 60 + minute
  }

  /** An item DDD:HHMM:HHMM; one with its colons elsewhere pauses nothing. */
  function ParseItem(item: string): TimeSchedule
    requires |item| == ITEM - 1
  {
    if item[3] == ':' && item[8] == ':' then
      TimeSchedule(Atoi(item[..3]) % 256, Atoi(item[4..6]) * 60 + Atoi(item[6..8]),
                   StopMinutes(Atoi(item[9..11]), Atoi(item[11..13])), false)
    else UNSET
  }

  predicate Acceptable(text: string) {
    ITEM - 1 <= |text| <= SCHEDULE_SIZE
  }

  function ItemAt(text: string, i: nat): (item: string)
    requires ITEM * i + ITEM - 1 <= |text|
    ensures |item| == ITEM - 1
  {
    text[ITEM * i..][..ITEM - 1]
  }

  function Parsed(text: string): (items: seq<TimeSchedule>)
    requires Acceptable(text)
    ensures |items| == (|text| + 1) / ITEM <= MAX_SCHEDULES
  {
    seq((|text| + 1) / ITEM, i requires 0 <= i < (|text| + 1) / ITEM => ParseItem(ItemAt(text, i)))
  }

  /** `days & (1 << k)`. */
  predicate Bit(days: nat, k: nat)
    decreases k
  {
    if k == 0 then days % 2 == 1 else Bit(days / 2, k - 1)
  }

  /** Weekdays count from 1, Monday. */
  predicate Inside(ts: TimeSchedule, weekDay: int, minute: int)
    requires 1 <= weekDay <= 7
  {
    Bit(ts.days, weekDay - 1) && ts.start <= minute < ts.stop
  }

  // ----- what the text stands for

  /** An interval of the day on some weekdays; `stop` may be 1440, the end of the day. */
  datatype Item = Item(days: seq<bool>, start: nat, stop: nat) {
    predicate Valid() {
      |days| == 7 && start < 1440 && 0 < stop <= 1440
    }

    predicate Covers(weekDay: int, minute: int)
      requires Valid() && 1 <= weekDay <= 7
    {
      days[weekDay - 1] && start <= minute < stop
    }
  }

  function DigitOf(n: nat): char {
    ('0' as int + n % 10) as char
  }

  function TwoDigits(n: nat): (s: string)
    ensures |s| == 2
  {
    [DigitOf(n / 10), DigitOf(n)]
  }

  function ThreeDigits(n: nat): (s: string)
    ensures |s| == 3
  {
    [DigitOf(n / 100), DigitOf(n / 10), DigitOf(n)]
  }

  function Number(days: seq<bool>): nat {
    if days == [] then 0 else (if days[0] then 1 else 0) + 2 * Number(days[1..])
  }

  /** The clock shows the end of the day as 00:00. */
  function Hour(minute: nat): nat {
    minute % 1440 / 60
  }

  function Minute(minute: nat): nat {
    minute % 60
  }

  function Layout(days: nat, startHour: nat, startMinute: nat, stopHour: nat, stopMinute: nat): (s: string)
    ensures |s| == ITEM - 1
  {
    [DigitOf(days / 100), DigitOf(days / 10), DigitOf(days), ':',
     DigitOf(startHour / 10), DigitOf(startHour), DigitOf(startMinute / 10), DigitOf(startMinute), ':',
     DigitOf(stopHour / 10), DigitOf(stopHour), DigitOf(stopMinute / 10), DigitOf(stopMinute)]
  }

  function Render(item: Item): (s: string)
    ensures |s| == ITEM - 1
  {
    Layout(Number(item.days), Hour(item.start), Minute(item.start), Hour(item.stop), Minute(item.stop))
  }

  function RenderAll(items: seq<Item>): (s: string)
    requires items != []
    ensures |s| == ITEM * |items| - 1
  {
    if |items| == 1 then Render(items[0]) else Render(items[0]) + ";" + RenderAll(items[1..])
  }

  predicate AllValid(items: seq<Item>) {
    forall i :: 0 <= i < |items| ==> items[i].Valid()
  }

  // ----- they agree

  lemma DigitFacts(n: nat)
    ensures IsDigit(DigitOf(n)) && DigitValue(DigitOf(n)) == n % 10
    ensures DigitOf(n) != ' ' && !('\t' <= DigitOf(n) <= '\r') && DigitOf(n) != '-' && DigitOf(n) != '+'
  {}

  lemma AtoiTwo(n: nat)
    requires n < 100
    ensures Atoi(TwoDigits(n)) == n
  {
    var s := TwoDigits(n);
    DigitFacts(n / 10);
    DigitFacts(n);
    hide DigitOf, DigitValue, IsDigit;
    assert s[1..] == [DigitOf(n)] && s[1..][1..] == [];
    assert Digits(s, 0) == Digits(s[1..], n / 10);
    assert Digits(s[1..], n / 10) == Digits([], n / 10 * 10 + n % 10);
  }

  lemma DigitsOf(a: char, rest: string, value: nat)
    requires IsDigit(a)
    ensures Digits([a] + rest, value) == Digits(rest, value * 10 + DigitValue(a))
  {
    assert ([a] + rest)[1..] == rest;
  }

  lemma AtoiDigits(a: char, b: char, c: char)
    requires IsDigit(a) && IsDigit(b) && IsDigit(c)
    ensures Atoi([a, b, c]) == DigitValue(a) * 100 + DigitValue(b) * 10 + DigitValue(c)
  {
    DigitsOf(a, [b, c], 0);
    DigitsOf(b, [c], DigitValue(a));
    DigitsOf(c, [], DigitValue(a) * 10 + DigitValue(b));
    assert [a] + [b, c] == [a, b, c] && [b] + [c] == [b, c] && [c] + [] == [c];
    hide DigitValue;
  }

  lemma AtoiThree(n: nat)
    requires n < 1000
    ensures Atoi(ThreeDigits(n)) == n
  {
    hide DigitOf, DigitValue, IsDigit, Atoi;
    DigitFacts(n / 100);
    DigitFacts(n / 10);
    DigitFacts(n);
    AtoiDigits(DigitOf(n / 100), DigitOf(n / 10), DigitOf(n));
  }

  lemma {:induction false} NumberBound(days: seq<bool>, bound: nat)
    requires |days| <= bound
    ensures |days| == 0 ==> Number(days) == 0
    ensures |days| == 7 ==> Number(days) <= 127
  {
    if |days| == 7 {
      var d1, d2, d3 := days[1..], days[1..][1..], days[1..][1..][1..];
      var d4 := d3[1..];
      var d5, d6, d7 := d4[1..], d4[1..][1..], d4[1..][1..][1..];
      assert Number(d7) == 0;
      assert Number(d6) <= 1;
      assert Number(d5) <= 3;
      assert Number(d4) <= 7;
      assert Number(d3) <= 15;
      assert Number(d2) <= 31;
      assert Number(d1) <= 63;
    }
  }

  lemma {:induction false} BitOfNumber(days: seq<bool>, k: nat)
    requires k < |days|
    ensures Bit(Number(days), k) <==> days[k]
    decreases k
  {
    if k > 0 {
      assert Number(days) / 2 == Number(days[1..]);
      BitOfNumber(days[1..], k - 1);
    }
  }

  lemma ParsePieces(a: char, b: char, c: char, d: char, e: char, f: char, g: char, h: char, i: char, j: char, k: char)
    ensures ParseItem([a, b, c, ':', d, e, f, g, ':', h, i, j, k])
            == TimeSchedule(Atoi([a, b, c]) % 256, Atoi([d, e]) * 60 + Atoi([f, g]),
                            StopMinutes(Atoi([h, i]), Atoi([j, k])), false)
  {
    hide Atoi;
    var item := [a, b, c, ':', d, e, f, g, ':', h, i, j, k];
    assert item[..3] == [a, b, c];
    assert item[4..6] == [d, e];
    assert item[6..8] == [f, g];
    assert item[9..11] == [h, i];
    assert item[11..13] == [j, k];
  }

  lemma MinuteParts(minute: nat)
    requires minute <= 1440
    ensures Hour(minute) < 24 && Minute(minute) < 60
    ensures minute < 1440 ==> Hour(minute) * 60 + Minute(minute) == minute
    ensures minute > 0 ==> StopMinutes(Hour(minute), Minute(minute)) == minute
  {}

  lemma ParseLayout(days: nat, h1: nat, m1: nat, h2: nat, m2: nat)
    requires days < 256 && h1 < 100 && m1 < 100 && h2 < 100 && m2 < 100
    ensures ParseItem(Layout(days, h1, m1, h2, m2)) == TimeSchedule(days, h1 * 60 + m1, StopMinutes(h2, m2), false)
  {
    hide Atoi, ParseItem, DigitOf, StopMinutes;
    AtoiThree(days);
    AtoiTwo(h1);
    AtoiTwo(m1);
    AtoiTwo(h2);
    AtoiTwo(m2);
    ParsePieces(DigitOf(days / 100), DigitOf(days / 10), DigitOf(days), DigitOf(h1 / 10), DigitOf(h1),
                DigitOf(m1 / 10), DigitOf(m1), DigitOf(h2 / 10), DigitOf(h2), DigitOf(m2 / 10), DigitOf(m2));
  }

  lemma ParseRendered(item: Item)
    requires item.Valid()
    ensures ParseItem(Render(item)) == TimeSchedule(Number(item.days), item.start, item.stop, false)
  {
    hide ParseItem, Layout, StopMinutes, Number, Hour, Minute;
    NumberBound(item.days, 7);
    MinuteParts(item.start);
    MinuteParts(item.stop);
    ParseLayout(Number(item.days), Hour(item.start), Minute(item.start), Hour(item.stop), Minute(item.stop));
  }

  lemma {:induction false} ItemOfRendered(items: seq<Item>, i: nat)
    requires i < |items|
    ensures ItemAt(RenderAll(items), i) == Render(items[i])
  {
    hide Render;
    var s := RenderAll(items);
    if i > 0 {
      var rest := RenderAll(items[1..]);
      ItemOfRendered(items[1..], i - 1);
      assert s[ITEM..] == rest;
      assert s[ITEM * i..] == s[ITEM..][ITEM * (i - 1)..];
    } else {
      assert s[ITEM * 0..] == s;
    }
  }

  /**
   * For every schedule of up to 14 items, an item of the parsed text pauses charging at exactly
   * the weekdays and minutes that it was written for.
   */
  lemma ScheduleMeaning(items: seq<Item>, i: nat, weekDay: int, minute: int)
    requires items != [] && |items| <= MAX_SCHEDULES && AllValid(items)
    requires i < |items| && 1 <= weekDay <= 7
    ensures Acceptable(RenderAll(items)) && |Parsed(RenderAll(items))| == |items|
    ensures Inside(Parsed(RenderAll(items))[i], weekDay, minute) <==> items[i].Covers(weekDay, minute)
  {
    hide Render, ParseItem, ItemAt;
    ItemOfRendered(items, i);
    ParseRendered(items[i]);
    BitOfNumber(items[i].days, weekDay - 1);
  }

  /** An item whose colons are misplaced never pauses. */
  lemma {:induction false} MalformedNeverPauses(text: string, i: nat, weekDay: int, minute: int)
    requires Acceptable(text) && i < |Parsed(text)| && 1 <= weekDay <= 7
    requires ItemAt(text, i)[3] != ':' || ItemAt(text, i)[8] != ':'
    ensures !Inside(Parsed(text)[i], weekDay, minute)
  {
    NoBits(weekDay - 1);
  }

  lemma {:induction false} NoBits(k: nat)
    ensures !Bit(0, k)
  {
    if k > 0 {
      NoBits(k - 1);
    }
  }
}
