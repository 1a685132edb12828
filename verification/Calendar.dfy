/**
 * The creation time of an ONVIF token (onvif.c): civil dates to days without
 * timegm(), and a timestamp with a zone offset to seconds.
 */
module Calendar {
  import opened Streams

  datatype Date = Date(y: int, m: nat, d: nat)

  const DAY_S: int := 86400

  predicate Leap(y: int) {
    y % 4 == 0 && (y % 100 != 0 || y % 400 == 0)
  }

  function MonthDays(y: int, m: nat): nat {
    if m == 2 then (if Leap(y) then 29 else 28)
    else if m == 4 || m == 6 || m == 9 || m == 11 then 30
    else 31
  }

  predicate ValidDate(date: Date) {
    1 <= date.m <= 12 && 1 <= date.d <= MonthDays(date.y, date.m)
  }

  /** The calendar's own step. */
  function NextDay(date: Date): (next: Date)
    requires ValidDate(date)
    ensures ValidDate(next)
  {
    if date.d < MonthDays(date.y, date.m) then date.(d := date.d + 1)
    else if date.m < 12 then Date(date.y, date.m + 1, 1)
    else Date(date.y + 1, 1, 1)
  }

  /** C's division, which truncates toward zero. */
  function Quotient(a: int, b: int): int
    requires b > 0
  {
    if a >= 0 then a / b else -(-a / b)
  }

  /** Days before the year that begins in March of y. */
  function YearDays(y: int): int {
    var era := Quotient(if y >= 0 then y else y - 399, 400);
    var yo := y - era * 400;
    era * 146097 + (yo * 365 + yo / 4 - yo / 100)
  }

  /** civil_days */
  function CivilDays(y: int, m: nat, d: nat): int {
    var shifted := if m <= 2 then y - 1 else y;
    var adjusted: int := if m > 2 then m - 3 else m + 9;
    YearDays(shifted) + ((153 * adjusted + 2) / 5 + d - 1) - 719468
  }

  function Days(date: Date): int {
    CivilDays(date.y, date.m, date.d)
  }

  // ----- the day count is the calendar's

  /** The era arithmetic counts every leap day of the Gregorian calendar, in every year. */
  lemma YearDaysClosed(y: int)
    ensures YearDays(y) == y * 365 + y / 4 - y / 100 + y / 400
  {
    var era := y / 400;
    var yo := y - era * 400;
    assert Quotient(if y >= 0 then y else y - 399, 400) == era;
    assert y / 4 == era * 100 + yo / 4;
    assert y / 100 == era * 4 + yo / 100;
  }

  lemma YearLength(y: int)
    ensures YearDays(y + 1) - YearDays(y) == if Leap(y + 1) then 366 else 365
  {
    YearDaysClosed(y);
    YearDaysClosed(y + 1);
    hide YearDays;
    var n := y + 1;
    assert n / 4 - y / 4 == if n % 4 == 0 then 1 else 0;
    assert n / 100 - y / 100 == if n % 100 == 0 then 1 else 0;
    assert n / 400 - y / 400 == if n % 400 == 0 then 1 else 0;
  }

  /** The next day is one more, in every month of every year; and the epoch is day 0. */
  lemma NextDayIsOneMore(date: Date)
    requires ValidDate(date)
    ensures Days(NextDay(date)) == Days(date) + 1
  {
    YearLength(date.y - 1);
    hide YearDays, Leap;
  }

  lemma EpochIsZero()
    ensures CivilDays(1970, 1, 1) == 0
  {
  }

  function PreviousDay(date: Date): (before: Date)
    requires ValidDate(date)
    ensures ValidDate(before) && NextDay(before) == date
  {
    if date.d > 1 then date.(d := date.d - 1)
    else if date.m > 1 then Date(date.y, date.m - 1, MonthDays(date.y, date.m - 1))
    else Date(date.y - 1, 12, 31)
  }

  /** The date n days after the epoch, counted a day at a time. */
  function DateOf(n: nat): (date: Date)
    ensures ValidDate(date)
  {
    if n == 0 then Date(1970, 1, 1) else NextDay(DateOf(n - 1))
  }

  lemma {:induction false} DaysOfDate(n: nat)
    ensures Days(DateOf(n)) == n
  {
    EpochIsZero();
    if n > 0 {
      DaysOfDate(n - 1);
      NextDayIsOneMore(DateOf(n - 1));
    }
  }

  /** Every date from 1970 on is the date of its own day count: civil_days is one to one. */
  lemma {:induction false} DateOfDays(date: Date)
    requires ValidDate(date) && date.y >= 1970
    ensures Days(date) >= 0 && DateOf(Days(date)) == date
    decreases date.y, date.m, date.d
  {
    hide CivilDays, MonthDays;
    if date == Date(1970, 1, 1) {
      EpochIsZero();
    } else {
      var before := PreviousDay(date);
      DateOfDays(before);
      NextDayIsOneMore(before);
    }
  }

  // ----- timestamps

  /** What the fixed part of a timestamp reads as, and the text after it. */
  datatype Stamp = Stamp(y: int, m: int, d: int, h: int, mi: int, se: int, rest: string)

  predicate IsDigit(c: char) {
    '0' <= c <= '9'
  }

  function Value(c: char): nat
    requires IsDigit(c)
  {
    (c - '0') as nat
  }

  function Digits(s: string): (n: nat)
    ensures n <= |s|
    ensures forall i :: 0 <= i < n ==> IsDigit(s[i])
    ensures n < |s| ==> !IsDigit(s[n])
  {
    if s != "" && IsDigit(s[0]) then 1 + Digits(s[1..]) else 0
  }

  /** What follows an optional fraction of a second, of one to nine digits. */
  function AfterFraction(s: string): Option<string> {
    if s == "" || s[0] != '.' then Some(s)
    else
      var n := Digits(s[1..]);
      if 1 <= n <= 9 then Some(s[1 + n..]) else None
  }

  predicate ZoneShape(s: string) {
    && |s| == 6 && (s[0] == '+' || s[0] == '-') && s[3] == ':'
    && IsDigit(s[1]) && IsDigit(s[2]) && IsDigit(s[4]) && IsDigit(s[5])
  }

  /** The zone's offset in seconds: Z, or up to 14 hours either way. */
  function Zone(s: string): Option<int> {
    if s == "Z" then Some(0)
    else if !ZoneShape(s) then None
    else
      var hours, minutes := Value(s[1]) * 10 + Value(s[2]), Value(s[4]) * 10 + Value(s[5]);
      if hours > 14 || minutes > 59 || (hours == 14 && minutes != 0) then None
      else Some((hours * 3600 + minutes * 60) * (if s[0] == '+' then 1 else -1))
  }

  function Offset(rest: string): Option<int> {
    var zone := AfterFraction(rest);
    if zone.None? then None else Zone(zone.value)
  }

  predicate FieldsOk(s: Stamp) {
    && 1970 <= s.y <= 9999 && 1 <= s.m <= 12 && 1 <= s.d <= MonthDays(s.y, s.m)
    && 0 <= s.h <= 23 && 0 <= s.mi <= 59 && 0 <= s.se <= 59
  }

  /** created_time */
  function CreatedTime(s: Stamp): Option<int> {
    var offset := Offset(s.rest);
    if !FieldsOk(s) || offset.None? then None
    else Some(CivilDays(s.y, s.m, s.d) * DAY_S + s.h * 3600 + s.mi * 60 + s.se - offset.value)
  }

  /** How a clock that shows local seconds since the epoch reads. */
  function Reading(local: nat, rest: string): Stamp {
    var date, s := DateOf(local / DAY_S), local % DAY_S;
    Stamp(date.y, date.m, date.d, s / 3600, s % 3600 / 60, s % 60, rest)
  }

  /** A clock in the zone of s shows s at instant v. */
  predicate Shows(s: Stamp, v: int) {
    var offset := Offset(s.rest);
    offset.Some? && v + offset.value >= 0 && s == Reading(v + offset.value, s.rest)
  }

  lemma {:induction false} DateFrom1970(n: nat)
    ensures DateOf(n).y >= 1970
  {
    if n > 0 {
      DateFrom1970(n - 1);
    }
  }

  lemma ClockParts(s: nat)
    requires s < DAY_S
    ensures s == s / 3600 * 3600 + s % 3600 / 60 * 60 + s % 60
    ensures 0 <= s / 3600 <= 23 && 0 <= s % 3600 / 60 <= 59
  {
  }

  lemma ClockUnique(h: nat, mi: nat, se: nat)
    requires h <= 23 && mi <= 59 && se <= 59
    ensures var s := h * 3600 + mi * 60 + se; s < DAY_S && s / 3600 == h && s % 3600 / 60 == mi && s % 60 == se
  {
  }

  lemma ShownIsRead(s: Stamp, v: int)
    requires Shows(s, v) && s.y <= 9999
    ensures CreatedTime(s) == Some(v)
  {
    var local := v + Offset(s.rest).value;
    var n, seconds := local / DAY_S, local % DAY_S;
    assert local == n * DAY_S + seconds;
    DaysOfDate(n);
    DateFrom1970(n);
    ClockParts(seconds);
    hide DateOf, CivilDays, Offset, MonthDays;
  }

  /** A clock that shows a date and a time of day reads as just those. */
  lemma ReadsBack(date: Date, h: nat, mi: nat, se: nat, rest: string)
    requires ValidDate(date) && date.y >= 1970 && h <= 23 && mi <= 59 && se <= 59
    ensures Days(date) >= 0
    ensures Reading(Days(date) * DAY_S + (h * 3600 + mi * 60 + se), rest) == Stamp(date.y, date.m, date.d, h, mi, se, rest)
  {
    DateOfDays(date);
    ClockUnique(h, mi, se);
    LocalParts(Days(date), h * 3600 + mi * 60 + se);
    hide DateOf, Days;
  }

  lemma ReadIsShown(s: Stamp, v: int)
    requires CreatedTime(s) == Some(v)
    ensures Shows(s, v)
  {
    ReadsBack(Date(s.y, s.m, s.d), s.h, s.mi, s.se, s.rest);
    hide Reading, CivilDays, Offset, MonthDays;
  }

  lemma LocalParts(days: nat, seconds: nat)
    requires seconds < DAY_S
    ensures (days * DAY_S + seconds) / DAY_S == days && (days * DAY_S + seconds) % DAY_S == seconds
  {
  }

  /**
   * A timestamp up to the year 9999 is read as v exactly when a clock in its
   * zone shows it at v.  So equal instants written with different offsets get
   * the same value, and earlier instants smaller ones.
   */
  lemma ReadsTheInstant(s: Stamp, v: int)
    ensures CreatedTime(s) == Some(v) <==> Shows(s, v) && s.y <= 9999
  {
    if CreatedTime(s) == Some(v) {
      ReadIsShown(s, v);
    }
    if Shows(s, v) && s.y <= 9999 {
      ShownIsRead(s, v);
    }
  }

  // ----- the text of a timestamp

  predicate IsBlank(c: char) {
    c == ' ' || c == '\t' || c == '\n' || c == '\r' || c == '\U{0B}' || c == '\U{0C}'
  }

  function SkipBlanks(s: string): (t: string)
    ensures |t| <= |s|
  {
    if s != "" && IsBlank(s[0]) then SkipBlanks(s[1..]) else s
  }

  function Number(digits: string): nat
    requires forall i :: 0 <= i < |digits| ==> IsDigit(digits[i])
  {
    if digits == "" then 0 else Number(digits[..|digits| - 1]) * 10 + Value(digits[|digits| - 1])
  }

  datatype Scanned = Scanned(value: int, rest: string)

  /** sscanf's %d with a width: white space, then a sign and digits of at most that many characters. */
  function ScanInt(s: string, width: nat): Option<Scanned>
    requires width > 0
  {
    var t := SkipBlanks(s);
    var signed := t != "" && (t[0] == '+' || t[0] == '-');
    var u, room := if signed then t[1..] else t, if signed then width - 1 else width;
    var n := if Digits(u) < room then Digits(u) else room;
    if n == 0 then None else Some(Scanned(Number(u[..n]) * (if signed && t[0] == '-' then -1 else 1), u[n..]))
  }

  /** A conversion and the character that must follow it, if any. */
  datatype Field = Field(width: nat, next: Option<char>)

  const FIELDS: seq<Field> :=
    [Field(4, Some('-')), Field(2, Some('-')), Field(2, Some('T')), Field(2, Some(':')), Field(2, Some(':')), Field(2, None)]

  datatype Values = Values(values: seq<int>, rest: string)

  function ScanFields(s: string, fields: seq<Field>): (r: Option<Values>)
    requires forall i :: 0 <= i < |fields| ==> fields[i].width > 0
    ensures r.Some? ==> |r.value.values| == |fields|
    decreases |fields|
  {
    if fields == [] then Some(Values([], s))
    else
      var f, first := fields[0], ScanInt(s, fields[0].width);
      if first.None? then None
      else
        var t := first.value.rest;
        if f.next.Some? && (t == "" || t[0] != f.next.value) then None
        else
          var later := ScanFields(if f.next.Some? then t[1..] else t, fields[1..]);
          if later.None? then None else Some(Values([first.value.value] + later.value.values, later.value.rest))
  }

  /** The six numbers must take 19 characters, however these are shared out. */
  function ScanStamp(text: string): Option<Stamp> {
    var six := ScanFields(text, FIELDS);
    if six.None? || |six.value.rest| + 19 != |text| then None
    else
      var v := six.value.values;
      Some(Stamp(v[0], v[1], v[2], v[3], v[4], v[5], six.value.rest))
  }

  /** created_time, from the text. */
  function CreatedText(text: string): Option<int> {
    var s := ScanStamp(text);
    if s.None? then None else CreatedTime(s.value)
  }

  function Tens(width: nat): nat {
    if width == 0 then 1 else 10 * Tens(width - 1)
  }

  function Padded(n: nat, width: nat): (s: string)
    ensures |s| == width && forall i :: 0 <= i < width ==> IsDigit(s[i])
  {
    if width == 0 then "" else Padded(n / 10, width - 1) + ['0' + (n % 10) as char]
  }

  /** The numbers with leading zeros and what follows each. */
  function Written(values: seq<nat>, fields: seq<Field>, rest: string): string
    requires |values| == |fields|
  {
    if fields == [] then rest
    else
      Padded(values[0], fields[0].width) + (if fields[0].next.Some? then [fields[0].next.value] else "")
      + Written(values[1..], fields[1..], rest)
  }

  lemma {:induction false} PaddedIsNumber(n: nat, width: nat)
    requires n < Tens(width)
    ensures Number(Padded(n, width)) == n
  {
    if width > 0 {
      PaddedIsNumber(n / 10, width - 1);
      var s := Padded(n, width);
      assert s[..width - 1] == Padded(n / 10, width - 1);
      assert Value(s[width - 1]) == n % 10;
    }
  }

  lemma {:induction false} DigitsAtLeast(d: string, rest: string)
    requires forall i :: 0 <= i < |d| ==> IsDigit(d[i])
    ensures Digits(d + rest) >= |d|
  {
    if d != "" {
      assert (d + rest)[1..] == d[1..] + rest;
      DigitsAtLeast(d[1..], rest);
    }
  }

  /** A conversion takes a number of its width, whatever follows. */
  lemma PaddedIsScanned(n: nat, width: nat, rest: string)
    requires 0 < width && n < Tens(width)
    ensures ScanInt(Padded(n, width) + rest, width) == Some(Scanned(n, rest))
  {
    hide Padded;
    var d := Padded(n, width);
    var s := d + rest;
    PaddedIsNumber(n, width);
    DigitsAtLeast(d, rest);
    assert s[0] == d[0] && IsDigit(d[0]);
    assert SkipBlanks(s) == s;
    assert s[..width] == d && s[width..] == rest;
  }

  lemma {:induction false} WrittenIsScanned(values: seq<nat>, fields: seq<Field>, rest: string)
    requires |values| == |fields|
    requires forall i :: 0 <= i < |fields| ==> fields[i].width > 0 && values[i] < Tens(fields[i].width)
    ensures ScanFields(Written(values, fields, rest), fields) == Some(Values(values, rest))
    decreases |fields|
  {
    hide ScanInt, Padded, Tens;
    if fields != [] {
      var f, later := fields[0], Written(values[1..], fields[1..], rest);
      var after := (if f.next.Some? then [f.next.value] else "") + later;
      PaddedIsScanned(values[0], f.width, after);
      assert Written(values, fields, rest) == Padded(values[0], f.width) + after;
      assert if f.next.Some? then after[0] == f.next.value && after[1..] == later else after == later;
      WrittenIsScanned(values[1..], fields[1..], rest);
      assert values == [values[0]] + values[1..];
    }
  }

  lemma {:induction false} BlanksAreSkipped(blanks: string, u: string)
    requires forall i :: 0 <= i < |blanks| ==> blanks[i] in {' ', '\t', '\n', '\U{0B}', '\U{0C}', '\r'}
    requires u == "" || u[0] !in {' ', '\t', '\n', '\U{0B}', '\U{0C}', '\r'}
    ensures SkipBlanks(blanks + u) == u
    decreases |blanks|
  {
    if blanks == "" {
      assert blanks + u == u;
    } else {
      BlanksAreSkipped(blanks[1..], u);
      assert (blanks + u)[1..] == blanks[1..] + u;
    }
  }

  lemma {:induction false} DigitsStop(d: string, tail: string)
    requires (forall i :: 0 <= i < |d| ==> IsDigit(d[i])) && (tail == "" || !IsDigit(tail[0]))
    ensures Digits(d + tail) == |d|
  {
    if d == "" {
      assert d + tail == tail;
    } else {
      assert (d + tail)[1..] == d[1..] + tail;
      DigitsStop(d[1..], tail);
    }
  }

  /** A conversion takes digits behind white space and a sign, up to its width or the last digit; no digits, no number. */
  lemma AnyIntIsScanned(blanks: string, sign: string, d: string, tail: string, width: nat)
    requires forall i :: 0 <= i < |blanks| ==> blanks[i] in {' ', '\t', '\n', '\U{0B}', '\U{0C}', '\r'}
    requires sign in {"", "+", "-"} && |sign| + |d| <= width && width > 0
    requires forall i :: 0 <= i < |d| ==> IsDigit(d[i])
    requires |sign| + |d| == width || tail == "" || !IsDigit(tail[0])
    requires sign + d == "" ==> tail == "" || tail[0] !in {' ', '\t', '\n', '\U{0B}', '\U{0C}', '\r', '+', '-'}
    ensures ScanInt(blanks + (sign + (d + tail)), width) ==
            if d == "" then None else Some(Scanned(Number(d) * (if sign == "-" then -1 else 1), tail))
  {
    hide ScanInt, SkipBlanks, Number;
    var u := d + tail;
    assert u == (if d != "" then [d[0]] + (d[1..] + tail) else tail);
    assert u[..|d|] == d && u[|d|..] == tail;
    if |sign| + |d| == width {
      DigitsAtLeast(d, tail);
    } else {
      DigitsStop(d, tail);
    }
    if sign == "" {
      assert sign + u == u;
      BlanksAreSkipped(blanks, u);
      ScansUnsigned(blanks + u, u, |d|, width);
    } else {
      BlanksAreSkipped(blanks, sign + u);
      ScansSigned(blanks + (sign + u), sign[0], u, |d|, width);
    }
  }

  lemma ScansUnsigned(s: string, u: string, n: nat, width: nat)
    requires SkipBlanks(s) == u && (u == "" || u[0] !in {'+', '-'}) && width > 0
    requires n <= width && (if n == width then Digits(u) >= n else Digits(u) == n)
    ensures ScanInt(s, width) == if n == 0 then None else Some(Scanned(Number(u[..n]), u[n..]))
  {
    hide SkipBlanks, Number;
  }

  lemma ScansSigned(s: string, sign: char, u: string, n: nat, width: nat)
    requires SkipBlanks(s) == [sign] + u && sign in {'+', '-'} && width > 0
    requires n + 1 <= width && (if n + 1 == width then Digits(u) >= n else Digits(u) == n)
    ensures ScanInt(s, width) ==
            if n == 0 then None else Some(Scanned(Number(u[..n]) * (if sign == '-' then -1 else 1), u[n..]))
  {
    hide SkipBlanks, Number;
    assert ([sign] + u)[1..] == u;
  }

  /** Each number must be followed by its own separator, and all six with theirs take 19 characters. */
  lemma SeparatorsAreNeeded(s: string, fields: seq<Field>)
    requires (forall i :: 0 <= i < |fields| ==> fields[i].width > 0) && fields != [] && ScanFields(s, fields).Some?
    ensures var first, f := ScanInt(s, fields[0].width), fields[0];
            && first.Some? && ScanFields(s, fields).value.values[0] == first.value.value
            && (f.next.Some? ==> first.value.rest != "" && first.value.rest[0] == f.next.value)
            && ScanFields(if f.next.Some? then first.value.rest[1..] else first.value.rest, fields[1..]).Some?
  {
    hide ScanInt;
  }

  lemma StampTakesNineteen(text: string)
    ensures ScanStamp(text).Some? <==> ScanFields(text, FIELDS).Some? && |text| == 19 + |ScanFields(text, FIELDS).value.rest|
  {
    hide ScanFields;
  }

  /** A zone of hours and minutes is its offset, up to 14 hours either way; Z is none. */
  lemma ZoneIsWritten(east: bool, h: nat, m: nat)
    requires h < 100 && m < 100
    ensures Zone((if east then "+" else "-") + Padded(h, 2) + ":" + Padded(m, 2)) ==
            if m <= 59 && h * 60 + m <= 840 then Some(if east then h * 3600 + m * 60 else -(h * 3600 + m * 60)) else None
    ensures Zone("Z") == Some(0)
  {
    TwoDigits(h);
    TwoDigits(m);
    hide Padded;
    var s := (if east then "+" else "-") + Padded(h, 2) + ":" + Padded(m, 2);
    assert s[1] == Padded(h, 2)[0] && s[2] == Padded(h, 2)[1] && s[4] == Padded(m, 2)[0] && s[5] == Padded(m, 2)[1];
  }

  lemma TwoDigits(n: nat)
    requires n < 100
    ensures var s := Padded(n, 2); Value(s[0]) == n / 10 && Value(s[1]) == n % 10
  {
    assert Padded(n / 10, 1) == Padded(n / 10 / 10, 0) + ['0' + (n / 10 % 10) as char];
  }

  /** And nothing else is a zone. */
  lemma ZoneIsSound(s: string)
    requires Zone(s).Some?
    ensures s == "Z" ||
            exists h: nat, m: nat :: h < 100 && m < 100 &&
              (s == "+" + Padded(h, 2) + ":" + Padded(m, 2) || s == "-" + Padded(h, 2) + ":" + Padded(m, 2))
  {
    if s != "Z" {
      var h, m := Value(s[1]) * 10 + Value(s[2]), Value(s[4]) * 10 + Value(s[5]);
      TwoDigits(h);
      TwoDigits(m);
      SameDigits(s[1], Padded(h, 2)[0]);
      SameDigits(s[2], Padded(h, 2)[1]);
      SameDigits(s[4], Padded(m, 2)[0]);
      SameDigits(s[5], Padded(m, 2)[1]);
      hide Padded;
      assert s == [s[0]] + Padded(h, 2) + ":" + Padded(m, 2);
    }
  }

  lemma SameDigits(a: char, b: char)
    requires IsDigit(a) && IsDigit(b) && Value(a) == Value(b)
    ensures a == b
  {
  }

  /** How a timestamp is written: 2024-01-31T23:59:59 and its zone. */
  function Text(s: Stamp): string
    requires FieldsOk(s)
  {
    Written([s.y, s.m, s.d, s.h, s.mi, s.se], FIELDS, s.rest)
  }

  function Width(fields: seq<Field>): nat {
    if fields == [] then 0 else fields[0].width + (if fields[0].next.Some? then 1 else 0) + Width(fields[1..])
  }

  lemma {:induction false} WrittenLength(values: seq<nat>, fields: seq<Field>, rest: string)
    requires |values| == |fields|
    ensures |Written(values, fields, rest)| == Width(fields) + |rest|
    decreases |fields|
  {
    if fields != [] {
      WrittenLength(values[1..], fields[1..], rest);
    }
  }

  lemma Nineteen()
    ensures Width(FIELDS) == 19
  {
    WidthNext(5);
    WidthNext(4);
    WidthNext(3);
    WidthNext(2);
    WidthNext(1);
  }

  lemma WidthNext(k: nat)
    requires k < |FIELDS|
    ensures Width(FIELDS[k..]) == FIELDS[k].width + (if FIELDS[k].next.Some? then 1 else 0) + Width(FIELDS[k + 1..])
    ensures Width(FIELDS[|FIELDS|..]) == 0
  {
    assert FIELDS[k..][1..] == FIELDS[k + 1..];
  }

  lemma TextIsScanned(s: Stamp)
    requires FieldsOk(s)
    ensures ScanStamp(Text(s)) == Some(s)
  {
    hide ScanFields, Written;
    assert Tens(2) == 100 && Tens(4) == 10_000;
    WrittenIsScanned([s.y, s.m, s.d, s.h, s.mi, s.se], FIELDS, s.rest);
    WrittenLength([s.y, s.m, s.d, s.h, s.mi, s.se], FIELDS, s.rest);
    Nineteen();
  }

  /** From the clock to the text and back: in every zone, what a clock shows at v is read as v. */
  lemma WrittenIsRead(v: int, rest: string)
    requires Offset(rest).Some? && v + Offset(rest).value >= 0
    requires Reading(v + Offset(rest).value, rest).y <= 9999
    ensures var s := Reading(v + Offset(rest).value, rest); FieldsOk(s) && CreatedText(Text(s)) == Some(v)
  {
    hide Reading, Text, ScanStamp, Offset, CivilDays;
    var s := Reading(v + Offset(rest).value, rest);
    RestShown(v + Offset(rest).value, rest);
    ReadsTheInstant(s, v);
    TextIsScanned(s);
  }

  lemma RestShown(local: nat, rest: string)
    ensures Reading(local, rest).rest == rest
  {
  }

  // ----- the code

  /** The digits after the point; at most nine are read. */
  method SkipFraction(s: string) returns (rest: Option<string>)
    ensures rest == AfterFraction(s)
  {
    if s == "" || s[0] != '.' {
      return Some(s);
    }
    var p, digits := 1, 0;
    while p < |s| && IsDigit(s[p])
      invariant 1 <= p <= |s| && digits == p - 1 <= 9
      invariant Digits(s[1..]) == digits + Digits(s[p..])
    {
      p, digits := p + 1, digits + 1;
      if digits > 9 {
        return None;
      }
    }
    rest := if digits == 0 then None else Some(s[p..]);
  }

  /** created_time; the six numbers are sscanf's. */
  method ReadCreated(text: string) returns (value: Option<int>)
    ensures value == CreatedText(text)
  {
    hide ScanStamp, CivilDays, AfterFraction, Zone, MonthDays;
    var scanned := ScanStamp(text);
    if scanned.None? {
      return None;
    }
    var s := scanned.value;
    if s.y < 1970 || s.y > 9999 || s.m < 1 || s.m > 12 || s.d < 1 || s.h < 0 || s.h > 23 || s.mi < 0 || s.mi > 59 ||
      s.se < 0 || s.se > 59 || s.d > MonthDays(s.y, s.m)
    {
      return None;
    }
    var zone := SkipFraction(s.rest);
    if zone.None? {
      return None;
    }
    var offset := Zone(zone.value);
    if offset.None? {
      return None;
    }
    value := Some(CivilDays(s.y, s.m, s.d) * DAY_S + s.h * 3600 + s.mi * 60 + s.se - offset.value);
  }
}
