/** The `Y-m-d` and `Y-m-d H:i:s` strings PHP's date() produces, and why
    comparing them as strings compares calendar days: every field is a
    zero-padded decimal of fixed width, so the byte-wise order of the
    strings is the order of the dates. */
module DateFormat {
  import opened Php

  datatype Date = Date(year: int, month: int, day: int)
  datatype DateTime = DateTime(date: Date, hour: int, minute: int, second: int)

  function DaysInMonth(year: int, month: int): int {
    if month == 2 then (if (year % 4 == 0 && year % 100 != 0) || year % 400 == 0 then 29 else 28)
    else if month == 4 || month == 6 || month == 9 || month == 11 then 30
    else 31
  }

  /** A calendar date date('Y') writes with exactly four digits. */
  predicate ValidDate(d: Date) {
    0 <= d.year <= 9999 && 1 <= d.month <= 12 && 1 <= d.day <= DaysInMonth(d.year, d.month)
  }

  predicate ValidDateTime(t: DateTime) {
    ValidDate(t.date) && 0 <= t.hour < 24 && 0 <= t.minute < 60 && 0 <= t.second < 60
  }

  /** Calendar order: `d1` is an earlier day than `d2`. */
  predicate Before(d1: Date, d2: Date) {
    d1.year < d2.year
    || (d1.year == d2.year && (d1.month < d2.month || (d1.month == d2.month && d1.day < d2.day)))
  }

  function Pow10(w: nat): nat {
    if w == 0 then 1 else 10 * Pow10(w - 1)
  }

  function DigitChar(n: int): char
    requires 0 <= n < 10
  {
    ('0' as int + n) as char
  }

  /** `n` in decimal, zero-padded to `width` digits. */
  function Pad(n: nat, width: nat): (s: string)
    requires n < Pow10(width)
    ensures |s| == width
  {
    if width == 0 then "" else Pad(n / 10, width - 1) + [DigitChar(n % 10)]
  }

  /** `date('Y-m-d')` */
  function Ymd(d: Date): (s: string)
    requires ValidDate(d)
    ensures |s| == 10
  {
    Pad(d.year, 4) + ("-" + Pad(d.month, 2)) + ("-" + Pad(d.day, 2))
  }

  /** `date('Y-m-d H:i:s')` */
  function YmdHis(t: DateTime): (s: string)
    requires ValidDateTime(t)
    ensures |s| == 19 && s[..10] == Ymd(t.date)
  {
    Ymd(t.date) + (" " + Pad(t.hour, 2) + ":" + Pad(t.minute, 2) + ":" + Pad(t.second, 2))
  }

  /** Comparing two strings that begin with parts of equal length: the
      first parts decide unless they are equal. */
  lemma {:induction false} LexLessConcat(a1: string, b1: string, a2: string, b2: string)
    requires |a1| == |a2|
    ensures LexLess(a1 + b1, a2 + b2) <==>
              (a1 != a2 && LexLess(a1, a2)) || (a1 == a2 && LexLess(b1, b2))
  {
    if a1 == [] {
      assert a1 + b1 == b1 && a2 + b2 == b2;
    } else {
      assert (a1 + b1)[0] == a1[0] && (a2 + b2)[0] == a2[0];
      assert (a1 + b1)[1..] == a1[1..] + b1 && (a2 + b2)[1..] == a2[1..] + b2;
      if a1[0] == a2[0] {
        LexLessConcat(a1[1..], b1, a2[1..], b2);
        assert a1 == a2 <==> a1[1..] == a2[1..] by {
          assert a1 == [a1[0]] + a1[1..] && a2 == [a2[0]] + a2[1..];
        }
      }
    }
  }

  /** A string is never below itself followed by more. */
  lemma {:induction false} NotBelowPrefix(a: string, b: string)
    ensures !LexLess(a + b, a)
  {
    if a != [] {
      assert (a + b)[1..] == a[1..] + b;
      NotBelowPrefix(a[1..], b);
    }
  }

  lemma LexLessSingle(c1: char, c2: char)
    ensures LexLess([c1], [c2]) <==> c1 < c2
  {
    if c1 == c2 {
      assert [c1][1..] == [];
    }
  }

  lemma DivModOrder(n: nat, m: nat)
    ensures n < m <==> n / 10 < m / 10 || (n / 10 == m / 10 && n % 10 < m % 10)
    ensures n == m <==> n / 10 == m / 10 && n % 10 == m % 10
  {
    assert n == 10 * (n / 10) + n % 10;
    assert m == 10 * (m / 10) + m % 10;
  }

  /** Zero-padded decimals of one width compare as strings exactly as the
      numbers compare, and are equal exactly when the numbers are. */
  lemma {:induction false} PadOrder(n: nat, m: nat, width: nat)
    requires n < Pow10(width) && m < Pow10(width)
    ensures LexLess(Pad(n, width), Pad(m, width)) <==> n < m
    ensures Pad(n, width) == Pad(m, width) <==> n == m
  {
    if width == 0 {
      assert n == 0 && m == 0;
    } else {
      PadOrder(n / 10, m / 10, width - 1);
      var hn, hm := Pad(n / 10, width - 1), Pad(m / 10, width - 1);
      var cn, cm := DigitChar(n % 10), DigitChar(m % 10);
      LexLessConcat(hn, [cn], hm, [cm]);
      LexLessSingle(cn, cm);
      DivModOrder(n, m);
      assert Pad(n, width) == Pad(m, width) <==> hn == hm && cn == cm by {
        if Pad(n, width) == Pad(m, width) {
          assert hn == Pad(n, width)[..width - 1] && hm == Pad(m, width)[..width - 1];
          assert cn == Pad(n, width)[width - 1] && cm == Pad(m, width)[width - 1];
        }
      }
    }
  }

  /** A dash followed by a two-digit field. */
  function DashPad(n: nat): string
    requires n < 100
  {
    "-" + Pad(n, 2)
  }

  lemma DashPadOrder(n: nat, m: nat)
    requires n < 100 && m < 100
    ensures LexLess(DashPad(n), DashPad(m)) <==> n < m
    ensures DashPad(n) == DashPad(m) <==> n == m
  {
    PadOrder(n, m, 2);
    LexLessConcat("-", Pad(n, 2), "-", Pad(m, 2));
    if DashPad(n) == DashPad(m) {
      assert Pad(n, 2) == DashPad(n)[1..];
    }
  }

  /** `Y-m-d` strings compare as their days do. */
  lemma YmdOrder(d1: Date, d2: Date)
    requires ValidDate(d1) && ValidDate(d2)
    ensures LexLess(Ymd(d1), Ymd(d2)) <==> Before(d1, d2)
    ensures Ymd(d1) == Ymd(d2) <==> d1 == d2
  {
    var y1, y2 := Pad(d1.year, 4), Pad(d2.year, 4);
    var m1, m2 := DashPad(d1.month), DashPad(d2.month);
    var a1, a2 := DashPad(d1.day), DashPad(d2.day);
    assert Ymd(d1) == y1 + (m1 + a1) && Ymd(d2) == y2 + (m2 + a2);
    PadOrder(d1.year, d2.year, 4);
    DashPadOrder(d1.month, d2.month);
    DashPadOrder(d1.day, d2.day);
    LexLessConcat(y1, m1 + a1, y2, m2 + a2);
    LexLessConcat(m1, a1, m2, a2);
    if Ymd(d1) == Ymd(d2) {
      assert y1 == Ymd(d1)[..4] && y2 == Ymd(d2)[..4];
      assert m1 + a1 == Ymd(d1)[4..] && m2 + a2 == Ymd(d2)[4..];
      assert m1 == (m1 + a1)[..3] && m2 == (m2 + a2)[..3];
      assert a1 == (m1 + a1)[3..] && a2 == (m2 + a2)[3..];
    }
  }

  /** Today's `Y-m-d` is above a stored `Y-m-d H:i:s` exactly when the stored
      time falls on an earlier calendar day; the same day or a later one is
      not below today. */
  lemma TimestampBeforeDay(t: DateTime, today: Date)
    requires ValidDateTime(t) && ValidDate(today)
    ensures LexLess(YmdHis(t), Ymd(today)) <==> Before(t.date, today)
  {
    var day, rest := Ymd(t.date), YmdHis(t)[10..];
    assert YmdHis(t) == day + rest;
    YmdOrder(t.date, today);
    if day == Ymd(today) {
      NotBelowPrefix(day, rest);
      assert !Before(t.date, today);
    } else {
      LexLessConcat(day, rest, Ymd(today), "");
      assert Ymd(today) + "" == Ymd(today);
    }
  }
}
