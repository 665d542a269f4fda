/** The countdown shown above the map (frontend/main.js, setNewInterval). */
module Countdown {
  import opened Wrappers

  function Digit(d: nat): char
    requires d < 10
  {
    "0123456789"[d]
  }

  /** A number as the page prints it. */
  function Digits(n: nat): (s: string)
    ensures |s| > 0
  {
    if n < 10 then [Digit(n)] else Digits(n / 10) + [Digit(n % 10)]
  }

  function Padded(pad: bool, n: nat): string {
    if pad then "0" + Digits(n) else Digits(n)
  }

  function Hours(h: nat): string {
    if h > 0 then Digits(h) + ":" else ""
  }

  /** The text for a number of seconds: `m:ss`, with `h:` and two-digit minutes from an hour on. */
  function Text(n: nat): string {
    Clock(n / 3600, n % 3600 / 60, n % 60)
  }

  function Clock(h: nat, m: nat, s: nat): string {
    Hours(h) + (Padded(h > 0 && m < 10, m) + ":") + Padded(s < 10, s)
  }

  /** The timer's callback: nothing once the share is over. */
  method Tick(seconds: int) returns (text: Option<string>)
    ensures text == if seconds < 0 then None else Some(Text(seconds))
  {
    if seconds < 0 {
      return None;
    }
    var h := seconds / 3600;
    var m := seconds % 3600 / 60;
    var s := seconds % 60;
    var time := "";
    if h > 0 {
      time := time + (Digits(h) + ":");
    }
    assert time == Hours(h);
    if h > 0 && m < 10 {
      time := time + "0";
    }
    time := time + Digits(m) + ":";
    assert time == Hours(h) + (Padded(h > 0 && m < 10, m) + ":");
    if s < 10 {
      time := time + "0";
    }
    time := time + Digits(s);
    assert time == Clock(h, m, s);
    return Some(time);
  }

  // ----- reading the text back -----

  /** Finished fields, in seconds so far, and the field being read. */
  datatype Reading = Reading(done: int, field: int)

  function DigitValue(c: char): int {
    c as int - '0' as int
  }

  function Next(r: Reading, c: char): Reading {
    if c == ':' then Reading((r.done + r.field) * 60, 0) else Reading(r.done, r.field * 10 + DigitValue(c))
  }

  function Read(r: Reading, s: string): Reading {
    if s == "" then r else Next(Read(r, s[..|s| - 1]), s[|s| - 1])
  }

  /** The number of seconds a text stands for, fields separated by colons counting sixty-fold. */
  function Parse(s: string): int {
    var r := Read(Reading(0, 0), s);
    r.done + r.field
  }

  lemma {:induction false} ReadConcat(r: Reading, a: string, b: string)
    ensures Read(r, a + b) == Read(Read(r, a), b)
  {
    if b == "" {
      assert a + b == a;
    } else {
      ReadConcat(r, a, b[..|b| - 1]);
      assert (a + b)[..|a + b| - 1] == a + b[..|b| - 1];
    }
  }

  lemma DigitReads(r: Reading, d: nat)
    requires d < 10
    ensures Digit(d) != ':' && DigitValue(Digit(d)) == d
    ensures Read(r, [Digit(d)]) == Reading(r.done, r.field * 10 + d)
  {
    assert Read(r, [Digit(d)]) == Next(Read(r, ""), Digit(d));
  }

  lemma {:induction false} DigitsRead(r: Reading, n: nat)
    requires r.field == 0
    ensures Read(r, Digits(n)) == Reading(r.done, n)
  {
    if n < 10 {
      DigitReads(r, n);
    } else {
      DigitsRead(r, n / 10);
      ReadConcat(r, Digits(n / 10), [Digit(n % 10)]);
      DigitReads(Reading(r.done, n / 10), n % 10);
    }
  }

  /** A field, with or without a leading zero. */
  lemma FieldReads(r: Reading, n: nat, padded: bool)
    requires r.field == 0
    ensures Read(r, Padded(padded, n)) == Reading(r.done, n)
  {
    if padded {
      ReadConcat(r, "0", Digits(n));
      DigitReads(r, 0);
      assert "0" == [Digit(0)];
    }
    DigitsRead(r, n);
  }

  lemma FieldAndColon(r: Reading, field: string, n: nat)
    requires Read(r, field) == Reading(r.done, n)
    ensures Read(r, field + ":") == Reading((r.done + n) * 60, 0)
  {
    ReadConcat(r, field, ":");
    assert Read(Reading(r.done, n), ":") == Next(Read(Reading(r.done, n), ""), ':');
  }

  lemma HoursRead(h: nat)
    ensures Read(Reading(0, 0), Hours(h)) == Reading(h * 60, 0)
  {
    if h > 0 {
      DigitsRead(Reading(0, 0), h);
      FieldAndColon(Reading(0, 0), Digits(h), h);
    }
  }

  lemma HoursMinutesSeconds(n: nat)
    ensures n == ((n / 3600) * 60 + n % 3600 / 60) * 60 + n % 60
  {
    assert n % 3600 % 60 == n % 60;
  }

  lemma MinutesRead(h: nat, m: nat)
    ensures Read(Reading(0, 0), Hours(h) + (Padded(h > 0 && m < 10, m) + ":")) == Reading((h * 60 + m) * 60, 0)
  {
    var minutes := Padded(h > 0 && m < 10, m);
    var r := Reading(h * 60, 0);
    HoursRead(h);
    FieldReads(r, m, h > 0 && m < 10);
    FieldAndColon(r, minutes, m);
    ReadConcat(Reading(0, 0), Hours(h), minutes + ":");
  }

  lemma ClockReads(h: nat, m: nat, s: nat)
    ensures Parse(Clock(h, m, s)) == (h * 60 + m) * 60 + s
  {
    var front := Hours(h) + (Padded(h > 0 && m < 10, m) + ":");
    var r := Reading((h * 60 + m) * 60, 0);
    MinutesRead(h, m);
    FieldReads(r, s, s < 10);
    ReadConcat(Reading(0, 0), front, Padded(s < 10, s));
  }

  /** The text reads back as the number it was made from. */
  lemma TextReadsBack(n: nat)
    ensures Parse(Text(n)) == n
  {
    ClockReads(n / 3600, n % 3600 / 60, n % 60);
    HoursMinutesSeconds(n);
  }

  /** So different remaining times never display the same. */
  lemma TextIsInjective(n: nat, n': nat)
    requires Text(n) == Text(n')
    ensures n == n'
  {
    TextReadsBack(n);
    TextReadsBack(n');
  }

  // ----- how the text is written -----

  /** `s` writes `n` in decimal with at least `width` places and no more leading zeros than that takes. */
  predicate Numeral(s: string, n: nat, width: nat) {
    Read(Reading(0, 0), s) == Reading(0, n) && |s| >= width > 0 && (|s| > width ==> s[0] != '0')
  }

  lemma {:induction false} DigitsLead(n: nat)
    ensures |Digits(n)| == 1 <==> n < 10
    ensures Digits(n)[0] == '0' <==> n == 0
  {
    if n < 10 {
    } else {
      DigitsLead(n / 10);
    }
  }

  lemma PaddedNumeral(n: nat, two: bool)
    requires two ==> n < 100
    ensures Numeral(Padded(two && n < 10, n), n, if two then 2 else 1)
  {
    FieldReads(Reading(0, 0), n, two && n < 10);
    DigitsLead(n);
  }

  /** Hours only from one hour on; then minutes in two places, else as many as they take; seconds in
      two places always. */
  lemma TextFields(n: nat) returns (h: string, m: string, s: string)
    ensures Text(n) == if n >= 3600 then h + ":" + (m + ":") + s else m + ":" + s
    ensures n >= 3600 ==> Numeral(h, n / 3600, 1)
    ensures Numeral(m, n % 3600 / 60, if n >= 3600 then 2 else 1) && Numeral(s, n % 60, 2)
  {
    h, m, s := Digits(n / 3600), Padded(n >= 3600 && n % 3600 / 60 < 10, n % 3600 / 60), Padded(n % 60 < 10, n % 60);
    PaddedNumeral(n / 3600, false);
    PaddedNumeral(n % 3600 / 60, n >= 3600);
    PaddedNumeral(n % 60, true);
    assert "" + (m + ":") == m + ":";
  }
}
