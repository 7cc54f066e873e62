/**
  The order of strings, by code point, and the fixed-width timestamps the server compares as
  strings (`_utcnow` and `_cutoff` in server/database.py).
 */
module TextOrder {

  predicate Less(a: string, b: string) {
    if b == "" then false
    else if a == "" then true
    else a[0] < b[0] || (a[0] == b[0] && Less(a[1..], b[1..]))
  }

  predicate Leq(a: string, b: string) {
    !Less(b, a)
  }

  lemma {:induction false} Total(a: string, b: string)
    ensures Less(a, b) ==> !Less(b, a) && a != b
    ensures !Less(a, b) && !Less(b, a) ==> a == b
  {
    if a == "" || b == "" || a[0] != b[0] {
    } else {
      Total(a[1..], b[1..]);
      if a[1..] == b[1..] { assert a == [a[0]] + a[1..] && b == [b[0]] + b[1..]; }
    }
  }

  lemma {:induction false} Transitive(a: string, b: string, c: string)
    requires Leq(a, b) && Leq(b, c)
    ensures Leq(a, c)
    ensures Less(a, b) || Less(b, c) ==> Less(a, c)
  {
    if a == "" && b == "" {
    } else if a == "" && c == "" {
      Total(b, c);
    } else if a != "" && b != "" && c != "" && a[0] == b[0] == c[0] {
      Transitive(a[1..], b[1..], c[1..]);
    }
  }

  lemma {:induction false} EqualLengthFirst(a: string, b: string, x: string, y: string)
    requires |a| == |b|
    ensures Less(a + x, b + y) <==> Less(a, b) || (a == b && Less(x, y))
  {
    if a == "" {
      assert a + x == x && b + y == y;
    } else {
      EqualLengthFirst(a[1..], b[1..], x, y);
      assert (a + x)[1..] == a[1..] + x && (b + y)[1..] == b[1..] + y;
      if a[1..] == b[1..] && a[0] == b[0] { assert a == [a[0]] + a[1..] && b == [b[0]] + b[1..]; }
    }
  }

  // ----- Timestamps -----

  datatype Moment = Moment(year: nat, month: nat, day: nat, hour: nat, minute: nat, second: nat)

  predicate ValidMoment(m: Moment) {
    m.year < 10000 && m.month < 100 && m.day < 100 && m.hour < 100 && m.minute < 100 && m.second < 100
  }

  /** Calendar order. */
  predicate Earlier(a: Moment, b: Moment) {
    || a.year < b.year
    || (a.year == b.year && (
        || a.month < b.month
        || (a.month == b.month && (
            || a.day < b.day
            || (a.day == b.day && (
                || a.hour < b.hour
                || (a.hour == b.hour && (
                    || a.minute < b.minute
                    || (a.minute == b.minute && a.second < b.second)))))))))
  }

  function Digit(n: nat): char
    requires n < 10
  {
    "0123456789"[n]
  }

  function Pad2(n: nat): string
    requires n < 100
  {
    [Digit(n / 10), Digit(n % 10)]
  }

  lemma Pad2Order(m: nat, n: nat)
    requires m < 100 && n < 100
    ensures Less(Pad2(m), Pad2(n)) <==> m < n
    ensures Pad2(m) == Pad2(n) <==> m == n
  {
    DigitOrder(m / 10, n / 10);
    DigitOrder(m % 10, n % 10);
    assert Pad2(m)[1..] == [Digit(m % 10)] && Pad2(n)[1..] == [Digit(n % 10)];
    assert Less([Digit(m % 10)], [Digit(n % 10)]) <==> m % 10 < n % 10;
    assert Pad2(m)[0] == Digit(m / 10) && Pad2(m)[1] == Digit(m % 10);
  }

  lemma DigitOrder(m: nat, n: nat)
    requires m < 10 && n < 10
    ensures Digit(m) < Digit(n) <==> m < n
    ensures Digit(m) == Digit(n) <==> m == n
  {
    DigitCode(m);
    DigitCode(n);
  }

  lemma DigitCode(n: nat)
    requires n < 10
    ensures Digit(n) as int == '0' as int + n
  {
  }

  /** Two-digit fields, each followed by its separator. */
  function Fields(values: seq<nat>, seps: seq<string>): string
    requires |values| == |seps| && forall i :: 0 <= i < |values| ==> values[i] < 100
  {
    if values == [] then "" else Pad2(values[0]) + (seps[0] + Fields(values[1..], seps[1..]))
  }

  predicate LexLess(a: seq<nat>, b: seq<nat>)
    requires |a| == |b|
  {
    a != [] && (a[0] < b[0] || (a[0] == b[0] && LexLess(a[1..], b[1..])))
  }

  lemma {:induction false} FieldsOrder(a: seq<nat>, b: seq<nat>, seps: seq<string>)
    requires |a| == |b| == |seps|
    requires forall i :: 0 <= i < |a| ==> a[i] < 100 && b[i] < 100
    ensures Less(Fields(a, seps), Fields(b, seps)) <==> LexLess(a, b)
  {
    if a == [] {
    } else {
      var x, y := Fields(a[1..], seps[1..]), Fields(b[1..], seps[1..]);
      FieldsOrder(a[1..], b[1..], seps[1..]);
      Pad2Order(a[0], b[0]);
      EqualLengthFirst(Pad2(a[0]), Pad2(b[0]), seps[0] + x, seps[0] + y);
      EqualLengthFirst(seps[0], seps[0], x, y);
      Total(seps[0], seps[0]);
    }
  }

  function Values(m: Moment): seq<nat> {
    [m.year / 100, m.year % 100, m.month, m.day, m.hour, m.minute, m.second]
  }

  const SEPARATORS: seq<string> := ["", "-", "-", " ", ":", ":", ""]

  /** `strftime("%Y-%m-%d %H:%M:%S")`. */
  function Format(m: Moment): string
    requires ValidMoment(m)
  {
    Fields(Values(m), SEPARATORS)
  }

  lemma FieldsNext(values: seq<nat>, seps: seq<string>, i: nat)
    requires |values| == |seps| && i < |values| && forall k :: 0 <= k < |values| ==> values[k] < 100
    ensures Fields(values[i..], seps[i..]) == Pad2(values[i]) + (seps[i] + Fields(values[i + 1..], seps[i + 1..]))
  {
    assert values[i..][1..] == values[i + 1..] && seps[i..][1..] == seps[i + 1..];
  }

  function DateText(m: Moment, rest: string): string
    requires ValidMoment(m)
  {
    Pad2(m.year / 100) + ("" + (Pad2(m.year % 100) + ("-" + (Pad2(m.month) + ("-" + (Pad2(m.day) + (" " + rest)))))))
  }

  function TimeText(m: Moment): string
    requires ValidMoment(m)
  {
    Pad2(m.hour) + (":" + (Pad2(m.minute) + (":" + (Pad2(m.second) + ("" + "")))))
  }

  lemma FormatTime(m: Moment)
    requires ValidMoment(m)
    ensures Fields(Values(m)[4..], SEPARATORS[4..]) == TimeText(m)
  {
    var v := Values(m);
    FieldsNext(v, SEPARATORS, 4);
    FieldsNext(v, SEPARATORS, 5);
    FieldsNext(v, SEPARATORS, 6);
    assert v[7..] == [] && SEPARATORS[7..] == [];
  }

  lemma FormatDate(m: Moment)
    requires ValidMoment(m)
    ensures Format(m) == DateText(m, Fields(Values(m)[4..], SEPARATORS[4..]))
  {
    var v := Values(m);
    assert v[0..] == v && SEPARATORS[0..] == SEPARATORS;
    FieldsNext(v, SEPARATORS, 0);
    FieldsNext(v, SEPARATORS, 1);
    FieldsNext(v, SEPARATORS, 2);
    FieldsNext(v, SEPARATORS, 3);
  }

  /** The text of a moment: date, time and what separates their parts. */
  lemma FormatText(m: Moment)
    requires ValidMoment(m)
    ensures Format(m) == DateText(m, TimeText(m))
  {
    FormatDate(m);
    FormatTime(m);
  }

  /** Comparing two timestamps as strings is comparing the moments they stand for. */
  lemma TimestampOrder(a: Moment, b: Moment)
    requires ValidMoment(a) && ValidMoment(b)
    ensures Less(Format(a), Format(b)) <==> Earlier(a, b)
  {
    FieldsOrder(Values(a), Values(b), SEPARATORS);
    var v, w := Values(a), Values(b);
    assert LexLess(v[6..], w[6..]) <==> a.second < b.second by { assert v[6..][1..] == [] && w[6..][1..] == []; }
    LexStep(v, w, 5);
    LexStep(v, w, 4);
    LexStep(v, w, 3);
    LexStep(v, w, 2);
    LexStep(v, w, 1);
    LexStep(v, w, 0);
    assert v[0..] == v && w[0..] == w;
  }

  lemma LexStep(v: seq<nat>, w: seq<nat>, i: nat)
    requires |v| == |w| && i < |v|
    ensures LexLess(v[i..], w[i..]) <==> v[i] < w[i] || (v[i] == w[i] && LexLess(v[i + 1..], w[i + 1..]))
  {
    assert v[i..][1..] == v[i + 1..] && w[i..][1..] == w[i + 1..];
  }
}
