/**
 * The "Average view duration" column: a `%H:%M:%S` string parsed by
 * `datetime.strptime` and then turned into a number of seconds.
 */
module Durations {
  import opened Wrappers

  /** The time-of-day part of the datetime strptime returns. */
  datatype TimeOfDay = TimeOfDay(hour: int, minute: int, second: int)

  /** The ranges a datetime accepts. */
  predicate ValidTime(t: TimeOfDay) {
    0 <= t.hour < 24 && 0 <= t.minute < 60 && 0 <= t.second < 60
  }

  predicate IsDigit(c: char) {
    '0' <= c <= '9'
  }

  function DigitValue(c: char): (v: nat)
    requires IsDigit(c)
    ensures v < 10
  {
    c as int - '0' as int
  }

  function Digit(v: nat): (c: char)
    requires v < 10
    ensures IsDigit(c) && DigitValue(c) == v
  {
    ('0' as int + v) as char
  }

  /** Rebuilds a colon-separated string from its fields. */
  function Join(fields: seq<string>): string
    requires |fields| >= 1
  {
    if |fields| == 1 then fields[0] else fields[0] + ":" + Join(fields[1..])
  }

  /** Cuts a string at every ':'. */
  function Split(s: string): (fields: seq<string>)
    ensures |fields| >= 1
  {
    if s == [] then [[]]
    else
      var rest := Split(s[1..]);
      if s[0] == ':' then [[]] + rest
      else [[s[0]] + rest[0]] + rest[1..]
  }

  /** Split loses nothing and cuts at every ':': its fields hold no ':' and join back to the string. */
  lemma {:induction false} SplitJoin(s: string)
    ensures forall i :: 0 <= i < |Split(s)| ==> ':' !in Split(s)[i]
    ensures Join(Split(s)) == s
  {
    if s != [] {
      SplitJoin(s[1..]);
      var rest := Split(s[1..]);
      if s[0] == ':' {
        assert s == ":" + Join(rest);
      } else {
        JoinExtendsHead(s[0], rest[0], rest[1..]);
        assert rest == [rest[0]] + rest[1..];
        assert s == [s[0]] + s[1..];
      }
    }
  }

  /** Putting a character in front of the first field puts it in front of the joined text. */
  lemma JoinExtendsHead(c: char, head: string, tail: seq<string>)
    ensures Join([[c] + head] + tail) == [c] + Join([head] + tail)
  {
    if tail == [] {
      assert [[c] + head] + tail == [[c] + head];
      assert [head] + tail == [head];
    } else {
      JoinCons(head, tail);
      JoinCons([c] + head, tail);
      var rest := Join(tail);
      assert ([c] + head) + ":" + rest == [c] + (head + ":" + rest);
    }
  }

  /** Joining a field in front of at least one more. */
  lemma JoinCons(a: string, tail: seq<string>)
    requires |tail| >= 1
    ensures Join([a] + tail) == a + ":" + Join(tail)
  {
    assert ([a] + tail)[1..] == tail;
  }

  /** A string without ':' is a single field. */
  lemma {:induction false} SplitSingle(a: string)
    requires ':' !in a
    ensures Split(a) == [a]
  {
    if a != [] {
      SplitSingle(a[1..]);
      assert a[0] != ':' && [a[0]] + a[1..] == a;
    }
  }

  /** A ':' ends the field before it. */
  lemma {:induction false} SplitAtColon(a: string, t: string)
    requires ':' !in a
    ensures Split(a + ":" + t) == [a] + Split(t)
  {
    if a == [] {
      assert (a + ":" + t)[1..] == t;
    } else {
      var s := a + ":" + t;
      assert s[1..] == a[1..] + ":" + t;
      SplitAtColon(a[1..], t);
      var rest := Split(s[1..]);
      assert rest == [a[1..]] + Split(t);
      assert [s[0]] + rest[0] == a;
      assert Split(s) == [[s[0]] + rest[0]] + rest[1..];
    }
  }

  /** Reading back the digit of a character gives the character. */
  lemma DigitOfValue(c: char)
    requires IsDigit(c)
    ensures Digit(DigitValue(c)) == c
  {
  }

  /** Tens and units of a number under 100. */
  lemma TensAndUnits(d0: nat, d1: nat)
    requires d0 < 10 && d1 < 10
    ensures (10 * d0 + d1) / 10 == d0 && (10 * d0 + d1) % 10 == d1
  {
  }

  /**
   * f is a way strptime may write v in one field: a single digit, or two
   * digits (a leading zero allowed).
   */
  predicate Spells(f: string, v: nat) {
    || (v < 10 && f == [Digit(v)])
    || (v < 100 && f == [Digit(v / 10), Digit(v % 10)])
  }

  /**
   * One strptime field: one or two ASCII digits whose value is at most `max`.
   * (The %H pattern admits 0-23, %M 0-59 and %S 0-61, but the datetime
   * built from it refuses seconds 60 and 61, so the seconds bound is 59.)
   */
  function ParseField(f: string, max: nat): (r: Option<nat>)
    ensures r.Some? ==> r.value <= max && Spells(f, r.value)
  {
    if |f| == 1 && IsDigit(f[0]) then
      DigitOfValue(f[0]);
      (if DigitValue(f[0]) <= max then Some(DigitValue(f[0])) else None)
    else if |f| == 2 && IsDigit(f[0]) && IsDigit(f[1]) then
      var v := 10 * DigitValue(f[0]) + DigitValue(f[1]);
      DigitOfValue(f[0]);
      DigitOfValue(f[1]);
      TensAndUnits(DigitValue(f[0]), DigitValue(f[1]));
      assert f == [f[0], f[1]];
      if v <= max then Some(v) else None
    else None
  }

  /** Every spelling of a value within the bound is read as that value. */
  lemma ParseFieldComplete(f: string, v: nat, max: nat)
    requires Spells(f, v) && v <= max
    ensures ParseField(f, max) == Some(v)
  {
    if !(v < 10 && f == [Digit(v)]) {
      TensAndUnits(v / 10, v % 10);
    }
  }

  /** A spelled field holds no ':'. */
  lemma SpelledHasNoColon(f: string, v: nat)
    requires Spells(f, v)
    ensures ':' !in f
  {
  }

  /** `datetime.strptime(s, '%H:%M:%S')`; None where strptime raises ValueError. */
  function ParseDuration(s: string): (r: Option<TimeOfDay>)
    ensures r.Some? ==> ValidTime(r.value)
    ensures r.Some? ==>
      && |Split(s)| == 3
      && Spells(Split(s)[0], r.value.hour)
      && Spells(Split(s)[1], r.value.minute)
      && Spells(Split(s)[2], r.value.second)
  {
    var fields := Split(s);
    if |fields| != 3 then None
    else
      match (ParseField(fields[0], 23), ParseField(fields[1], 59), ParseField(fields[2], 59))
      case (Some(h), Some(m), Some(sec)) => Some(TimeOfDay(h, m, sec))
      case _ => None
  }

  /** A parsed duration is three spelled fields joined by ':'. */
  lemma ParseDurationSound(s: string, t: TimeOfDay)
    requires ParseDuration(s) == Some(t)
    ensures exists a, b, c :: s == a + ":" + b + ":" + c
              && Spells(a, t.hour) && Spells(b, t.minute) && Spells(c, t.second)
  {
    var f := Split(s);
    SplitJoin(s);
    assert Join(f[1..][1..]) == f[2];
    assert Join(f[1..]) == f[1] + ":" + f[2];
    assert Join(f) == f[0] + ":" + (f[1] + ":" + f[2]);
    assert s == f[0] + ":" + f[1] + ":" + f[2];
  }

  /** Three spelled fields of a valid time, joined by ':', parse as that time. */
  lemma ParseDurationComplete(a: string, b: string, c: string, t: TimeOfDay)
    requires ValidTime(t)
    requires Spells(a, t.hour) && Spells(b, t.minute) && Spells(c, t.second)
    ensures ParseDuration(a + ":" + b + ":" + c) == Some(t)
  {
    SpelledHasNoColon(a, t.hour);
    SpelledHasNoColon(b, t.minute);
    SpelledHasNoColon(c, t.second);
    var s := a + ":" + b + ":" + c;
    assert s == a + ":" + (b + ":" + c);
    SplitAtColon(a, b + ":" + c);
    SplitAtColon(b, c);
    SplitSingle(c);
    assert Split(s) == [a, b, c];
    ParseFieldComplete(a, t.hour, 23);
    ParseFieldComplete(b, t.minute, 59);
    ParseFieldComplete(c, t.second, 59);
  }

  /** `x.second + x.minute*60 + x.hour*3600`: a valid time is under one day. */
  function ToSeconds(t: TimeOfDay): (n: int)
    requires ValidTime(t)
    ensures 0 <= n <= 86399
  {
    t.second + t.minute * 60 + t.hour * 3600
  }

  /** The inverse of ToSeconds: hours, minutes and seconds of a count under one day. */
  function FromSeconds(n: nat): (t: TimeOfDay)
    requires n < 86400
    ensures ValidTime(t)
  {
    TimeOfDay(n / 3600, n % 3600 / 60, n % 60)
  }

  /** Whole hours and the seconds left over. */
  lemma DivModHour(q: int, r: int)
    requires 0 <= r < 3600
    ensures (q * 3600 + r) / 3600 == q && (q * 3600 + r) % 3600 == r
  {
  }

  /** Whole minutes and the seconds left over. */
  lemma DivModMinute(q: int, r: int)
    requires 0 <= r < 60
    ensures (q * 60 + r) / 60 == q && (q * 60 + r) % 60 == r
  {
  }

  /** FromSeconds undoes ToSeconds: no two valid times share a second count. */
  lemma FromToSeconds(t: TimeOfDay)
    requires ValidTime(t)
    ensures FromSeconds(ToSeconds(t)) == t
  {
    var below := t.minute * 60 + t.second;
    assert ToSeconds(t) == t.hour * 3600 + below;
    DivModHour(t.hour, below);
    DivModMinute(t.minute, t.second);
    DivModMinute(t.hour * 60 + t.minute, t.second);
    assert ToSeconds(t) == (t.hour * 60 + t.minute) * 60 + t.second;
  }

  /** ToSeconds undoes FromSeconds: every count under one day is some valid time. */
  lemma ToFromSeconds(n: nat)
    requires n < 86400
    ensures ToSeconds(FromSeconds(n)) == n
  {
    var q, r := n / 3600, n % 3600;
    assert n == q * 3600 + r;
    assert r == (r / 60) * 60 + r % 60;
    assert n % 60 == r % 60;
  }

  /** The zero-padded `HH:MM:SS` spelling of a time. */
  function Format(t: TimeOfDay): string
    requires ValidTime(t)
  {
    [Digit(t.hour / 10), Digit(t.hour % 10), ':',
     Digit(t.minute / 10), Digit(t.minute % 10), ':',
     Digit(t.second / 10), Digit(t.second % 10)]
  }

  /** Parsing the zero-padded spelling of a valid time gives back that time. */
  lemma ParseFormat(t: TimeOfDay)
    requires ValidTime(t)
    ensures ParseDuration(Format(t)) == Some(t)
  {
    var h := [Digit(t.hour / 10), Digit(t.hour % 10)];
    var m := [Digit(t.minute / 10), Digit(t.minute % 10)];
    var sec := [Digit(t.second / 10), Digit(t.second % 10)];
    assert Format(t) == h + ":" + m + ":" + sec;
    ParseDurationComplete(h, m, sec, t);
  }

  /** A field may have a single digit. */
  lemma ParseOneDigitFields()
    ensures ParseDuration("0:4:9") == Some(TimeOfDay(0, 4, 9))
  {
    assert Spells("0", 0) && Spells("4", 4) && Spells("9", 9);
    ParseDurationComplete("0", "4", "9", TimeOfDay(0, 4, 9));
    assert "0:4:9" == "0" + ":" + "4" + ":" + "9";
  }

  /** 24 is no hour. */
  lemma ParseHourOutOfRange()
    ensures ParseDuration("24:00:00") == None
  {
    SplitAtColon("00", "00");
    SplitSingle("00");
    SplitAtColon("24", "00:00");
    assert "24:00:00" == "24" + ":" + ("00" + ":" + "00");
    assert Split("24:00:00") == ["24", "00", "00"];
    assert ParseField("24", 23) == None;
  }

  /** 60 is no second: strptime's pattern admits it, the datetime it builds does not. */
  lemma ParseLeapSecond()
    ensures ParseDuration("00:00:60") == None
  {
    SplitAtColon("00", "60");
    SplitSingle("60");
    SplitAtColon("00", "00:60");
    assert "00:00:60" == "00" + ":" + ("00" + ":" + "60");
    assert Split("00:00:60") == ["00", "00", "60"];
    assert ParseField("60", 59) == None;
  }

  /** A field has at most two digits. */
  lemma ParseThreeDigitField()
    ensures ParseDuration("000:00:00") == None
  {
    SplitAtColon("000", "00:00");
    assert "000:00:00" == "000" + ":" + ("00" + ":" + "00");
    assert Split("000:00:00")[0] == "000";
  }

  /** Two fields are not a duration. */
  lemma ParseMissingField()
    ensures ParseDuration("00:00") == None
  {
    SplitSingle("00");
    SplitAtColon("00", "00");
    assert "00:00" == "00" + ":" + "00";
  }
}
