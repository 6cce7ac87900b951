/** Durations as the two `pre('save')` hooks read and write them: a
    duration is text, read with `d.split(':').map(Number)` taking the
    first two fields as minutes and seconds, and written either as `M:SS`
    (chapters) or, from one hour on, as `H:MM:SS` (courses).

    The hooks compute with JavaScript numbers. The model reads a field
    made of decimal digits (with white space around it) exactly, as a
    non-negative integer, and every other field as NaN; so a number is an
    `Option<nat>` whose `None` is NaN. NaN propagates through arithmetic
    and prints as "NaN", as in JavaScript. Integers are exact here, where
    JavaScript's doubles round above 2^53 and print in exponent form from
    1e21 on. */
module Duration {
  import opened Common
  import opened Text

  type Num = Option<nat>

  function Add(a: Num, b: Num): (r: Num)
    ensures r.Some? <==> a.Some? && b.Some?
    ensures r.Some? ==> r.value == a.value + b.value
  {
    if a.Some? && b.Some? then Some(a.value + b.value) else None
  }

  /** `Math.floor(a / k)` and `a % k` for a positive constant `k`. */
  function FloorDiv(a: Num, k: nat): Num
    requires k > 0
  {
    match a
    case Some(n) => Some(n / k)
    case None => None
  }

  function Mod(a: Num, k: nat): Num
    requires k > 0
  {
    match a
    case Some(n) => Some(n % k)
    case None => None
  }

  /** `Number(s)` on one field, for a field of decimal digits: white space
      around it is ignored and the empty field is 0. Every other field is
      read as NaN, including the signed, decimal, exponent, hexadecimal and
      `Infinity` forms that `Number` itself accepts. */
  function ToNumber(s: string): (r: Num)
    ensures IsDigits(s) ==> r == Some(DigitsValue(s))
  {
    if IsDigits(s) then Some(DigitsValue(s))
    else
      var t := Trim(s);
      if IsDigits(t) then Some(DigitsValue(t)) else None
  }

  /** `` `${x}` `` for a number of this model. */
  function NumberToString(x: Num): string {
    match x
    case Some(n) => NatToString(n)
    case None => "NaN"
  }

  /** The seconds one stored duration contributes to a hook's sum:
      `const [minutes, seconds] = d.split(':').map(Number)` then
      `minutes * 60 + seconds`. A missing second field is `undefined`,
      and `undefined` makes the sum NaN; fields after the second are
      ignored. */
  function Parse(d: string): Num {
    var f := Split(d, ':');
    var minutes := ToNumber(f[0]);
    var seconds := if |f| >= 2 then ToNumber(f[1]) else None;
    match minutes
    case Some(m) => Add(Some(m * 60), seconds)
    case None => None
  }

  /** The chapter hook's output:
      `` `${Math.floor(t / 60)}:${(t % 60).toString().padStart(2, '0')}` ``. */
  function MinSec(t: Num): (s: string) {
    NumberToString(FloorDiv(t, 60)) + ":" + PadStart2(NumberToString(Mod(t, 60)))
  }

  /** The course hook's output: with `hours = Math.floor(t / 3600)`,
      `H:MM:SS` when `hours > 0`, otherwise `M:SS`. NaN is not `> 0`. */
  function Clock(t: Num): (s: string) {
    var hours := FloorDiv(t, 3600);
    var minutes := FloorDiv(Mod(t, 3600), 60);
    var secs := Mod(t, 60);
    if hours.Some? && hours.value > 0 then
      NumberToString(hours) + ":" + PadStart2(NumberToString(minutes)) + ":" + PadStart2(NumberToString(secs))
    else
      NumberToString(minutes) + ":" + PadStart2(NumberToString(secs))
  }

  /** A reference reader for both output forms (`M:SS` and `H:MM:SS`),
      independent of the hooks' two-field reading. */
  function ReadClock(s: string): Num {
    var f := Split(s, ':');
    if |f| == 2 then
      Add(Scale(ToNumber(f[0]), 60), ToNumber(f[1]))
    else if |f| == 3 then
      Add(Add(Scale(ToNumber(f[0]), 3600), Scale(ToNumber(f[1]), 60)), ToNumber(f[2]))
    else None
  }

  function Scale(a: Num, k: nat): Num {
    match a
    case Some(n) => Some(n * k)
    case None => None
  }

  // ---------------------------------------------------------------------
  // properties

  lemma NumberToStringNoColon(x: Num)
    ensures ':' !in NumberToString(x)
    ensures ':' !in PadStart2(NumberToString(x))
  {
    if x.Some? {
      var s := NatToString(x.value);
      assert forall i :: 0 <= i < |s| ==> s[i] != ':';
      var p := PadStart2(s);
      assert forall i :: 0 <= i < |p| ==> p[i] != ':' by {
        forall i | 0 <= i < |p| ensures p[i] != ':' {
          if i >= |p| - |s| {
            assert p[i] == p[|p| - |s|..][i - (|p| - |s|)];
          }
        }
      }
    }
  }

  lemma SplitTwo(a: string, b: string)
    requires ':' !in a && ':' !in b
    ensures Split(a + ":" + b, ':') == [a, b]
  {
    SplitJoin([a, b], ':');
  }

  lemma SplitThree(a: string, b: string, c: string)
    requires ':' !in a && ':' !in b && ':' !in c
    ensures Split(a + ":" + b + ":" + c, ':') == [a, b, c]
  {
    assert Join([a, b, c], ':') == a + ":" + b + ":" + c by {
      assert [a, b, c][1..] == [b, c];
      assert [b, c][1..] == [c];
      assert Join([c], ':') == c;
      assert Join([b, c], ':') == b + ":" + c;
    }
    SplitJoin([a, b, c], ':');
  }

  lemma NumberValue(x: Num)
    ensures ToNumber(NumberToString(x)) == x
  {
    if x.None? {
      assert !IsDigit("NaN"[0]);
      assert Trim("NaN") == "NaN" by { TrimNoSpaceEnds("NaN"); }
    }
  }

  lemma PaddedValue(n: nat)
    requires n < 100
    ensures ToNumber(PadStart2(NumberToString(Some(n)))) == Some(n)
  {
    Pad2Value(n);
  }

  lemma PaddedNaN()
    ensures PadStart2(NumberToString(None)) == "NaN"
    ensures ToNumber("NaN") == None
  {
    NumberValue(None);
  }

  /** Reading back what the chapter hook writes gives the total it
      formatted, NaN included: `Parse` is a left inverse of `MinSec`. */
  lemma {:induction false} ParseMinSec(t: Num)
    ensures Parse(MinSec(t)) == t
  {
    var a := NumberToString(FloorDiv(t, 60));
    var b := PadStart2(NumberToString(Mod(t, 60)));
    MinSecFields(t);
    ParseTwoFields(MinSec(t), a, b);
    NumberValue(FloorDiv(t, 60));
    if t.None? {
      PaddedNaN();
    } else {
      PaddedValue(t.value % 60);
    }
    MinutesAndSeconds(t, ToNumber(a), ToNumber(b));
  }

  lemma MinutesAndSeconds(t: Num, x: Num, y: Num)
    requires x == FloorDiv(t, 60) && y == Mod(t, 60)
    ensures (if x.Some? then Add(Some(x.value * 60), y) else None) == t
  {
    if t.Some? {
      var n := t.value;
      var q, r := n / 60, n % 60;
      DivMod60(n);
      assert Add(Some(q * 60), Some(r)) == Some(n);
    }
  }

  lemma DivMod60(n: nat)
    ensures (n / 60) * 60 + n % 60 == n
  {
  }

  lemma ClockParts(t: nat)
    ensures (t / 3600) * 3600 + ((t % 3600) / 60) * 60 + t % 60 == t
    ensures (t % 3600) / 60 < 60 && t % 60 < 60
    ensures t < 3600 ==> t % 3600 == t
  {
    var h, x := t / 3600, t % 3600;
    assert t == h * 3600 + x;
    var m, s := x / 60, x % 60;
    assert x == m * 60 + s;
    assert t % 60 == s by {
      assert t == (h * 60 + m) * 60 + s;
    }
  }

  lemma MinSecFields(t: Num)
    ensures Split(MinSec(t), ':') == [NumberToString(FloorDiv(t, 60)), PadStart2(NumberToString(Mod(t, 60)))]
  {
    NumberToStringNoColon(FloorDiv(t, 60));
    NumberToStringNoColon(Mod(t, 60));
    SplitTwo(NumberToString(FloorDiv(t, 60)), PadStart2(NumberToString(Mod(t, 60))));
  }

  lemma ParseTwoFields(d: string, a: string, b: string)
    requires Split(d, ':') == [a, b]
    ensures Parse(d) == if ToNumber(a).Some? then Add(Some(ToNumber(a).value * 60), ToNumber(b)) else None
  {
  }

  /** The chapter format has no hour part: its first field is the whole
      number of minutes, however large, and its second field is two
      digits below 60. */
  lemma {:induction false} MinSecShape(t: nat)
    ensures Split(MinSec(Some(t)), ':') == [NatToString(t / 60), PadStart2(NatToString(t % 60))]
    ensures |PadStart2(NatToString(t % 60))| == 2
  {
    NumberToStringNoColon(Some(t / 60));
    NumberToStringNoColon(Some(t % 60));
    SplitTwo(NatToString(t / 60), PadStart2(NatToString(t % 60)));
    Pad2Value(t % 60);
  }

  /** One hour of chapter content is written "60:00". */
  lemma MinSecOneHour()
    ensures MinSec(Some(3600)) == "60:00"
  {
    assert NatToString(6) == "6";
    assert NatToString(60) == "60";
    assert NatToString(0) == "0";
  }

  /** Below an hour the course format is the chapter format. */
  lemma ClockBelowHour(t: nat)
    requires t < 3600
    ensures Clock(Some(t)) == MinSec(Some(t))
  {
    assert t % 3600 == t;
  }

  /** The course format has three fields exactly when the total reaches an
      hour, two otherwise; every field after the first is two digits with
      a value below 60. */
  lemma {:induction false} ClockShape(t: nat)
    ensures var f := Split(Clock(Some(t)), ':');
      && |f| == (if t >= 3600 then 3 else 2)
      && (forall i :: 1 <= i < |f| ==> |f[i]| == 2 && IsDigits(f[i]) && DigitsValue(f[i]) < 60)
  {
    ClockText(t);
    if t >= 3600 {
      HoursFields(t / 3600, (t % 3600) / 60, t % 60);
    } else {
      MinutesFields((t % 3600) / 60, t % 60);
    }
  }

  /** `Clock` spelled out for a number, with its three parts named. */
  lemma ClockText(t: nat)
    ensures t >= 3600 ==> Clock(Some(t)) == HoursText(t / 3600, (t % 3600) / 60, t % 60)
    ensures t < 3600 ==> Clock(Some(t)) == MinutesText((t % 3600) / 60, t % 60)
    ensures (t % 3600) / 60 < 60 && t % 60 < 60
  {
    ClockParts(t);
    var h, m, x := t / 3600, (t % 3600) / 60, t % 60;
    assert FloorDiv(Some(t), 3600) == Some(h);
    assert FloorDiv(Mod(Some(t), 3600), 60) == Some(m);
    assert Mod(Some(t), 60) == Some(x);
    assert t >= 3600 <==> h > 0;
  }

  function HoursText(h: nat, m: nat, s: nat): string {
    NatToString(h) + ":" + PadStart2(NatToString(m)) + ":" + PadStart2(NatToString(s))
  }

  function MinutesText(m: nat, s: nat): string {
    NatToString(m) + ":" + PadStart2(NatToString(s))
  }

  lemma HoursFields(h: nat, m: nat, s: nat)
    requires m < 60 && s < 60
    ensures var f := Split(HoursText(h, m, s), ':');
      && f == [NatToString(h), PadStart2(NatToString(m)), PadStart2(NatToString(s))]
      && (forall i :: 1 <= i < |f| ==> |f[i]| == 2 && IsDigits(f[i]) && DigitsValue(f[i]) < 60)
  {
    NumberToStringNoColon(Some(h));
    NumberToStringNoColon(Some(m));
    NumberToStringNoColon(Some(s));
    Pad2Value(m);
    Pad2Value(s);
    SplitThree(NatToString(h), PadStart2(NatToString(m)), PadStart2(NatToString(s)));
  }

  lemma MinutesFields(m: nat, s: nat)
    requires s < 60
    ensures var f := Split(MinutesText(m, s), ':');
      && f == [NatToString(m), PadStart2(NatToString(s))]
      && |f[1]| == 2 && IsDigits(f[1]) && DigitsValue(f[1]) < 60
  {
    NumberToStringNoColon(Some(m));
    NumberToStringNoColon(Some(s));
    Pad2Value(s);
    SplitTwo(NatToString(m), PadStart2(NatToString(s)));
  }

  /** What the course hook writes denotes the total it formatted. */
  lemma {:induction false} ReadClockOfClock(t: nat)
    ensures ReadClock(Clock(Some(t))) == Some(t)
  {
    ClockText(t);
    ClockSum(t);
    if t >= 3600 {
      ReadHours(t / 3600, (t % 3600) / 60, t % 60);
    } else {
      ReadMinutes((t % 3600) / 60, t % 60);
    }
  }

  lemma ReadHours(h: nat, m: nat, s: nat)
    requires m < 60 && s < 60
    ensures ReadClock(HoursText(h, m, s)) == Add(Add(Scale(Some(h), 3600), Scale(Some(m), 60)), Some(s))
  {
    HoursFields(h, m, s);
    NumberValue(Some(h));
    PaddedValue(m);
    PaddedValue(s);
    ReadThree(HoursText(h, m, s), NatToString(h), PadStart2(NatToString(m)), PadStart2(NatToString(s)), h, m, s);
  }

  lemma ReadMinutes(m: nat, s: nat)
    requires s < 60
    ensures ReadClock(MinutesText(m, s)) == Add(Scale(Some(m), 60), Some(s))
  {
    MinutesFields(m, s);
    NumberValue(Some(m));
    PaddedValue(s);
    ReadTwo(MinutesText(m, s), NatToString(m), PadStart2(NatToString(s)), m, s);
  }

  lemma ClockSum(t: nat)
    ensures Add(Add(Scale(Some(t / 3600), 3600), Scale(Some((t % 3600) / 60), 60)), Some(t % 60)) == Some(t)
    ensures t < 3600 ==> Add(Scale(Some((t % 3600) / 60), 60), Some(t % 60)) == Some(t)
  {
    ClockParts(t);
  }

  lemma ReadThree(d: string, a: string, b: string, c: string, h: nat, m: nat, s: nat)
    requires Split(d, ':') == [a, b, c]
    requires ToNumber(a) == Some(h) && ToNumber(b) == Some(m) && ToNumber(c) == Some(s)
    ensures ReadClock(d) == Add(Add(Scale(Some(h), 3600), Scale(Some(m), 60)), Some(s))
  {
    var f := Split(d, ':');
    assert f[0] == a && f[1] == b && f[2] == c;
    assert |f| == 3;
  }

  lemma ReadTwo(d: string, b: string, c: string, m: nat, s: nat)
    requires Split(d, ':') == [b, c]
    requires ToNumber(b) == Some(m) && ToNumber(c) == Some(s)
    ensures ReadClock(d) == Add(Scale(Some(m), 60), Some(s))
  {
    var f := Split(d, ':');
    assert f[0] == b && f[1] == c;
    assert |f| == 2;
  }

  /** The hooks' two-field reading of a course total is wrong from one
      hour on: "1:00:00" reads as 60 seconds. Course totals are never read
      back by the source, so this costs nothing there. */
  lemma ParseIgnoresHours()
    ensures Parse(Clock(Some(3600))) == Some(60)
  {
    assert Clock(Some(3600)) == "1" + ":" + "00" + ":" + "00" by {
      assert NatToString(1) == "1";
      assert NatToString(0) == "0";
    }
    assert Split(Clock(Some(3600)), ':') == ["1", "00", "00"] by {
      SplitThree("1", "00", "00");
    }
    assert ToNumber("1") == Some(1) && ToNumber("00") == Some(0) by {
      assert IsDigits("00") && DigitsValue("00") == 0;
    }
  }

  /** A NaN course total is written "NaN:NaN", and it reads back as NaN. */
  lemma ClockNaN()
    ensures Clock(None) == "NaN:NaN"
    ensures ReadClock(Clock(None)) == None
  {
    var n := NumberToString(None);
    assert Clock(None) == n + ":" + PadStart2(n) by {
      assert FloorDiv(None, 3600) == None;
      assert FloorDiv(Mod(None, 3600), 60) == None;
      assert Mod(None, 60) == None;
    }
    assert PadStart2(n) == n && n == "NaN";
    assert n + ":" + n == "NaN:NaN";
    assert Split(Clock(None), ':') == [n, n] by {
      NumberToStringNoColon(None);
      SplitTwo(n, n);
    }
    ReadNaN(Clock(None), n);
  }

  lemma ReadNaN(d: string, n: string)
    requires n == NumberToString(None) && Split(d, ':') == [n, n]
    ensures ReadClock(d) == None
  {
    NumberValue(None);
    var f := Split(d, ':');
    assert |f| == 2 && f[0] == n;
  }
}
