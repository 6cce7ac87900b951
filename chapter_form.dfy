/** The edit-chapter form of the web client: the input mask that turns
    whatever is typed into the duration field into `M…M:SS`, and the
    submit handler that builds the chapter handed to `onSave`. */
module ChapterForm {
  import opened Common
  import opened Text
  import opened Duration

  /** `value.replace(/\D/g, '')`: the decimal digits of `s`, in order. */
  function Digits(s: string): (r: string)
    ensures IsDigits(r)
    ensures |r| <= |s|
  {
    if s == [] then ""
    else (if IsDigit(s[0]) then [s[0]] else "") + Digits(s[1..])
  }

  /** `s` with every `c` deleted. */
  function Without(s: string, c: char): (r: string)
    ensures c !in r
    ensures |r| <= |s|
  {
    if s == [] then ""
    else (if s[0] == c then "" else [s[0]]) + Without(s[1..], c)
  }

  lemma {:induction false} DigitsAppend(a: string, b: string)
    ensures Digits(a + b) == Digits(a) + Digits(b)
  {
    if a != [] {
      var h := if IsDigit(a[0]) then [a[0]] else "";
      assert (a + b)[0] == a[0];
      assert (a + b)[1..] == a[1..] + b;
      calc {
        Digits(a + b);
        h + Digits(a[1..] + b);
        { DigitsAppend(a[1..], b); }
        h + (Digits(a[1..]) + Digits(b));
        (h + Digits(a[1..])) + Digits(b);
        Digits(a) + Digits(b);
      }
    } else {
      assert a + b == b;
    }
  }

  /** The mask keeps a string of digits as it is. */
  lemma {:induction false} DigitsOfDigits(s: string)
    requires IsDigits(s)
    ensures Digits(s) == s
  {
    if s != [] {
      DigitsOfDigits(s[1..]);
      assert s == [s[0]] + s[1..];
    }
  }

  lemma {:induction false} WithoutAppend(a: string, b: string, c: char)
    ensures Without(a + b, c) == Without(a, c) + Without(b, c)
  {
    if a != [] {
      var h := if a[0] == c then "" else [a[0]];
      assert (a + b)[0] == a[0];
      assert (a + b)[1..] == a[1..] + b;
      calc {
        Without(a + b, c);
        h + Without(a[1..] + b, c);
        { WithoutAppend(a[1..], b, c); }
        h + (Without(a[1..], c) + Without(b, c));
        (h + Without(a[1..], c)) + Without(b, c);
        Without(a, c) + Without(b, c);
      }
    } else {
      assert a + b == b;
    }
  }

  lemma {:induction false} WithoutAbsent(s: string, c: char)
    requires c !in s
    ensures Without(s, c) == s
  {
    if s != [] {
      WithoutAbsent(s[1..], c);
      assert s == [s[0]] + s[1..];
    }
  }

  /** `formatDuration`: the digits typed, masked. */
  function FormatDuration(value: string): (shown: string) {
    Mask(Digits(value))
  }

  /** The mask on a string of digits: `:` before the last two once there
      are more than two. */
  function Mask(numbers: string): (shown: string) {
    var n := |numbers|;
    if n <= 2 then numbers else numbers[..n - 2] + ":" + numbers[n - 2..]
  }

  /** The mask shows only digits and at most one `:`, and deleting the
      `:` gives back exactly the digits typed. */
  lemma FormatChars(value: string)
    ensures var r := FormatDuration(value);
            (forall i :: 0 <= i < |r| ==> IsDigit(r[i]) || r[i] == ':')
            && Without(r, ':') == Digits(value)
            && |r| - |Without(r, ':')| <= 1
  {
    MaskChars(Digits(value));
    MaskWithout(Digits(value));
  }

  lemma MaskChars(d: string)
    requires IsDigits(d)
    ensures forall i :: 0 <= i < |Mask(d)| ==> IsDigit(Mask(d)[i]) || Mask(d)[i] == ':'
    ensures |Mask(d)| <= |d| + 1
  {
    var n := |d|;
    if n > 2 {
      var minutes, seconds := d[..n - 2], d[n - 2..];
      var r := minutes + ":" + seconds;
      assert forall i :: 0 <= i < |minutes| ==> r[i] == d[i];
      assert forall i :: |minutes| < i < |r| ==> r[i] == d[i - 1];
    }
  }

  lemma MaskWithout(d: string)
    requires IsDigits(d)
    ensures Without(Mask(d), ':') == d
  {
    var n := |d|;
    if n <= 2 {
      WithoutAbsent(d, ':');
    } else {
      var minutes, seconds := d[..n - 2], d[n - 2..];
      assert ':' !in minutes && ':' !in seconds;
      calc {
        Without(Mask(d), ':');
        Without(minutes + ":" + seconds, ':');
        { WithoutAppend(minutes + ":", seconds, ':'); }
        Without(minutes + ":", ':') + Without(seconds, ':');
        { WithoutAppend(minutes, ":", ':'); }
        Without(minutes, ':') + Without(":", ':') + Without(seconds, ':');
        { WithoutAbsent(minutes, ':'); WithoutAbsent(seconds, ':'); assert Without(":", ':') == ""; }
        minutes + "" + seconds;
        { assert minutes + seconds == d; }
        d;
      }
    }
  }

  lemma MaskDigits(d: string)
    requires IsDigits(d)
    ensures Digits(Mask(d)) == d
  {
    var n := |d|;
    if n <= 2 {
      DigitsOfDigits(d);
    } else {
      var minutes, seconds := d[..n - 2], d[n - 2..];
      calc {
        Digits(Mask(d));
        Digits(minutes + ":" + seconds);
        { DigitsAppend(minutes + ":", seconds); }
        Digits(minutes + ":") + Digits(seconds);
        { DigitsAppend(minutes, ":"); }
        Digits(minutes) + Digits(":") + Digits(seconds);
        { DigitsOfDigits(minutes); DigitsOfDigits(seconds); assert Digits(":") == ""; }
        minutes + "" + seconds;
        { assert minutes + seconds == d; }
        d;
      }
    }
  }

  /** Input without a digit leaves the field empty. */
  lemma FormatNoDigits(value: string)
    ensures FormatDuration(value) == "" <==> Digits(value) == ""
  {
    FormatChars(value);
    if FormatDuration(value) == "" {
      assert Without("", ':') == "";
    }
  }

  /** One or two digits are shown as typed. */
  lemma FormatShort(value: string)
    requires 1 <= |Digits(value)| <= 2
    ensures FormatDuration(value) == Digits(value)
    ensures ':' !in FormatDuration(value)
  {
  }

  /** Three or more digits split into a non-empty minutes field and a
      seconds field of exactly two digits, whose concatenation is the
      digits typed. */
  lemma FormatLong(value: string)
    requires |Digits(value)| > 2
    ensures var f := Split(FormatDuration(value), ':');
            |f| == 2 && |f[0]| >= 1 && |f[1]| == 2
            && f[0] + f[1] == Digits(value)
            && IsDigits(f[0]) && IsDigits(f[1])
  {
    var d := Digits(value);
    var n := |d|;
    var minutes, seconds := d[..n - 2], d[n - 2..];
    assert ':' !in minutes && ':' !in seconds;
    SplitTwo(minutes, seconds);
    assert minutes + seconds == d;
  }

  /** Masking what the mask produced changes nothing, so re-rendering the
      field is stable. */
  lemma FormatIdempotent(value: string)
    ensures FormatDuration(FormatDuration(value)) == FormatDuration(value)
  {
    MaskDigits(Digits(value));
  }

  /** How the chapter hook reads a masked duration: three or more digits
      read as `minutes * 60 + seconds`; anything shorter has no second
      field and reads as NaN. */
  lemma MaskReading(d: string)
    requires IsDigits(d)
    ensures var n := |d|;
            Parse(Mask(d)) ==
              if n <= 2 then None
              else Some(DigitsValue(d[..n - 2]) * 60 + DigitsValue(d[n - 2..]))
  {
    var n := |d|;
    if n <= 2 {
      assert ':' !in d;
      SplitNoSep(d, ':');
    } else {
      var minutes, seconds := d[..n - 2], d[n - 2..];
      assert ':' !in minutes && ':' !in seconds;
      SplitTwo(minutes, seconds);
      ParseTwoFields(Mask(d), minutes, seconds);
    }
  }

  /** The client's view of a chapter as the form receives it. */
  datatype ChapterView = ChapterView(
    id: string,
    name: string,
    description: string,
    duration: string,
    courseId: string,
    videos: seq<string>,
    order: Option<nat>)

  /** `handleSubmit`: nothing is saved without a chapter; otherwise the
      chapter with the form's name and description, and its duration or
      `'00:00'` when the field was left empty. */
  function Submit(chapter: Option<ChapterView>, name: string, description: string, duration: string)
    : (r: Option<ChapterView>)
    ensures r.None? <==> chapter.None?
    ensures r.Some? ==> r.value.name == name && r.value.description == description
    ensures r.Some? ==> r.value.duration == (if duration == "" then "00:00" else duration)
    ensures r.Some? ==> r.value.id == chapter.value.id && r.value.courseId == chapter.value.courseId
                        && r.value.videos == chapter.value.videos && r.value.order == chapter.value.order
    ensures r.Some? ==> r.value.duration != ""
  {
    match chapter
    case None => None
    case Some(c) => Some(c.(name := name, description := description, duration := if duration != "" then duration else "00:00"))
  }

  /** A duration typed through the mask and submitted reads as a number
      exactly when the field was left empty (it becomes `00:00`, zero
      seconds) or holds at least three digits. */
  lemma SubmittedReading(chapter: ChapterView, name: string, description: string, typed: string)
    ensures var r := Submit(Some(chapter), name, description, FormatDuration(typed));
            var n := |Digits(typed)|;
            (Parse(r.value.duration).Some? <==> n == 0 || n > 2)
            && (n == 0 ==> Parse(r.value.duration) == Some(0))
  {
    FormatNoDigits(typed);
    if Digits(typed) == "" {
      ZeroReading();
    } else {
      MaskReading(Digits(typed));
    }
  }

  /** The default duration reads as zero seconds. */
  lemma ZeroReading()
    ensures Parse("00:00") == Some(0)
  {
    assert "00" + ":" + "00" == "00:00";
    SplitTwo("00", "00");
    ParseTwoFields("00:00", "00", "00");
    assert DigitsValue("0") == 0;
    assert "00"[..1] == "0";
    assert DigitsValue("00") == 0;
  }
}
