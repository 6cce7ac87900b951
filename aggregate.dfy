/** The two `pre('save')` hooks that roll durations up the hierarchy.

    Saving a chapter whose video list is non-empty loads the listed
    videos, sums the seconds of their durations and stores the sum as
    `M:SS`; saving a course does the same one level up over its chapters
    and stores `H:MM:SS` from one hour on. An empty list leaves the stored
    value alone, and so does a failed lookup (the hook logs and lets the
    save go on). */
module Aggregate {
  import opened Common
  import opened Text
  import opened Duration
  import opened Schema

  predicate NoDups<T(==)>(s: seq<T>) {
    forall i, j :: 0 <= i < j < |s| ==> s[i] != s[j]
  }

  /** `Model.find({ _id: { $in: ids } })`: every stored document whose id
      is listed, each once, however often it is listed; ids with no
      document are skipped. The database's result order is not specified;
      the model lists them in order of first mention, and
      `SumPermutation` shows the sums do not depend on the order. */
  function Found<T>(ids: seq<Id>, m: map<Id, T>): (r: seq<Id>)
    ensures |r| <= |ids|
  {
    if ids == [] then []
    else
      var p := Found(ids[..|ids| - 1], m);
      var x := ids[|ids| - 1];
      if x in m && x !in p then p + [x] else p
  }

  /** `Found` keeps exactly the listed ids that have a document, once each. */
  lemma {:induction false} FoundFacts<T>(ids: seq<Id>, m: map<Id, T>)
    ensures forall x :: x in Found(ids, m) <==> x in ids && x in m
    ensures NoDups(Found(ids, m))
  {
    if ids != [] {
      var p := Found(ids[..|ids| - 1], m);
      var x := ids[|ids| - 1];
      FoundFacts(ids[..|ids| - 1], m);
      assert ids == ids[..|ids| - 1] + [x];
    }
  }

  /** What one document's duration adds to the sum:
      `if (doc.duration) { totalSeconds += minutes * 60 + seconds }`. */
  function Seconds(d: string): (n: Num) {
    if d == "" then Some(0) else Parse(d)
  }

  /** Adds up `f` over `xs`, left to right; NaN anywhere makes the sum NaN. */
  function Sum<T>(xs: seq<T>, f: T -> Num): (total: Num) {
    if xs == [] then Some(0) else Add(Sum(xs[..|xs| - 1], f), f(xs[|xs| - 1]))
  }

  /** The value of `totalSeconds` after the `forEach` over `ds`. */
  function TotalSeconds(ds: seq<string>): Num {
    Sum(ds, Seconds)
  }

  /** The `forEach` loop shared by both hooks. */
  method SumSeconds(ds: seq<string>) returns (total: Num)
    ensures total == TotalSeconds(ds)
    ensures total.Some? <==> forall i :: 0 <= i < |ds| ==> Seconds(ds[i]).Some?
  {
    total := Some(0);
    var i := 0;
    while i < |ds|
      invariant 0 <= i <= |ds|
      invariant total == Sum(ds[..i], Seconds)
    {
      assert ds[..i + 1][..i] == ds[..i];
      if ds[i] != "" {
        total := Add(total, Parse(ds[i]));
      }
      i := i + 1;
    }
    assert ds[..|ds|] == ds;
    SumDefined(ds, Seconds);
  }

  // ---------------------------------------------------------------------
  // the sum

  /** The sum is a number exactly when every term in it is. */
  lemma {:induction false} SumDefined<T>(xs: seq<T>, f: T -> Num)
    ensures Sum(xs, f).Some? <==> forall i :: 0 <= i < |xs| ==> f(xs[i]).Some?
  {
    if xs != [] {
      var p := xs[..|xs| - 1];
      SumDefined(p, f);
      assert forall i :: 0 <= i < |p| ==> p[i] == xs[i];
    }
  }

  /** Summing a concatenation adds the two sums. */
  lemma {:induction false} SumAppend<T>(a: seq<T>, b: seq<T>, f: T -> Num)
    ensures Sum(a + b, f) == Add(Sum(a, f), Sum(b, f))
    decreases |b|
  {
    if b == [] {
      assert a + b == a;
    } else {
      var p := b[..|b| - 1];
      SumAppend(a, p, f);
      assert (a + b)[..|a + b| - 1] == a + p;
      assert (a + b)[|a + b| - 1] == b[|b| - 1];
    }
  }

  /** A document whose duration is empty adds nothing to the sum. */
  lemma EmptyAddsNothing(a: seq<string>, b: seq<string>)
    ensures TotalSeconds(a + [""] + b) == TotalSeconds(a + b)
  {
    SumAppend(a + [""], b, Seconds);
    SumAppend(a, [""], Seconds);
    SumAppend(a, b, Seconds);
    assert [""][..0] == [];
    assert Sum([""], Seconds) == Some(0);
  }

  /** The sum does not depend on the order of the terms, so the order in
      which the database returns the documents does not matter. */
  lemma {:induction false} SumPermutation<T>(a: seq<T>, b: seq<T>, f: T -> Num)
    requires multiset(a) == multiset(b)
    ensures Sum(a, f) == Sum(b, f)
    decreases |a|
  {
    if a == [] {
      assert |b| == |multiset(b)| == 0;
    } else {
      var p, x := a[..|a| - 1], a[|a| - 1];
      assert a == p + [x];
      assert x in multiset(b);
      var k :| 0 <= k < |b| && b[k] == x;
      var rest := b[..k] + b[k + 1..];
      MultisetRemove(a, b, k);
      SumPermutation(p, rest, f);
      SumRemove(b, k, f);
    }
  }

  lemma MultisetRemove<T>(a: seq<T>, b: seq<T>, k: nat)
    requires multiset(a) == multiset(b) && |a| > 0 && k < |b| && b[k] == a[|a| - 1]
    ensures multiset(a[..|a| - 1]) == multiset(b[..k] + b[k + 1..])
  {
    var p, x, u, w := a[..|a| - 1], a[|a| - 1], b[..k], b[k + 1..];
    assert a == p + [x];
    assert b == u + [x] + w;
    var l, r := multiset(p), multiset(u + w);
    assert l + multiset{x} == r + multiset{x};
    assert forall e :: l[e] == (l + multiset{x})[e] - multiset{x}[e];
    assert forall e :: r[e] == (r + multiset{x})[e] - multiset{x}[e];
  }

  /** Taking one term out of the middle of a sum. */
  lemma SumRemove<T>(b: seq<T>, k: nat, f: T -> Num)
    requires k < |b|
    ensures Sum(b, f) == Add(Sum(b[..k] + b[k + 1..], f), f(b[k]))
  {
    var u, x, w := b[..k], b[k], b[k + 1..];
    assert b == (u + [x]) + w;
    var su, sw := Sum(u, f), Sum(w, f);
    assert Sum(u + [x], f) == Add(su, f(x)) by {
      assert (u + [x])[..|u|] == u;
    }
    assert Sum(b, f) == Add(Add(su, f(x)), sw) by {
      SumAppend(u + [x], w, f);
    }
    assert Sum(u + w, f) == Add(su, sw) by {
      SumAppend(u, w, f);
    }
    AddSwap(su, f(x), sw);
  }

  lemma AddSwap(a: Num, b: Num, c: Num)
    ensures Add(Add(a, b), c) == Add(Add(a, c), b)
  {
  }

  // ---------------------------------------------------------------------
  // the chapter hook

  /** The durations the loop reads: those of the listed documents, in
      list order. */
  function Durations<T>(ids: seq<Id>, m: map<Id, T>, duration: T -> string): (ds: seq<string>)
    requires forall i :: 0 <= i < |ids| ==> ids[i] in m
    ensures |ds| == |ids|
    ensures forall i :: 0 <= i < |ids| ==> ds[i] == duration(m[ids[i]])
  {
    if ids == [] then [] else Durations(ids[..|ids| - 1], m, duration) + [duration(m[ids[|ids| - 1]])]
  }

  /** The `duration` field of a video and of a chapter. */
  function VideoDuration(v: Video): string {
    v.duration
  }

  function ChapterDuration(ch: Chapter): string {
    ch.duration
  }

  /** The seconds of a chapter: its listed videos that exist, each once. */
  function ChapterSeconds(ids: seq<Id>, videos: map<Id, Video>): Num {
    var found := Found(ids, videos);
    FoundFacts(ids, videos);
    TotalSeconds(Durations(found, videos, VideoDuration))
  }

  /** `chapterSchema.pre('save')`. `lookupFails` stands for the
      `Video.find` call throwing. */
  function ChapterHook(ch: Chapter, videos: map<Id, Video>, lookupFails: bool): (r: Chapter)
    ensures r.(duration := ch.duration) == ch
    ensures |ch.videos| == 0 || lookupFails ==> r == ch
    ensures |ch.videos| > 0 && !lookupFails ==> Parse(r.duration) == ChapterSeconds(ch.videos, videos)
  {
    if |ch.videos| == 0 || lookupFails then ch
    else
      var t := ChapterSeconds(ch.videos, videos);
      ParseMinSec(t);
      ch.(duration := MinSec(t))
  }

  /** The hook as the source runs it: look the videos up, run the loop,
      format. */
  method RunChapterHook(ch: Chapter, videos: map<Id, Video>, lookupFails: bool) returns (r: Chapter)
    ensures r == ChapterHook(ch, videos, lookupFails)
  {
    r := ch;
    if |ch.videos| > 0 && !lookupFails {
      var found := Found(ch.videos, videos);
      FoundFacts(ch.videos, videos);
      var total := SumSeconds(Durations(found, videos, VideoDuration));
      r := ch.(duration := MinSec(total));
    }
  }

  lemma {:induction false} FoundUnlisted<T>(ids: seq<Id>, m: map<Id, T>, x: Id, v: T)
    requires x !in ids
    ensures Found(ids, m[x := v]) == Found(ids, m)
  {
    if ids != [] {
      FoundUnlisted(ids[..|ids| - 1], m, x, v);
    }
  }

  /** Adding a fresh document at the end of the list adds its duration
      at the end. */
  lemma DurationsSnoc<T>(ids: seq<Id>, m: map<Id, T>, x: Id, v: T, duration: T -> string)
    requires forall i :: 0 <= i < |ids| ==> ids[i] in m
    requires x !in ids
    ensures Durations(ids + [x], m[x := v], duration) == Durations(ids, m, duration) + [duration(v)]
  {
    var l := Durations(ids + [x], m[x := v], duration);
    var r := Durations(ids, m, duration) + [duration(v)];
    assert |l| == |r|;
    forall i | 0 <= i < |l| ensures l[i] == r[i] {
      if i < |ids| {
        assert (ids + [x])[i] == ids[i];
      }
    }
  }

  /** Creating a video under a chapter adds exactly that video's seconds
      to the chapter's sum; the chapter's other videos are unchanged. */
  lemma {:induction false} ChapterSecondsAppend(ids: seq<Id>, videos: map<Id, Video>, x: Id, v: Video)
    requires x !in videos && x !in ids
    ensures ChapterSeconds(ids + [x], videos[x := v]) == Add(ChapterSeconds(ids, videos), Seconds(v.duration))
  {
    var m := videos[x := v];
    var found := Found(ids, videos);
    assert (ids + [x])[..|ids|] == ids;
    FoundUnlisted(ids, videos, x, v);
    FoundFacts(ids, videos);
    assert Found(ids + [x], m) == found + [x];
    DurationsSnoc(found, videos, x, v, VideoDuration);
    var ds := Durations(found, videos, VideoDuration);
    assert (ds + [v.duration])[..|ds|] == ds;
  }

  // ---------------------------------------------------------------------
  // the course hook

  function CourseSeconds(ids: seq<Id>, chapters: map<Id, Chapter>): Num {
    var found := Found(ids, chapters);
    FoundFacts(ids, chapters);
    TotalSeconds(Durations(found, chapters, ChapterDuration))
  }

  /** `courseSchema.pre('save')`. */
  function CourseHook(c: Course, chapters: map<Id, Chapter>, lookupFails: bool): (r: Course)
    ensures r.(totalDuration := c.totalDuration) == c
    ensures |c.chapters| == 0 || lookupFails ==> r == c
    ensures |c.chapters| > 0 && !lookupFails ==> r.totalDuration == Clock(CourseSeconds(c.chapters, chapters))
  {
    if |c.chapters| == 0 || lookupFails then c
    else c.(totalDuration := Clock(CourseSeconds(c.chapters, chapters)))
  }

  method RunCourseHook(c: Course, chapters: map<Id, Chapter>, lookupFails: bool) returns (r: Course)
    ensures r == CourseHook(c, chapters, lookupFails)
  {
    r := c;
    if |c.chapters| > 0 && !lookupFails {
      var found := Found(c.chapters, chapters);
      FoundFacts(c.chapters, chapters);
      var total := SumSeconds(Durations(found, chapters, ChapterDuration));
      r := c.(totalDuration := Clock(total));
    }
  }

  /** The course hook reads every duration the chapter hook writes, and
      the default "00:00", back as the seconds it stands for. */
  lemma ChapterDurationReadBack(t: Num)
    ensures Seconds(MinSec(t)) == t
    ensures Seconds(DefaultDuration) == Some(0)
  {
    ParseMinSec(t);
    assert |MinSec(t)| > 0;
    Seed0000();
  }

  /** The course total, read back with the reference reader, is the sum
      it formatted (NaN included). */
  lemma CourseHookReadBack(c: Course, chapters: map<Id, Chapter>)
    requires |c.chapters| > 0
    ensures ReadClock(CourseHook(c, chapters, false).totalDuration) == CourseSeconds(c.chapters, chapters)
  {
    var t := CourseSeconds(c.chapters, chapters);
    if t.Some? {
      ReadClockOfClock(t.value);
    } else {
      ClockNaN();
    }
  }

  // ---------------------------------------------------------------------
  // worked examples (the durations of the seed data)

  function TestVideo(chapterId: Id, duration: string): Video {
    Video("Intro", "About this chapter", "", "https://cdn.example/v.mp4", duration, chapterId, 1, 0, true)
  }

  /** A two-digit field, as `Number()` reads it. */
  lemma TwoDigits(a: char, b: char)
    requires IsDigit(a) && IsDigit(b)
    ensures ToNumber([a, b]) == Some(DigitValue(a) * 10 + DigitValue(b))
    ensures ':' !in [a, b]
  {
    assert IsDigits([a]);
    assert [a][..0] == [];
    assert DigitsValue([a]) == DigitValue(a);
    DigitsValueSnoc([a], b);
    assert [a] + [b] == [a, b];
    assert IsDigits([a, b]);
  }

  /** A `MM:SS` duration of the seed data, read by the hooks. */
  lemma ReadSeed(d: string, a: string, b: string, m: nat, sec: nat)
    requires d == a + ":" + b && ':' !in a && ':' !in b
    requires ToNumber(a) == Some(m) && ToNumber(b) == Some(sec)
    ensures Seconds(d) == Add(Some(m * 60), Some(sec))
  {
    SplitTwo(a, b);
    ParseTwoFields(d, a, b);
  }

  lemma Seed0530()
    ensures Seconds("05:30") == Some(330)
  {
    assert ToNumber("05") == Some(5) && ':' !in "05" by {
      TwoDigits('0', '5');
      assert "05" == ['0', '5'];
    }
    assert ToNumber("30") == Some(30) && ':' !in "30" by {
      TwoDigits('3', '0');
      assert "30" == ['3', '0'];
    }
    assert "05:30" == "05" + ":" + "30";
    ReadSeed("05:30", "05", "30", 5, 30);
  }

  lemma Seed1000()
    ensures Seconds("10:00") == Some(600)
  {
    assert ToNumber("10") == Some(10) && ':' !in "10" by {
      TwoDigits('1', '0');
      assert "10" == ['1', '0'];
    }
    assert ToNumber("00") == Some(0) && ':' !in "00" by {
      TwoDigits('0', '0');
      assert "00" == ['0', '0'];
    }
    assert "10:00" == "10" + ":" + "00";
    ReadSeed("10:00", "10", "00", 10, 0);
  }

  lemma Seed1530()
    ensures Seconds("15:30") == Some(930)
  {
    assert ToNumber("15") == Some(15) && ':' !in "15" by {
      TwoDigits('1', '5');
      assert "15" == ['1', '5'];
    }
    assert ToNumber("30") == Some(30) && ':' !in "30" by {
      TwoDigits('3', '0');
      assert "30" == ['3', '0'];
    }
    assert "15:30" == "15" + ":" + "30";
    ReadSeed("15:30", "15", "30", 15, 30);
  }

  lemma Seed2245()
    ensures Seconds("22:45") == Some(1365)
  {
    assert ToNumber("22") == Some(22) && ':' !in "22" by {
      TwoDigits('2', '2');
      assert "22" == ['2', '2'];
    }
    assert ToNumber("45") == Some(45) && ':' !in "45" by {
      TwoDigits('4', '5');
      assert "45" == ['4', '5'];
    }
    assert "22:45" == "22" + ":" + "45";
    ReadSeed("22:45", "22", "45", 22, 45);
  }

  lemma Seed0000()
    ensures Seconds("00:00") == Some(0)
  {
    assert ToNumber("00") == Some(0) && ':' !in "00" by {
      TwoDigits('0', '0');
      assert "00" == ['0', '0'];
    }
    assert ToNumber("00") == Some(0) && ':' !in "00" by {
      TwoDigits('0', '0');
      assert "00" == ['0', '0'];
    }
    assert "00:00" == "00" + ":" + "00";
    ReadSeed("00:00", "00", "00", 0, 0);
  }

  lemma SeedChapterTotal()
    ensures MinSec(Some(930)) == "15:30"
  {
    assert NatToString(15) == "15" && NatToString(30) == "30";
  }

  lemma SeedCourseTotal()
    ensures Clock(Some(2295)) == "38:15"
  {
    ClockBelowHour(2295);
    assert NatToString(38) == "38" && NatToString(15) == "15";
  }

  lemma FoundTwo<T>(i: Id, j: Id, m: map<Id, T>)
    requires i != j && i in m && j in m
    ensures Found([i, j], m) == [i, j]
  {
    assert [i][..0] == [];
    assert Found([i], m) == [i];
    assert [i, j][..1] == [i];
  }

  lemma SumTwo<T>(x: T, y: T, f: T -> Num)
    ensures Sum([x, y], f) == Add(f(x), f(y))
  {
    assert [x][..0] == [];
    assert Sum([x], f) == Add(Some(0), f(x));
    assert Add(Some(0), f(x)) == f(x);
    assert [x, y][..1] == [x];
  }

  /** A chapter listing two distinct stored videos. */
  lemma ChapterOfTwo(ch: Chapter, videos: map<Id, Video>, i: Id, j: Id)
    requires ch.videos == [i, j] && i != j && i in videos && j in videos
    ensures ChapterHook(ch, videos, false).duration
         == MinSec(Add(Seconds(videos[i].duration), Seconds(videos[j].duration)))
  {
    FoundTwo(i, j, videos);
    assert Durations([i, j], videos, VideoDuration) == [videos[i].duration, videos[j].duration];
    SumTwo(videos[i].duration, videos[j].duration, Seconds);
  }

  /** A course listing two distinct stored chapters. */
  lemma CourseOfTwo(c: Course, chapters: map<Id, Chapter>, i: Id, j: Id)
    requires c.chapters == [i, j] && i != j && i in chapters && j in chapters
    ensures CourseHook(c, chapters, false).totalDuration
         == Clock(Add(Seconds(chapters[i].duration), Seconds(chapters[j].duration)))
  {
    FoundTwo(i, j, chapters);
    assert Durations([i, j], chapters, ChapterDuration) == [chapters[i].duration, chapters[j].duration];
    SumTwo(chapters[i].duration, chapters[j].duration, Seconds);
  }

  /** Videos of "05:30" and "10:00" make a chapter of "15:30". */
  lemma ChapterExample()
    ensures var ch := Chapter("Basics", "First steps", DefaultDuration, 1, [10, 11], 1);
            var videos := map[10 := TestVideo(1, "05:30"), 11 := TestVideo(1, "10:00")];
            ChapterHook(ch, videos, false).duration == "15:30"
  {
    var ch := Chapter("Basics", "First steps", DefaultDuration, 1, [10, 11], 1);
    var videos := map[10 := TestVideo(1, "05:30"), 11 := TestVideo(1, "10:00")];
    assert Add(Seconds(videos[10].duration), Seconds(videos[11].duration)) == Some(930) by {
      Seed0530();
      Seed1000();
    }
    ChapterOfTwo(ch, videos, 10, 11);
    SeedChapterTotal();
  }

  /** Chapters of "15:30" and "22:45" make a course of "38:15"; below an
      hour the course keeps the `M:SS` form. */
  lemma CourseExample()
    ensures var c := Course("Kitchen safety", "Basics", "", Draft, 7, [1, 2], DefaultDuration);
            var chapters := map[1 := Chapter("A", "a", "15:30", 3, [], 1),
                                2 := Chapter("B", "b", "22:45", 3, [], 2)];
            CourseHook(c, chapters, false).totalDuration == "38:15"
  {
    var c := Course("Kitchen safety", "Basics", "", Draft, 7, [1, 2], DefaultDuration);
    var chapters := map[1 := Chapter("A", "a", "15:30", 3, [], 1),
                        2 := Chapter("B", "b", "22:45", 3, [], 2)];
    assert Add(Seconds(chapters[1].duration), Seconds(chapters[2].duration)) == Some(2295) by {
      Seed1530();
      Seed2245();
    }
    CourseOfTwo(c, chapters, 1, 2);
    SeedCourseTotal();
  }
}
