/** The consistency the route handlers keep between the three
    collections, stated on the collections as values, and one lemma per
    kind of change a handler makes showing that the change keeps it. */
module Store {
  import opened Common
  import opened Schema
  import opened Aggregate
  import opened Query

  /** Every identifier in use is below the next fresh one. */
  ghost predicate KeysBelow(cs: map<Id, Course>, chs: map<Id, Chapter>, vs: map<Id, Video>, n: nat) {
    (forall id :: id in cs ==> id < n)
    && (forall id :: id in chs ==> id < n)
    && (forall id :: id in vs ==> id < n)
  }

  /** Every document passed validation when it was last saved. */
  ghost predicate StoredCourses(cs: map<Id, Course>) {
    forall id {:trigger StoredCourse(cs[id])} :: id in cs ==> StoredCourse(cs[id])
  }

  ghost predicate StoredChapters(chs: map<Id, Chapter>) {
    forall id {:trigger StoredChapter(chs[id])} :: id in chs ==> StoredChapter(chs[id])
  }

  ghost predicate StoredVideos(vs: map<Id, Video>) {
    forall id {:trigger StoredVideo(vs[id])} :: id in vs ==> StoredVideo(vs[id])
  }

  ghost predicate Stored(cs: map<Id, Course>, chs: map<Id, Chapter>, vs: map<Id, Video>) {
    StoredCourses(cs) && StoredChapters(chs) && StoredVideos(vs)
  }

  /** A course lists, once each, exactly the chapters that name it, and
      every chapter's course exists. */
  ghost predicate CoursesLinked(cs: map<Id, Course>, chs: map<Id, Chapter>) {
    (forall x :: x in chs ==> chs[x].courseId in cs && x in cs[chs[x].courseId].chapters)
    && (forall c :: c in cs ==> NoDups(cs[c].chapters))
    && (forall c, x {:trigger x in cs[c].chapters} :: c in cs && x in cs[c].chapters ==> x in chs && chs[x].courseId == c)
  }

  /** A chapter lists, once each, exactly the videos that name it. A
      video may name a chapter that no longer exists: deleting a course
      deletes its chapters but not their videos. */
  ghost predicate ChaptersLinked(chs: map<Id, Chapter>, vs: map<Id, Video>) {
    (forall x :: x in vs && vs[x].chapterId in chs ==> x in chs[vs[x].chapterId].videos)
    && (forall ch :: ch in chs ==> NoDups(chs[ch].videos))
    && (forall ch, x {:trigger x in chs[ch].videos} :: ch in chs && x in chs[ch].videos ==> x in vs && vs[x].chapterId == ch)
  }

  /** A video names a chapter identifier that was handed out, even when
      that chapter is gone; so a new chapter never inherits videos. */
  ghost predicate ParentsIssued(vs: map<Id, Video>, n: nat) {
    forall x :: x in vs ==> vs[x].chapterId < n
  }

  ghost predicate Consistent(cs: map<Id, Course>, chs: map<Id, Chapter>, vs: map<Id, Video>, n: nat) {
    KeysBelow(cs, chs, vs, n) && Stored(cs, chs, vs) && CoursesLinked(cs, chs) && ChaptersLinked(chs, vs)
    && ParentsIssued(vs, n)
  }

  /** A second update of the same key overwrites the first. */
  lemma UpdateTwice<K, V>(m: map<K, V>, k: K, a: V, b: V)
    ensures m[k := a][k := b] == m[k := b]
  {
  }

  /** The filters `deleteMany` is given. */
  function OfCourse(cid: Id): Chapter -> bool {
    (ch: Chapter) => ch.courseId == cid
  }

  function OfChapter(chId: Id): Video -> bool {
    (v: Video) => v.chapterId == chId
  }

  /** The owner of a chapter: the creator of its course, `None` if the
      course is gone. */
  function ChapterOwner(cs: map<Id, Course>, chs: map<Id, Chapter>, chId: Id): (o: Option<UserId>)
    requires chId in chs
    ensures o.Some? <==> chs[chId].courseId in cs
    ensures o.Some? ==> o.value == cs[chs[chId].courseId].createdBy
  {
    var cid := chs[chId].courseId;
    if cid in cs then Some(cs[cid].createdBy) else None
  }

  /** The owner of a video, through its chapter and that chapter's
      course; `None` if either is gone. */
  function VideoOwner(cs: map<Id, Course>, chs: map<Id, Chapter>, vs: map<Id, Video>, vid: Id): (o: Option<UserId>)
    requires vid in vs
    ensures o.Some? <==> vs[vid].chapterId in chs && chs[vs[vid].chapterId].courseId in cs
    ensures o.Some? ==> o.value == cs[chs[vs[vid].chapterId].courseId].createdBy
  {
    var chId := vs[vid].chapterId;
    if chId in chs then ChapterOwner(cs, chs, chId) else None
  }

  /** In a consistent store a chapter always has an owner. */
  lemma ChapterOwned(cs: map<Id, Course>, chs: map<Id, Chapter>, vs: map<Id, Video>, n: nat, chId: Id)
    requires Consistent(cs, chs, vs, n) && chId in chs
    ensures ChapterOwner(cs, chs, chId).Some?
  {
  }

  /** In a consistent store a video has an owner exactly when its chapter
      still exists. */
  lemma VideoOwned(cs: map<Id, Course>, chs: map<Id, Chapter>, vs: map<Id, Video>, n: nat, vid: Id)
    requires Consistent(cs, chs, vs, n) && vid in vs
    ensures VideoOwner(cs, chs, vs, vid).Some? <==> vs[vid].chapterId in chs
  {
  }

  /** A course's chapter list holds exactly the chapters naming it, and
      a chapter's video list exactly the videos naming it. */
  lemma ListedChapters(cs: map<Id, Course>, chs: map<Id, Chapter>, cid: Id)
    requires CoursesLinked(cs, chs) && cid in cs
    ensures forall x :: x in cs[cid].chapters <==> x in chs && chs[x].courseId == cid
  {
  }

  lemma ListedVideos(chs: map<Id, Chapter>, vs: map<Id, Video>, chId: Id)
    requires ChaptersLinked(chs, vs) && chId in chs
    ensures forall x :: x in chs[chId].videos <==> x in vs && vs[x].chapterId == chId
  {
  }

  lemma {:induction false} PullNoDups(s: seq<Id>, x: Id)
    requires NoDups(s)
    ensures NoDups(Pull(s, x))
  {
    if s != [] {
      PullNoDups(s[1..], x);
      var rest := Pull(s[1..], x);
      if s[0] != x {
        assert s[0] !in s[1..];
        assert multiset(rest)[s[0]] == multiset(s[1..])[s[0]] == 0;
        assert [s[0]] + rest == Pull(s, x);
      }
    }
  }

  lemma PullMembers(s: seq<Id>, x: Id)
    ensures forall y :: y in Pull(s, x) <==> y in s && y != x
  {
    var r := Pull(s, x);
    forall y
      ensures y in r <==> y in s && y != x
    {
      assert y in r <==> multiset(r)[y] > 0;
      assert y in s <==> multiset(s)[y] > 0;
    }
  }

  lemma PushNoDups(s: seq<Id>, x: Id)
    requires NoDups(s) && x !in s
    ensures NoDups(s + [x])
  {
  }

  /** The counter is a fresh identifier in every collection. */
  lemma Fresh(cs: map<Id, Course>, chs: map<Id, Chapter>, vs: map<Id, Video>, n: nat)
    requires KeysBelow(cs, chs, vs, n)
    ensures n !in cs && n !in chs && n !in vs
  {
  }

  lemma ParentsLater(vs: map<Id, Video>, n: nat)
    requires ParentsIssued(vs, n)
    ensures ParentsIssued(vs, n + 1)
  {
  }

  lemma AddVideoParents(chs: map<Id, Chapter>, vs: map<Id, Video>, n: nat, v: Video)
    requires ParentsIssued(vs, n) && (forall id :: id in chs ==> id < n) && v.chapterId in chs
    ensures ParentsIssued(vs[n := v], n + 1)
  {
  }

  lemma ReplaceVideoParents(vs: map<Id, Video>, n: nat, id: Id, v: Video)
    requires ParentsIssued(vs, n) && id in vs && v.chapterId == vs[id].chapterId
    ensures ParentsIssued(vs[id := v], n)
  {
  }

  lemma RemoveVideoParents(vs: map<Id, Video>, vs': map<Id, Video>, n: nat)
    requires ParentsIssued(vs, n)
    requires forall x :: x in vs' ==> x in vs && vs'[x] == vs[x]
    ensures ParentsIssued(vs', n)
  {
  }

  /** Identifiers stay below the counter when documents are replaced or
      removed; `KeysAdd` covers a document added under the counter. */
  lemma KeysSame(cs: map<Id, Course>, chs: map<Id, Chapter>, vs: map<Id, Video>, n: nat,
                 cs': map<Id, Course>, chs': map<Id, Chapter>, vs': map<Id, Video>)
    requires KeysBelow(cs, chs, vs, n)
    requires cs'.Keys <= cs.Keys && chs'.Keys <= chs.Keys && vs'.Keys <= vs.Keys
    ensures KeysBelow(cs', chs', vs', n)
  {
    assert forall id :: id in cs' ==> id in cs.Keys;
    assert forall id :: id in chs' ==> id in chs.Keys;
    assert forall id :: id in vs' ==> id in vs.Keys;
  }

  lemma KeysAdd(cs: map<Id, Course>, chs: map<Id, Chapter>, vs: map<Id, Video>, n: nat,
                cs': map<Id, Course>, chs': map<Id, Chapter>, vs': map<Id, Video>)
    requires KeysBelow(cs, chs, vs, n)
    requires cs'.Keys <= cs.Keys + {n} && chs'.Keys <= chs.Keys + {n} && vs'.Keys <= vs.Keys + {n}
    ensures KeysBelow(cs', chs', vs', n + 1)
  {
    assert forall id :: id in cs' ==> id in cs.Keys + {n};
    assert forall id :: id in chs' ==> id in chs.Keys + {n};
    assert forall id :: id in vs' ==> id in vs.Keys + {n};
  }

  // ---------------------------------------------------------------------
  // one lemma per change, each built from one lemma per part of
  // `Consistent`

  /** POST /api/courses adds a course with no chapters under a fresh id. */
  lemma AddCourseKeeps(cs: map<Id, Course>, chs: map<Id, Chapter>, vs: map<Id, Video>, n: nat, c: Course)
    requires Consistent(cs, chs, vs, n)
    requires StoredCourse(c) && c.chapters == []
    ensures Consistent(cs[n := c], chs, vs, n + 1)
  {
    KeysAdd(cs, chs, vs, n, cs[n := c], chs, vs);
    ParentsLater(vs, n);
    Fresh(cs, chs, vs, n);
    AddCourseLinks(cs, chs, n, c);
    ReplaceCourseStored(cs, chs, vs, n, c);
  }

  lemma AddCourseLinks(cs: map<Id, Course>, chs: map<Id, Chapter>, n: nat, c: Course)
    requires CoursesLinked(cs, chs) && n !in cs && c.chapters == []
    ensures CoursesLinked(cs[n := c], chs)
  {
  }

  /** PUT and PATCH replace a course by one with the same chapter list. */
  lemma ReplaceCourseKeeps(cs: map<Id, Course>, chs: map<Id, Chapter>, vs: map<Id, Video>, n: nat, id: Id, c: Course)
    requires Consistent(cs, chs, vs, n)
    requires id in cs && StoredCourse(c) && c.chapters == cs[id].chapters
    ensures Consistent(cs[id := c], chs, vs, n)
  {
    KeysSame(cs, chs, vs, n, cs[id := c], chs, vs);
    ReplaceCourseLinks(cs, chs, id, c);
    ReplaceCourseStored(cs, chs, vs, id, c);
  }

  lemma ReplaceCourseLinks(cs: map<Id, Course>, chs: map<Id, Chapter>, id: Id, c: Course)
    requires CoursesLinked(cs, chs) && id in cs && c.chapters == cs[id].chapters
    ensures CoursesLinked(cs[id := c], chs)
  {
  }

  lemma ReplaceCourseStored(cs: map<Id, Course>, chs: map<Id, Chapter>, vs: map<Id, Video>, id: Id, c: Course)
    requires Stored(cs, chs, vs) && StoredCourse(c)
    ensures Stored(cs[id := c], chs, vs)
  {
  }

  /** DELETE /api/courses/:id removes the course and every chapter that
      names it. */
  lemma DeleteCourseKeeps(cs: map<Id, Course>, chs: map<Id, Chapter>, vs: map<Id, Video>, n: nat, id: Id)
    requires Consistent(cs, chs, vs, n)
    requires id in cs
    ensures Consistent(cs - {id}, DeleteMany(chs, OfCourse(id)), vs, n)
  {
    var chs' := DeleteMany(chs, OfCourse(id));
    KeysSame(cs, chs, vs, n, cs - {id}, chs', vs);
    DeleteCourseLinks(cs, chs, id);
    DeleteCourseVideoLinks(chs, vs, id);
    DeleteCourseStored(cs, chs, vs, id);
  }

  lemma DeleteCourseLinks(cs: map<Id, Course>, chs: map<Id, Chapter>, id: Id)
    requires CoursesLinked(cs, chs) && id in cs
    ensures CoursesLinked(cs - {id}, DeleteMany(chs, OfCourse(id)))
  {
    var chs' := DeleteMany(chs, OfCourse(id));
    assert forall x :: x in chs' <==> x in chs && chs[x].courseId != id;
  }

  lemma DeleteCourseVideoLinks(chs: map<Id, Chapter>, vs: map<Id, Video>, id: Id)
    requires ChaptersLinked(chs, vs)
    ensures ChaptersLinked(DeleteMany(chs, OfCourse(id)), vs)
  {
  }

  lemma DeleteCourseStored(cs: map<Id, Course>, chs: map<Id, Chapter>, vs: map<Id, Video>, id: Id)
    requires Stored(cs, chs, vs)
    ensures Stored(cs - {id}, DeleteMany(chs, OfCourse(id)), vs)
  {
  }

  /** POST /api/courses/:courseId/chapters adds a chapter with no videos
      under a fresh id and appends that id to its course. */
  lemma AddChapterKeeps(cs: map<Id, Course>, chs: map<Id, Chapter>, vs: map<Id, Video>, n: nat,
                        ch: Chapter, c: Course)
    requires Consistent(cs, chs, vs, n)
    requires ch.courseId in cs && StoredChapter(ch) && ch.videos == []
    requires StoredCourse(c) && c.chapters == cs[ch.courseId].chapters + [n]
    ensures Consistent(cs[ch.courseId := c], chs[n := ch], vs, n + 1)
  {
    var cs' := cs[ch.courseId := c];
    var chs' := chs[n := ch];
    KeysAdd(cs, chs, vs, n, cs', chs', vs);
    ParentsLater(vs, n);
    Fresh(cs, chs, vs, n);
    AddChapterLinks(cs, chs, n, ch, c);
    AddChapterVideoLinks(chs, vs, n, ch);
    AddChapterStored(cs, chs, vs, n, ch, c);
  }

  lemma AddChapterLinks(cs: map<Id, Course>, chs: map<Id, Chapter>, n: nat, ch: Chapter, c: Course)
    requires CoursesLinked(cs, chs) && n !in chs && ch.courseId in cs
    requires c.chapters == cs[ch.courseId].chapters + [n]
    ensures CoursesLinked(cs[ch.courseId := c], chs[n := ch])
  {
    assert n !in cs[ch.courseId].chapters;
    PushNoDups(cs[ch.courseId].chapters, n);
  }

  lemma AddChapterVideoLinks(chs: map<Id, Chapter>, vs: map<Id, Video>, n: nat, ch: Chapter)
    requires ChaptersLinked(chs, vs) && n !in chs && ch.videos == []
    requires ParentsIssued(vs, n)
    ensures ChaptersLinked(chs[n := ch], vs)
  {
  }

  lemma AddChapterStored(cs: map<Id, Course>, chs: map<Id, Chapter>, vs: map<Id, Video>, n: nat, ch: Chapter, c: Course)
    requires Stored(cs, chs, vs) && StoredChapter(ch) && StoredCourse(c)
    ensures Stored(cs[ch.courseId := c], chs[n := ch], vs)
  {
  }

  /** PUT and the chapter re-save replace a chapter by one with the same
      course and video list. */
  lemma ReplaceChapterKeeps(cs: map<Id, Course>, chs: map<Id, Chapter>, vs: map<Id, Video>, n: nat, id: Id, ch: Chapter)
    requires Consistent(cs, chs, vs, n)
    requires id in chs && StoredChapter(ch)
    requires ch.courseId == chs[id].courseId && ch.videos == chs[id].videos
    ensures Consistent(cs, chs[id := ch], vs, n)
  {
    KeysSame(cs, chs, vs, n, cs, chs[id := ch], vs);
    ReplaceChapterLinks(cs, chs, vs, id, ch);
    ReplaceChapterStored(cs, chs, vs, id, ch);
  }

  lemma ReplaceChapterLinks(cs: map<Id, Course>, chs: map<Id, Chapter>, vs: map<Id, Video>, id: Id, ch: Chapter)
    requires CoursesLinked(cs, chs) && ChaptersLinked(chs, vs)
    requires id in chs && ch.courseId == chs[id].courseId && ch.videos == chs[id].videos
    ensures CoursesLinked(cs, chs[id := ch]) && ChaptersLinked(chs[id := ch], vs)
  {
  }

  lemma ReplaceChapterStored(cs: map<Id, Course>, chs: map<Id, Chapter>, vs: map<Id, Video>, id: Id, ch: Chapter)
    requires Stored(cs, chs, vs) && StoredChapter(ch)
    ensures Stored(cs, chs[id := ch], vs)
  {
  }

  /** DELETE /api/chapters/:id pulls the chapter from its course, deletes
      every video that names it, then the chapter. */
  lemma DeleteChapterKeeps(cs: map<Id, Course>, chs: map<Id, Chapter>, vs: map<Id, Video>, n: nat, id: Id)
    requires Consistent(cs, chs, vs, n)
    requires id in chs
    ensures var cid := chs[id].courseId;
            Consistent(cs[cid := cs[cid].(chapters := Pull(cs[cid].chapters, id))],
                       chs - {id}, DeleteMany(vs, OfChapter(id)), n)
  {
    var cid := chs[id].courseId;
    var cs' := cs[cid := cs[cid].(chapters := Pull(cs[cid].chapters, id))];
    var vs' := DeleteMany(vs, OfChapter(id));
    KeysSame(cs, chs, vs, n, cs', chs - {id}, vs');
    RemoveVideoParents(vs, vs', n);
    DeleteChapterLinks(cs, chs, id);
    DeleteChapterVideoLinks(chs, vs, id);
    DeleteChapterStored(cs, chs, vs, id);
  }

  lemma DeleteChapterLinks(cs: map<Id, Course>, chs: map<Id, Chapter>, id: Id)
    requires CoursesLinked(cs, chs) && id in chs
    ensures var cid := chs[id].courseId;
            CoursesLinked(cs[cid := cs[cid].(chapters := Pull(cs[cid].chapters, id))], chs - {id})
  {
    var cid := chs[id].courseId;
    PullNoDups(cs[cid].chapters, id);
    PullMembers(cs[cid].chapters, id);
  }

  lemma DeleteChapterVideoLinks(chs: map<Id, Chapter>, vs: map<Id, Video>, id: Id)
    requires ChaptersLinked(chs, vs)
    ensures ChaptersLinked(chs - {id}, DeleteMany(vs, OfChapter(id)))
  {
    var vs' := DeleteMany(vs, OfChapter(id));
    assert forall x :: x in vs' <==> x in vs && vs[x].chapterId != id;
  }

  lemma DeleteChapterStored(cs: map<Id, Course>, chs: map<Id, Chapter>, vs: map<Id, Video>, id: Id)
    requires Stored(cs, chs, vs) && id in chs && chs[id].courseId in cs
    ensures var cid := chs[id].courseId;
            Stored(cs[cid := cs[cid].(chapters := Pull(cs[cid].chapters, id))],
                   chs - {id}, DeleteMany(vs, OfChapter(id)))
  {
    var cid := chs[id].courseId;
    var cs' := cs[cid := cs[cid].(chapters := Pull(cs[cid].chapters, id))];
    forall x | x in cs' ensures StoredCourse(cs'[x]) {
      assert StoredCourse(cs[x]);
    }
    var chs' := chs - {id};
    forall x | x in chs' ensures StoredChapter(chs'[x]) {
      assert StoredChapter(chs[x]);
    }
    var vs' := DeleteMany(vs, OfChapter(id));
    forall x | x in vs' ensures StoredVideo(vs'[x]) {
      assert StoredVideo(vs[x]);
    }
  }

  /** POST /api/chapters/:chapterId/videos adds a video under a fresh id
      and appends that id to its chapter. */
  lemma AddVideoKeeps(cs: map<Id, Course>, chs: map<Id, Chapter>, vs: map<Id, Video>, n: nat,
                      v: Video, ch: Chapter)
    requires Consistent(cs, chs, vs, n)
    requires v.chapterId in chs && StoredVideo(v)
    requires StoredChapter(ch) && ch.courseId == chs[v.chapterId].courseId
    requires ch.videos == chs[v.chapterId].videos + [n]
    ensures Consistent(cs, chs[v.chapterId := ch], vs[n := v], n + 1)
  {
    var chs' := chs[v.chapterId := ch];
    var vs' := vs[n := v];
    KeysAdd(cs, chs, vs, n, cs, chs', vs');
    AddVideoParents(chs, vs, n, v);
    Fresh(cs, chs, vs, n);
    AddVideoCourseLinks(cs, chs, v.chapterId, ch);
    AddVideoLinks(chs, vs, n, v, ch);
    AddVideoStored(cs, chs, vs, n, v, ch);
  }

  lemma AddVideoCourseLinks(cs: map<Id, Course>, chs: map<Id, Chapter>, chId: Id, ch: Chapter)
    requires CoursesLinked(cs, chs) && chId in chs && ch.courseId == chs[chId].courseId
    ensures CoursesLinked(cs, chs[chId := ch])
  {
  }

  lemma AddVideoLinks(chs: map<Id, Chapter>, vs: map<Id, Video>, n: nat, v: Video, ch: Chapter)
    requires ChaptersLinked(chs, vs) && n !in vs && v.chapterId in chs
    requires ch.videos == chs[v.chapterId].videos + [n]
    ensures ChaptersLinked(chs[v.chapterId := ch], vs[n := v])
  {
    assert n !in chs[v.chapterId].videos;
    PushNoDups(chs[v.chapterId].videos, n);
  }

  lemma AddVideoStored(cs: map<Id, Course>, chs: map<Id, Chapter>, vs: map<Id, Video>, n: nat, v: Video, ch: Chapter)
    requires Stored(cs, chs, vs) && StoredVideo(v) && StoredChapter(ch)
    ensures Stored(cs, chs[v.chapterId := ch], vs[n := v])
  {
  }

  /** PUT /api/videos/:id replaces a video by one in the same chapter. */
  lemma ReplaceVideoKeeps(cs: map<Id, Course>, chs: map<Id, Chapter>, vs: map<Id, Video>, n: nat, id: Id, v: Video)
    requires Consistent(cs, chs, vs, n)
    requires id in vs && StoredVideo(v) && v.chapterId == vs[id].chapterId
    ensures Consistent(cs, chs, vs[id := v], n)
  {
    KeysSame(cs, chs, vs, n, cs, chs, vs[id := v]);
    ReplaceVideoParents(vs, n, id, v);
    ReplaceVideoLinks(chs, vs, id, v);
    ReplaceVideoStored(cs, chs, vs, id, v);
  }

  lemma ReplaceVideoLinks(chs: map<Id, Chapter>, vs: map<Id, Video>, id: Id, v: Video)
    requires ChaptersLinked(chs, vs) && id in vs && v.chapterId == vs[id].chapterId
    ensures ChaptersLinked(chs, vs[id := v])
  {
  }

  lemma ReplaceVideoStored(cs: map<Id, Course>, chs: map<Id, Chapter>, vs: map<Id, Video>, id: Id, v: Video)
    requires Stored(cs, chs, vs) && StoredVideo(v)
    ensures Stored(cs, chs, vs[id := v])
  {
  }

  /** DELETE /api/videos/:id pulls the video from its chapter and deletes
      it. */
  lemma DeleteVideoKeeps(cs: map<Id, Course>, chs: map<Id, Chapter>, vs: map<Id, Video>, n: nat, id: Id)
    requires Consistent(cs, chs, vs, n)
    requires id in vs && vs[id].chapterId in chs
    ensures var chId := vs[id].chapterId;
            Consistent(cs, chs[chId := chs[chId].(videos := Pull(chs[chId].videos, id))], vs - {id}, n)
  {
    var chId := vs[id].chapterId;
    var chs' := chs[chId := chs[chId].(videos := Pull(chs[chId].videos, id))];
    KeysSame(cs, chs, vs, n, cs, chs', vs - {id});
    RemoveVideoParents(vs, vs - {id}, n);
    DeleteVideoCourseLinks(cs, chs, chId, chs'[chId]);
    DeleteVideoLinks(chs, vs, id);
    DeleteVideoStored(cs, chs, vs, id);
  }

  lemma DeleteVideoCourseLinks(cs: map<Id, Course>, chs: map<Id, Chapter>, chId: Id, ch: Chapter)
    requires CoursesLinked(cs, chs) && chId in chs && ch.courseId == chs[chId].courseId
    ensures CoursesLinked(cs, chs[chId := ch])
  {
  }

  lemma DeleteVideoLinks(chs: map<Id, Chapter>, vs: map<Id, Video>, id: Id)
    requires ChaptersLinked(chs, vs) && id in vs && vs[id].chapterId in chs
    ensures var chId := vs[id].chapterId;
            ChaptersLinked(chs[chId := chs[chId].(videos := Pull(chs[chId].videos, id))], vs - {id})
  {
    var chId := vs[id].chapterId;
    PullNoDups(chs[chId].videos, id);
    PullMembers(chs[chId].videos, id);
  }

  lemma DeleteVideoStored(cs: map<Id, Course>, chs: map<Id, Chapter>, vs: map<Id, Video>, id: Id)
    requires Stored(cs, chs, vs) && id in vs && vs[id].chapterId in chs
    ensures var chId := vs[id].chapterId;
            Stored(cs, chs[chId := chs[chId].(videos := Pull(chs[chId].videos, id))], vs - {id})
  {
    var chId := vs[id].chapterId;
    var chs' := chs[chId := chs[chId].(videos := Pull(chs[chId].videos, id))];
    forall x | x in chs' ensures StoredChapter(chs'[x]) {
      assert StoredChapter(chs[x]);
    }
    var vs' := vs - {id};
    forall x | x in vs' ensures StoredVideo(vs'[x]) {
      assert StoredVideo(vs[x]);
    }
  }
}
