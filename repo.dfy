/** The content store behind the REST routes: the three MongoDB
    collections as maps from identifier to document, and one method per
    route handler. A handler answers exactly one `Response`; it validates
    the request body first, then looks the document up (404), then checks
    ownership (403), and only then changes the collections. A document
    that Mongoose refuses to save makes the handler answer 500 with
    nothing changed. */
module Repository {
  import opened Common
  import opened Text
  import opened Schema
  import opened Aggregate
  import opened Access
  import opened Query
  import opened Store

  // ---------------------------------------------------------------------
  // the filters the handlers pass to `find`, `findOne` and `deleteMany`

  /** `{ chapterId: chId, isActive: true }` */
  function ActiveOf(chId: Id): Video -> bool {
    (v: Video) => v.chapterId == chId && v.isActive
  }

  /** The course list query: `createdBy` is the caller unless the caller
      is an admin, and `status` is the one asked for if a non-empty one
      was. */
  function Listed(p: Principal, status: Field): (keep: Course -> bool) {
    (c: Course) => (IsAdmin(p) || c.createdBy == p.id)
                   && (!NotEmpty(status) || StatusName(c.status) == status.value)
  }

  /** The `order` field, the key of `.sort({ order: 1 })`. */
  function ChapterOrder(chapters: map<Id, Chapter>): Id -> nat {
    (id: Id) => if id in chapters then chapters[id].order else 0
  }

  function VideoOrder(videos: map<Id, Video>): Id -> nat {
    (id: Id) => if id in videos then videos[id].order else 0
  }

  /** One page of the course list, with the `pagination` block. */
  datatype CoursePage = CoursePage(courses: seq<Id>, page: nat, limit: nat, total: nat, pages: Option<nat>)

  /** An absent query parameter takes its default. */
  function OrDefault(a: Option<nat>, d: nat): (r: nat)
    ensures a.None? ==> r == d
    ensures a.Some? ==> r == a.value
  {
    if a.Some? then a.value else d
  }

  /** `(page - 1) * limit`, negative only for page 0 with a limit. */
  function Skip(page: nat, limit: nat): (s: int)
    ensures s < 0 <==> page == 0 && limit > 0
  {
    if page == 0 then -(limit as int) else (page - 1) * limit
  }

  /** The assignments of PUT /api/courses/:id before `save()`:
      `name || old`, `description || old`, and the thumbnail whenever it
      is given, even empty. The name goes through the `trim` setter. */
  function EditCourse(c: Course, name: Field, description: Field, thumbnail: Field): (u: Course)
    ensures u.name == Trim(if NotEmpty(name) then name.value else c.name)
    ensures u.description == (if NotEmpty(description) then description.value else c.description)
    ensures u.thumbnail == (if thumbnail.Some? then thumbnail.value else c.thumbnail)
    ensures u.status == c.status && u.createdBy == c.createdBy
    ensures u.chapters == c.chapters && u.totalDuration == c.totalDuration
    ensures Trimmed(u.name)
  {
    TrimIdempotent(Or(name, c.name));
    c.(name := Trim(Or(name, c.name)), description := Or(description, c.description),
       thumbnail := IfDefined(thumbnail, c.thumbnail))
  }

  /** The assignments of PUT /api/chapters/:id before `save()`. */
  function EditChapter(ch: Chapter, name: Field, description: Field): (u: Chapter)
    ensures u.name == Trim(if NotEmpty(name) then name.value else ch.name)
    ensures u.description == (if NotEmpty(description) then description.value else ch.description)
    ensures u.duration == ch.duration && u.courseId == ch.courseId
    ensures u.videos == ch.videos && u.order == ch.order
    ensures Trimmed(u.name)
  {
    TrimIdempotent(Or(name, ch.name));
    ch.(name := Trim(Or(name, ch.name)), description := Or(description, ch.description))
  }

  /** The assignments of PUT /api/videos/:id before `save()`: title,
      description, URL and duration when truthy, the thumbnail whenever
      it is given. */
  function EditVideo(v: Video, title: Field, description: Field, thumbnail: Field,
                     videoUrl: Field, duration: Field): (u: Video)
    ensures u.title == Trim(if NotEmpty(title) then title.value else v.title)
    ensures u.description == (if NotEmpty(description) then description.value else v.description)
    ensures u.thumbnail == (if thumbnail.Some? then thumbnail.value else v.thumbnail)
    ensures u.videoUrl == (if NotEmpty(videoUrl) then videoUrl.value else v.videoUrl)
    ensures u.duration == (if NotEmpty(duration) then duration.value else v.duration)
    ensures u.chapterId == v.chapterId && u.order == v.order
    ensures u.views == v.views && u.isActive == v.isActive
    ensures Trimmed(u.title)
  {
    TrimIdempotent(Or(title, v.title));
    v.(title := Trim(Or(title, v.title)), description := Or(description, v.description),
       thumbnail := IfDefined(thumbnail, v.thumbnail), videoUrl := Or(videoUrl, v.videoUrl),
       duration := Or(duration, v.duration))
  }

  /** The video's chapter exists and belongs to course `cid`. */
  predicate OfCourseVideo(chapters: map<Id, Chapter>, cid: Id, v: Video) {
    v.chapterId in chapters && chapters[v.chapterId].courseId == cid
  }

  class Repo {
    var courses: map<Id, Course>
    var chapters: map<Id, Chapter>
    var videos: map<Id, Video>
    /** The next fresh identifier. One counter serves the three
        collections, so a larger identifier is a later `createdAt`. */
    var nextId: nat

    /** The consistency every handler keeps (see `Store.Consistent`). */
    ghost predicate Valid()
      reads this
    {
      Consistent(courses, chapters, videos, nextId)
    }

    constructor()
      ensures Valid()
      ensures courses == map[] && chapters == map[] && videos == map[] && nextId == 0
    {
      courses, chapters, videos, nextId := map[], map[], map[], 0;
    }

    // -------------------------------------------------------------------
    // courses

    /** GET /api/courses */
    method ListCourses(p: Principal, status: Field, page: Option<nat>, limit: Option<nat>)
      returns (r: Response<CoursePage>)
      requires Valid()
      ensures var pg := OrDefault(page, 1);
              var lim := OrDefault(limit, 10);
              var matching := Select(courses, nextId, Listed(p, status));
              (r == ServerError <==> Skip(pg, lim) < 0)
              && (r.Ok? ==>
                    r.value.courses == Page(matching, Skip(pg, lim), lim)
                    && r.value.page == pg && r.value.limit == lim
                    && r.value.total == |matching|
                    && (r.value.pages.None? <==> lim == 0)
                    && (lim > 0 ==> r.value.pages == Some(CeilDiv(|matching|, lim))))
      ensures r.Ok? ==> forall x :: x in r.value.courses ==>
                x in courses && (IsAdmin(p) || courses[x].createdBy == p.id)
      ensures r.Ok? ==> Decreasing(r.value.courses)
      ensures r.Ok? || r == ServerError
    {
      var pg := OrDefault(page, 1);
      var lim := OrDefault(limit, 10);
      var skip := Skip(pg, lim);
      if skip < 0 {
        // MongoDB rejects a negative skip
        return ServerError;
      }
      var matching := Select(courses, nextId, Listed(p, status));
      var shown := Page(matching, skip, lim);
      assert forall i :: 0 <= i < |shown| ==> shown[i] in matching;
      var pages := if lim == 0 then None else Some(CeilDiv(|matching|, lim));
      r := Ok(CoursePage(shown, pg, lim, |matching|, pages));
    }

    /** GET /api/courses/:id, with the ownership check the other course
        handlers perform (see `GetCourseAsWritten`). */
    method GetCourse(p: Principal, id: Id) returns (r: Response<Course>)
      requires Valid()
      ensures r == NotFound <==> id !in courses
      ensures id in courses ==> (r == Forbidden <==> Decide(p, Some(courses[id].createdBy)) == Deny)
      ensures id in courses ==> (r.Ok? <==> IsAdmin(p) || courses[id].createdBy == p.id)
      ensures r.Ok? ==> id in courses && r.value == courses[id]
      ensures r.Ok? || r == NotFound || r == Forbidden
    {
      if id !in courses {
        return NotFound;
      }
      var course := courses[id];
      var v := Decide(p, Some(course.createdBy));
      if v != Allow {
        return Refusal(v);
      }
      r := Ok(course);
    }

    /** GET /api/courses/:id as written: the owner is compared after it
        was populated with the user's name and e-mail, so only an admin
        gets through. */
    method GetCourseAsWritten(p: Principal, id: Id, ownerName: string, ownerEmail: string)
      returns (r: Response<Course>)
      requires Valid()
      ensures r == NotFound <==> id !in courses
      ensures id in courses ==> (r.Ok? <==> IsAdmin(p))
      ensures id in courses && !IsAdmin(p) ==> r == Forbidden
      ensures r.Ok? ==> id in courses && r.value == courses[id]
    {
      if id !in courses {
        return NotFound;
      }
      var course := courses[id];
      var v := DecidePopulated(p, course.createdBy, ownerName, ownerEmail);
      if v != Allow {
        return Refusal(v);
      }
      r := Ok(course);
    }

    /** POST /api/courses: any signed-in user may create a course, which
        they then own. */
    method CreateCourse(p: Principal, name: Field, description: Field, thumbnail: Field)
      returns (r: Response<Id>)
      requires Valid()
      modifies this
      ensures Valid()
      ensures r == Invalid <==> !NotEmpty(name) || !NotEmpty(description)
      ensures r.Ok? <==> NotEmpty(name) && NotEmpty(description)
                         && CourseValidates(NewCourse(name.value, description.value, Some(Or(thumbnail, "")), p.id))
      ensures r.Ok? ==> r.value == old(nextId) && r.value !in old(courses)
                        && courses == old(courses)[r.value := NewCourse(name.value, description.value, Some(Or(thumbnail, "")), p.id)]
                        && chapters == old(chapters) && videos == old(videos) && nextId == old(nextId) + 1
      ensures r.Ok? ==> courses[r.value].createdBy == p.id && courses[r.value].thumbnail == Or(thumbnail, "")
      ensures !r.Ok? ==> unchanged(this)
      ensures r.Ok? || r == Invalid || r == ServerError
    {
      if !NotEmpty(name) || !NotEmpty(description) {
        return Invalid;
      }
      var course := NewCourse(name.value, description.value, Some(Or(thumbnail, "")), p.id);
      if !CourseValidates(course) {
        return ServerError;
      }
      course := RunCourseHook(course, chapters, false);
      var id := nextId;
      AddCourseKeeps(courses, chapters, videos, nextId, course);
      courses := courses[id := course];
      nextId := nextId + 1;
      r := Ok(id);
    }

    /** PUT /api/courses/:id: the edited course is validated, the
        `pre('save')` hook recomputes its total duration, and it replaces
        the stored one. */
    method UpdateCourse(p: Principal, id: Id, name: Field, description: Field, thumbnail: Field)
      returns (r: Response<Course>)
      requires Valid()
      modifies this
      ensures Valid()
      ensures r == Invalid <==> !OptionalNotEmpty(name) || !OptionalNotEmpty(description)
      ensures r != Invalid ==> (r == NotFound <==> id !in old(courses))
      ensures r != Invalid && id in old(courses) ==>
                (r == Forbidden <==> Decide(p, Some(old(courses)[id].createdBy)) == Deny)
                && (r == ServerError <==> Decide(p, Some(old(courses)[id].createdBy)) == Allow
                                          && !CourseValidates(EditCourse(old(courses)[id], name, description, thumbnail)))
      ensures r.Ok? ==> id in old(courses)
                        && r.value == CourseHook(EditCourse(old(courses)[id], name, description, thumbnail), old(chapters), false)
                        && courses == old(courses)[id := r.value]
                        && chapters == old(chapters) && videos == old(videos) && nextId == old(nextId)
      ensures !r.Ok? ==> unchanged(this)
    {
      if !OptionalNotEmpty(name) || !OptionalNotEmpty(description) {
        return Invalid;
      }
      if id !in courses {
        return NotFound;
      }
      var course := courses[id];
      var v := Decide(p, Some(course.createdBy));
      if v != Allow {
        return Refusal(v);
      }
      course := EditCourse(course, name, description, thumbnail);
      if !CourseValidates(course) {
        return ServerError;
      }
      course := RunCourseHook(course, chapters, false);
      ReplaceCourseKeeps(courses, chapters, videos, nextId, id, course);
      courses := courses[id := course];
      r := Ok(course);
    }

    /** PATCH /api/courses/:id/publish: toggles the status and saves,
        which also recomputes the total duration. */
    method PublishCourse(p: Principal, id: Id) returns (r: Response<Course>)
      requires Valid()
      modifies this
      ensures Valid()
      ensures r == NotFound <==> id !in old(courses)
      ensures id in old(courses) ==> (r == Forbidden <==> Decide(p, Some(old(courses)[id].createdBy)) == Deny)
      ensures r.Ok? ==> id in old(courses)
                        && r.value == CourseHook(old(courses)[id].(status := Toggle(old(courses)[id].status)), old(chapters), false)
                        && courses == old(courses)[id := r.value]
                        && chapters == old(chapters) && videos == old(videos) && nextId == old(nextId)
      ensures r.Ok? ==> r.value.status != old(courses)[id].status
      ensures !r.Ok? ==> unchanged(this)
      ensures r.Ok? || r == NotFound || r == Forbidden
    {
      if id !in courses {
        return NotFound;
      }
      var course := courses[id];
      var v := Decide(p, Some(course.createdBy));
      if v != Allow {
        return Refusal(v);
      }
      course := course.(status := Toggle(course.status));
      // the stored fields passed validation before, and only the status changed
      assert StoredCourse(courses[id]);
      assert CourseValidates(course);
      course := RunCourseHook(course, chapters, false);
      ReplaceCourseKeeps(courses, chapters, videos, nextId, id, course);
      courses := courses[id := course];
      r := Ok(course);
    }

    /** DELETE /api/courses/:id: `Chapter.deleteMany({ courseId })`, then
        the course. The videos of those chapters stay behind. */
    method DeleteCourse(p: Principal, id: Id) returns (r: Response<()>)
      requires Valid()
      modifies this
      ensures Valid()
      ensures r == NotFound <==> id !in old(courses)
      ensures id in old(courses) ==> (r == Forbidden <==> Decide(p, Some(old(courses)[id].createdBy)) == Deny)
      ensures r.Ok? ==> courses == old(courses) - {id}
                        && chapters == DeleteMany(old(chapters), OfCourse(id))
                        && videos == old(videos) && nextId == old(nextId)
      ensures r.Ok? ==> forall x :: x in old(videos) && OfCourseVideo(old(chapters), id, old(videos)[x]) ==>
                              x in videos && videos[x].chapterId !in chapters
      ensures !r.Ok? ==> unchanged(this)
      ensures r.Ok? || r == NotFound || r == Forbidden
    {
      if id !in courses {
        return NotFound;
      }
      var v := Decide(p, Some(courses[id].createdBy));
      if v != Allow {
        return Refusal(v);
      }
      DeleteCourseKeeps(courses, chapters, videos, nextId, id);
      chapters := DeleteMany(chapters, OfCourse(id));
      courses := courses - {id};
      r := Ok(());
    }

    // -------------------------------------------------------------------
    // chapters

    /** GET /api/chapters/courses/:courseId: the course's chapters, each
        once, ascending by `order`. */
    method ListChapters(p: Principal, courseId: Id) returns (r: Response<seq<Id>>)
      requires Valid()
      ensures r == NotFound <==> courseId !in courses
      ensures courseId in courses ==> (r == Forbidden <==> Decide(p, Some(courses[courseId].createdBy)) == Deny)
      ensures r.Ok? ==> courseId in courses
      ensures r.Ok? ==> forall x :: x in r.value <==> x in chapters && chapters[x].courseId == courseId
      ensures r.Ok? ==> forall x :: multiset(r.value)[x] <= 1
      ensures r.Ok? ==> SortedBy(r.value, ChapterOrder(chapters))
      ensures r.Ok? ==> forall x :: x in r.value <==> x in courses[courseId].chapters
      ensures r.Ok? || r == NotFound || r == Forbidden
    {
      if courseId !in courses {
        return NotFound;
      }
      var v := Decide(p, Some(courses[courseId].createdBy));
      if v != Allow {
        return Refusal(v);
      }
      assert forall x :: x in chapters ==> x < nextId;
      var sorted := FindSorted(chapters, nextId, OfCourse(courseId), ChapterOrder(chapters));
      ListedChapters(courses, chapters, courseId);
      r := Ok(sorted);
    }

    /** GET /api/chapters/:id */
    method GetChapter(p: Principal, id: Id) returns (r: Response<Chapter>)
      requires Valid()
      ensures r == NotFound <==> id !in chapters
      ensures id in chapters ==> (r == Forbidden <==> Decide(p, ChapterOwner(courses, chapters, id)) == Deny)
      ensures id in chapters ==> (r.Ok? <==> IsAdmin(p) || courses[chapters[id].courseId].createdBy == p.id)
      ensures r.Ok? ==> id in chapters && r.value == chapters[id]
      ensures r.Ok? || r == NotFound || r == Forbidden
    {
      if id !in chapters {
        return NotFound;
      }
      var v := Decide(p, ChapterOwner(courses, chapters, id));
      if v != Allow {
        return Refusal(v);
      }
      r := Ok(chapters[id]);
    }

    /** POST /api/chapters/courses/:courseId: the new chapter comes after
        every chapter of the course, is appended to the course's list,
        and the course is saved (its total duration is recomputed). */
    method CreateChapter(p: Principal, courseId: Id, name: Field, description: Field)
      returns (r: Response<Id>)
      requires Valid()
      modifies this
      ensures Valid()
      ensures r == Invalid <==> !NotEmpty(name) || !NotEmpty(description)
      ensures r != Invalid ==> (r == NotFound <==> courseId !in old(courses))
      ensures r != Invalid && courseId in old(courses) ==>
                (r == Forbidden <==> Decide(p, Some(old(courses)[courseId].createdBy)) == Deny)
                && (r == ServerError <==> Decide(p, Some(old(courses)[courseId].createdBy)) == Allow
                                          && !ChapterValidates(NewChapter(name.value, description.value, courseId, None)))
      ensures r.Ok? ==>
                courseId in old(courses)
                && var order := NextOrderAmong(old(chapters), old(nextId), OfCourse(courseId), ChapterOrder(old(chapters)));
                   var c := old(courses)[courseId];
                   r.value == old(nextId)
                   && chapters == old(chapters)[r.value := NewChapter(name.value, description.value, courseId, Some(order))]
                   && courses == old(courses)[courseId := CourseHook(c.(chapters := c.chapters + [r.value]), chapters, false)]
                   && videos == old(videos) && nextId == old(nextId) + 1
      ensures r.Ok? ==> courses[courseId].chapters == old(courses)[courseId].chapters + [r.value]
      ensures !r.Ok? ==> unchanged(this)
    {
      if !NotEmpty(name) || !NotEmpty(description) {
        return Invalid;
      }
      if courseId !in courses {
        return NotFound;
      }
      var course := courses[courseId];
      var v := Decide(p, Some(course.createdBy));
      if v != Allow {
        return Refusal(v);
      }
      assert forall x :: x in chapters ==> x < nextId;
      var order := NextOrderAmong(chapters, nextId, OfCourse(courseId), ChapterOrder(chapters));
      var chapter := NewChapter(name.value, description.value, courseId, Some(order));
      if !ChapterValidates(chapter) {
        return ServerError;
      }
      // `Chapter.create` runs the chapter hook, which skips an empty video list
      chapter := RunChapterHook(chapter, videos, false);
      var id := AppendChapter(chapter);
      var saved := SaveCourse(courseId);
      UpdateTwice(old(courses), courseId, course.(chapters := course.chapters + [id]), saved);
      r := Ok(id);
    }

    /** `Chapter.create` followed by `course.chapters.push(chapter._id)`:
        the chapter is stored under a fresh identifier and appended to its
        course's list. */
    method AppendChapter(chapter: Chapter) returns (id: Id)
      requires Valid()
      requires chapter.courseId in courses && StoredChapter(chapter) && chapter.videos == []
      modifies this
      ensures Valid()
      ensures id == old(nextId)
      ensures var c := old(courses)[chapter.courseId];
              chapters == old(chapters)[id := chapter]
              && courses == old(courses)[chapter.courseId := c.(chapters := c.chapters + [id])]
              && videos == old(videos) && nextId == old(nextId) + 1
    {
      id := nextId;
      var cid := chapter.courseId;
      var course := courses[cid];
      assert StoredCourse(course);
      course := course.(chapters := course.chapters + [id]);
      AddChapterKeeps(courses, chapters, videos, nextId, chapter, course);
      courses, chapters, nextId := courses[cid := course], chapters[id := chapter], nextId + 1;
    }

    /** `course.save()` on a stored course: the `pre('save')` hook
        recomputes its total duration from its chapters. */
    method SaveCourse(id: Id) returns (saved: Course)
      requires Valid() && id in courses
      modifies this
      ensures Valid()
      ensures saved == CourseHook(old(courses)[id], chapters, false)
      ensures courses == old(courses)[id := saved]
      ensures chapters == old(chapters) && videos == old(videos) && nextId == old(nextId)
    {
      assert StoredCourse(courses[id]);
      saved := RunCourseHook(courses[id], chapters, false);
      ReplaceCourseKeeps(courses, chapters, videos, nextId, id, saved);
      courses := courses[id := saved];
    }

    /** PUT /api/chapters/:id: the edited chapter is validated and saved,
        so its duration is recomputed from its videos. */
    method UpdateChapter(p: Principal, id: Id, name: Field, description: Field)
      returns (r: Response<Chapter>)
      requires Valid()
      modifies this
      ensures Valid()
      ensures r == Invalid <==> !OptionalNotEmpty(name) || !OptionalNotEmpty(description)
      ensures r != Invalid ==> (r == NotFound <==> id !in old(chapters))
      ensures r != Invalid && id in old(chapters) ==>
                (r == Forbidden <==> Decide(p, ChapterOwner(old(courses), old(chapters), id)) == Deny)
                && (r == ServerError <==> Decide(p, ChapterOwner(old(courses), old(chapters), id)) == Allow
                                          && !ChapterValidates(EditChapter(old(chapters)[id], name, description)))
      ensures r.Ok? ==> id in old(chapters)
                        && r.value == ChapterHook(EditChapter(old(chapters)[id], name, description), old(videos), false)
                        && chapters == old(chapters)[id := r.value]
                        && courses == old(courses) && videos == old(videos) && nextId == old(nextId)
      ensures !r.Ok? ==> unchanged(this)
    {
      if !OptionalNotEmpty(name) || !OptionalNotEmpty(description) {
        return Invalid;
      }
      if id !in chapters {
        return NotFound;
      }
      var v := Decide(p, ChapterOwner(courses, chapters, id));
      if v != Allow {
        return Refusal(v);
      }
      var chapter := EditChapter(chapters[id], name, description);
      if !ChapterValidates(chapter) {
        return ServerError;
      }
      chapter := RunChapterHook(chapter, videos, false);
      ReplaceChapterKeeps(courses, chapters, videos, nextId, id, chapter);
      chapters := chapters[id := chapter];
      r := Ok(chapter);
    }

    /** DELETE /api/chapters/:id: `$pull` from the course (no hook runs),
        `Video.deleteMany({ chapterId })`, then the chapter. */
    method DeleteChapter(p: Principal, id: Id) returns (r: Response<()>)
      requires Valid()
      modifies this
      ensures Valid()
      ensures r == NotFound <==> id !in old(chapters)
      ensures id in old(chapters) ==> (r == Forbidden <==> Decide(p, ChapterOwner(old(courses), old(chapters), id)) == Deny)
      ensures r.Ok? ==> id in old(chapters)
                        && var cid := old(chapters)[id].courseId;
                           var c := old(courses)[cid];
                           courses == old(courses)[cid := c.(chapters := Pull(c.chapters, id))]
                           && videos == DeleteMany(old(videos), OfChapter(id))
                           && chapters == old(chapters) - {id}
                           && nextId == old(nextId)
      ensures !r.Ok? ==> unchanged(this)
      ensures r.Ok? || r == NotFound || r == Forbidden
    {
      if id !in chapters {
        return NotFound;
      }
      var v := Decide(p, ChapterOwner(courses, chapters, id));
      if v != Allow {
        return Refusal(v);
      }
      var cid := chapters[id].courseId;
      var course := courses[cid];
      DeleteChapterKeeps(courses, chapters, videos, nextId, id);
      courses := courses[cid := course.(chapters := Pull(course.chapters, id))];
      videos := DeleteMany(videos, OfChapter(id));
      chapters := chapters - {id};
      r := Ok(());
    }

    // -------------------------------------------------------------------
    // videos

    /** GET /api/videos/chapters/:chapterId: the chapter's active videos,
        each once, ascending by `order`. */
    method ListVideos(p: Principal, chapterId: Id) returns (r: Response<seq<Id>>)
      requires Valid()
      ensures r == NotFound <==> chapterId !in chapters
      ensures chapterId in chapters ==> (r == Forbidden <==> Decide(p, ChapterOwner(courses, chapters, chapterId)) == Deny)
      ensures r.Ok? ==> chapterId in chapters
      ensures r.Ok? ==> forall x :: x in r.value <==> x in videos && videos[x].chapterId == chapterId && videos[x].isActive
      ensures r.Ok? ==> forall x :: x in r.value <==> x in chapters[chapterId].videos && videos[x].isActive
      ensures r.Ok? ==> forall x :: multiset(r.value)[x] <= 1
      ensures r.Ok? ==> SortedBy(r.value, VideoOrder(videos))
      ensures r.Ok? || r == NotFound || r == Forbidden
    {
      if chapterId !in chapters {
        return NotFound;
      }
      ChapterOwned(courses, chapters, videos, nextId, chapterId);
      var v := Decide(p, ChapterOwner(courses, chapters, chapterId));
      if v != Allow {
        return Refusal(v);
      }
      assert forall x :: x in videos ==> x < nextId;
      var sorted := FindSorted(videos, nextId, ActiveOf(chapterId), VideoOrder(videos));
      ListedVideos(chapters, videos, chapterId);
      r := Ok(sorted);
    }

    /** GET /api/videos/:id. A video whose chapter was deleted with its
        course has no owner: an admin still gets it, anyone else gets 500. */
    method GetVideo(p: Principal, id: Id) returns (r: Response<Video>)
      requires Valid()
      ensures r == NotFound <==> id !in videos
      ensures id in videos ==> (r == Forbidden <==> Decide(p, VideoOwner(courses, chapters, videos, id)) == Deny)
      ensures id in videos ==> (r == ServerError <==> !IsAdmin(p) && videos[id].chapterId !in chapters)
      ensures r.Ok? ==> id in videos && r.value == videos[id]
      ensures r.Ok? ==> IsAdmin(p) || VideoOwner(courses, chapters, videos, id) == Some(p.id)
      ensures r.Ok? || r == NotFound || r == Forbidden || r == ServerError
    {
      if id !in videos {
        return NotFound;
      }
      VideoOwned(courses, chapters, videos, nextId, id);
      var v := Decide(p, VideoOwner(courses, chapters, videos, id));
      if v != Allow {
        return Refusal(v);
      }
      r := Ok(videos[id]);
    }

    /** POST /api/videos/chapters/:chapterId: the new video comes after
        every video of the chapter, is appended to the chapter's list, and
        the chapter is saved (its duration is recomputed); the course is
        not saved again. */
    method CreateVideo(p: Principal, chapterId: Id, title: Field, description: Field, thumbnail: Field,
                       videoUrl: Field, duration: Field)
      returns (r: Response<Id>)
      requires Valid()
      modifies this
      ensures Valid()
      ensures r == Invalid <==> !NotEmpty(title) || !NotEmpty(description) || !NotEmpty(videoUrl)
      ensures r != Invalid ==> (r == NotFound <==> chapterId !in old(chapters))
      ensures r != Invalid && chapterId in old(chapters) ==>
                (r == Forbidden <==> Decide(p, ChapterOwner(old(courses), old(chapters), chapterId)) == Deny)
                && (r == ServerError <==> Decide(p, ChapterOwner(old(courses), old(chapters), chapterId)) == Allow
                                          && !VideoValidates(NewVideo(title.value, description.value, Some(Or(thumbnail, "")),
                                                                      videoUrl.value, Some(Or(duration, DefaultDuration)),
                                                                      chapterId, None)))
      ensures r.Ok? ==>
                chapterId in old(chapters)
                && var order := NextOrderAmong(old(videos), old(nextId), OfChapter(chapterId), VideoOrder(old(videos)));
                   var ch := old(chapters)[chapterId];
                   r.value == old(nextId)
                   && videos == old(videos)[r.value := NewVideo(title.value, description.value, Some(Or(thumbnail, "")),
                                                                videoUrl.value, Some(Or(duration, DefaultDuration)),
                                                                chapterId, Some(order))]
                   && chapters == old(chapters)[chapterId := ChapterHook(ch.(videos := ch.videos + [r.value]), videos, false)]
                   && courses == old(courses) && nextId == old(nextId) + 1
      ensures r.Ok? ==> chapters[chapterId].videos == old(chapters)[chapterId].videos + [r.value]
      ensures !r.Ok? ==> unchanged(this)
    {
      if !NotEmpty(title) || !NotEmpty(description) || !NotEmpty(videoUrl) {
        return Invalid;
      }
      if chapterId !in chapters {
        return NotFound;
      }
      var chapter := chapters[chapterId];
      ChapterOwned(courses, chapters, videos, nextId, chapterId);
      var v := Decide(p, ChapterOwner(courses, chapters, chapterId));
      if v != Allow {
        return Refusal(v);
      }
      assert forall x :: x in videos ==> x < nextId;
      var order := NextOrderAmong(videos, nextId, OfChapter(chapterId), VideoOrder(videos));
      var video := NewVideo(title.value, description.value, Some(Or(thumbnail, "")), videoUrl.value,
                            Some(Or(duration, DefaultDuration)), chapterId, Some(order));
      if !VideoValidates(video) {
        return ServerError;
      }
      var id := AppendVideo(video);
      var saved := SaveChapter(chapterId);
      UpdateTwice(old(chapters), chapterId, chapter.(videos := chapter.videos + [id]), saved);
      r := Ok(id);
    }

    /** `Video.create` followed by `chapter.videos.push(video._id)`: the
        video is stored under a fresh identifier and appended to its
        chapter's list. */
    method AppendVideo(video: Video) returns (id: Id)
      requires Valid()
      requires video.chapterId in chapters && StoredVideo(video)
      modifies this
      ensures Valid()
      ensures id == old(nextId)
      ensures var ch := old(chapters)[video.chapterId];
              videos == old(videos)[id := video]
              && chapters == old(chapters)[video.chapterId := ch.(videos := ch.videos + [id])]
              && courses == old(courses) && nextId == old(nextId) + 1
    {
      id := nextId;
      var chId := video.chapterId;
      var chapter := chapters[chId];
      assert StoredChapter(chapter);
      chapter := chapter.(videos := chapter.videos + [id]);
      AddVideoKeeps(courses, chapters, videos, nextId, video, chapter);
      chapters, videos, nextId := chapters[chId := chapter], videos[id := video], nextId + 1;
    }

    /** `chapter.save()` on a stored chapter: the `pre('save')` hook
        recomputes its duration from its videos. */
    method SaveChapter(id: Id) returns (saved: Chapter)
      requires Valid() && id in chapters
      modifies this
      ensures Valid()
      ensures saved == ChapterHook(old(chapters)[id], videos, false)
      ensures chapters == old(chapters)[id := saved]
      ensures courses == old(courses) && videos == old(videos) && nextId == old(nextId)
    {
      assert StoredChapter(chapters[id]);
      saved := RunChapterHook(chapters[id], videos, false);
      ReplaceChapterKeeps(courses, chapters, videos, nextId, id, saved);
      chapters := chapters[id := saved];
    }

    /** PUT /api/videos/:id: the edited video is validated and saved; the
        chapter's duration is not recomputed. A video without a chapter
        fails validation (`chapterId` populates to `null`), so even an
        admin gets 500 for it. */
    method UpdateVideo(p: Principal, id: Id, title: Field, description: Field, thumbnail: Field,
                       videoUrl: Field, duration: Field)
      returns (r: Response<Video>)
      requires Valid()
      modifies this
      ensures Valid()
      ensures r == Invalid <==> !OptionalNotEmpty(title) || !OptionalNotEmpty(description) || !OptionalNotEmpty(videoUrl)
      ensures r != Invalid ==> (r == NotFound <==> id !in old(videos))
      ensures r != Invalid && id in old(videos) ==>
                (r == Forbidden <==> Decide(p, VideoOwner(old(courses), old(chapters), old(videos), id)) == Deny)
                && (r == ServerError <==>
                      old(videos)[id].chapterId !in old(chapters)
                      || (Decide(p, VideoOwner(old(courses), old(chapters), old(videos), id)) == Allow
                          && !VideoValidates(EditVideo(old(videos)[id], title, description, thumbnail, videoUrl, duration))))
      ensures r.Ok? ==> id in old(videos)
                        && r.value == EditVideo(old(videos)[id], title, description, thumbnail, videoUrl, duration)
                        && videos == old(videos)[id := r.value]
                        && courses == old(courses) && chapters == old(chapters) && nextId == old(nextId)
      ensures !r.Ok? ==> unchanged(this)
    {
      if !OptionalNotEmpty(title) || !OptionalNotEmpty(description) || !OptionalNotEmpty(videoUrl) {
        return Invalid;
      }
      if id !in videos {
        return NotFound;
      }
      VideoOwned(courses, chapters, videos, nextId, id);
      var v := Decide(p, VideoOwner(courses, chapters, videos, id));
      if v != Allow {
        return Refusal(v);
      }
      if videos[id].chapterId !in chapters {
        // the required `chapterId` is `null` after populate
        return ServerError;
      }
      var video := EditVideo(videos[id], title, description, thumbnail, videoUrl, duration);
      if !VideoValidates(video) {
        return ServerError;
      }
      ReplaceVideoKeeps(courses, chapters, videos, nextId, id, video);
      videos := videos[id := video];
      r := Ok(video);
    }

    /** DELETE /api/videos/:id: `$pull` from the chapter (no hook runs, so
        the chapter keeps its duration), then the video. A video without a
        chapter makes `video.chapterId._id` throw, so even an admin gets
        500 for it. */
    method DeleteVideo(p: Principal, id: Id) returns (r: Response<()>)
      requires Valid()
      modifies this
      ensures Valid()
      ensures r == NotFound <==> id !in old(videos)
      ensures id in old(videos) ==>
                (r == Forbidden <==> Decide(p, VideoOwner(old(courses), old(chapters), old(videos), id)) == Deny)
                && (r == ServerError <==> old(videos)[id].chapterId !in old(chapters))
      ensures r.Ok? || r == NotFound || r == Forbidden || r == ServerError
      ensures r.Ok? ==> id in old(videos)
                        && var chId := old(videos)[id].chapterId;
                           var ch := old(chapters)[chId];
                           chapters == old(chapters)[chId := ch.(videos := Pull(ch.videos, id))]
                           && videos == old(videos) - {id}
                           && courses == old(courses) && nextId == old(nextId)
      ensures r.Ok? ==> chapters[old(videos)[id].chapterId].duration == old(chapters)[old(videos)[id].chapterId].duration
      ensures !r.Ok? ==> unchanged(this)
    {
      if id !in videos {
        return NotFound;
      }
      VideoOwned(courses, chapters, videos, nextId, id);
      var v := Decide(p, VideoOwner(courses, chapters, videos, id));
      if v != Allow {
        return Refusal(v);
      }
      var chId := videos[id].chapterId;
      if chId !in chapters {
        return ServerError;
      }
      var chapter := chapters[chId];
      DeleteVideoKeeps(courses, chapters, videos, nextId, id);
      chapters := chapters[chId := chapter.(videos := Pull(chapter.videos, id))];
      videos := videos - {id};
      r := Ok(());
    }
  }
}
