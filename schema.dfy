/** The three Mongoose schemas: the fields of a course, a chapter and a
    video, the constraints Mongoose checks when a document is saved
    (`required`, `maxlength`), the `trim` setter, and the defaults a new
    document receives for the fields it is created without. */
module Schema {
  import opened Common
  import opened Text

  /** `status: { enum: ['draft', 'published'], default: 'draft' }`. */
  datatype Status = Draft | Published

  function StatusName(s: Status): string {
    match s
    case Draft => "draft"
    case Published => "published"
  }

  /** The publish toggle:
      `course.status = course.status === 'draft' ? 'published' : 'draft'`. */
  function Toggle(s: Status): (r: Status)
    ensures r != s
  {
    if s == Draft then Published else Draft
  }

  /** Publishing twice restores the original status. */
  lemma ToggleTwice(s: Status)
    ensures Toggle(Toggle(s)) == s
  {
  }

  datatype Course = Course(
    name: string,
    description: string,
    thumbnail: string,
    status: Status,
    createdBy: UserId,
    chapters: seq<Id>,
    totalDuration: string)

  datatype Chapter = Chapter(
    name: string,
    description: string,
    duration: string,
    courseId: Id,
    videos: seq<Id>,
    order: nat)

  datatype Video = Video(
    title: string,
    description: string,
    thumbnail: string,
    videoUrl: string,
    duration: string,
    chapterId: Id,
    order: nat,
    views: nat,
    isActive: bool)

  /** The default of every `duration` / `totalDuration` field. */
  const DefaultDuration: string := "00:00"

  /** `required: true` on a string (it must be non-empty) together with a
      `maxlength`, which counts UTF-16 code units. */
  predicate Required(s: string, maxLength: nat) {
    0 < JsLength(s) <= maxLength
  }

  /** The field constraints Mongoose validates on `save()`. */
  predicate CourseValidates(c: Course) {
    Required(c.name, 100) && Required(c.description, 1000)
  }

  predicate ChapterValidates(ch: Chapter) {
    Required(ch.name, 100) && Required(ch.description, 500)
  }

  predicate VideoValidates(v: Video) {
    Required(v.title, 100) && Required(v.description, 500) && v.videoUrl != ""
  }

  /** A field with `trim: true` always holds a trimmed value, because the
      setter trims on every assignment. */
  predicate Trimmed(s: string) {
    Trim(s) == s
  }

  /** The documents a collection can hold: they passed validation and
      went through the `trim` setter. */
  predicate StoredCourse(c: Course) {
    CourseValidates(c) && Trimmed(c.name)
  }

  predicate StoredChapter(ch: Chapter) {
    ChapterValidates(ch) && Trimmed(ch.name)
  }

  predicate StoredVideo(v: Video) {
    VideoValidates(v) && Trimmed(v.title)
  }

  /** `new Course({ name, description, thumbnail, createdBy })`: the name
      goes through the `trim` setter, a missing thumbnail takes the
      default "", and status, chapters and totalDuration take theirs. */
  function NewCourse(name: string, description: string, thumbnail: Field, createdBy: UserId): (c: Course)
    ensures c.name == Trim(name) && Trimmed(c.name) && c.description == description && c.createdBy == createdBy
    ensures thumbnail.None? ==> c.thumbnail == ""
    ensures thumbnail.Some? ==> c.thumbnail == thumbnail.value
    ensures c.status == Draft && c.chapters == [] && c.totalDuration == "00:00"
  {
    TrimIdempotent(name);
    Course(Trim(name), description, IfDefined(thumbnail, ""), Draft, createdBy, [], DefaultDuration)
  }

  /** `new Chapter({ name, description, courseId, order })`: duration
      defaults to "00:00", the video list starts empty, and a missing
      order is 0. */
  function NewChapter(name: string, description: string, courseId: Id, order: Option<nat>): (ch: Chapter)
    ensures ch.name == Trim(name) && Trimmed(ch.name) && ch.description == description && ch.courseId == courseId
    ensures ch.duration == "00:00" && ch.videos == []
    ensures ch.order == if order.Some? then order.value else 0
  {
    TrimIdempotent(name);
    Chapter(Trim(name), description, DefaultDuration,
            courseId, [], match order case Some(n) => n case None => 0)
  }

  /** `new Video({ ... })`: the title is trimmed; a missing thumbnail,
      duration or order takes "", "00:00" or 0; every new video has no
      views and is active. */
  function NewVideo(title: string, description: string, thumbnail: Field, videoUrl: string,
                    duration: Field, chapterId: Id, order: Option<nat>): (v: Video)
    ensures v.title == Trim(title) && Trimmed(v.title) && v.description == description && v.videoUrl == videoUrl
    ensures v.chapterId == chapterId
    ensures v.thumbnail == (if thumbnail.Some? then thumbnail.value else "")
    ensures v.duration == (if duration.Some? then duration.value else "00:00")
    ensures v.order == (if order.Some? then order.value else 0)
    ensures v.views == 0 && v.isActive
  {
    TrimIdempotent(title);
    Video(Trim(title), description, IfDefined(thumbnail, ""), videoUrl,
          IfDefined(duration, DefaultDuration), chapterId,
          match order case Some(n) => n case None => 0, 0, true)
  }
}
