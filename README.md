# Course manager content store

This is a Dafny model of the backend of a course manager. The backend is a
three-level content store: a course holds chapters, and a chapter holds
videos. The model covers three things:

- the Mongoose schemas of the three documents (`Backend/models`);
- the two `pre('save')` hooks that roll durations up the hierarchy;
- the REST route handlers for courses, chapters and videos, each with the
  ownership check it performs.

It also covers the edit-chapter form of the web client: its duration input
mask and its submit handler.

The three MongoDB collections are the `map` fields of one `Repository.Repo`
class. One counter, `nextId`, hands out identifiers for all three. Every
route handler is a method of that class. It answers one
`Common.Response`: `Ok`, `Invalid` (400), `NotFound` (404), `Forbidden`
(403) or `ServerError` (500). Each handler's contract states:

- which of these it answers, for exactly which inputs;
- the whole new state of the three collections.

Every handler keeps `Store.Consistent`. Under it:

- identifiers are fresh;
- every stored document passed validation and went through the `trim`
  setter;
- a course lists exactly the chapters that name it, once each;
- a chapter lists exactly the videos that name it, once each.

The checks come in the source's order: body validation (400), then lookup
(404), then ownership (403). The access rule is "admin, or the creator of the
owning course", with the owner found by walking from video to chapter to
course (`Access.Decide`). When that walk reaches a deleted document, a
non-admin caller dereferences `null` and gets 500.

The hooks compute with JavaScript numbers. The model reads only a field of
decimal digits exactly, as a non-negative integer, and reads every other
field as NaN. So a number is an `Option<nat>`, with `None` standing for NaN.
A duration the hooks cannot read (one without a `:`, say) makes the whole
sum NaN, and the stored result is `"NaN:NaN"`, as in JavaScript. A signed or
decimal field such as `"-5:00"` or `"1.5:00"` is a number in JavaScript but
NaN here; "## Left out" says more. The hooks read a duration with
`split(':').map(Number)` and use only its first two fields
(`Duration.Parse`). `Duration.ReadClock` is a separate reference reader that
gives the meaning of both output forms, `M:SS` and `H:MM:SS`.

Several behaviours of the code are easy to misread. The model follows the
code in each:

- **Unreadable durations.** One unreadable video duration does not count as
  zero. It makes the chapter's total NaN, stored as `"NaN:NaN"`.
- **Creating a video.** Only the chapter is saved, so its duration is
  recomputed. The course is not saved again, so its total is not
  recomputed (`Repository.Repo.CreateVideo`).
- **Updating or deleting a video.** Neither recomputes any duration.
  Updating saves only the video. Deleting removes the id with `$pull`
  through `findByIdAndUpdate`, which runs no hook.
- **Deleting a chapter.** The chapter is first pulled from its course, then
  its videos are deleted, then the chapter. Nothing is recomputed, so the
  course keeps its old total.
- **Deleting a course.** The course's chapters are deleted, but their
  videos stay behind with no chapter:
  - a non-admin gets 500 for them from every video handler;
  - an admin can still read them (`GetVideo`);
  - an admin gets 500 when updating one, because the required `chapterId`
    populates to `null`;
  - an admin gets 500 when deleting one, because `video.chapterId._id`
    throws.
- **A new chapter's duration.** The chapter hook skips a chapter with no
  videos. So a new chapter keeps the default `"00:00"` and is never
  written `"0:00"`.
- **Order numbers.** Nothing keeps a chapter's or a video's `order` unique.
  A new one only gets one more than the current maximum among its
  siblings, at creation time (`Query.NextOrderAmong`).
- **Updating a chapter.** Saving an updated chapter runs its hook, so its
  duration is recomputed from its videos. PUT `/api/chapters/:id` ignores
  the duration the edit form sends.

## Model

| member | source | states |
|---|---|---|
| Common.Or | Backend/routes/courses.js:179-180 | `new \|\| old` on a string field: the new value exactly when it is present and non-empty, otherwise the old one |
| Common.IfDefined | Backend/routes/courses.js:181 | `new !== undefined ? new : old`: a present value is kept even when empty |
| Text.NatToString | Backend/models/Chapter.js:53 | `n.toString()` is a non-empty digit string with no leading zero whose decimal value is `n` |
| Text.PadStart2 | Backend/models/Chapter.js:53 | `padStart(2, '0')` keeps the string as a suffix, fills up to length 2 with `'0'` and changes nothing longer |
| Text.Pad2Value | Backend/models/Chapter.js:52-53 | a value below 100, printed and padded, is exactly two digits with that value |
| Text.Split | Backend/models/Chapter.js:46 | `split(':')` always yields at least one field |
| Text.SplitPieces | Backend/models/Chapter.js:46 | the fields of `split` hold no separator, and joining them with the separator gives back the input |
| Text.SplitJoin | Backend/models/Chapter.js:46 | splitting a join of separator-free pieces gives back exactly those pieces |
| Text.TrimIdempotent | Backend/models/Course.js:7 | `trim()` twice is `trim()` once, so a value stored through the `trim` setter is already trimmed |
| Text.TrimSurrounding | Backend/models/Course.js:7 | `trim()` removes white space only at the two ends: the result sits in the input between runs of JavaScript white space |
| Text.TrimEnds | Backend/models/Course.js:7 | the result of `trim()` neither starts nor ends with white space |
| Text.Trim | Backend/models/Course.js:7 | `trim()` is no longer than its input; `TrimEnds`, `TrimSurrounding` and `TrimIdempotent` state what it removes |
| Text.JsLength | Backend/models/Course.js:8 | `length` counts UTF-16 code units: between one and two per character |
| Duration.Add | Backend/models/Chapter.js:47 | JavaScript addition on the model's numbers: NaN when either operand is NaN, otherwise the sum |
| Duration.ToNumber | Backend/models/Chapter.js:46 | `Number()` of a digit string is its decimal value |
| Duration.Parse | Backend/models/Chapter.js:46-47 | `split(':').map(Number)` then `minutes * 60 + seconds`: NaN when a field is NaN or the second field is missing, fields after the second ignored; its meaning is proved by `ParseMinSec` and `ParseIgnoresHours` |
| Duration.MinSec | Backend/models/Chapter.js:51-53 | the chapter format `floor(t/60)`, `:`, `t % 60` padded to two digits; its shape and read-back are proved by `MinSecShape` and `ParseMinSec` |
| Duration.Clock | Backend/models/Course.js:60-66 | the course format, `H:MM:SS` when the hours are positive and `M:SS` otherwise; its shape and read-back are proved by `ClockShape` and `ReadClockOfClock` |
| Duration.ParseMinSec | Backend/models/Chapter.js:46-53 | reading back what the chapter hook writes gives the total it formatted, NaN included |
| Duration.MinSecShape | Backend/models/Chapter.js:51-53 | the chapter format is `floor(t/60)`, a `:`, then `t % 60` as exactly two digits, with no hour part |
| Duration.MinSecOneHour | Backend/models/Chapter.js:51-53 | 3600 seconds is written `"60:00"` |
| Duration.ClockShape | Backend/models/Course.js:60-66 | the course format has three fields exactly when the total reaches 3600 seconds and two otherwise; every field after the first is two digits below 60 |
| Duration.ClockBelowHour | Backend/models/Course.js:64-66 | below an hour the course format is the chapter format |
| Duration.ReadClockOfClock | Backend/models/Course.js:60-66 | what the course hook writes reads back, as `H:MM:SS` or `M:SS`, as the total it formatted |
| Duration.ClockNaN | Backend/models/Course.js:60-66 | a NaN total is written `"NaN:NaN"` and reads back as NaN |
| Duration.ParseIgnoresHours | Backend/models/Course.js:55 | the hooks' two-field reading takes `"1:00:00"` as 60 seconds |
| Duration.NumberValue | Backend/models/Chapter.js:46 | `Number()` of a printed number, NaN included, is that number |
| Schema.Toggle | Backend/routes/courses.js:222 | the publish toggle always changes the status |
| Schema.ToggleTwice | Backend/routes/courses.js:222-223 | publishing twice restores the original status |
| Schema.NewCourse | Backend/models/Course.js:3-43 | a new course has the given name with `trim()` applied, the given description and creator, thumbnail `""` when none is given, status draft, no chapters and total `"00:00"` |
| Schema.NewChapter | Backend/models/Chapter.js:3-34 | a new chapter has the given name with `trim()` applied, the given description and course, duration `"00:00"`, no videos and order 0 when none is given |
| Schema.NewVideo | Backend/models/Video.js:3-46 | a new video has the given title with `trim()` applied, the given description, URL and chapter; the defaults thumbnail `""`, duration `"00:00"` and order 0; no views; and is active |
| Schema.Required | Backend/models/Chapter.js:4-14 | `required` with a `maxlength`: a non-empty value of at most that many UTF-16 units |
| Schema.CourseValidates | Backend/models/Course.js:4-14 | Mongoose accepts a course whose name has 1 to 100 units and whose description has 1 to 1000 |
| Schema.ChapterValidates | Backend/models/Chapter.js:4-14 | Mongoose accepts a chapter whose name has 1 to 100 units and whose description has 1 to 500 |
| Schema.VideoValidates | Backend/models/Video.js:4-22 | Mongoose accepts a video whose title has 1 to 100 units, whose description has 1 to 500, and whose URL is non-empty |
| Aggregate.Found | Backend/models/Chapter.js:41 | `find({ _id: { $in: ids } })` returns no more documents than ids listed |
| Aggregate.FoundFacts | Backend/models/Chapter.js:41 | the lookup returns exactly the listed ids that have a document, each once |
| Aggregate.SumSeconds | Backend/models/Chapter.js:42-49 | the `forEach` loop computes the sum of `minutes * 60 + seconds` over the non-empty durations; the sum is a number exactly when every term is |
| Aggregate.Seconds | Backend/models/Chapter.js:45-47 | one document's contribution: 0 for an empty duration, otherwise its two-field reading; `EmptyAddsNothing` states the skip |
| Aggregate.Sum | Backend/models/Chapter.js:42-49 | the left-to-right sum starting from 0, NaN as soon as one term is NaN; `SumDefined`, `SumAppend` and `SumPermutation` state its laws |
| Aggregate.SumDefined | Backend/models/Chapter.js:44-49 | a sum is a number exactly when every term in it is a number |
| Aggregate.SumAppend | Backend/models/Chapter.js:44-49 | the sum of a concatenation is the sum of the two sums |
| Aggregate.SumPermutation | Backend/models/Chapter.js:41-49 | the sum does not depend on the order in which the database returns the documents |
| Aggregate.EmptyAddsNothing | Backend/models/Chapter.js:45 | a document whose duration is empty contributes nothing to the sum |
| Aggregate.Durations | Backend/models/Chapter.js:44-46 | the durations a hook's loop reads are those of the listed documents, in list order |
| Aggregate.ChapterSeconds | Backend/models/Chapter.js:41-49 | the seconds of a chapter: the sum over its listed videos that exist, each once (see `FoundFacts`, `ChapterSecondsAppend`) |
| Aggregate.DurationsSnoc | Backend/routes/videos.js:144 | appending a fresh document to the list appends exactly its duration to the durations read |
| Aggregate.ChapterHook | Backend/models/Chapter.js:37-59 | the chapter hook changes only `duration`; an empty video list or a failed lookup leaves it alone; otherwise the stored duration reads back as the sum over the distinct existing listed videos |
| Aggregate.RunChapterHook | Backend/models/Chapter.js:37-59 | the hook's statements (lookup, loop, format) compute `ChapterHook` |
| Aggregate.ChapterSecondsAppend | Backend/routes/videos.js:144-145 | appending a new video to a chapter adds exactly that video's seconds to the chapter's sum |
| Aggregate.CourseHook | Backend/models/Course.js:46-72 | the course hook changes only `totalDuration`; an empty chapter list or a failed lookup leaves it alone; otherwise it is the clock format of the sum over the distinct existing listed chapters |
| Aggregate.CourseSeconds | Backend/models/Course.js:50-58 | the seconds of a course: the sum over its listed chapters that exist, each once |
| Aggregate.RunCourseHook | Backend/models/Course.js:46-72 | the hook's statements compute `CourseHook` |
| Aggregate.ChapterDurationReadBack | Backend/models/Course.js:53-58 | the course hook reads every duration the chapter hook writes, and the default `"00:00"`, as the seconds it stands for |
| Aggregate.CourseHookReadBack | Backend/models/Course.js:60-66 | a recomputed course total reads back, with the reference reader, as the sum it formatted |
| Aggregate.ChapterOfTwo | Backend/models/Chapter.js:41-53 | a chapter of two distinct stored videos has the format of the sum of their two durations |
| Aggregate.CourseOfTwo | Backend/models/Course.js:50-66 | a course of two distinct stored chapters has the clock format of the sum of their two durations |
| Aggregate.ChapterExample | Backend/models/Chapter.js:44-53 | videos of `"05:30"` and `"10:00"` make a chapter of `"15:30"` |
| Aggregate.CourseExample | Backend/models/Course.js:53-66 | chapters of `"15:30"` and `"22:45"` make a course of `"38:15"` |
| Aggregate.Seed0530 | Backend/seed.js:99 | the seed duration `"05:30"` reads as 330 seconds |
| Aggregate.Seed1000 | Backend/seed.js:109 | the seed duration `"10:00"` reads as 600 seconds |
| Aggregate.Seed1530 | Backend/seed.js:70 | the seed duration `"15:30"` reads as 930 seconds |
| Aggregate.Seed2245 | Backend/seed.js:78 | the seed duration `"22:45"` reads as 1365 seconds |
| Access.IdText | Backend/routes/courses.js:170 | `_id.toString()` is a non-empty digit string |
| Access.IdTextInjective | Backend/routes/courses.js:170 | two identifiers print the same exactly when they are equal |
| Access.CompareText | Backend/routes/courses.js:170 | the textual check lets the caller in exactly when they are an admin or the owner's text is their identifier's |
| Access.Decide | Backend/routes/chapters.js:113-118 | the ownership check allows exactly an admin or the owner; it refuses exactly a non-admin caller who is not the owner; it throws exactly for a non-admin caller when the owner cannot be resolved |
| Access.Refusal | Backend/routes/courses.js:170-175 | a refusal answers 403, and a throw answers 500 |
| Access.UserDocText | Backend/routes/courses.js:62 | a populated user document prints as an object text starting with `{` |
| Access.UserDocNotId | Backend/routes/courses.js:79 | a populated user document never prints as an identifier |
| Access.DecidePopulated | Backend/routes/courses.js:79 | the check on the populated owner allows exactly admins |
| Access.OwnerRefusedAsWritten | Backend/routes/courses.js:79-84 | a non-admin creator is refused their own course by GET `/api/courses/:id`, where the check on the identifier admits them |
| Query.Select | Backend/routes/courses.js:28 | `find(filter)` returns exactly the stored documents that match, newest first, each once |
| Query.DecreasingOnce | Backend/routes/courses.js:28-31 | a strictly decreasing list holds each element once |
| Query.DeleteMany | Backend/routes/courses.js:262 | `deleteMany(filter)` removes exactly the matching documents and leaves the others as they were |
| Query.SortBy | Backend/routes/chapters.js:31-33 | `sort({ order: 1 })` yields a permutation of its input, ascending by order |
| Query.SortMembers | Backend/routes/chapters.js:31-33 | sorting keeps exactly the ids it was given, and their number |
| Query.NextOrder | Backend/routes/chapters.js:123-125 | the next order is 1 for a first child, otherwise one more than the largest order among the given siblings |
| Query.NextOrderAmong | Backend/routes/videos.js:129-131 | the next order exceeds every sibling's order; it is 1 when there is no sibling, otherwise one more than some sibling's order |
| Query.FindSorted | Backend/routes/videos.js:32-33 | `find(filter).sort({ order: 1 })` returns exactly the matching documents, each once, ascending by order |
| Query.Pull | Backend/routes/chapters.js:234-236 | `$pull` removes every occurrence of the id and keeps the count of every other id |
| Query.PullAbsent | Backend/routes/videos.js:258-260 | pulling an id that is not listed changes nothing |
| Query.PullPushed | Backend/routes/videos.js:144 | pushing a new id and then pulling it restores the list |
| Query.Page | Backend/routes/courses.js:32-33 | `skip(s).limit(l)` is exactly the entries from position `s` up to `s + l` or the end of the list, whichever comes first; the whole rest when `l` is 0; nothing past the end |
| Query.CeilDiv | Backend/routes/courses.js:44 | `Math.ceil(total / limit)` is the least number of pages of `limit` entries that hold `total` |
| Store.ChapterOwner | Backend/routes/chapters.js:63-65 | a chapter's owner is its course's creator, and it is unresolved exactly when the course is gone |
| Store.VideoOwner | Backend/routes/videos.js:68-70 | a video's owner is the creator of its chapter's course, and it is unresolved exactly when the chapter or the course is gone |
| Store.ChapterOwned | Backend/routes/chapters.js:63-65 | in a consistent store every chapter has an owner |
| Store.VideoOwned | Backend/routes/videos.js:68-70 | in a consistent store a video has an owner exactly when its chapter still exists |
| Store.Consistent | Backend/routes/chapters.js:127-136 | the invariant every handler keeps: identifiers below the counter, every document valid and trimmed, each course listing exactly the chapters that name it and each chapter exactly the videos that name it, once each, and every video naming a chapter identifier that was handed out |
| Store.ListedChapters | Backend/routes/chapters.js:135 | a course's chapter list holds exactly the chapters that name it |
| Store.ListedVideos | Backend/routes/videos.js:144 | a chapter's video list holds exactly the videos that name it |
| Store.AddCourseKeeps | Backend/routes/courses.js:119-124 | adding a valid course with no chapters under a fresh id keeps the store consistent |
| Store.ReplaceCourseKeeps | Backend/routes/courses.js:179-183 | replacing a course by a valid one with the same chapter list keeps the store consistent |
| Store.DeleteCourseKeeps | Backend/routes/courses.js:262-264 | deleting a course and the chapters that name it keeps the store consistent, orphaned videos included |
| Store.AddChapterKeeps | Backend/routes/chapters.js:127-136 | adding a chapter under a fresh id and appending it to its course keeps the store consistent |
| Store.ReplaceChapterKeeps | Backend/routes/chapters.js:191-194 | replacing a chapter by a valid one with the same course and video list keeps the store consistent |
| Store.DeleteChapterKeeps | Backend/routes/chapters.js:234-241 | pulling a chapter from its course, deleting its videos and then the chapter keeps the store consistent |
| Store.AddVideoKeeps | Backend/routes/videos.js:133-145 | adding a video under a fresh id and appending it to its chapter keeps the store consistent |
| Store.ReplaceVideoKeeps | Backend/routes/videos.js:206-212 | replacing a video by a valid one in the same chapter keeps the store consistent |
| Store.DeleteVideoKeeps | Backend/routes/videos.js:258-262 | pulling a video from its chapter and deleting it keeps the store consistent |
| Repository.OrDefault | Backend/routes/courses.js:14 | an absent `page` or `limit` takes its default |
| Repository.Skip | Backend/routes/courses.js:33 | `(page - 1) * limit` is negative exactly for page 0 with a positive limit |
| Repository.Repo.Valid | Backend/routes/courses.js:119-124 | the store's collections satisfy `Store.Consistent`; every handler requires and ensures it |
| Repository.EditCourse | Backend/routes/courses.js:179-181 | an update replaces name and description only with non-empty values (the name trimmed) and the thumbnail whenever it is given; status, creator, chapters and total are unchanged |
| Repository.EditChapter | Backend/routes/chapters.js:191-192 | an update replaces name and description only with non-empty values; duration, course, videos and order are unchanged |
| Repository.EditVideo | Backend/routes/videos.js:206-210 | an update replaces title, description, URL and duration only with non-empty values and the thumbnail whenever it is given; chapter, order, views and active flag are unchanged |
| Repository.Repo.ListCourses | Backend/routes/courses.js:12-54 | a non-admin sees only their own courses, with the status filter when one is given, newest first; the page is the `skip`/`limit` window of the matching list, with its total and `ceil(total / limit)` pages; a negative skip answers 500 |
| Repository.Repo.GetCourse | Backend/routes/courses.js:59-97 | 404 exactly for a missing course; otherwise 403 exactly for a caller who is neither admin nor creator, and otherwise the stored course |
| Repository.Repo.GetCourseAsWritten | Backend/routes/courses.js:59-97 | as written, every non-admin caller of an existing course gets 403, its creator included |
| Repository.Repo.CreateCourse | Backend/routes/courses.js:102-140 | 400 exactly for an absent or empty name or description; otherwise 500 exactly when the course fails validation, and otherwise a new course owned by the caller under a fresh id, with nothing else changed |
| Repository.Repo.UpdateCourse | Backend/routes/courses.js:145-198 | 400 for a present but empty name or description; then 404, then 403 for a non-owner; then 500 for an invalid edit; otherwise the edited course with its total recomputed replaces the stored one |
| Repository.Repo.PublishCourse | Backend/routes/courses.js:203-237 | 404, then 403 for a non-owner; otherwise the course with its status toggled and its total recomputed replaces the stored one |
| Repository.Repo.DeleteCourse | Backend/routes/courses.js:242-277 | 404, then 403 for a non-owner; otherwise the course and exactly the chapters that name it are removed, and their videos stay behind with no chapter |
| Repository.Repo.ListChapters | Backend/routes/chapters.js:12-46 | 404 for a missing course, then 403 for a non-owner; otherwise exactly the course's chapters, each once, ascending by order |
| Repository.Repo.GetChapter | Backend/routes/chapters.js:51-83 | 404 exactly for a missing chapter; otherwise 403 exactly for a caller who is neither admin nor the course's creator, and otherwise the stored chapter |
| Repository.Repo.CreateChapter | Backend/routes/chapters.js:88-152 | 400, then 404, then 403; then 500 exactly when the new chapter fails validation (a name of white space only, say); otherwise a new chapter under a fresh id whose order comes after every chapter of the course, appended to the end of the course's list, and the course saved with its total recomputed |
| Repository.Repo.AppendChapter | Backend/routes/chapters.js:127-135 | the chapter is stored under a fresh id and appended to its course's list, with nothing else changed |
| Repository.Repo.SaveCourse | Backend/routes/chapters.js:136 | `course.save()` replaces the course by its hook's result and changes nothing else |
| Repository.Repo.UpdateChapter | Backend/routes/chapters.js:157-209 | 400, then 404, then 403; then 500 for an invalid edit; otherwise the edited chapter with its duration recomputed from its videos replaces the stored one |
| Repository.Repo.DeleteChapter | Backend/routes/chapters.js:214-254 | 404, then 403; otherwise the chapter is pulled from its course and removed, together with exactly the videos that name it; no duration is recomputed |
| Repository.Repo.ListVideos | Backend/routes/videos.js:13-46 | 404 for a missing chapter, then 403; otherwise exactly the chapter's active videos, each once, ascending by order |
| Repository.Repo.GetVideo | Backend/routes/videos.js:51-88 | 404 exactly for a missing video; 403 exactly for a non-owner; 500 exactly for a non-admin caller when the video's chapter is gone; otherwise the stored video, for an admin or its owner, and no other answer |
| Repository.Repo.CreateVideo | Backend/routes/videos.js:93-159 | 400 for an absent or empty title, description or URL; then 404, then 403; then 500 exactly when the new video fails validation; otherwise a new video with the defaults, under a fresh id, whose order comes after every video of the chapter, appended to the chapter, and the chapter saved with its duration recomputed; courses are unchanged |
| Repository.Repo.AppendVideo | Backend/routes/videos.js:133-144 | the video is stored under a fresh id and appended to its chapter's list, with nothing else changed |
| Repository.Repo.SaveChapter | Backend/routes/videos.js:145 | `chapter.save()` replaces the chapter by its hook's result and changes nothing else |
| Repository.Repo.UpdateVideo | Backend/routes/videos.js:164-226 | 400, then 404, then 403; 500 when the video's chapter is gone or the edit is invalid; otherwise the edited video replaces the stored one, and no chapter or course changes |
| Repository.Repo.DeleteVideo | Backend/routes/videos.js:231-275 | 404, then 403; 500 exactly when the video's chapter is gone; it answers nothing else, so an allowed delete of a video whose chapter exists succeeds: the video is pulled from its chapter and removed, and the chapter keeps its duration |
| ChapterForm.Digits | Frontend/src/components/EditChapterModal.tsx:47 | `replace(/\D/g, '')` yields only digits and is no longer than its input |
| ChapterForm.DigitsAppend | Frontend/src/components/EditChapterModal.tsx:47 | the digits of a concatenation are the concatenation of the two digit strings |
| ChapterForm.DigitsOfDigits | Frontend/src/components/EditChapterModal.tsx:47 | a string of digits is kept as it is |
| ChapterForm.FormatDuration | Frontend/src/components/EditChapterModal.tsx:45-56 | the mask: the digits of the input, with `:` before the last two once there are more than two; its properties are the `Format*` lemmas |
| ChapterForm.FormatChars | Frontend/src/components/EditChapterModal.tsx:45-56 | the mask shows only digits and at most one `:`, and deleting the `:` gives back exactly the digits of the input |
| ChapterForm.FormatNoDigits | Frontend/src/components/EditChapterModal.tsx:47-49 | the result is empty exactly when the input has no digit |
| ChapterForm.FormatShort | Frontend/src/components/EditChapterModal.tsx:50 | one or two digits are shown unchanged, without a `:` |
| ChapterForm.FormatLong | Frontend/src/components/EditChapterModal.tsx:52-55 | more than two digits show as a non-empty minutes part, a `:` and exactly the last two digits, whose concatenation is the digits of the input |
| ChapterForm.FormatIdempotent | Frontend/src/components/EditChapterModal.tsx:45-56 | masking the masked text changes nothing |
| ChapterForm.MaskDigits | Frontend/src/components/EditChapterModal.tsx:47-55 | the digits of a masked digit string are that string |
| ChapterForm.MaskReading | Frontend/src/components/EditChapterModal.tsx:52-55 | the chapter hook reads a masked duration of three or more digits as `minutes * 60 + seconds`, and a shorter one as NaN |
| ChapterForm.Submit | Frontend/src/components/EditChapterModal.tsx:30-43 | nothing is saved without a chapter; otherwise the chapter with the form's name and description, its duration or `"00:00"` when the field is empty, and every other field copied |
| ChapterForm.SubmittedReading | Frontend/src/components/EditChapterModal.tsx:35-40 | a submitted masked duration reads as a number exactly when the field was empty (as zero seconds) or held at least three digits |
| ChapterForm.ZeroReading | Frontend/src/components/EditChapterModal.tsx:39 | the default `"00:00"` reads as zero seconds |

## Left out

- `Backend/routes/upload.js` is not part of this model. It is file-system and CDN I/O.
- The API client, the authentication context and the login flow are not part of this model. The model takes the authenticated caller as a `Principal` (identifier and role).
- The `protect` middleware and token checks are left out. Every handler is modelled for an authenticated caller.
- Every React component other than the edit-chapter form is left out: it is rendering and state glue. In the form, `handleDurationChange` and the `setState` calls are UI and are left out. `formatDuration` and `handleSubmit` are modelled.
- The hooks' `lookupFails` parameter stands for `Video.find` or `Chapter.find` throwing. The hooks handle it; the `Repo` always passes `false`, because the in-memory collections cannot fail.
- `populate` payloads (the course with nested chapters and videos, the creator's name and e-mail) are not returned. Handlers return the stored document or identifiers.
- Timestamps and `enrolledStudents` are not modelled. Creation order is identifier order.
- Identifiers are natural numbers from one counter, not ObjectIds. Users are not documents; a creator is a user identifier.
- Query strings that do not parse as numbers (`parseInt`, `limit * 1`) are not modelled, and neither are negative values such as `limit=-5`, which both produce (on page 1 that gives skip 0 and a page count that is not positive): `page` and `limit` are absent or natural numbers.
- Query.SortBy: MongoDB does not fix the order of documents with equal `order`; the model keeps their input order (a stable insertion sort). The contracts state only what holds for every order.
- Duration.ToNumber: `Number()` also accepts signs, decimals, exponents, hexadecimal and `Infinity`; the model reads all of these as NaN. So a duration such as `"-5:00"`, which JavaScript adds as -300 seconds, makes the model's sum NaN.
- Duration.Add: JavaScript numbers are doubles. Sums above 2^53 seconds lose precision, and from 1e21 on `toString` prints exponent form (`"1e+21"`). The model's integers are exact and always print as decimal digits, so it does not capture these.
- Aggregate.Found: the database's result order for `$in` is not fixed; the model lists documents in order of first mention, and `SumPermutation` shows the sums do not depend on it.
- `ChapterForm.ChapterView` holds the chapter's video identifiers only, not populated videos.
- Concurrency is left out: each handler runs as one sequential step. This covers the race between two creates that pick the same order, and multi-step deletes that are not transactional.
- `console.error` logging and the JSON message texts of the responses are I/O and are left out.

## Findings

| source | as written | input that shows it | evidently intended | confidence | as-written member | corrected member |
|---|---|---|---|---|---|---|
| Backend/routes/courses.js:79 | `course.createdBy.toString()` is compared after `.populate('createdBy', 'name email')`, so the left side is the printed user document, never the identifier | a non-admin caller asks for a course they created: the answer is 403 | compare the creator's identifier, as every other course handler does, so that the creator gets the course | not executed | Access.OwnerRefusedAsWritten | Repository.Repo.GetCourse |
