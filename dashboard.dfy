/**
 * The dashboard's bookkeeping: the user's progress record and the update made when a
 * lesson is completed, the level formula, the lesson total, per-chapter progress, the
 * pass that rewrites every lesson's `locked` and `completed` flags in place, and the
 * dashboard / chapter / lesson view selection.
 */
module Dashboard {
  import opened Wrappers
  import ProgressBar

  /** A lesson of the shared course data. Only its two flags are ever written. */
  class Lesson {
    const id: string
    var locked: bool
    var completed: bool

    constructor(id: string, locked: bool, completed: bool)
      ensures this.id == id && this.locked == locked && this.completed == completed
    {
      this.id := id;
      this.locked := locked;
      this.completed := completed;
    }
  }

  /** A chapter: its lessons, in order. Chapters themselves are never written. */
  datatype Chapter = Chapter(id: string, lessons: seq<Lesson>)

  datatype Badge = Badge(id: string, name: string, description: string, icon: string,
                         color: string, earnedAt: string)

  datatype UserProgress = UserProgress(
    currentLesson: string,
    completedLessons: seq<string>,
    badges: seq<Badge>,
    xp: int,
    streak: int,
    lastActiveDate: string)

  /** XP awarded for one completed lesson. */
  const LessonXp: int := 50

  /** The record the dashboard starts with; `now` stands for the current date. */
  function InitialProgress(now: string): (p: UserProgress)
    ensures p.completedLessons == [] && p.badges == []
  {
    UserProgress("", [], [], 150, 3, now)
  }

  /** `userLevel = Math.floor(xp / 100) + 1`. */
  function UserLevel(xp: int): (level: int)
    ensures (level - 1) * ProgressBar.XpPerLevel <= xp < level * ProgressBar.XpPerLevel
  {
    xp / ProgressBar.XpPerLevel + 1
  }

  /** The level shown and the XP shown inside it add back up to the total XP. */
  lemma LevelAndLevelXpDecomposeXp(xp: int)
    requires xp >= 0
    ensures (UserLevel(xp) - 1) * ProgressBar.XpPerLevel + ProgressBar.DisplayCurrentLevelXp(xp) == xp
  {
    ProgressBar.JsRemOfNatural(xp, ProgressBar.XpPerLevel);
  }

  /** `chapters.reduce((total, chapter) => total + chapter.lessons.length, 0)`. */
  function TotalLessons(chapters: seq<Chapter>): nat
  {
    if chapters == [] then 0
    else TotalLessons(chapters[..|chapters| - 1]) + |chapters[|chapters| - 1].lessons|
  }

  /** Every lesson of every chapter, chapter by chapter. */
  function AllLessons(chapters: seq<Chapter>): seq<Lesson>
  {
    if chapters == [] then [] else chapters[0].lessons + AllLessons(chapters[1..])
  }

  /** The total counts each lesson of the course once. */
  lemma {:induction false} TotalCountsEveryLesson(chapters: seq<Chapter>)
    ensures TotalLessons(chapters) == |AllLessons(chapters)|
  {
    if chapters != [] {
      var front := chapters[..|chapters| - 1];
      var last := chapters[|chapters| - 1];
      TotalCountsEveryLesson(front);
      AllLessonsAppend(front, last);
      assert chapters == front + [last];
    }
  }

  lemma {:induction false} AllLessonsAppend(front: seq<Chapter>, last: Chapter)
    ensures AllLessons(front + [last]) == AllLessons(front) + last.lessons
  {
    if front == [] {
      assert [last][1..] == [];
    } else {
      assert (front + [last])[1..] == front[1..] + [last];
      AllLessonsAppend(front[1..], last);
    }
  }

  /** `handleLessonComplete`'s update of the progress record. */
  function CompleteLesson(p: UserProgress, lessonId: string): UserProgress
  {
    p.(completedLessons := p.completedLessons + [lessonId],
       xp := p.xp + LessonXp,
       streak := p.streak + 1)
  }

  /** A completion records exactly one more entry, even for a lesson already recorded;
      every earlier entry stays where it was and nothing but XP and the streak moves. */
  lemma CompletionAppendsOneEntry(p: UserProgress, lessonId: string)
    ensures var q := CompleteLesson(p, lessonId);
      |q.completedLessons| == |p.completedLessons| + 1
      && q.completedLessons[..|p.completedLessons|] == p.completedLessons
      && q.completedLessons[|p.completedLessons|] == lessonId
      && q.xp == p.xp + 50 && q.streak == p.streak + 1
      && q.currentLesson == p.currentLesson && q.badges == p.badges
      && q.lastActiveDate == p.lastActiveDate
  {
  }

  /** Two completions are worth exactly one level. */
  lemma TwoCompletionsRaiseOneLevel(p: UserProgress, a: string, b: string)
    ensures UserLevel(CompleteLesson(CompleteLesson(p, a), b).xp) == UserLevel(p.xp) + 1
  {
    var xp := p.xp;
    assert (xp + 100) / 100 == xp / 100 + 1;
  }

  /** The ids of a chapter's lessons, in order. */
  function LessonIds(lessons: seq<Lesson>): (ids: seq<string>)
    ensures |ids| == |lessons|
    ensures forall i :: 0 <= i < |lessons| ==> ids[i] == lessons[i].id
  {
    seq(|lessons|, i requires 0 <= i < |lessons| => lessons[i].id)
  }

  /** `chapter.lessons.filter(lesson => completedLessons.includes(lesson.id)).length`. */
  function CompletedCount(ids: seq<string>, done: seq<string>): (n: nat)
    ensures n <= |ids|
  {
    if ids == [] then 0
    else CompletedCount(ids[..|ids| - 1], done) + (if ids[|ids| - 1] in done then 1 else 0)
  }

  /** All of a chapter's lessons are counted exactly when every one is recorded. */
  lemma {:induction false} CompletedCountFull(ids: seq<string>, done: seq<string>)
    ensures CompletedCount(ids, done) == |ids| <==> forall x :: x in ids ==> x in done
  {
    if ids != [] {
      var front := ids[..|ids| - 1];
      CompletedCountFull(front, done);
      assert ids == front + [ids[|ids| - 1]];
    }
  }

  /** The count sees only which ids are recorded, not how often or in what order. */
  lemma {:induction false} CompletedCountSeesMembersOnly(ids: seq<string>, d1: seq<string>, d2: seq<string>)
    requires forall x :: x in d1 <==> x in d2
    ensures CompletedCount(ids, d1) == CompletedCount(ids, d2)
  {
    if ids != [] {
      CompletedCountSeesMembersOnly(ids[..|ids| - 1], d1, d2);
    }
  }

  /** Recording more entries never lowers the count. */
  lemma {:induction false} CompletedCountGrows(ids: seq<string>, d1: seq<string>, d2: seq<string>)
    requires forall x :: x in d1 ==> x in d2
    ensures CompletedCount(ids, d1) <= CompletedCount(ids, d2)
  {
    if ids != [] {
      CompletedCountGrows(ids[..|ids| - 1], d1, d2);
    }
  }

  /** `getChapterProgress`, as an exact real; the empty chapter divides by zero in the
      original and is excluded. */
  function ChapterProgress(chapter: Chapter, done: seq<string>): (pct: real)
    requires |chapter.lessons| > 0
    ensures 0.0 <= pct <= 100.0
    ensures pct == 100.0 <==> forall x :: x in LessonIds(chapter.lessons) ==> x in done
  {
    var ids := LessonIds(chapter.lessons);
    CompletedCountFull(ids, done);
    (CompletedCount(ids, done) as real / |ids| as real) * 100.0
  }

  /** Completing a lesson never lowers any chapter's progress. */
  lemma CompletionNeverLowersProgress(chapter: Chapter, p: UserProgress, lessonId: string)
    requires |chapter.lessons| > 0
    ensures ChapterProgress(chapter, p.completedLessons)
         <= ChapterProgress(chapter, CompleteLesson(p, lessonId).completedLessons)
  {
    var ids := LessonIds(chapter.lessons);
    var after := CompleteLesson(p, lessonId).completedLessons;
    CompletedCountGrows(ids, p.completedLessons, after);
    ShareGrows(CompletedCount(ids, p.completedLessons), CompletedCount(ids, after), |ids|);
  }

  /** A larger count is a larger share of the same positive total. */
  lemma ShareGrows(a: nat, b: nat, n: nat)
    requires a <= b && n > 0
    ensures (a as real / n as real) * 100.0 <= (b as real / n as real) * 100.0
  {
    var x, y, m := a as real, b as real, n as real;
    assert y / m - x / m == (y - x) / m;
  }

  /** What the pass leaves in `locked` for the lesson at `index`: the first lesson is open,
      every other one is open exactly when the lesson before it is recorded. */
  function LockedAfterPass(lessons: seq<Lesson>, index: nat, done: seq<string>): bool
    requires index < |lessons|
  {
    index > 0 && lessons[index - 1].id !in done
  }

  /** The lessons of one chapter carry the flags the pass assigns. */
  ghost predicate ChapterSynced(lessons: seq<Lesson>, done: seq<string>)
    reads set l <- lessons
  {
    forall i :: 0 <= i < |lessons| ==>
      lessons[i].locked == LockedAfterPass(lessons, i, done)
      && lessons[i].completed == (lessons[i].id in done)
  }

  /** After the pass a lesson is open exactly when the lesson before it shows as completed. */
  lemma SyncedUnlockFollowsCompletion(lessons: seq<Lesson>, done: seq<string>)
    requires ChapterSynced(lessons, done)
    ensures |lessons| > 0 ==> !lessons[0].locked
    ensures forall i :: 0 < i < |lessons| ==> (lessons[i].locked <==> !lessons[i - 1].completed)
  {
    forall i | 0 < i < |lessons|
      ensures lessons[i].locked <==> !lessons[i - 1].completed
    {
      assert lessons[i - 1].completed == (lessons[i - 1].id in done);
    }
  }

  /** Recording more lessons never locks a lesson the pass had opened. */
  lemma GrowingDoneNeverLocks(lessons: seq<Lesson>, index: nat, d1: seq<string>, d2: seq<string>)
    requires index < |lessons|
    requires forall x :: x in d1 ==> x in d2
    ensures !LockedAfterPass(lessons, index, d1) ==> !LockedAfterPass(lessons, index, d2)
  {
  }

  /** No lesson object appears twice within a chapter. */
  predicate DistinctWithin(lessons: seq<Lesson>)
  {
    forall i, j :: 0 <= i < j < |lessons| ==> lessons[i] != lessons[j]
  }

  /** The lesson objects of one chapter. */
  function Objects(lessons: seq<Lesson>): set<Lesson>
  {
    set l <- lessons
  }

  /** No lesson object is shared, within a chapter or between two chapters. */
  predicate DistinctLessons(chapters: seq<Chapter>)
  {
    (forall c :: 0 <= c < |chapters| ==> DistinctWithin(chapters[c].lessons))
    && (forall a, b :: 0 <= a < b < |chapters| ==>
          Objects(chapters[a].lessons) !! Objects(chapters[b].lessons))
  }

  /** Every lesson object of the course. */
  function CourseObjects(chapters: seq<Chapter>): (s: set<Lesson>)
    ensures forall c :: 0 <= c < |chapters| ==> Objects(chapters[c].lessons) <= s
  {
    if chapters == [] then {}
    else Objects(chapters[0].lessons) + CourseObjects(chapters[1..])
  }

  /** The inner `forEach` of the pass, over one chapter's lessons. */
  method SyncChapter(lessons: seq<Lesson>, done: seq<string>)
    requires DistinctWithin(lessons)
    modifies Objects(lessons)
    ensures ChapterSynced(lessons, done)
  {
    for index := 0 to |lessons|
      invariant forall i :: 0 <= i < index ==>
        lessons[i].locked == LockedAfterPass(lessons, i, done)
        && lessons[i].completed == (lessons[i].id in done)
    {
      var lesson := lessons[index];
      if index == 0 {
        lesson.locked := false;
      } else {
        var previousLesson := lessons[index - 1];
        lesson.locked := previousLesson.id !in done;
      }
      lesson.completed := lesson.id in done;
    }
  }

  /** The `useEffect` pass: every lesson of every chapter gets the flags that follow from
      `done` alone, whatever they were before. */
  method SyncLessonFlags(chapters: seq<Chapter>, done: seq<string>)
    requires DistinctLessons(chapters)
    modifies CourseObjects(chapters)
    ensures forall c :: 0 <= c < |chapters| ==> ChapterSynced(chapters[c].lessons, done)
  {
    for ci := 0 to |chapters|
      invariant forall c :: 0 <= c < ci ==> ChapterSynced(chapters[c].lessons, done)
    {
      var chapter := chapters[ci];
      SyncChapter(chapter.lessons, done);
      forall c | 0 <= c < ci
        ensures ChapterSynced(chapters[c].lessons, done)
      {
        assert Objects(chapters[c].lessons) !! Objects(chapter.lessons);
      }
    }
  }

  /** Which of the three screens the dashboard shows. */
  datatype View = DashboardView | ChapterView | LessonView

  datatype Screen = DashboardScreen | ChapterScreen(chapter: Chapter) | LessonScreen(lesson: Lesson)

  /** The `Dashboard` component: its state and the shared course data it rewrites. */
  class Dashboard {
    const chapters: seq<Chapter>
    var currentView: View
    var selectedChapter: Option<Chapter>
    var selectedLesson: Option<Lesson>
    var userProgress: UserProgress

    ghost predicate Valid()
      reads this
    {
      DistinctLessons(chapters)
    }

    constructor(chapters: seq<Chapter>, now: string)
      requires DistinctLessons(chapters)
      ensures Valid() && this.chapters == chapters
      ensures currentView == DashboardView && selectedChapter == None && selectedLesson == None
      ensures userProgress == InitialProgress(now)
    {
      this.chapters := chapters;
      currentView := DashboardView;
      selectedChapter := None;
      selectedLesson := None;
      userProgress := InitialProgress(now);
    }

    /** The screen rendered: the lesson screen when the view says so and a lesson is
        selected, else the chapter screen likewise, else the dashboard. */
    function CurrentScreen(): (s: Screen)
      reads this
      ensures s.LessonScreen? <==> currentView == LessonView && selectedLesson.Some?
      ensures s.ChapterScreen? <==>
        !(currentView == LessonView && selectedLesson.Some?)
        && currentView == ChapterView && selectedChapter.Some?
      ensures s.LessonScreen? ==> Some(s.lesson) == selectedLesson
      ensures s.ChapterScreen? ==> Some(s.chapter) == selectedChapter
    {
      if currentView == LessonView && selectedLesson.Some? then LessonScreen(selectedLesson.value)
      else if currentView == ChapterView && selectedChapter.Some? then ChapterScreen(selectedChapter.value)
      else DashboardScreen
    }

    /** `handleChapterClick`. */
    method ChapterClick(chapter: Chapter)
      modifies this
      ensures selectedChapter == Some(chapter) && currentView == ChapterView
      ensures selectedLesson == old(selectedLesson) && userProgress == old(userProgress)
      ensures CurrentScreen() == ChapterScreen(chapter)
    {
      selectedChapter := Some(chapter);
      currentView := ChapterView;
    }

    /** `handleLessonStart`. */
    method LessonStart(lesson: Lesson)
      modifies this
      ensures selectedLesson == Some(lesson) && currentView == LessonView
      ensures selectedChapter == old(selectedChapter) && userProgress == old(userProgress)
      ensures CurrentScreen() == LessonScreen(lesson)
    {
      selectedLesson := Some(lesson);
      currentView := LessonView;
    }

    /** The lesson screen's back button. */
    method BackToChapter()
      modifies this
      ensures currentView == ChapterView
      ensures selectedChapter == old(selectedChapter) && selectedLesson == old(selectedLesson)
      ensures userProgress == old(userProgress)
    {
      currentView := ChapterView;
    }

    /** The chapter screen's "Back to Dashboard" button. */
    method BackToDashboard()
      modifies this
      ensures currentView == DashboardView && CurrentScreen() == DashboardScreen
      ensures selectedChapter == old(selectedChapter) && selectedLesson == old(selectedLesson)
      ensures userProgress == old(userProgress)
    {
      currentView := DashboardView;
    }

    /** The effect that re-runs whenever the recorded completions change. */
    method SyncLessons()
      requires Valid()
      modifies CourseObjects(chapters)
      ensures forall c :: 0 <= c < |chapters| ==>
        ChapterSynced(chapters[c].lessons, userProgress.completedLessons)
    {
      SyncLessonFlags(chapters, userProgress.completedLessons);
    }

    /** `handleLessonComplete`, followed by the effect its change of `completedLessons`
        triggers. */
    method LessonComplete(lessonId: string)
      requires Valid()
      modifies this, CourseObjects(chapters)
      ensures Valid()
      ensures userProgress == CompleteLesson(old(userProgress), lessonId)
      ensures currentView == ChapterView
      ensures selectedChapter == old(selectedChapter) && selectedLesson == old(selectedLesson)
      ensures forall c :: 0 <= c < |chapters| ==>
        ChapterSynced(chapters[c].lessons, userProgress.completedLessons)
    {
      userProgress := CompleteLesson(userProgress, lessonId);
      currentView := ChapterView;
      SyncLessons();
    }
  }
}
