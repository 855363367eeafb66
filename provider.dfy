/** The lesson provider's mutable state and its mutations: the catalogue, the completion
    timeline, the search term and the difficulty filter, replaced wholesale by `addLesson`,
    `toggleLessonCompletion`, `handleLike` and the two filter setters. The derived views are
    the functions of module Lessons and Recommend applied to `lessons`, `searchTerm` and
    `difficultyFilter`. */
module Provider {
  import opened Seqs
  import opened Lessons
  import opened Invariants

  class LessonStore {
    var lessons: seq<Lesson>
    var timeline: seq<TimelineEntry>
    var searchTerm: string
    var difficultyFilter: DifficultyFilter

    /** The store's invariant: unique ids, dates exactly on completed lessons, one timeline
        entry per completed lesson and no other entries. */
    ghost predicate Consistent()
      reads this
    {
      Lessons.Consistent(lessons, timeline)
    }

    /** Initial state: what was saved, if anything, else the seed catalogue and an empty
        timeline; an empty search and the `All` filter. A fresh store is consistent. */
    constructor (savedLessons: Option<seq<Lesson>>, savedTimeline: Option<seq<TimelineEntry>>)
      ensures lessons == if savedLessons.Some? then savedLessons.value else DefaultLessons
      ensures timeline == if savedTimeline.Some? then savedTimeline.value else []
      ensures searchTerm == "" && difficultyFilter == All
      ensures savedLessons.None? && savedTimeline.None? ==> Consistent()
    {
      lessons := if savedLessons.Some? then savedLessons.value else DefaultLessons;
      timeline := if savedTimeline.Some? then savedTimeline.value else [];
      searchTerm := "";
      difficultyFilter := All;
      DefaultConsistent();
    }

    /** `addLesson`: append one new, incomplete, unvoted lesson with zero likes. The id is
        the caller's clock reading; when it is fresh the invariant is kept. */
    method AddLesson(title: string, description: string, difficulty: Difficulty, newId: string)
      modifies this
      ensures lessons == old(lessons) + [Lesson(newId, title, description, difficulty, false, 0, Unset, None)]
      ensures timeline == old(timeline)
      ensures searchTerm == old(searchTerm) && difficultyFilter == old(difficultyFilter)
      ensures old(Consistent()) && FreshId(old(lessons), newId) ==> Consistent()
    {
      var newLesson := Lesson(newId, title, description, difficulty, false, 0, Unset, None);
      ghost var keeps := Consistent() && FreshId(lessons, newId);
      if keeps {
        AddKeepsConsistent(lessons, timeline, newLesson);
      }
      lessons := lessons + [newLesson];
    }

    /** `toggleLessonCompletion`: walk the catalogue, toggling every lesson with the id in
        place; each one it toggles queues its own timeline update, applied in order. */
    method ToggleLessonCompletion(id: string, now: string)
      modifies this
      ensures lessons == ToggleLessons(old(lessons), id, now)
      ensures timeline == ToggleTimeline(old(lessons), old(timeline), id, now)
      ensures searchTerm == old(searchTerm) && difficultyFilter == old(difficultyFilter)
      ensures old(Consistent()) ==> Consistent()
    {
      ghost var keeps := Consistent();
      var prev := lessons;
      var next: seq<Lesson> := [];
      var i := 0;
      while i < |prev|
        invariant 0 <= i <= |prev| && |next| == i
        invariant forall k :: 0 <= k < i ==> next[k] == if prev[k].id == id then Toggle1(prev[k], now) else prev[k]
        invariant timeline == ToggleTimeline(prev[..i], old(timeline), id, now)
        invariant lessons == prev && searchTerm == old(searchTerm) && difficultyFilter == old(difficultyFilter)
      {
        var lesson := prev[i];
        ToggleTimelineStep(prev, i, old(timeline), id, now);
        if lesson.id == id {
          var completed := !lesson.completed;
          if completed {
            timeline := timeline + [TimelineEntry(id, lesson.title, now)];
            next := next + [lesson.(completed := completed, dateCompleted := Some(now))];
          } else {
            timeline := DropEntries(timeline, id);
            next := next + [lesson.(completed := completed, dateCompleted := None)];
          }
          assert next[i] == Toggle1(lesson, now);
        } else {
          next := next + [lesson];
        }
        i := i + 1;
      }
      assert prev[..i] == prev;
      lessons := next;
      if keeps {
        ToggleKeepsConsistent(prev, old(timeline), id, now);
      }
    }

    /** `handleLike`: every lesson with the id takes the vote; the timeline is untouched. */
    method HandleLike(id: string, liked: bool)
      modifies this
      ensures lessons == VoteLessons(old(lessons), id, liked)
      ensures timeline == old(timeline)
      ensures searchTerm == old(searchTerm) && difficultyFilter == old(difficultyFilter)
      ensures old(Consistent()) ==> Consistent()
    {
      ghost var keeps := Consistent();
      if keeps {
        VoteKeepsConsistent(lessons, timeline, id, liked);
      }
      lessons := VoteLessons(lessons, id, liked);
    }

    method SetSearchTerm(term: string)
      modifies this
      ensures searchTerm == term && difficultyFilter == old(difficultyFilter)
      ensures lessons == old(lessons) && timeline == old(timeline)
    {
      searchTerm := term;
    }

    method SetDifficultyFilter(filter: DifficultyFilter)
      modifies this
      ensures difficultyFilter == filter && searchTerm == old(searchTerm)
      ensures lessons == old(lessons) && timeline == old(timeline)
    {
      difficultyFilter := filter;
    }
  }
}
