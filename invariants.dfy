/** What the store's three mutations preserve: unique ids, `dateCompleted` present exactly on
    completed lessons, and a timeline with exactly one entry per completed lesson and no other
    entries; and what toggling the same lesson twice gives back. */
module Invariants {
  import opened Seqs
  import opened Lessons

  lemma UniqueIdsPrefix(lessons: seq<Lesson>, m: nat)
    requires UniqueIds(lessons) && m <= |lessons|
    ensures UniqueIds(lessons[..m])
  {
  }

  /** With unique ids, no lesson before the last has the last one's id. */
  lemma LastIdFresh(lessons: seq<Lesson>)
    requires UniqueIds(lessons) && lessons != []
    ensures FreshId(lessons[..|lessons| - 1], lessons[|lessons| - 1].id)
  {
  }

  /** With unique ids, toggling lesson `k` queues exactly one timeline update: an append if
      it was incomplete, the removal of its entries if it was complete. */
  lemma {:induction false} ToggleTimelineUnique(lessons: seq<Lesson>, timeline: seq<TimelineEntry>, id: string, now: string, k: nat)
    requires UniqueIds(lessons) && k < |lessons| && lessons[k].id == id
    ensures ToggleTimeline(lessons, timeline, id, now)
         == if lessons[k].completed then DropEntries(timeline, id)
            else timeline + [TimelineEntry(id, lessons[k].title, now)]
    decreases |lessons|
  {
    var n := |lessons|;
    var prefix := lessons[..n - 1];
    ToggleTimelineStep(lessons, n - 1, timeline, id, now);
    assert lessons[..n] == lessons;
    UniqueIdsPrefix(lessons, n - 1);
    if k == n - 1 {
      LastIdFresh(lessons);
      ToggleTimelineUnknown(prefix, timeline, id, now);
    } else {
      assert lessons[n - 1].id != id;
      assert prefix[k] == lessons[k];
      ToggleTimelineUnique(prefix, timeline, id, now, k);
    }
  }

  /** Toggling an id no lesson has changes neither the lessons nor the timeline. */
  lemma ToggleUnknownId(lessons: seq<Lesson>, timeline: seq<TimelineEntry>, id: string, now: string)
    requires FreshId(lessons, id)
    ensures ToggleLessons(lessons, id, now) == lessons
    ensures ToggleTimeline(lessons, timeline, id, now) == timeline
  {
    ToggleTimelineUnknown(lessons, timeline, id, now);
  }

  /** Under the invariant an incomplete lesson has no timeline entry. */
  lemma NoEntriesWhenIncomplete(lessons: seq<Lesson>, timeline: seq<TimelineEntry>, k: nat)
    requires Consistent(lessons, timeline) && k < |lessons| && !lessons[k].completed
    ensures EntriesFor(timeline, lessons[k].id) == []
    ensures DropEntries(timeline, lessons[k].id) == timeline
  {
    var id := lessons[k].id;
    forall e | e in timeline
      ensures e.lessonId != id
    {
      assert Recorded(lessons, e);
      var j :| 0 <= j < |lessons| && lessons[j].completed && EntryOf(lessons[j]) == e;
    }
    FilterKeepsNone(timeline, IsFor(id));
    FilterKeepsAll(timeline, IsNotFor(id));
  }

  /** Appending an entry adds it to the count of its own lesson only. */
  lemma EntriesForAppend(timeline: seq<TimelineEntry>, e: TimelineEntry, id: string)
    ensures |EntriesFor(timeline + [e], id)| == |EntriesFor(timeline, id)| + if e.lessonId == id then 1 else 0
  {
    FilterConcat(timeline, [e], IsFor(id));
    assert [e][1..] == [];
  }

  /** Dropping the entries of one lesson leaves every other lesson's entries alone. */
  lemma EntriesForDrop(timeline: seq<TimelineEntry>, id: string, other: string)
    requires other != id
    ensures EntriesFor(DropEntries(timeline, id), other) == EntriesFor(timeline, other)
  {
    FilterThenStricter(timeline, IsNotFor(id), IsFor(other));
  }

  /** The seed catalogue with an empty timeline satisfies the invariant. */
  lemma DefaultConsistent()
    ensures Consistent(DefaultLessons, [])
  {
  }

  /** `addLesson` with a fresh id keeps the invariant: the new lesson is incomplete and has
      no entries, every other lesson and the timeline are untouched. */
  lemma AddKeepsConsistent(lessons: seq<Lesson>, timeline: seq<TimelineEntry>, l: Lesson)
    requires Consistent(lessons, timeline)
    requires FreshId(lessons, l.id) && !l.completed && l.dateCompleted == None
    ensures Consistent(lessons + [l], timeline)
  {
    var ls' := lessons + [l];
    forall e | e in timeline
      ensures Recorded(ls', e)
    {
      assert Recorded(lessons, e);
      var j :| 0 <= j < |lessons| && lessons[j].completed && EntryOf(lessons[j]) == e;
      assert ls'[j] == lessons[j];
    }
  }

  /** `handleLike` keeps the invariant: a vote touches neither ids, titles, completion nor dates. */
  lemma VoteKeepsConsistent(lessons: seq<Lesson>, timeline: seq<TimelineEntry>, id: string, liked: bool)
    requires Consistent(lessons, timeline)
    ensures Consistent(VoteLessons(lessons, id, liked), timeline)
  {
    var ls' := VoteLessons(lessons, id, liked);
    assert forall k :: 0 <= k < |ls'| ==> ls'[k].id == lessons[k].id && EntryOf(ls'[k]) == EntryOf(lessons[k]);
    forall e | e in timeline
      ensures Recorded(ls', e)
    {
      assert Recorded(lessons, e);
      var j :| 0 <= j < |lessons| && lessons[j].completed && EntryOf(lessons[j]) == e;
      assert ls'[j].completed && EntryOf(ls'[j]) == e;
    }
  }

  /** `toggleLessonCompletion` keeps the invariant when ids are unique. */
  lemma ToggleKeepsConsistent(lessons: seq<Lesson>, timeline: seq<TimelineEntry>, id: string, now: string)
    requires Consistent(lessons, timeline)
    ensures Consistent(ToggleLessons(lessons, id, now), ToggleTimeline(lessons, timeline, id, now))
  {
    if FreshId(lessons, id) {
      ToggleUnknownId(lessons, timeline, id, now);
    } else {
      var k :| 0 <= k < |lessons| && lessons[k].id == id;
      ToggleTimelineUnique(lessons, timeline, id, now, k);
      if lessons[k].completed {
        UncompleteKeepsConsistent(lessons, timeline, now, k);
      } else {
        CompleteKeepsConsistent(lessons, timeline, now, k);
      }
    }
  }

  /** Marking incomplete lesson `k` complete: its date is stamped and exactly its entry is
      appended, so it now has one entry and every other lesson keeps its count. */
  lemma CompleteKeepsConsistent(lessons: seq<Lesson>, timeline: seq<TimelineEntry>, now: string, k: nat)
    requires Consistent(lessons, timeline) && k < |lessons| && !lessons[k].completed
    ensures var id := lessons[k].id;
      Consistent(ToggleLessons(lessons, id, now), timeline + [TimelineEntry(id, lessons[k].title, now)])
  {
    var id := lessons[k].id;
    var ls' := ToggleLessons(lessons, id, now);
    var added := TimelineEntry(id, lessons[k].title, now);
    var tl' := timeline + [added];
    assert forall j :: 0 <= j < |ls'| && j != k ==> ls'[j] == lessons[j];
    assert forall j :: 0 <= j < |ls'| ==> ls'[j].id == lessons[j].id;
    NoEntriesWhenIncomplete(lessons, timeline, k);
    forall j | 0 <= j < |ls'| && ls'[j].completed
      ensures |EntriesFor(tl', ls'[j].id)| == 1
    {
      EntriesForAppend(timeline, added, ls'[j].id);
    }
    forall e | e in tl'
      ensures Recorded(ls', e)
    {
      if e == added {
        assert EntryOf(ls'[k]) == e;
      } else {
        assert e in timeline && Recorded(lessons, e);
        var j :| 0 <= j < |lessons| && lessons[j].completed && EntryOf(lessons[j]) == e;
        assert j != k;
        assert ls'[j].completed && EntryOf(ls'[j]) == e;
      }
    }
  }

  /** Marking complete lesson `k` incomplete: its date is cleared and exactly its entries
      are removed, so no entry refers to it and every other lesson keeps its count. */
  lemma UncompleteKeepsConsistent(lessons: seq<Lesson>, timeline: seq<TimelineEntry>, now: string, k: nat)
    requires Consistent(lessons, timeline) && k < |lessons| && lessons[k].completed
    ensures var id := lessons[k].id;
      Consistent(ToggleLessons(lessons, id, now), DropEntries(timeline, id))
  {
    var id := lessons[k].id;
    var ls' := ToggleLessons(lessons, id, now);
    var tl' := DropEntries(timeline, id);
    assert forall j :: 0 <= j < |ls'| && j != k ==> ls'[j] == lessons[j];
    assert forall j :: 0 <= j < |ls'| ==> ls'[j].id == lessons[j].id;
    forall j | 0 <= j < |ls'| && ls'[j].completed
      ensures |EntriesFor(tl', ls'[j].id)| == 1
    {
      assert j != k;
      EntriesForDrop(timeline, id, ls'[j].id);
    }
    forall e | e in tl'
      ensures Recorded(ls', e)
    {
      assert Recorded(lessons, e);
      var j :| 0 <= j < |lessons| && lessons[j].completed && EntryOf(lessons[j]) == e;
      assert j != k;
      assert ls'[j].completed && EntryOf(ls'[j]) == e;
    }
  }

  /** Toggling keeps every id where it was, so unique ids stay unique. */
  lemma ToggleKeepsIds(lessons: seq<Lesson>, id: string, now: string)
    requires UniqueIds(lessons)
    ensures var r := ToggleLessons(lessons, id, now);
      UniqueIds(r) && forall j :: 0 <= j < |r| ==> r[j].id == lessons[j].id
  {
    var r := ToggleLessons(lessons, id, now);
    assert forall j :: 0 <= j < |r| ==> r[j].id == lessons[j].id;
  }

  /** Toggling the same id twice gives the lessons back when every incomplete lesson with
      the id is undated and every complete one is dated with the second timestamp. */
  lemma ToggleLessonsTwice(lessons: seq<Lesson>, id: string, now: string, later: string)
    requires DatesMatchCompletion(lessons)
    requires forall k :: 0 <= k < |lessons| && lessons[k].id == id && lessons[k].completed ==> lessons[k].dateCompleted == Some(later)
    ensures ToggleLessons(ToggleLessons(lessons, id, now), id, later) == lessons
  {
    var r := ToggleLessons(ToggleLessons(lessons, id, now), id, later);
    forall k | 0 <= k < |lessons|
      ensures r[k] == lessons[k]
    {
      if lessons[k].id == id {
        assert r[k] == Toggle1(Toggle1(lessons[k], now), later);
      }
    }
  }

  /** Under the invariant the one entry of a completed lesson is its own record. */
  lemma OnlyEntryOf(lessons: seq<Lesson>, timeline: seq<TimelineEntry>, k: nat)
    requires Consistent(lessons, timeline) && k < |lessons| && lessons[k].completed
    ensures EntriesFor(timeline, lessons[k].id) == [EntryOf(lessons[k])]
  {
    var id := lessons[k].id;
    var mine := EntriesFor(timeline, id);
    assert |mine| == 1;
    assert mine[0] in timeline && mine[0].lessonId == id;
    assert Recorded(lessons, mine[0]);
    var j :| 0 <= j < |lessons| && lessons[j].completed && EntryOf(lessons[j]) == mine[0];
    assert j == k;
  }

  /** Dropping the only entry of a lesson and appending it again permutes the timeline. */
  lemma DropAppendPermutes(timeline: seq<TimelineEntry>, id: string, e: TimelineEntry)
    requires EntriesFor(timeline, id) == [e]
    ensures multiset(DropEntries(timeline, id) + [e]) == multiset(timeline)
  {
    var mine := EntriesFor(timeline, id);
    var rest := DropEntries(timeline, id);
    forall x
      ensures multiset(timeline)[x] == multiset(rest + [e])[x]
    {
      assert multiset(mine)[x] == if x.lessonId == id then multiset(timeline)[x] else 0;
      assert multiset(rest)[x] == if x.lessonId != id then multiset(timeline)[x] else 0;
    }
    assert multiset(timeline) == multiset(rest + [e]);
  }

  /** Completing an incomplete lesson and then un-completing it restores the lessons and
      the timeline exactly. */
  lemma ToggleTwiceFromIncomplete(lessons: seq<Lesson>, timeline: seq<TimelineEntry>, k: nat, now: string, later: string)
    requires Consistent(lessons, timeline) && k < |lessons| && !lessons[k].completed
    ensures var id := lessons[k].id;
      var ls1 := ToggleLessons(lessons, id, now);
      var tl1 := ToggleTimeline(lessons, timeline, id, now);
      ToggleLessons(ls1, id, later) == lessons && ToggleTimeline(ls1, tl1, id, later) == timeline
  {
    var id := lessons[k].id;
    var ls1 := ToggleLessons(lessons, id, now);
    var added := TimelineEntry(id, lessons[k].title, now);
    ToggleTimelineUnique(lessons, timeline, id, now, k);
    ToggleKeepsIds(lessons, id, now);
    ToggleTimelineUnique(ls1, timeline + [added], id, later, k);
    NoEntriesWhenIncomplete(lessons, timeline, k);
    FilterConcat(timeline, [added], IsNotFor(id));
    assert [added][1..] == [];
    ToggleLessonsTwice(lessons, id, now, later);
  }

  /** Un-completing a completed lesson and completing it again at its original timestamp
      restores the lessons exactly and the timeline up to order: the entry moves to the end. */
  lemma ToggleTwiceFromComplete(lessons: seq<Lesson>, timeline: seq<TimelineEntry>, k: nat, now: string)
    requires Consistent(lessons, timeline) && k < |lessons| && lessons[k].completed
    requires lessons[k].dateCompleted == Some(now)
    ensures var id := lessons[k].id;
      var ls1 := ToggleLessons(lessons, id, now);
      var tl1 := ToggleTimeline(lessons, timeline, id, now);
      var tl2 := ToggleTimeline(ls1, tl1, id, now);
      ToggleLessons(ls1, id, now) == lessons &&
      multiset(tl2) == multiset(timeline) &&
      tl2 == DropEntries(timeline, id) + [EntryOf(lessons[k])]
  {
    var id := lessons[k].id;
    var ls1 := ToggleLessons(lessons, id, now);
    ToggleTimelineUnique(lessons, timeline, id, now, k);
    ToggleKeepsIds(lessons, id, now);
    ToggleTimelineUnique(ls1, DropEntries(timeline, id), id, now, k);
    ToggleLessonsTwice(lessons, id, now, now);
    OnlyEntryOf(lessons, timeline, k);
    DropAppendPermutes(timeline, id, EntryOf(lessons[k]));
  }
}
