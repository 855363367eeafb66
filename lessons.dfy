/** The lesson store's records, its seed catalogue, the derived views it recomputes on every
    render (filtered, completed, progress) and the per-lesson rules of its three mutations
    (add, toggle completion, vote), together with the consistency invariants that link
    `completed`, `dateCompleted` and the completion timeline. */
module Lessons {
  import opened Seqs
  import opened Text

  datatype Option<T> = None | Some(value: T)

  datatype Difficulty = Beginner | Intermediate | Advanced

  /** The difficulty selector of the catalogue page: `'All'` or one level. */
  datatype DifficultyFilter = All | Only(level: Difficulty)

  /** `userLiked: boolean | null`: `null` is Unset, `true` Liked, `false` Disliked. */
  datatype Vote = Unset | Liked | Disliked

  datatype Lesson = Lesson(
    id: string,
    title: string,
    description: string,
    difficulty: Difficulty,
    completed: bool,
    likes: int,
    userLiked: Vote,
    dateCompleted: Option<string>)

  /** One completion event: which lesson, a snapshot of its title, and when. */
  datatype TimelineEntry = TimelineEntry(lessonId: string, lessonTitle: string, dateCompleted: string)

  /** The five lessons the store starts with when nothing is saved. Each description is
      written as a concatenation of short pieces (the same string) so that the verifier can
      inspect its characters. */
  const DefaultLessons: seq<Lesson> := [
    Lesson("1", "Math Basics - Addition and Subtraction",
      "Learn the fundamental " + "operations of addition " + "and subtraction with " + "interactive examples.",
      Beginner, false, 24, Unset, None),
    Lesson("2", "English Grammar - Nouns and Pronouns",
      "Understand the building " + "blocks of sentences " + "with this introduction " + "to nouns and pronouns.",
      Beginner, false, 18, Unset, None),
    Lesson("3", "Science - Introduction to Photosynthesis",
      "Explore how plants " + "convert sunlight into " + "energy through the " + "process of photosynthesis.",
      Intermediate, false, 32, Unset, None),
    Lesson("4", "History - Ancient Civilizations",
      "Journey through time " + "to discover the wonders " + "of ancient Egypt, " + "Greece, and Rome.",
      Intermediate, false, 27, Unset, None),
    Lesson("5", "Computer Science - Algorithms Basics",
      "Learn the fundamentals " + "of algorithmic " + "thinking and problem-" + "solving techniques.",
      Advanced, false, 41, Unset, None)
  ]

  // ---------------------------------------------------------------------------------
  // Derived views
  // ---------------------------------------------------------------------------------

  /** Case-insensitive substring match of the search term in the title or the description. */
  predicate MatchesSearch(l: Lesson, term: string) {
    Includes(Lower(l.title), Lower(term)) || Includes(Lower(l.description), Lower(term))
  }

  predicate MatchesDifficulty(l: Lesson, filter: DifficultyFilter) {
    filter.All? || l.difficulty == filter.level
  }

  /** The row test of the filtered view, as a function value. */
  function Shown(term: string, filter: DifficultyFilter): Lesson -> bool {
    (l: Lesson) => MatchesSearch(l, term) && MatchesDifficulty(l, filter)
  }

  predicate IsCompleted(l: Lesson) { l.completed }

  /** The catalogue as shown: lessons that match both the search term and the filter,
      in catalogue order. */
  function FilteredLessons(lessons: seq<Lesson>, term: string, filter: DifficultyFilter): (r: seq<Lesson>)
    ensures |r| <= |lessons|
    ensures forall l :: l in r ==> l in lessons && MatchesSearch(l, term)
    ensures filter.Only? ==> forall l :: l in r ==> l.difficulty == filter.level
    ensures forall l :: l in lessons && MatchesSearch(l, term) && MatchesDifficulty(l, filter) ==> l in r
  {
    Filter(lessons, Shown(term, filter))
  }

  /** With an empty search term and the filter on All, every lesson is shown, in order. */
  lemma FilteredShowsAll(lessons: seq<Lesson>)
    ensures FilteredLessons(lessons, "", All) == lessons
  {
    forall l | l in lessons
      ensures MatchesSearch(l, "") && MatchesDifficulty(l, All)
    {
      assert Lower("") == "";
      IncludesEmpty(Lower(l.title));
    }
    FilterKeepsAll(lessons, Shown("", All));
  }

  /** The filtered view keeps catalogue order: filtering a catalogue extended at the end
      extends the filtered view at the end. */
  lemma FilteredAppend(lessons: seq<Lesson>, more: seq<Lesson>, term: string, filter: DifficultyFilter)
    ensures FilteredLessons(lessons + more, term, filter)
         == FilteredLessons(lessons, term, filter) + FilteredLessons(more, term, filter)
  {
    FilterConcat(lessons, more, Shown(term, filter));
  }

  function CompletedLessons(lessons: seq<Lesson>): (r: seq<Lesson>)
    ensures |r| <= |lessons|
    ensures forall l :: l in r <==> l in lessons && l.completed
  {
    Filter(lessons, IsCompleted)
  }

  /** `Math.round(completed / total * 100)`, 0 for an empty catalogue, computed exactly:
      the nearest integer to 100·c/n, halves rounded up. */
  function ProgressPercentage(lessons: seq<Lesson>): (r: nat)
    ensures r <= 100
    ensures |lessons| == 0 ==> r == 0
    ensures |lessons| > 0 ==>
      var c, n := |CompletedLessons(lessons)|, |lessons|;
      200 * c - n < 2 * n * r <= 200 * c + n
  {
    var c, n := |CompletedLessons(lessons)|, |lessons|;
    if n > 0 then RoundedPercent(c, n) else 0
  }

  /** round-half-up(100·c/n) as floor((200·c + n) / (2·n)). */
  function RoundedPercent(c: nat, n: nat): (r: nat)
    requires 0 < n && c <= n
    ensures r <= 100
    ensures 200 * c - n < 2 * n * r <= 200 * c + n
  {
    var r := (200 * c + n) / (2 * n);
    assert 2 * n * r <= 200 * c + n < 2 * n * r + 2 * n;
    assert 2 * n * r < 2 * n * 101 by {
      assert 200 * c + n <= 201 * n < 202 * n;
    }
    r
  }

  lemma MulMonotone(n: nat, a: int, b: int)
    requires a <= b
    ensures n * a <= n * b
  {
  }

  /** Every lesson completed: the progress bar is full. */
  lemma ProgressFull(lessons: seq<Lesson>)
    requires |lessons| > 0
    requires forall l :: l in lessons ==> l.completed
    ensures ProgressPercentage(lessons) == 100
  {
    FilterKeepsAll(lessons, IsCompleted);
    var n := |lessons|;
    var r := ProgressPercentage(lessons);
    assert 199 * n < 2 * n * r <= 201 * n;
    if r < 100 {
      MulMonotone(2 * n, r, 99);
    }
  }

  /** Nothing completed: the progress bar is empty. */
  lemma ProgressEmpty(lessons: seq<Lesson>)
    requires forall l :: l in lessons ==> !l.completed
    ensures ProgressPercentage(lessons) == 0
  {
    FilterKeepsNone(lessons, IsCompleted);
    var n := |lessons|;
    var r := ProgressPercentage(lessons);
    if n > 0 && r > 0 {
      MulMonotone(2 * n, 1, r);
    }
  }

  // ---------------------------------------------------------------------------------
  // Votes
  // ---------------------------------------------------------------------------------

  function VoteOf(liked: bool): Vote {
    if liked then Liked else Disliked
  }

  /** What a standing vote contributes to `likes`. */
  function Weight(v: Vote): int {
    match v
    case Liked => 1
    case Unset => 0
    case Disliked => -1
  }

  /** The vote rule for one lesson: a first vote moves `likes` by one, switching sides moves
      it by two, repeating a vote leaves it alone; the new vote always becomes the standing one.
      Equivalently the count changes by the weight of the new vote minus that of the old one,
      and nothing but `likes` and `userLiked` changes. */
  function Vote1(l: Lesson, liked: bool): (r: Lesson)
    ensures r.userLiked == VoteOf(liked)
    ensures r.likes == l.likes + Weight(VoteOf(liked)) - Weight(l.userLiked)
    ensures r.(likes := l.likes, userLiked := l.userLiked) == l
  {
    var newLikes :=
      if l.userLiked == Unset then (if liked then l.likes + 1 else l.likes - 1)
      else if l.userLiked == Liked && !liked then l.likes - 2
      else if l.userLiked == Disliked && liked then l.likes + 2
      else l.likes;
    l.(likes := newLikes, userLiked := VoteOf(liked))
  }

  /** The six rows of the vote table. */
  lemma VoteTable(l: Lesson)
    ensures l.userLiked == Unset ==> Vote1(l, true).likes == l.likes + 1
    ensures l.userLiked == Unset ==> Vote1(l, false).likes == l.likes - 1
    ensures l.userLiked == Liked ==> Vote1(l, false).likes == l.likes - 2
    ensures l.userLiked == Disliked ==> Vote1(l, true).likes == l.likes + 2
    ensures l.userLiked == Liked ==> Vote1(l, true).likes == l.likes
    ensures l.userLiked == Disliked ==> Vote1(l, false).likes == l.likes
  {
  }

  /** Voting the same way twice is the same as voting once. */
  lemma VoteRepeat(l: Lesson, liked: bool)
    ensures Vote1(Vote1(l, liked), liked) == Vote1(l, liked)
  {
  }

  /** `likes` minus the weight of the standing vote never changes: the counter records
      exactly the net effect of this user's vote on top of the other votes. */
  lemma VoteKeepsBase(l: Lesson, liked: bool)
    ensures Vote1(l, liked).likes - Weight(Vote1(l, liked).userLiked) == l.likes - Weight(l.userLiked)
  {
  }

  /** `handleLike` on the catalogue: every lesson with the given id gets the vote, every
      other lesson is kept as it is, in place. */
  function VoteLessons(lessons: seq<Lesson>, id: string, liked: bool): (r: seq<Lesson>)
    ensures |r| == |lessons|
    ensures forall k :: 0 <= k < |r| ==> r[k] == if lessons[k].id == id then Vote1(lessons[k], liked) else lessons[k]
  {
    seq(|lessons|, k requires 0 <= k < |lessons| =>
      if lessons[k].id == id then Vote1(lessons[k], liked) else lessons[k])
  }

  /** A vote for an id that no lesson has changes nothing. */
  lemma VoteUnknownId(lessons: seq<Lesson>, id: string, liked: bool)
    requires forall k :: 0 <= k < |lessons| ==> lessons[k].id != id
    ensures VoteLessons(lessons, id, liked) == lessons
  {
  }

  // ---------------------------------------------------------------------------------
  // Completion
  // ---------------------------------------------------------------------------------

  /** Completion toggle of one lesson: marking complete stamps the date, marking
      incomplete clears it; nothing else in the lesson changes. */
  function Toggle1(l: Lesson, now: string): (r: Lesson)
    ensures r.completed == !l.completed
    ensures r.dateCompleted == if r.completed then Some(now) else None
    ensures r.(completed := l.completed, dateCompleted := l.dateCompleted) == l
  {
    var completed := !l.completed;
    if completed then l.(completed := completed, dateCompleted := Some(now))
    else l.(completed := completed, dateCompleted := None)
  }

  /** The lessons half of `toggleLessonCompletion`: every lesson with the id is toggled in
      place, every other lesson is kept. */
  function ToggleLessons(lessons: seq<Lesson>, id: string, now: string): (r: seq<Lesson>)
    ensures |r| == |lessons|
    ensures forall k :: 0 <= k < |r| ==> r[k] == if lessons[k].id == id then Toggle1(lessons[k], now) else lessons[k]
  {
    seq(|lessons|, k requires 0 <= k < |lessons| =>
      if lessons[k].id == id then Toggle1(lessons[k], now) else lessons[k])
  }

  function IsFor(id: string): TimelineEntry -> bool { (e: TimelineEntry) => e.lessonId == id }

  function IsNotFor(id: string): TimelineEntry -> bool { (e: TimelineEntry) => e.lessonId != id }

  /** The timeline without any entry for lesson `id`. */
  function DropEntries(timeline: seq<TimelineEntry>, id: string): (r: seq<TimelineEntry>)
    ensures forall e :: e in r <==> e in timeline && e.lessonId != id
  {
    Filter(timeline, IsNotFor(id))
  }

  /** The timeline entries for lesson `id`. */
  function EntriesFor(timeline: seq<TimelineEntry>, id: string): (r: seq<TimelineEntry>)
    ensures forall e :: e in r <==> e in timeline && e.lessonId == id
  {
    Filter(timeline, IsFor(id))
  }

  /** The timeline half of `toggleLessonCompletion`: each lesson with the id, in catalogue
      order, queues one timeline update — an appended entry if it was incomplete, the removal
      of every entry for the id if it was complete. Every entry that comes out was already
      there or is a new entry for the id stamped `now`; no other lesson's entry is lost. */
  function ToggleTimeline(lessons: seq<Lesson>, timeline: seq<TimelineEntry>, id: string, now: string): (r: seq<TimelineEntry>)
    ensures forall e :: e in r ==> e in timeline || (e.lessonId == id && e.dateCompleted == now)
    ensures forall e :: e in timeline && e.lessonId != id ==> e in r
    decreases |lessons|
  {
    if lessons == [] then timeline
    else
      var before := ToggleTimeline(lessons[..|lessons| - 1], timeline, id, now);
      var l := lessons[|lessons| - 1];
      if l.id != id then before
      else if !l.completed then before + [TimelineEntry(id, l.title, now)]
      else DropEntries(before, id)
  }

  /** Toggling an id that no lesson has leaves the timeline alone. */
  lemma {:induction false} ToggleTimelineUnknown(lessons: seq<Lesson>, timeline: seq<TimelineEntry>, id: string, now: string)
    requires forall k :: 0 <= k < |lessons| ==> lessons[k].id != id
    ensures ToggleTimeline(lessons, timeline, id, now) == timeline
    decreases |lessons|
  {
    if lessons != [] {
      ToggleTimelineUnknown(lessons[..|lessons| - 1], timeline, id, now);
    }
  }

  /** One more lesson of the walk queues its own update after those of the lessons before it. */
  lemma ToggleTimelineStep(lessons: seq<Lesson>, i: nat, timeline: seq<TimelineEntry>, id: string, now: string)
    requires i < |lessons|
    ensures var before := ToggleTimeline(lessons[..i], timeline, id, now);
      ToggleTimeline(lessons[..i + 1], timeline, id, now)
        == if lessons[i].id != id then before
           else if !lessons[i].completed then before + [TimelineEntry(id, lessons[i].title, now)]
           else DropEntries(before, id)
  {
    assert lessons[..i + 1][..i] == lessons[..i];
  }

  // ---------------------------------------------------------------------------------
  // Invariants
  // ---------------------------------------------------------------------------------

  ghost predicate UniqueIds(lessons: seq<Lesson>) {
    forall i, j :: 0 <= i < |lessons| && 0 <= j < |lessons| && lessons[i].id == lessons[j].id ==> i == j
  }

  predicate FreshId(lessons: seq<Lesson>, id: string) {
    forall k :: 0 <= k < |lessons| ==> lessons[k].id != id
  }

  /** `dateCompleted` is present exactly on completed lessons. */
  predicate DatesMatchCompletion(lessons: seq<Lesson>) {
    forall k :: 0 <= k < |lessons| ==> (lessons[k].dateCompleted.Some? <==> lessons[k].completed)
  }

  /** The timeline entry a completed lesson is recorded by. */
  function EntryOf(l: Lesson): TimelineEntry {
    TimelineEntry(l.id, l.title, match l.dateCompleted case Some(d) => d case None => "")
  }

  /** Entry `e` records the completion of some completed lesson. */
  ghost predicate Recorded(lessons: seq<Lesson>, e: TimelineEntry) {
    exists k :: 0 <= k < |lessons| && lessons[k].completed && EntryOf(lessons[k]) == e
  }

  /** Exactly one entry per completed lesson, and every entry records a completed lesson. */
  ghost predicate TimelineMatches(lessons: seq<Lesson>, timeline: seq<TimelineEntry>) {
    (forall k :: 0 <= k < |lessons| && lessons[k].completed ==> |EntriesFor(timeline, lessons[k].id)| == 1) &&
    (forall e :: e in timeline ==> Recorded(lessons, e))
  }

  ghost predicate Consistent(lessons: seq<Lesson>, timeline: seq<TimelineEntry>) {
    UniqueIds(lessons) && DatesMatchCompletion(lessons) && TimelineMatches(lessons, timeline)
  }
}
