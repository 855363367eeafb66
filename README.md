# Lesson store: a verified Dafny model

This project models the lesson state container of a small learning app, found in
`src/context/LessonContext.tsx`. The container holds four pieces of state:

- the lesson catalogue;
- the completion timeline;
- a search term;
- a difficulty filter.

It derives four views from that state:

- the filtered catalogue;
- the completed lessons;
- the progress percentage;
- a top-three recommendation list.

It changes state through three mutations: adding a lesson, toggling a lesson's completion, and voting on a lesson.

The project has these modules:

- `Seqs`: an order-preserving `Filter`, the model of `Array.prototype.filter`, and its algebra.
- `Text`: ASCII lower-casing, `split` on the single space character, and `includes`.
- `Lessons`:
  - the records (`Lesson`, `TimelineEntry`, the three-state `Vote`) and the seed catalogue;
  - the filtered, completed and progress views;
  - the per-lesson vote and completion rules, with their catalogue-wide forms;
  - the consistency invariant that links `completed`, `dateCompleted` and the timeline.
- `Recommend`: keyword extraction, match scoring, a stable insertion sort on (match score, likes), and the top-three cut.
- `Invariants`: voting and toggling preserve the consistency invariant, and adding a lesson preserves it when the new id is fresh. Toggling the same lesson twice gives back the earlier state exactly when the lesson starts incomplete. When it starts complete, and only when the second date equals the first, the catalogue comes back but the timeline comes back only rearranged. With any other date neither comes back, because the lesson and its re-appended entry carry the new date.
- `Seed`: facts about the seed catalogue. Searching for "photo" finds only lesson "3", and the first recommendation list is lessons "5", "3", "4".
- `Provider`: the class `LessonStore`. Its fields are `lessons`, `timeline`, `searchTerm` and `difficultyFilter`. Its methods replace these fields the way the provider's state setters do.
  - `ToggleLessonCompletion` walks the catalogue in a loop. Each matching lesson queues its own timeline update, as the source's `map` callback does with `setTimeline`.
  - Each method's postcondition gives the whole new state. For `ToggleLessonCompletion` and `HandleLike` it is stated through the specification functions in `Lessons`. `ToggleLessonCompletion` and `HandleLike` keep the invariant; `AddLesson` keeps it when the new id is fresh.

The source's wall-clock inputs become parameters:

- `Date.now().toString()` becomes the `newId` of `AddLesson`.
- The `toLocaleString` date becomes the `now` of `ToggleLessonCompletion`.

Three behaviours of the code worth stating:

- Titles are split on the single space character `' '`. A tab or a run of spaces yields other pieces, including empty ones.
- Toggling a completed lesson twice does not restore the timeline exactly. The second toggle appends the entry again, at the end of the timeline and with the new date. The result equals the original timeline only as a multiset, and only when the new date equals the old one.
- `addLesson` does not itself make the id unique. Freshness of the id is a hypothesis of the preservation results, not something the model guarantees.

## Model

| member | source | states |
|---|---|---|
| Lessons.FilteredLessons | src/context/LessonContext.tsx:116-121 | the filtered view keeps only lessons that match the search (case-insensitive, title or description), keeps every lesson that matches both the search and the difficulty, and under `Only(level)` keeps only that level |
| Lessons.FilteredShowsAll | src/context/LessonContext.tsx:116-121 | with search "" and filter All the view is the whole catalogue, in order |
| Lessons.FilteredAppend | src/context/LessonContext.tsx:116-121 | the view preserves catalogue order: filtering a catalogue extended at the end extends the view at the end |
| Lessons.CompletedLessons | src/context/LessonContext.tsx:124 | a lesson is in the view exactly when it is in the catalogue and completed |
| Lessons.ProgressPercentage | src/context/LessonContext.tsx:127-129 | result in 0..100, 0 for an empty catalogue, otherwise the nearest integer to 100·c/n with halves rounded up (200c − n < 2nr ≤ 200c + n) |
| Lessons.RoundedPercent | src/context/LessonContext.tsx:128 | floor((200c + n)/(2n)) lies in 0..100 and is 100·c/n rounded half up |
| Lessons.ProgressFull | src/context/LessonContext.tsx:127-129 | every lesson completed gives 100 |
| Lessons.ProgressEmpty | src/context/LessonContext.tsx:127-129 | no lesson completed, or no lessons, gives 0 |
| Lessons.Vote1 | src/context/LessonContext.tsx:228-242 | the new vote always becomes the standing one; likes change by the weight of the new vote minus that of the old (Liked 1, Unset 0, Disliked −1); nothing else in the lesson changes |
| Lessons.VoteTable | src/context/LessonContext.tsx:231-240 | the six rows of the vote table: +1, −1, −2, +2, and 0 for a repeated vote |
| Lessons.VoteRepeat | src/context/LessonContext.tsx:228-242 | voting the same way twice equals voting once |
| Lessons.VoteKeepsBase | src/context/LessonContext.tsx:228-242 | likes minus the weight of the standing vote is invariant: the counter holds exactly this user's net vote on top of the others |
| Lessons.VoteLessons | src/context/LessonContext.tsx:224-247 | same length and order; every lesson with the id takes the vote, every other lesson is unchanged |
| Lessons.VoteUnknownId | src/context/LessonContext.tsx:224-247 | a vote for an id no lesson has is a no-op |
| Lessons.Toggle1 | src/context/LessonContext.tsx:184-215 | completion flips; the date is `now` when the lesson becomes complete and absent when it becomes incomplete; nothing else in the lesson changes |
| Lessons.ToggleLessons | src/context/LessonContext.tsx:180-221 | same length and order; every lesson with the id is toggled, every other lesson is unchanged |
| Lessons.DropEntries | src/context/LessonContext.tsx:212-214 | an entry survives exactly when it was in the timeline and belongs to another lesson |
| Lessons.EntriesFor | src/context/LessonContext.tsx:212-214 | an entry is selected exactly when it was in the timeline and belongs to the lesson |
| Lessons.ToggleTimeline | src/context/LessonContext.tsx:198-214 | every entry after the walk was already in the timeline or is a new entry for the id stamped `now`; no entry of another lesson is lost |
| Lessons.ToggleTimelineUnknown | src/context/LessonContext.tsx:180-221 | toggling an id no lesson has leaves the timeline alone |
| Invariants.ToggleTimelineUnique | src/context/LessonContext.tsx:184-216 | with unique ids, toggling an incomplete lesson appends exactly the entry {id, title, now} at the end; toggling a completed one removes exactly that lesson's entries |
| Invariants.ToggleUnknownId | src/context/LessonContext.tsx:180-221 | toggling an unknown id changes neither the catalogue nor the timeline |
| Invariants.NoEntriesWhenIncomplete | src/context/LessonContext.tsx:197-215 | under the invariant an incomplete lesson has no timeline entries |
| Invariants.EntriesForAppend | src/context/LessonContext.tsx:198-205 | appending an entry adds one to the entry count of its lesson only |
| Invariants.EntriesForDrop | src/context/LessonContext.tsx:212-214 | removing one lesson's entries leaves every other lesson's entries as they were |
| Invariants.DefaultConsistent | src/context/LessonContext.tsx:39-85 | the seed catalogue with an empty timeline satisfies the invariant |
| Invariants.AddKeepsConsistent | src/context/LessonContext.tsx:166-177 | appending a new incomplete lesson with a fresh id keeps the invariant |
| Invariants.VoteKeepsConsistent | src/context/LessonContext.tsx:224-247 | voting keeps the invariant |
| Invariants.ToggleKeepsConsistent | src/context/LessonContext.tsx:180-221 | toggling keeps the invariant: dates exactly on completed lessons, one entry per completed lesson, no stray entries |
| Invariants.CompleteKeepsConsistent | src/context/LessonContext.tsx:186-207 | completing a lesson stamps its date and gives it exactly one entry, keeping the invariant |
| Invariants.UncompleteKeepsConsistent | src/context/LessonContext.tsx:210-215 | un-completing a lesson clears its date and its entries, keeping the invariant |
| Invariants.ToggleLessonsTwice | src/context/LessonContext.tsx:184-215 | toggling the same id twice gives the catalogue back when incomplete lessons are undated and completed ones carry the second date |
| Invariants.OnlyEntryOf | src/context/LessonContext.tsx:197-215 | under the invariant the single timeline entry of a completed lesson is {id, title, date} of that lesson |
| Invariants.DropAppendPermutes | src/context/LessonContext.tsx:212-214 | removing a lesson's only entry and appending it again rearranges the timeline without changing its contents |
| Invariants.ToggleTwiceFromIncomplete | src/context/LessonContext.tsx:180-221 | from an incomplete lesson, toggling twice restores catalogue and timeline exactly, whatever the two dates |
| Invariants.ToggleTwiceFromComplete | src/context/LessonContext.tsx:180-221 | from a completed lesson, toggling twice restores the catalogue exactly when the new date equals the old; the timeline comes back as the other entries in order followed by the lesson's entry, a rearrangement of the original |
| Recommend.TitleWords | src/context/LessonContext.tsx:141-143 | a word is listed exactly when it is a piece of some lesson title split on ' ' |
| Recommend.TitleWordsConcat | src/context/LessonContext.tsx:141-143 | `flat()` keeps every piece in order, repeats included: the words of two lesson lists are the words of the first followed by those of the second |
| Recommend.TitleWordsOne | src/context/LessonContext.tsx:142 | the words of one lesson are exactly its title split on ' ' |
| Recommend.LowerKeepsKeywords | src/context/LessonContext.tsx:144-145 | keeping words longer than 3 after lower-casing gives the lower-cased long words, in order |
| Recommend.Keywords | src/context/LessonContext.tsx:141-145 | a keyword is exactly the lower-cased form of a title word of a completed lesson longer than 3 characters; every keyword is lower-case and longer than 3; there are as many keywords as long title words, so none is de-duplicated |
| Recommend.KeywordsConcat | src/context/LessonContext.tsx:141-145 | the keywords of two lists of completed lessons are the first list's followed by the second's |
| Recommend.KeywordsOne | src/context/LessonContext.tsx:141-145 | the keywords of one completed lesson are its long title words, lower-cased, in order |
| Recommend.AnyWordIncludes | src/context/LessonContext.tsx:153 | true exactly when some word contains the keyword |
| Recommend.CountHits | src/context/LessonContext.tsx:152-154 | the score lies between 0 and the number of keywords; it is 0 exactly when no keyword hits and maximal exactly when every keyword hits |
| Recommend.CountHitsAppend | src/context/LessonContext.tsx:152-154 | scores add up over concatenated keyword lists |
| Recommend.MatchScore | src/context/LessonContext.tsx:151-154 | the score of a title is at most the number of keywords; it is 0 exactly when no keyword occurs in a lower-cased title word, and maximal exactly when every keyword does |
| Recommend.MatchScoreRepeats | src/context/LessonContext.tsx:152-154 | a keyword list given twice scores twice |
| Recommend.SameTitleScoresTwice | src/context/LessonContext.tsx:141-154 | two completed lessons with the same title give a candidate twice the score one of them gives, because repeated keywords count again |
| Recommend.Insert | src/context/LessonContext.tsx:160 | insertion adds exactly the new element |
| Recommend.InsertRanked | src/context/LessonContext.tsx:160 | inserting into a ranked list keeps it ranked |
| Recommend.SortRanked | src/context/LessonContext.tsx:132-163 | the sort result is ranked by (match score, likes) descending and is a permutation of its input |
| Recommend.InsertStable | src/context/LessonContext.tsx:160 | insertion keeps the relative order of equal-key elements |
| Recommend.SortStable | src/context/LessonContext.tsx:132-163 | the sort is stable: for every key, the elements with that key keep their original order |
| Recommend.RankedUnique | src/context/LessonContext.tsx:160 | when no two elements share a key, the ranked permutation is unique |
| Recommend.LessonsOf | src/context/LessonContext.tsx:161 | same length, the i-th lesson is the lesson of the i-th scored entry |
| Recommend.Candidates | src/context/LessonContext.tsx:133-156 | the lessons of the candidates are exactly the uncompleted lessons, in catalogue order; no candidate is a completed lesson or a lesson outside the catalogue |
| Recommend.CandidateScores | src/context/LessonContext.tsx:148-156 | every candidate carries its lesson's score: 0 when nothing is completed, otherwise its keyword hits against the completed titles |
| Recommend.CandidateCount | src/context/LessonContext.tsx:133-156 | there are exactly as many candidates as uncompleted lessons |
| Recommend.TakeOfRanked | src/context/LessonContext.tsx:132-163 | a prefix of a ranked list is ranked, and no element left out outranks one kept |
| Recommend.TopThree | src/context/LessonContext.tsx:132-163 | min(3, candidates) ranked candidates, drawn from the candidates, a prefix of the stably sorted candidates, and no candidate left out outranks one kept |
| Recommend.TopThreeTies | src/context/LessonContext.tsx:160-162 | of the candidates sharing a (score, likes) key, the ones kept are the earliest in candidate order |
| Recommend.RecommendedLessons | src/context/LessonContext.tsx:132-163 | min(3, uncompleted) lessons, never a completed one, each from the catalogue |
| Recommend.CandidatesWhenNothingCompleted | src/context/LessonContext.tsx:134-137 | with nothing completed every lesson is a candidate, in order, scored 0 |
| Recommend.UnscoredWhenNothingCompleted | src/context/LessonContext.tsx:134-137 | with nothing completed every candidate scores 0, so likes alone decide |
| Recommend.RecommendedByLikes | src/context/LessonContext.tsx:134-137 | with nothing completed the list is non-increasing in likes, no lesson left out has more likes than one kept, and for every likes count the recommended lessons with that count are a prefix of the catalogue's lessons with that count |
| Recommend.MostLiked | src/context/LessonContext.tsx:134-137 | with nothing completed the list is non-increasing in likes and no lesson left out has more likes than one kept |
| Recommend.RecommendedTies | src/context/LessonContext.tsx:134-137 | with nothing completed, lessons with equal likes are recommended in catalogue order, and those left out come later in the catalogue than those kept |
| Seed.SeedPhoto | src/context/LessonContext.tsx:39-121 | on the seed catalogue, searching "photo" with filter All yields only lesson "3" |
| Seed.PhotoInLesson3 | src/context/LessonContext.tsx:58-66 | lesson "3" matches "photo" case-insensitively |
| Seed.RecommendedFive | src/context/LessonContext.tsx:134-137 | five uncompleted lessons whose likes are ordered by position as the seed's are (5th > 3rd > 4th > 1st > 2nd) are recommended as the 5th, 3rd and 4th lessons, in that order |
| Seed.SeedRecommended | src/context/LessonContext.tsx:39-163 | the seed catalogue recommends lessons "5", "3", "4" in that order |
| Text.Lower | src/context/LessonContext.tsx:117-118 | same length; every upper-case ASCII letter becomes its lower-case partner (code point + 32), every other character is unchanged |
| Text.Split | src/context/LessonContext.tsx:142 | at least one piece and no piece contains the separator |
| Text.JoinSplit | src/context/LessonContext.tsx:142 | joining the pieces with the separator gives back the string |
| Text.Includes | src/context/LessonContext.tsx:117-118 | true exactly when the substring occurs at some index |
| Text.IncludesEmpty | src/context/LessonContext.tsx:117-118 | every string includes "" |
| Seqs.Filter | src/context/LessonContext.tsx:116 | the result keeps exactly the elements satisfying the predicate, with their multiplicities, and is no longer than the input |
| Seqs.FilterConcat | src/context/LessonContext.tsx:116 | filtering distributes over concatenation, so it preserves order |
| Seqs.FilterPrefix | src/context/LessonContext.tsx:160-162 | filtering a prefix gives a prefix of the filtered whole |
| Seqs.Take | src/context/LessonContext.tsx:162 | `slice(0, n)`: the first min(n, length) elements, a prefix of the input |
| Provider.LessonStore.constructor | src/context/LessonContext.tsx:91-104 | the saved catalogue and timeline if any, else the seed and an empty timeline; empty search, filter All; a fresh store is consistent |
| Provider.LessonStore.AddLesson | src/context/LessonContext.tsx:166-177 | appends exactly one lesson {newId, title, description, difficulty, incomplete, 0 likes, no vote, no date}; timeline and filters unchanged; invariant kept when the id is fresh |
| Provider.LessonStore.ToggleLessonCompletion | src/context/LessonContext.tsx:180-221 | new catalogue and timeline are `ToggleLessons` and `ToggleTimeline` of the old; filters unchanged; invariant kept |
| Provider.LessonStore.HandleLike | src/context/LessonContext.tsx:224-247 | new catalogue is `VoteLessons` of the old; timeline and filters unchanged; invariant kept |
| Provider.LessonStore.SetSearchTerm | src/context/LessonContext.tsx:103 | sets the search term and nothing else |
| Provider.LessonStore.SetDifficultyFilter | src/context/LessonContext.tsx:104 | sets the difficulty filter and nothing else |

## Left out

- Loading from and saving to `localStorage`, including `JSON.parse`/`JSON.stringify` (src/context/LessonContext.tsx:91-113): these are calls into the browser. Saved state arrives as an optional constructor argument. A stored empty string counts as nothing saved, like any other falsy value.
- React machinery (`createContext`, `useState`, `useEffect`, `useMemo`, the `useLessons` provider check): framework runtime. Queued `setTimeline` updaters are applied in the order they were queued. React's double invocation of updater functions in development mode is not modelled.
- `Date.now()` and `toLocaleString`: wall-clock time and locale formatting. The id and the date string are parameters.
- Floating-point `Math.round(c / n * 100)`: modelled as exact integer round-half-up. Floating-point error at .5 boundaries is not modelled.
- Unicode `toLowerCase`: only ASCII letters are lower-cased.
- UTF-16 string length: the keyword test `word.length > 3` (src/context/LessonContext.tsx:145) counts UTF-16 code units in the source and characters in the model. A word of two characters outside the Basic Multilingual Plane, such as two emoji, is a keyword in the source but not in the model.
- One completion date per toggle: the source reads a fresh `new Date()` inside the `map` callback (src/context/LessonContext.tsx:188) for each lesson with the id. The model stamps every such lesson with the single `now` of the call. The two differ only when several lessons share the id.
- Pages and components (catalogue, contribution form, timeline, progress bar, header and others): presentation only.
- Provider.LessonStore.AddLesson: does not guarantee that the new id is fresh, because the source relies on the clock for that. Invariant preservation is stated under freshness as a hypothesis.
- Invariants.ToggleTwiceFromComplete: states restoration of the timeline only as a rearrangement, and of the catalogue only when the second date equals the first. This is weaker than exact restoration because the code re-appends the entry at the end with the new date.
