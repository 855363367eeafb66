/** The recommendation list: with nothing completed, the most-liked lessons; otherwise the
    uncompleted lessons ranked by how many title keywords of the completed lessons they match,
    then by likes; in both cases a stable sort cut to the first three. */
module Recommend {
  import opened Seqs
  import opened Text
  import opened Lessons

  // ---------------------------------------------------------------------------------
  // Keywords and match score
  // ---------------------------------------------------------------------------------

  /** Every title split on single spaces, in lesson order: `map(title.split(' ')).flat()`. */
  function TitleWords(lessons: seq<Lesson>): (r: seq<string>)
    ensures forall w :: w in r <==> exists k :: 0 <= k < |lessons| && w in Split(lessons[k].title, ' ')
    decreases |lessons|
  {
    if lessons == [] then []
    else
      var rest := TitleWords(lessons[1..]);
      assert forall w :: w in rest <==> exists k :: 1 <= k < |lessons| && w in Split(lessons[k].title, ' ') by {
        forall w | w in rest
          ensures exists k :: 1 <= k < |lessons| && w in Split(lessons[k].title, ' ')
        {
          var k :| 0 <= k < |lessons[1..]| && w in Split(lessons[1..][k].title, ' ');
          assert lessons[k + 1] == lessons[1..][k];
        }
        forall w | exists k :: 1 <= k < |lessons| && w in Split(lessons[k].title, ' ')
          ensures w in rest
        {
          var k :| 1 <= k < |lessons| && w in Split(lessons[k].title, ' ');
          assert lessons[1..][k - 1] == lessons[k];
        }
      }
      Split(lessons[0].title, ' ') + rest
  }

  /** `flat()` keeps every piece, repeats included, in order: the words of a concatenation
      of lesson lists are the words of the first list followed by those of the second. */
  lemma {:induction false} TitleWordsConcat(a: seq<Lesson>, b: seq<Lesson>)
    ensures TitleWords(a + b) == TitleWords(a) + TitleWords(b)
    decreases |a|
  {
    if a == [] {
      assert a + b == b;
    } else {
      assert (a + b)[0] == a[0] && (a + b)[1..] == a[1..] + b;
      TitleWordsConcat(a[1..], b);
    }
  }

  /** The words of one lesson are its title split on single spaces. */
  lemma TitleWordsOne(l: Lesson)
    ensures TitleWords([l]) == Split(l.title, ' ')
  {
    assert [l][1..] == [];
  }

  function LowerAll(words: seq<string>): (r: seq<string>)
    ensures |r| == |words|
    ensures forall i :: 0 <= i < |r| ==> r[i] == Lower(words[i])
  {
    seq(|words|, i requires 0 <= i < |words| => Lower(words[i]))
  }

  /** A word is in the lower-cased list exactly when it lower-cases some word of the input. */
  lemma LowerAllMembers(words: seq<string>)
    ensures forall kw :: kw in LowerAll(words) <==> exists w :: w in words && Lower(w) == kw
  {
    var lowered := LowerAll(words);
    forall kw | kw in lowered
      ensures exists w :: w in words && Lower(w) == kw
    {
      var i :| 0 <= i < |lowered| && lowered[i] == kw;
      assert words[i] in words;
    }
    forall kw | exists w :: w in words && Lower(w) == kw
      ensures kw in lowered
    {
      var w :| w in words && Lower(w) == kw;
      var i :| 0 <= i < |words| && words[i] == w;
      assert lowered[i] == kw;
    }
  }

  /** Only words of more than three characters are kept as keywords. */
  predicate IsKeyword(w: string) { |w| > 3 }

  lemma LowerAllCons(w: string, words: seq<string>)
    ensures LowerAll([w] + words) == [Lower(w)] + LowerAll(words)
  {
  }

  /** Lower-casing keeps the length, so keeping the long words commutes with lower-casing. */
  lemma {:induction false} LowerKeepsKeywords(words: seq<string>)
    ensures Filter(LowerAll(words), IsKeyword) == LowerAll(Filter(words, IsKeyword))
    decreases |words|
  {
    if words != [] {
      var w := words[0];
      var lowered := LowerAll(words);
      assert words == [w] + words[1..];
      LowerAllCons(w, words[1..]);
      assert lowered[0] == Lower(w) && lowered[1..] == LowerAll(words[1..]);
      LowerKeepsKeywords(words[1..]);
      assert IsKeyword(Lower(w)) == IsKeyword(w);
      if IsKeyword(w) {
        LowerAllCons(w, Filter(words[1..], IsKeyword));
      }
    }
  }

  /** The keyword list of the completed lessons, duplicates included: each one is a
      lower-cased word of more than three characters of some completed title, every such
      word is one, and there are as many keywords as long title words. */
  function Keywords(completed: seq<Lesson>): (r: seq<string>)
    ensures forall kw :: kw in r ==> |kw| > 3 && forall i :: 0 <= i < |kw| ==> !IsUpper(kw[i])
    ensures forall kw :: kw in r <==> exists w :: w in TitleWords(completed) && |w| > 3 && Lower(w) == kw
    ensures |r| == |Filter(TitleWords(completed), IsKeyword)|
  {
    LowerAllMembers(TitleWords(completed));
    LowerKeepsKeywords(TitleWords(completed));
    Filter(LowerAll(TitleWords(completed)), IsKeyword)
  }

  lemma LowerAllConcat(a: seq<string>, b: seq<string>)
    ensures LowerAll(a + b) == LowerAll(a) + LowerAll(b)
  {
  }

  /** The keywords of two lists of completed lessons are those of the first followed by those
      of the second: nothing is de-duplicated across lessons. */
  lemma KeywordsConcat(a: seq<Lesson>, b: seq<Lesson>)
    ensures Keywords(a + b) == Keywords(a) + Keywords(b)
  {
    TitleWordsConcat(a, b);
    LowerAllConcat(TitleWords(a), TitleWords(b));
    FilterConcat(LowerAll(TitleWords(a)), LowerAll(TitleWords(b)), IsKeyword);
  }

  /** The keywords of one completed lesson: its long title words, lower-cased, in order. */
  lemma KeywordsOne(l: Lesson)
    ensures Keywords([l]) == LowerAll(Filter(Split(l.title, ' '), IsKeyword))
  {
    TitleWordsOne(l);
    LowerKeepsKeywords(Split(l.title, ' '));
  }

  /** `words.some(word => word.includes(keyword))`. */
  function AnyWordIncludes(words: seq<string>, keyword: string): (r: bool)
    ensures r <==> exists w :: w in words && Includes(w, keyword)
    decreases |words|
  {
    if words == [] then false
    else if Includes(words[0], keyword) then assert words[0] in words; true
    else
      var r := AnyWordIncludes(words[1..], keyword);
      assert r ==> exists w :: w in words && Includes(w, keyword) by {
        if r {
          var w :| w in words[1..] && Includes(w, keyword);
          assert w in words;
        }
      }
      assert (exists w :: w in words && Includes(w, keyword)) ==> r by {
        if exists w :: w in words && Includes(w, keyword) {
          var w :| w in words && Includes(w, keyword);
          assert w != words[0];
          assert w in words[1..];
        }
      }
      r
  }

  /** The `reduce` of the scorer: how many keywords, counted with repetition, some word
      includes. */
  function CountHits(keywords: seq<string>, words: seq<string>): (r: nat)
    ensures r <= |keywords|
    ensures r == 0 <==> forall kw :: kw in keywords ==> !AnyWordIncludes(words, kw)
    ensures r == |keywords| <==> forall kw :: kw in keywords ==> AnyWordIncludes(words, kw)
    decreases |keywords|
  {
    if keywords == [] then 0
    else
      assert forall kw :: kw in keywords <==> kw == keywords[0] || kw in keywords[1..];
      (if AnyWordIncludes(words, keywords[0]) then 1 else 0) + CountHits(keywords[1..], words)
  }

  /** The score of one title against the keyword list: its lower-cased words are matched. */
  function MatchScore(keywords: seq<string>, title: string): (r: nat)
    ensures r <= |keywords|
    ensures r == 0 <==> forall kw :: kw in keywords ==> !AnyWordIncludes(Split(Lower(title), ' '), kw)
    ensures r == |keywords| <==> forall kw :: kw in keywords ==> AnyWordIncludes(Split(Lower(title), ' '), kw)
  {
    CountHits(keywords, Split(Lower(title), ' '))
  }

  /** Counting is additive over the keyword list. */
  lemma {:induction false} CountHitsAppend(a: seq<string>, b: seq<string>, words: seq<string>)
    ensures CountHits(a + b, words) == CountHits(a, words) + CountHits(b, words)
    decreases |a|
  {
    if a == [] {
      assert a + b == b;
    } else {
      assert (a + b)[1..] == a[1..] + b;
      CountHitsAppend(a[1..], b, words);
    }
  }

  /** A keyword listed twice scores twice. */
  lemma MatchScoreRepeats(keywords: seq<string>, title: string)
    ensures MatchScore(keywords + keywords, title) == 2 * MatchScore(keywords, title)
  {
    CountHitsAppend(keywords, keywords, Split(Lower(title), ' '));
  }

  /** Two completed lessons with the same title give every candidate twice the score one of
      them gives: repeated keywords are counted again. */
  lemma SameTitleScoresTwice(l: Lesson, title: string)
    ensures MatchScore(Keywords([l, l]), title) == 2 * MatchScore(Keywords([l]), title)
  {
    assert [l, l] == [l] + [l];
    KeywordsConcat([l], [l]);
    MatchScoreRepeats(Keywords([l]), title);
  }

  // ---------------------------------------------------------------------------------
  // Ranking
  // ---------------------------------------------------------------------------------

  datatype Scored = Scored(lesson: Lesson, matchScore: int)

  /** `a` sorts strictly before `b`: higher score, or equal score and more likes. */
  predicate Outranks(a: Scored, b: Scored) {
    a.matchScore > b.matchScore || (a.matchScore == b.matchScore && a.lesson.likes > b.lesson.likes)
  }

  /** Non-increasing by (matchScore, likes). */
  predicate Ranked(s: seq<Scored>) {
    forall i, j :: 0 <= i < j < |s| ==> !Outranks(s[j], s[i])
  }

  /** Place `x` in front of the first element that does not outrank it. */
  function Insert(x: Scored, s: seq<Scored>): (r: seq<Scored>)
    ensures multiset(r) == multiset(s) + multiset{x}
    decreases |s|
  {
    if s == [] then [x]
    else if Outranks(s[0], x) then
      assert s == [s[0]] + s[1..];
      [s[0]] + Insert(x, s[1..])
    else [x] + s
  }

  /** Not being outranked is transitive: (matchScore, likes) keys are totally preordered. */
  lemma NotOutrankedTransitive(a: Scored, b: Scored, c: Scored)
    requires !Outranks(a, b) && !Outranks(b, c)
    ensures !Outranks(a, c)
  {
  }

  /** Inserting into a ranked sequence keeps it ranked. */
  lemma {:induction false} InsertRanked(x: Scored, s: seq<Scored>)
    requires Ranked(s)
    ensures Ranked(Insert(x, s))
    decreases |s|
  {
    if s == [] {
    } else if Outranks(s[0], x) {
      var rest := Insert(x, s[1..]);
      InsertRanked(x, s[1..]);
      forall y | y in rest
        ensures !Outranks(y, s[0])
      {
        assert y in multiset(rest);
        if y != x {
          assert y in multiset(s[1..]);
          var j :| 0 <= j < |s[1..]| && s[1..][j] == y;
          assert s[j + 1] == y;
        }
      }
      var r := [s[0]] + rest;
      forall i, j | 0 <= i < j < |r|
        ensures !Outranks(r[j], r[i])
      {
        assert r[j] == rest[j - 1];
        if i > 0 {
          assert r[i] == rest[i - 1];
        } else {
          assert r[j] in rest;
        }
      }
    } else {
      var r := [x] + s;
      forall i, j | 0 <= i < j < |r|
        ensures !Outranks(r[j], r[i])
      {
        if i == 0 {
          if j > 1 {
            NotOutrankedTransitive(s[j - 1], s[0], x);
          }
        }
      }
    }
  }

  /** The stable sort of `sort((a, b) => b.matchScore - a.matchScore || b.likes - a.likes)`:
      an insertion sort that lets an element pass only those that strictly outrank it. */
  function SortRanked(s: seq<Scored>): (r: seq<Scored>)
    ensures Ranked(r)
    ensures multiset(r) == multiset(s)
    decreases |s|
  {
    if s == [] then []
    else
      assert s == [s[0]] + s[1..];
      var sortedTail := SortRanked(s[1..]);
      InsertRanked(s[0], sortedTail);
      Insert(s[0], sortedTail)
  }

  /** The elements of one rank, that is, with one (matchScore, likes) key. */
  function HasKey(score: int, likes: int): Scored -> bool {
    (x: Scored) => x.matchScore == score && x.lesson.likes == likes
  }

  lemma {:induction false} InsertStable(x: Scored, s: seq<Scored>, score: int, likes: int)
    ensures Filter(Insert(x, s), HasKey(score, likes))
         == if HasKey(score, likes)(x) then [x] + Filter(s, HasKey(score, likes)) else Filter(s, HasKey(score, likes))
    decreases |s|
  {
    if s != [] {
      if Outranks(s[0], x) {
        InsertStable(x, s[1..], score, likes);
      } else {
        assert ([x] + s)[1..] == s;
      }
    }
  }

  /** The sort is stable: elements of equal rank keep their input order. */
  lemma {:induction false} SortStable(s: seq<Scored>, score: int, likes: int)
    ensures Filter(SortRanked(s), HasKey(score, likes)) == Filter(s, HasKey(score, likes))
    decreases |s|
  {
    if s != [] {
      SortStable(s[1..], score, likes);
      InsertStable(s[0], SortRanked(s[1..]), score, likes);
    }
  }

  /** Every element strictly outranks every later one: no two share a key. */
  predicate StrictlyRanked(s: seq<Scored>) {
    forall i, j :: 0 <= i < j < |s| ==> Outranks(s[i], s[j])
  }

  lemma RankedHead(s: seq<Scored>, t: seq<Scored>)
    requires s != [] && StrictlyRanked(s) && Ranked(t) && multiset(t) == multiset(s)
    ensures t != [] && t[0] == s[0]
  {
    assert s[0] in multiset(t);
    var j :| 0 <= j < |t| && t[j] == s[0];
    assert t[0] in multiset(s);
    var i :| 0 <= i < |s| && s[i] == t[0];
    assert i == 0;
  }

  lemma MultisetTail(s: seq<Scored>, t: seq<Scored>)
    requires s != [] && t != [] && t[0] == s[0] && multiset(t) == multiset(s)
    ensures multiset(t[1..]) == multiset(s[1..])
  {
    assert s == [s[0]] + s[1..] && t == [t[0]] + t[1..];
    assert multiset(s[1..]) == multiset(s) - multiset{s[0]};
    assert multiset(t[1..]) == multiset(t) - multiset{s[0]};
  }

  lemma RankedTails(s: seq<Scored>, t: seq<Scored>)
    requires s != [] && t != [] && StrictlyRanked(s) && Ranked(t)
    ensures StrictlyRanked(s[1..]) && Ranked(t[1..])
  {
  }

  /** When no two elements share a key, a ranked rearrangement is unique: whatever the
      sort does with ties does not matter, the ranking is fully determined. */
  lemma {:induction false} RankedUnique(s: seq<Scored>, t: seq<Scored>)
    requires StrictlyRanked(s) && Ranked(t) && multiset(t) == multiset(s)
    ensures t == s
    decreases |s|
  {
    if s == [] {
      assert |t| == |multiset(t)| == 0;
    } else {
      RankedHead(s, t);
      MultisetTail(s, t);
      RankedTails(s, t);
      RankedUnique(s[1..], t[1..]);
      assert s == [s[0]] + s[1..] && t == [t[0]] + t[1..];
    }
  }

  // ---------------------------------------------------------------------------------
  // The recommendation list
  // ---------------------------------------------------------------------------------

  predicate IsUncompleted(l: Lesson) { !l.completed }

  function LessonsOf(s: seq<Scored>): (r: seq<Lesson>)
    ensures |r| == |s|
    ensures forall i :: 0 <= i < |r| ==> r[i] == s[i].lesson
  {
    seq(|s|, i requires 0 <= i < |s| => s[i].lesson)
  }

  /** The score the recommender gives lesson `l` of catalogue `lessons`. */
  function ScoreOf(lessons: seq<Lesson>, l: Lesson): nat {
    if CompletedLessons(lessons) == [] then 0
    else MatchScore(Keywords(CompletedLessons(lessons)), l.title)
  }

  lemma ScoredPending(lessons: seq<Lesson>, r: seq<Scored>)
    requires var pending := Filter(lessons, IsUncompleted);
      |r| == |pending| && forall i :: 0 <= i < |r| ==> r[i].lesson == pending[i]
    ensures LessonsOf(r) == Filter(lessons, IsUncompleted)
    ensures forall x :: x in r ==> x.lesson in lessons && !x.lesson.completed
  {
    var pending := Filter(lessons, IsUncompleted);
    forall x | x in r
      ensures x.lesson in lessons && !x.lesson.completed
    {
      var i :| 0 <= i < |r| && r[i] == x;
      assert pending[i] in pending;
    }
  }

  lemma ScoredAll(lessons: seq<Lesson>, r: seq<Scored>)
    requires CompletedLessons(lessons) == []
    requires |r| == |lessons| && forall i :: 0 <= i < |r| ==> r[i].lesson == lessons[i]
    ensures LessonsOf(r) == Filter(lessons, IsUncompleted)
    ensures forall x :: x in r ==> x.lesson in lessons && !x.lesson.completed
  {
    FilterKeepsAll(lessons, IsUncompleted);
    ScoredPending(lessons, r);
  }

  /** What gets ranked: every lesson when none is completed (all scored 0, so likes alone
      decide), otherwise the uncompleted lessons with their match scores; in catalogue order. */
  function Candidates(lessons: seq<Lesson>): (r: seq<Scored>)
    ensures LessonsOf(r) == Filter(lessons, IsUncompleted)
    ensures forall x :: x in r ==> x.lesson in lessons && !x.lesson.completed
  {
    var completed := CompletedLessons(lessons);
    if completed == [] then
      var r := seq(|lessons|, i requires 0 <= i < |lessons| => Scored(lessons[i], 0));
      ScoredAll(lessons, r);
      r
    else
      var pending := Filter(lessons, IsUncompleted);
      var keywords := Keywords(completed);
      var r := seq(|pending|, i requires 0 <= i < |pending| => Scored(pending[i], MatchScore(keywords, pending[i].title)));
      ScoredPending(lessons, r);
      r
  }

  /** Every candidate carries its lesson's match score against the completed titles. */
  lemma CandidateScores(lessons: seq<Lesson>)
    ensures var c := Candidates(lessons);
      forall i :: 0 <= i < |c| ==> c[i].matchScore == ScoreOf(lessons, c[i].lesson)
  {
  }

  /** The first `n` elements of a ranked sequence are ranked, and no element left out
      outranks an element kept. */
  lemma TakeOfRanked(s: seq<Scored>, n: nat)
    requires Ranked(s)
    ensures var t := Take(s, n);
      Ranked(t) && multiset(t) <= multiset(s) &&
      forall x, y :: x in multiset(s) - multiset(t) && y in t ==> !Outranks(x, y)
  {
    var t := Take(s, n);
    var rest := s[|t|..];
    assert s == t + rest;
    assert multiset(s) == multiset(t) + multiset(rest);
    forall x, y | x in multiset(s) - multiset(t) && y in t
      ensures !Outranks(x, y)
    {
      assert x in multiset(rest);
      var i :| 0 <= i < |rest| && rest[i] == x;
      var j :| 0 <= j < |t| && t[j] == y;
      assert s[|t| + i] == x && s[j] == y;
    }
  }

  /** The ranked candidates cut to three: ranked, drawn from the candidates, as many as
      there are candidates up to three, and no candidate left out outranks one kept. */
  function TopThree(lessons: seq<Lesson>): (r: seq<Scored>)
    ensures |r| == if |Candidates(lessons)| < 3 then |Candidates(lessons)| else 3
    ensures Ranked(r)
    ensures multiset(r) <= multiset(Candidates(lessons))
    ensures forall x, y :: x in multiset(Candidates(lessons)) - multiset(r) && y in r ==> !Outranks(x, y)
    ensures r <= SortRanked(Candidates(lessons))
  {
    var sorted := SortRanked(Candidates(lessons));
    TakeOfRanked(sorted, 3);
    Take(sorted, 3)
  }

  /** Ties are cut in candidate order: of the candidates sharing a (matchScore, likes) key,
      those kept are the earliest ones. */
  lemma TopThreeTies(lessons: seq<Lesson>, score: int, likes: int)
    ensures Filter(TopThree(lessons), HasKey(score, likes)) <= Filter(Candidates(lessons), HasKey(score, likes))
  {
    var cands := Candidates(lessons);
    FilterPrefix(TopThree(lessons), SortRanked(cands), HasKey(score, likes));
    SortStable(cands, score, likes);
  }

  /** The candidates are as many as the uncompleted lessons. */
  lemma CandidateCount(lessons: seq<Lesson>)
    ensures |Candidates(lessons)| == |Filter(lessons, IsUncompleted)|
  {
    var cands := Candidates(lessons);
    assert |cands| == |LessonsOf(cands)|;
  }

  /** Every element of the cut list is an uncompleted lesson of the catalogue. */
  lemma TopThreeUncompleted(lessons: seq<Lesson>)
    ensures var top := TopThree(lessons);
      forall i :: 0 <= i < |top| ==> top[i].lesson in lessons && !top[i].lesson.completed
  {
    var cands := Candidates(lessons);
    var top := TopThree(lessons);
    forall i | 0 <= i < |top|
      ensures top[i].lesson in lessons && !top[i].lesson.completed
    {
      assert top[i] in multiset(top);
      assert top[i] in multiset(cands);
    }
  }

  lemma LessonsOfCut(lessons: seq<Lesson>, top: seq<Scored>, n: nat)
    requires |top| == if n < 3 then n else 3
    requires forall i :: 0 <= i < |top| ==> top[i].lesson in lessons && !top[i].lesson.completed
    ensures var r := LessonsOf(top);
      |r| == (if n < 3 then n else 3) && forall l :: l in r ==> l in lessons && !l.completed
  {
  }

  /** `recommendedLessons`: the lessons of the first three ranked candidates. At most three,
      as many as there are uncompleted lessons up to three, never a completed lesson. */
  function RecommendedLessons(lessons: seq<Lesson>): (r: seq<Lesson>)
    ensures |r| == if |Filter(lessons, IsUncompleted)| < 3 then |Filter(lessons, IsUncompleted)| else 3
    ensures forall l :: l in r ==> l in lessons && !l.completed
  {
    CandidateCount(lessons);
    TopThreeUncompleted(lessons);
    LessonsOfCut(lessons, TopThree(lessons), |Filter(lessons, IsUncompleted)|);
    LessonsOf(TopThree(lessons))
  }

  /** With nothing completed the candidates are every lesson, in catalogue order, scored 0. */
  lemma CandidatesWhenNothingCompleted(lessons: seq<Lesson>)
    requires forall l :: l in lessons ==> !l.completed
    ensures Candidates(lessons) == seq(|lessons|, i requires 0 <= i < |lessons| => Scored(lessons[i], 0))
  {
    FilterKeepsNone(lessons, IsCompleted);
  }

  /** With nothing completed every candidate scores 0. */
  lemma UnscoredWhenNothingCompleted(lessons: seq<Lesson>)
    requires forall l :: l in lessons ==> !l.completed
    ensures forall x :: x in multiset(Candidates(lessons)) ==> x.matchScore == 0
  {
    FilterKeepsNone(lessons, IsCompleted);
  }

  /** The lessons with a given number of likes. */
  function HasLikes(likes: int): Lesson -> bool {
    (l: Lesson) => l.likes == likes
  }

  lemma LessonsOfPrefix(a: seq<Scored>, b: seq<Scored>)
    requires a <= b
    ensures LessonsOf(a) <= LessonsOf(b)
  {
  }

  lemma LessonsOfCons(x: Scored, s: seq<Scored>)
    ensures LessonsOf([x] + s) == [x.lesson] + LessonsOf(s)
  {
  }

  /** Over unscored entries, picking one likes count commutes with taking the lessons. */
  lemma {:induction false} LessonsOfFilter(s: seq<Scored>, likes: int)
    requires forall i :: 0 <= i < |s| ==> s[i].matchScore == 0
    ensures Filter(LessonsOf(s), HasLikes(likes)) == LessonsOf(Filter(s, HasKey(0, likes)))
    decreases |s|
  {
    if s != [] {
      var x := s[0];
      var ls := LessonsOf(s);
      assert s == [x] + s[1..];
      LessonsOfCons(x, s[1..]);
      assert ls[0] == x.lesson && ls[1..] == LessonsOf(s[1..]);
      LessonsOfFilter(s[1..], likes);
      assert HasLikes(likes)(x.lesson) == HasKey(0, likes)(x);
      if HasKey(0, likes)(x) {
        LessonsOfCons(x, Filter(s[1..], HasKey(0, likes)));
      }
    }
  }

  /** With nothing completed, lessons with equal likes are recommended in catalogue order, and
      those of them left out come later in the catalogue than those kept. */
  lemma RecommendedTies(lessons: seq<Lesson>, likes: int)
    requires forall l :: l in lessons ==> !l.completed
    ensures Filter(RecommendedLessons(lessons), HasLikes(likes)) <= Filter(lessons, HasLikes(likes))
  {
    var cands := Candidates(lessons);
    var top := TopThree(lessons);
    UnscoredWhenNothingCompleted(lessons);
    FilterKeepsAll(lessons, IsUncompleted);
    assert forall i :: 0 <= i < |cands| ==> cands[i] in multiset(cands);
    assert forall i :: 0 <= i < |top| ==> top[i] in multiset(cands);
    TopThreeTies(lessons, 0, likes);
    LessonsOfFilter(top, likes);
    LessonsOfFilter(cands, likes);
    LessonsOfPrefix(Filter(top, HasKey(0, likes)), Filter(cands, HasKey(0, likes)));
  }

  /** With nothing completed the list is non-increasing in likes, and no lesson left out has
      more likes than one kept. */
  lemma MostLiked(lessons: seq<Lesson>)
    requires forall l :: l in lessons ==> !l.completed
    ensures var r := RecommendedLessons(lessons);
      (forall i, j :: 0 <= i < j < |r| ==> r[i].likes >= r[j].likes) &&
      forall x :: x in multiset(Candidates(lessons)) - multiset(TopThree(lessons)) ==>
        forall l :: l in r ==> x.lesson.likes <= l.likes
  {
    UnscoredWhenNothingCompleted(lessons);
    var cands := Candidates(lessons);
    var top := TopThree(lessons);
    var r := RecommendedLessons(lessons);
    assert forall i :: 0 <= i < |top| ==> top[i] in multiset(cands);
    forall i, j | 0 <= i < j < |r|
      ensures r[i].likes >= r[j].likes
    {
      assert !Outranks(top[j], top[i]);
    }
    forall x: Scored, l: Lesson | x in multiset(cands) - multiset(top) && l in r
      ensures x.lesson.likes <= l.likes
    {
      var j :| 0 <= j < |r| && r[j] == l;
      assert top[j] in top;
      assert !Outranks(x, top[j]);
    }
  }

  /** `RecommendedTies` for every likes count at once. */
  lemma AllTiesInOrder(lessons: seq<Lesson>)
    requires forall l :: l in lessons ==> !l.completed
    ensures forall likes :: Filter(RecommendedLessons(lessons), HasLikes(likes)) <= Filter(lessons, HasLikes(likes))
  {
    forall likes
      ensures Filter(RecommendedLessons(lessons), HasLikes(likes)) <= Filter(lessons, HasLikes(likes))
    {
      RecommendedTies(lessons, likes);
    }
  }

  /** With nothing completed the list is the most-liked lessons: non-increasing in likes,
      no lesson left out has more likes than one kept, and ties follow catalogue order. */
  lemma RecommendedByLikes(lessons: seq<Lesson>)
    requires forall l :: l in lessons ==> !l.completed
    ensures var r := RecommendedLessons(lessons);
      (forall i, j :: 0 <= i < j < |r| ==> r[i].likes >= r[j].likes) &&
      (forall x :: x in multiset(Candidates(lessons)) - multiset(TopThree(lessons)) ==>
        forall l :: l in r ==> x.lesson.likes <= l.likes) &&
      forall likes :: Filter(r, HasLikes(likes)) <= Filter(lessons, HasLikes(likes))
  {
    MostLiked(lessons);
    AllTiesInOrder(lessons);
  }
}
