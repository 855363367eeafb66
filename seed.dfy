/** Facts about the seed catalogue the store starts with. */
module Seed {
  import opened Seqs
  import opened Text
  import opened Lessons
  import opened Recommend

  /** No `p` or `P` in `s` is followed by an `h` or `H`. */
  predicate NoPhStart(s: string) {
    forall i :: 0 <= i < |s| - 1 ==> !(s[i] in "pP" && s[i + 1] in "hH")
  }

  lemma NoPhStartConcat(a: string, b: string)
    requires NoPhStart(a) && NoPhStart(b)
    requires a != [] && b != [] && !(a[|a| - 1] in "pP" && b[0] in "hH")
    ensures NoPhStart(a + b)
  {
    var s := a + b;
    forall i | 0 <= i < |s| - 1
      ensures !(s[i] in "pP" && s[i + 1] in "hH")
    {
      if i < |a| - 1 {
        assert s[i] == a[i] && s[i + 1] == a[i + 1];
      } else if i == |a| - 1 {
        assert s[i] == a[i] && s[i + 1] == b[0];
      } else {
        assert s[i] == b[i - |a|] && s[i + 1] == b[i + 1 - |a|];
      }
    }
  }

  /** A seed text in which no `p` or `P` is followed by an `h` or `H` does not match the
      search term "photo". */
  lemma NoPhoto(text: string)
    requires NoPhStart(text)
    ensures !Includes(Lower(text), Lower("photo"))
  {
    assert Lower("photo") == "photo";
    var lowered := Lower(text);
    forall i | 0 <= i < |lowered| - 1
      ensures lowered[i] != 'p' || lowered[i + 1] != 'h'
    {
      assert lowered[i] == LowerChar(text[i]) && lowered[i + 1] == LowerChar(text[i + 1]);
    }
    NotIncludesWithoutPair(lowered, "photo");
  }

  /** `NoPhoto` for a text given as four short pieces, each checked on its own. */
  lemma NoPhoto4(a: string, b: string, c: string, d: string)
    requires a != [] && b != [] && c != [] && d != []
    requires NoPhStart(a) && NoPhStart(b) && NoPhStart(c) && NoPhStart(d)
    requires !(a[|a| - 1] in "pP" && b[0] in "hH")
    requires !(b[|b| - 1] in "pP" && c[0] in "hH")
    requires !(c[|c| - 1] in "pP" && d[0] in "hH")
    ensures !Includes(Lower(a + b + c + d), Lower("photo"))
  {
    NoPhStartConcat(a, b);
    NoPhStartConcat(a + b, c);
    NoPhStartConcat(a + b + c, d);
    NoPhoto(a + b + c + d);
  }

  /** The photosynthesis title contains "photo" once lower-cased. */
  lemma PhotoInTitle(title: string)
    requires title == "Science - Introduction to Photosynthesis"
    ensures Includes(Lower(title), Lower("photo"))
  {
    var lowered := Lower(title);
    assert lowered[26..31] == "photo" by {
      assert title[26] == 'P' && title[27] == 'h' && title[28] == 'o' && title[29] == 't' && title[30] == 'o';
      assert lowered[26] == LowerChar(title[26]) && lowered[27] == LowerChar(title[27]);
      assert lowered[28] == LowerChar(title[28]) && lowered[29] == LowerChar(title[29]);
      assert lowered[30] == LowerChar(title[30]);
    }
    assert Lower("photo") == "photo";
    assert OccursAt(lowered, "photo", 26);
  }

  lemma SeedText1()
    ensures DefaultLessons[0].title == "Math Basics - Addition and Subtraction"
    ensures DefaultLessons[0].description == "Learn the fundamental " + "operations of addition " + "and subtraction with " + "interactive examples."
  {
  }

  lemma NoPhotoInTitle1()
    ensures !Includes(Lower("Math Basics - Addition and Subtraction"), Lower("photo"))
  {
    NoPhoto("Math Basics - Addition and Subtraction");
  }

  lemma NoPhotoInDescription1()
    ensures !Includes(Lower("Learn the fundamental " + "operations of addition " + "and subtraction with " + "interactive examples."), Lower("photo"))
  {
    NoPhoto4("Learn the fundamental ", "operations of addition ", "and subtraction with ", "interactive examples.");
  }

  lemma PhotoNotInLesson1()
    ensures !MatchesSearch(DefaultLessons[0], "photo")
  {
    SeedText1();
    NoPhotoInTitle1();
    NoPhotoInDescription1();
  }

  lemma SeedText2()
    ensures DefaultLessons[1].title == "English Grammar - Nouns and Pronouns"
    ensures DefaultLessons[1].description == "Understand the building " + "blocks of sentences " + "with this introduction " + "to nouns and pronouns."
  {
  }

  lemma NoPhotoInTitle2()
    ensures !Includes(Lower("English Grammar - Nouns and Pronouns"), Lower("photo"))
  {
    NoPhoto("English Grammar - Nouns and Pronouns");
  }

  lemma NoPhotoInDescription2()
    ensures !Includes(Lower("Understand the building " + "blocks of sentences " + "with this introduction " + "to nouns and pronouns."), Lower("photo"))
  {
    NoPhoto4("Understand the building ", "blocks of sentences ", "with this introduction ", "to nouns and pronouns.");
  }

  lemma PhotoNotInLesson2()
    ensures !MatchesSearch(DefaultLessons[1], "photo")
  {
    SeedText2();
    NoPhotoInTitle2();
    NoPhotoInDescription2();
  }

  lemma SeedText3()
    ensures DefaultLessons[2].title == "Science - Introduction to Photosynthesis"
    ensures DefaultLessons[2].description == "Explore how plants " + "convert sunlight into " + "energy through the " + "process of photosynthesis."
  {
  }

  lemma PhotoInLesson3()
    ensures MatchesSearch(DefaultLessons[2], "photo")
  {
    SeedText3();
    PhotoInTitle("Science - Introduction to Photosynthesis");
  }

  lemma SeedText4()
    ensures DefaultLessons[3].title == "History - Ancient Civilizations"
    ensures DefaultLessons[3].description == "Journey through time " + "to discover the wonders " + "of ancient Egypt, " + "Greece, and Rome."
  {
  }

  lemma NoPhotoInTitle4()
    ensures !Includes(Lower("History - Ancient Civilizations"), Lower("photo"))
  {
    NoPhoto("History - Ancient Civilizations");
  }

  lemma NoPhotoInDescription4()
    ensures !Includes(Lower("Journey through time " + "to discover the wonders " + "of ancient Egypt, " + "Greece, and Rome."), Lower("photo"))
  {
    NoPhoto4("Journey through time ", "to discover the wonders ", "of ancient Egypt, ", "Greece, and Rome.");
  }

  lemma PhotoNotInLesson4()
    ensures !MatchesSearch(DefaultLessons[3], "photo")
  {
    SeedText4();
    NoPhotoInTitle4();
    NoPhotoInDescription4();
  }

  lemma SeedText5()
    ensures DefaultLessons[4].title == "Computer Science - Algorithms Basics"
    ensures DefaultLessons[4].description == "Learn the fundamentals " + "of algorithmic " + "thinking and problem-" + "solving techniques."
  {
  }

  lemma NoPhotoInTitle5()
    ensures !Includes(Lower("Computer Science - Algorithms Basics"), Lower("photo"))
  {
    NoPhoto("Computer Science - Algorithms Basics");
  }

  lemma NoPhotoInDescription5()
    ensures !Includes(Lower("Learn the fundamentals " + "of algorithmic " + "thinking and problem-" + "solving techniques."), Lower("photo"))
  {
    NoPhoto4("Learn the fundamentals ", "of algorithmic ", "thinking and problem-", "solving techniques.");
  }

  lemma PhotoNotInLesson5()
    ensures !MatchesSearch(DefaultLessons[4], "photo")
  {
    SeedText5();
    NoPhotoInTitle5();
    NoPhotoInDescription5();
  }

  /** Apart from the photosynthesis lesson, no seed lesson matches "photo". */
  lemma PhotoOnlyInLesson3()
    ensures forall j :: 0 <= j < |DefaultLessons| && j != 2 ==> !Shown("photo", All)(DefaultLessons[j])
  {
    PhotoNotInLesson1();
    PhotoNotInLesson2();
    PhotoNotInLesson4();
    PhotoNotInLesson5();
  }

  /** Searching the seed catalogue for "photo" finds only the photosynthesis lesson. */
  lemma SeedPhotoFilter()
    ensures Filter(DefaultLessons, Shown("photo", All)) == [DefaultLessons[2]]
  {
    PhotoInLesson3();
    PhotoOnlyInLesson3();
    FilterSingle(DefaultLessons, Shown("photo", All), 2);
  }

  lemma SeedPhoto()
    ensures FilteredLessons(DefaultLessons, "photo", All) == [DefaultLessons[2]]
  {
    SeedPhotoFilter();
    var p := Shown("photo", All);
    assert FilteredLessons(DefaultLessons, "photo", All) == Filter(DefaultLessons, p);
  }

  // ---------------------------------------------------------------------------------
  // The seed recommendation
  // ---------------------------------------------------------------------------------

  /** Five candidates whose keys are ordered 4, 2, 3, 0, 1 are all distinct. */
  lemma FiveTieFree(c: seq<Scored>)
    requires |c| == 5
    requires Outranks(c[4], c[2]) && Outranks(c[2], c[3]) && Outranks(c[3], c[0]) && Outranks(c[0], c[1])
    ensures StrictlyRanked([c[4], c[2], c[3], c[0], c[1]])
  {
  }

  lemma FivePermuted(c: seq<Scored>)
    requires |c| == 5
    ensures multiset([c[4], c[2], c[3], c[0], c[1]]) == multiset(c)
  {
    assert c == [c[0]] + [c[1]] + [c[2]] + [c[3]] + [c[4]];
    var t := [c[4]] + [c[2]] + [c[3]] + [c[0]] + [c[1]];
    assert [c[4], c[2], c[3], c[0], c[1]] == t;
    assert multiset(t) == multiset([c[4]]) + multiset([c[2]]) + multiset([c[3]]) + multiset([c[0]]) + multiset([c[1]]);
    assert multiset(c) == multiset([c[0]]) + multiset([c[1]]) + multiset([c[2]]) + multiset([c[3]]) + multiset([c[4]]);
  }

  /** Sorting five candidates with distinct keys puts them in key order. */
  lemma SortFive(c: seq<Scored>)
    requires |c| == 5
    requires Outranks(c[4], c[2]) && Outranks(c[2], c[3]) && Outranks(c[3], c[0]) && Outranks(c[0], c[1])
    ensures SortRanked(c) == [c[4], c[2], c[3], c[0], c[1]]
  {
    FiveTieFree(c);
    FivePermuted(c);
    RankedUnique([c[4], c[2], c[3], c[0], c[1]], SortRanked(c));
  }

  lemma UnscoredFive(lessons: seq<Lesson>, c: seq<Scored>)
    requires |lessons| == 5
    requires c == seq(|lessons|, i requires 0 <= i < |lessons| => Scored(lessons[i], 0))
    ensures |c| == 5 && forall k :: 0 <= k < 5 ==> c[k] == Scored(lessons[k], 0)
  {
  }

  lemma RankOfFive(lessons: seq<Lesson>, c: seq<Scored>)
    requires |lessons| == 5
    requires lessons[4].likes > lessons[2].likes > lessons[3].likes > lessons[0].likes > lessons[1].likes
    requires |c| == 5 && forall k :: 0 <= k < 5 ==> c[k] == Scored(lessons[k], 0)
    ensures Outranks(c[4], c[2]) && Outranks(c[2], c[3]) && Outranks(c[3], c[0]) && Outranks(c[0], c[1])
  {
  }

  lemma CandidatesFive(lessons: seq<Lesson>)
    requires |lessons| == 5 && forall l :: l in lessons ==> !l.completed
    requires lessons[4].likes > lessons[2].likes > lessons[3].likes > lessons[0].likes > lessons[1].likes
    ensures var c := Candidates(lessons);
      |c| == 5 && (forall k :: 0 <= k < 5 ==> c[k] == Scored(lessons[k], 0)) &&
      Outranks(c[4], c[2]) && Outranks(c[2], c[3]) && Outranks(c[3], c[0]) && Outranks(c[0], c[1])
  {
    var c := Candidates(lessons);
    CandidatesWhenNothingCompleted(lessons);
    UnscoredFive(lessons, c);
    RankOfFive(lessons, c);
  }

  lemma SortedFive(lessons: seq<Lesson>)
    requires |lessons| == 5 && forall l :: l in lessons ==> !l.completed
    requires lessons[4].likes > lessons[2].likes > lessons[3].likes > lessons[0].likes > lessons[1].likes
    ensures var c := Candidates(lessons); |c| == 5 && SortRanked(c) == [c[4], c[2], c[3], c[0], c[1]]
  {
    CandidatesFive(lessons);
    SortFive(Candidates(lessons));
  }

  lemma TakeThreeOfFive(s: seq<Scored>, a: Scored, b: Scored, c: Scored, d: Scored, e: Scored)
    requires s == [a, b, c, d, e]
    ensures Take(s, 3) == [a, b, c]
  {
  }

  lemma TopThreeFive(lessons: seq<Lesson>)
    requires |lessons| == 5 && forall l :: l in lessons ==> !l.completed
    requires lessons[4].likes > lessons[2].likes > lessons[3].likes > lessons[0].likes > lessons[1].likes
    ensures var c := Candidates(lessons); |c| == 5 && TopThree(lessons) == [c[4], c[2], c[3]]
  {
    SortedFive(lessons);
    var c := Candidates(lessons);
    TakeThreeOfFive(SortRanked(c), c[4], c[2], c[3], c[0], c[1]);
  }

  lemma LessonsOfThree(t: seq<Scored>, a: Scored, b: Scored, c: Scored)
    requires t == [a, b, c]
    ensures LessonsOf(t) == [a.lesson, b.lesson, c.lesson]
  {
  }

  /** Five uncompleted lessons with distinct likes: the three most liked, most liked first. */
  lemma RecommendedFive(lessons: seq<Lesson>)
    requires |lessons| == 5 && forall l :: l in lessons ==> !l.completed
    requires lessons[4].likes > lessons[2].likes > lessons[3].likes > lessons[0].likes > lessons[1].likes
    ensures RecommendedLessons(lessons) == [lessons[4], lessons[2], lessons[3]]
  {
    CandidatesFive(lessons);
    TopThreeFive(lessons);
    var c := Candidates(lessons);
    LessonsOfThree(TopThree(lessons), c[4], c[2], c[3]);
  }

  /** The seed catalogue, before anything is completed, recommends lessons "5", "3" and "4". */
  lemma SeedRecommended()
    ensures RecommendedLessons(DefaultLessons) == [DefaultLessons[4], DefaultLessons[2], DefaultLessons[3]]
    ensures [DefaultLessons[4].id, DefaultLessons[2].id, DefaultLessons[3].id] == ["5", "3", "4"]
  {
    RecommendedFive(DefaultLessons);
  }
}
