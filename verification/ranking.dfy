/** The ranking policy of `find_matches` (backend/server.py:407-446): score
    every mentor against the mentee, keep the matches above 0.3, sort them by
    score from high to low keeping discovery order among equal scores, store
    the first five without their display columns and return the first ten. */
module Ranking {
  import opened Wrappers
  import opened Json
  import Scoring

  /** A stored mentor document: the columns copied into a match for display,
      and the keys the scorer reads. `industry` and `experience` are the
      document's `industry` and `experience_years` keys, the same ones the
      scorer reads through `profile`; no property here depends on how the
      two copies relate. */
  datatype Mentor = Mentor(
    id: Value, name: Value, position: Value, industry: Value, experience: Value,
    profile: Scoring.Profile)

  /** A match record as `find_matches` builds it. The score is the rounded
      one, in hundredths; the status is always "pending". */
  datatype Match = Match(
    id: string, mentorId: Value, menteeId: string, score: int,
    reasons: seq<Scoring.Reason>, createdAt: Value,
    mentorName: Value, mentorPosition: Value, mentorIndustry: Value, mentorExperience: Value)

  /** The response: the matches shown and the documents stored. */
  datatype Outcome = Outcome(shown: seq<Match>, stored: seq<seq<Entry>>)

  const MentorFetchLimit := 1000   // `.to_list(1000)`
  const Threshold := 30            // 0.3, in hundredths
  const StoredCount := 5
  const ShownCount := 10

  /** The display-only columns left out of a stored match. */
  const DisplayKeys: set<string> := {"mentor_name", "mentor_position", "mentor_industry", "mentor_experience"}

  /** The keys a stored match keeps, in order. */
  const StoredKeys: seq<string> := ["id", "mentor_id", "mentee_id", "match_score", "match_reasons", "status", "created_at"]

  function Min(a: int, b: int): int {
    if a < b then a else b
  }

  /** The columns of a match that are stored, in the order the source
      writes them. */
  function Record(m: Match): seq<Entry> {
    [ Entry("id", Str(m.id)),
      Entry("mentor_id", m.mentorId),
      Entry("mentee_id", Str(m.menteeId)),
      Entry("match_score", Real(m.score as real / 100.0)),
      Entry("match_reasons", List(seq(|m.reasons|, i requires 0 <= i < |m.reasons| =>
        Str(Scoring.ReasonText(m.reasons[i]))))),
      Entry("status", Str("pending")),
      Entry("created_at", m.createdAt) ]
  }

  /** The columns copied from the mentor for display. */
  function Display(m: Match): seq<Entry> {
    [ Entry("mentor_name", m.mentorName),
      Entry("mentor_position", m.mentorPosition),
      Entry("mentor_industry", m.mentorIndustry),
      Entry("mentor_experience", m.mentorExperience) ]
  }

  /** A match as the response shows it. */
  function Document(m: Match): seq<Entry> {
    Record(m) + Display(m)
  }

  lemma RecordKeys(m: Match)
    ensures Keys(Record(m)) == StoredKeys
    ensures forall i | 0 <= i < |Record(m)| :: Record(m)[i].key !in DisplayKeys
  {
    assert forall i | 0 <= i < |StoredKeys| :: StoredKeys[i] !in DisplayKeys;
  }

  lemma DisplayKeysDropped(m: Match)
    ensures forall i | 0 <= i < |Display(m)| :: Display(m)[i].key in DisplayKeys
  {
  }

  /** The document written to the matches collection: the match without its
      four display columns, every other column as it was. */
  function Stored(m: Match): (d: seq<Entry>)
    ensures d == Record(m)
    ensures Keys(d) == StoredKeys
    ensures forall k | k !in DisplayKeys :: Get(d, k) == Get(Document(m), k)
    ensures forall k | k in DisplayKeys :: Get(d, k).None?
  {
    var d := Without(Document(m), DisplayKeys);
    RecordKeys(m);
    DisplayKeysDropped(m);
    WithoutTail(Record(m), Display(m), DisplayKeys);
    forall k
      ensures Get(d, k) == if k in DisplayKeys then None else Get(Document(m), k)
    {
      GetWithout(Document(m), DisplayKeys, k);
    }
    d
  }

  /** The mentor documents the query returns: the first thousand. */
  function Fetched(mentors: seq<Mentor>): (r: seq<Mentor>)
    ensures |r| == Min(|mentors|, MentorFetchLimit)
    ensures r == mentors[..|r|]
  {
    if |mentors| <= MentorFetchLimit then mentors else mentors[..MentorFetchLimit]
  }

  /** The match built for the mentor at position `i`. `round(i)` is the
      rounding of that mentor's score, `ids(i)` its fresh identifier and
      `clock(i)` its clock reading. The rounding is taken per mentor: the
      float sum the source rounds depends on which terms it added, so two
      mentors with the same exact score may round apart. */
  function MatchFor(
    menteeId: string, mentee: Scoring.Profile, mentors: seq<Mentor>, i: nat,
    round: nat -> int -> int, ids: nat -> string, clock: nat -> Value): (m: Match)
    requires i < |mentors|
    ensures m.id == ids(i) && m.createdAt == clock(i)
    ensures m.mentorId == mentors[i].id && m.menteeId == menteeId
    ensures m.mentorName == mentors[i].name && m.mentorPosition == mentors[i].position
    ensures m.mentorIndustry == mentors[i].industry && m.mentorExperience == mentors[i].experience
    ensures m.reasons == Scoring.Score(mentors[i].profile, mentee).reasons
    ensures Scoring.Raises(mentors[i].profile, mentee) ==>
      m.score == 50 && m.reasons == [Scoring.BasicCompatibility]
    ensures !Scoring.Raises(mentors[i].profile, mentee) ==>
      Scoring.InSignalOrder(m.reasons) && |m.reasons| <= 5
    ensures (forall u :: Scoring.RoundsTo(u, round(i)(u))) ==>
      Scoring.RoundsTo(Scoring.Score(mentors[i].profile, mentee).units, m.score)
  {
    var mentor := mentors[i];
    var result := Scoring.Score(mentor.profile, mentee);
    Match(ids(i), mentor.id, menteeId, Scoring.MatchScore(mentor.profile, mentee, round(i)), result.reasons, clock(i),
          mentor.name, mentor.position, mentor.industry, mentor.experience)
  }

  /** The match built for every mentor, in mentor order. */
  function Built(
    menteeId: string, mentee: Scoring.Profile, mentors: seq<Mentor>,
    round: nat -> int -> int, ids: nat -> string, clock: nat -> Value): (r: seq<Match>)
    ensures |r| == |mentors|
    ensures forall i | 0 <= i < |mentors| :: r[i] == MatchFor(menteeId, mentee, mentors, i, round, ids, clock)
  {
    seq(|mentors|, i requires 0 <= i < |mentors| => MatchFor(menteeId, mentee, mentors, i, round, ids, clock))
  }

  /** The matches that clear the threshold, in their order. */
  function Above(ms: seq<Match>): (r: seq<Match>)
    ensures |r| <= |ms|
    ensures forall k | 0 <= k < |r| :: r[k].score > Threshold
  {
    if ms == [] then []
    else
      var m := ms[|ms| - 1];
      Above(ms[..|ms| - 1]) + (if m.score > Threshold then [m] else [])
  }

  /** The loop of `find_matches` over the mentors. */
  method CollectCandidates(
    menteeId: string, mentee: Scoring.Profile, mentors: seq<Mentor>,
    round: nat -> int -> int, ids: nat -> string, clock: nat -> Value) returns (matches: seq<Match>)
    ensures matches == Above(Built(menteeId, mentee, mentors, round, ids, clock))
  {
    ghost var built := Built(menteeId, mentee, mentors, round, ids, clock);
    matches := [];
    var i := 0;
    while i < |mentors|
      invariant 0 <= i <= |mentors|
      invariant matches == Above(built[..i])
    {
      var result := Scoring.Score(mentors[i].profile, mentee);
      var score := Scoring.MatchScore(mentors[i].profile, mentee, round(i));
      assert built[..i + 1][..i] == built[..i];
      if score > Threshold {
        var mentor := mentors[i];
        matches := matches + [Match(ids(i), mentor.id, menteeId, score, result.reasons, clock(i),
                                    mentor.name, mentor.position, mentor.industry, mentor.experience)];
      }
      i := i + 1;
    }
    assert built[..i] == built;
  }

  /** Exactly the matches that clear the threshold are kept. */
  lemma {:induction false} AboveExactly(ms: seq<Match>, m: Match)
    ensures m in Above(ms) <==> m in ms && m.score > Threshold
    decreases |ms|
  {
    if ms != [] {
      var init := ms[..|ms| - 1];
      AboveExactly(init, m);
      assert ms == init + [ms[|ms| - 1]];
    }
  }

  lemma {:induction false} WithScoreAppend(a: seq<Match>, b: seq<Match>, v: int)
    ensures WithScore(a + b, v) == WithScore(a, v) + WithScore(b, v)
    decreases |a|
  {
    if a == [] {
      assert a + b == b;
    } else {
      var x := a[0];
      assert a + b == [x] + (a[1..] + b);
      assert a == [x] + a[1..];
      WithScoreCons(x, a[1..] + b, v);
      WithScoreCons(x, a[1..], v);
      WithScoreAppend(a[1..], b, v);
      var h := if x.score == v then [x] else [];
      assert h + (WithScore(a[1..], v) + WithScore(b, v)) == (h + WithScore(a[1..], v)) + WithScore(b, v);
    }
  }

  lemma WithScoreSingle(m: Match, v: int)
    ensures WithScore([m], v) == if m.score == v then [m] else []
  {
    assert [m][1..] == [];
  }

  /** Filtering keeps every score class above the threshold whole and in
      order, and drops the others. */
  lemma {:induction false} AboveClasses(ms: seq<Match>, v: int)
    ensures WithScore(Above(ms), v) == if v > Threshold then WithScore(ms, v) else []
    decreases |ms|
  {
    if ms != [] {
      var init := ms[..|ms| - 1];
      var m := ms[|ms| - 1];
      var tail := if m.score > Threshold then [m] else [];
      assert Above(ms) == Above(init) + tail;
      assert ms == init + [m];
      AboveClasses(init, v);
      WithScoreAppend(Above(init), tail, v);
      WithScoreAppend(init, [m], v);
      WithScoreSingle(m, v);
    }
  }

  // ---------------------------------------------------------------------
  // Sorting by score, high to low, stably

  predicate Sorted(ms: seq<Match>) {
    forall i, j | 0 <= i < j < |ms| :: ms[i].score >= ms[j].score
  }

  /** The matches of score `v`, in their order in `ms`. */
  function WithScore(ms: seq<Match>, v: int): seq<Match> {
    if ms == [] then [] else (if ms[0].score == v then [ms[0]] else []) + WithScore(ms[1..], v)
  }

  /** Puts `m` in front of the first match that does not score higher. */
  function Insert(m: Match, ms: seq<Match>): (r: seq<Match>)
    ensures multiset(r) == multiset(ms) + multiset{m}
    ensures Sorted(ms) ==> Sorted(r)
  {
    if ms == [] then [m]
    else if ms[0].score <= m.score then [m] + ms
    else
      var rest := Insert(m, ms[1..]);
      assert ms == [ms[0]] + ms[1..];
      InsertBelow(m, ms, rest);
      [ms[0]] + rest
  }

  lemma {:induction false} InsertBelow(m: Match, ms: seq<Match>, rest: seq<Match>)
    requires ms != [] && ms[0].score > m.score
    requires multiset(rest) == multiset(ms[1..]) + multiset{m}
    requires Sorted(ms) ==> Sorted(rest)
    ensures multiset([ms[0]] + rest) == multiset(ms) + multiset{m}
    ensures Sorted(ms) ==> Sorted([ms[0]] + rest)
  {
    assert ms == [ms[0]] + ms[1..];
    if Sorted(ms) {
      forall j | 0 <= j < |rest|
        ensures ms[0].score >= rest[j].score
      {
        assert rest[j] in multiset(rest);
        if rest[j] != m {
          assert rest[j] in multiset(ms[1..]);
          var k :| 0 <= k < |ms[1..]| && ms[1..][k] == rest[j];
          assert ms[k + 1] == rest[j];
        }
      }
    }
  }

  /** `matches.sort(key=score, reverse=True)`: Python's sort is stable, also
      in reverse, so equal scores keep their order. */
  function SortByScore(ms: seq<Match>): (r: seq<Match>)
    ensures Sorted(r)
    ensures multiset(r) == multiset(ms)
  {
    if ms == [] then [] else
      assert ms == [ms[0]] + ms[1..];
      Insert(ms[0], SortByScore(ms[1..]))
  }

  lemma WithScoreCons(x: Match, ms: seq<Match>, v: int)
    ensures WithScore([x] + ms, v) == (if x.score == v then [x] else []) + WithScore(ms, v)
  {
    assert ([x] + ms)[0] == x;
    assert ([x] + ms)[1..] == ms;
  }

  lemma {:induction false} WithScoreInsert(m: Match, ms: seq<Match>, v: int)
    ensures WithScore(Insert(m, ms), v) == (if m.score == v then [m] else []) + WithScore(ms, v)
    decreases |ms|
  {
    if ms == [] {
      WithScoreCons(m, ms, v);
    } else if ms[0].score <= m.score {
      WithScoreCons(m, ms, v);
    } else {
      var x := ms[0];
      var rest := Insert(m, ms[1..]);
      WithScoreInsert(m, ms[1..], v);
      WithScoreCons(x, rest, v);
      WithScoreCons(x, ms[1..], v);
      assert ms == [x] + ms[1..];
      if m.score == v {
        assert x.score != v;
        assert WithScore([x] + rest, v) == WithScore(rest, v);
        assert WithScore(ms, v) == WithScore(ms[1..], v);
      } else if x.score == v {
        assert WithScore(rest, v) == WithScore(ms[1..], v);
      } else {
        assert WithScore(rest, v) == WithScore(ms[1..], v);
      }
    }
  }

  /** Sorting keeps, for every score, the matches of that score in their
      original order: ties keep discovery order. */
  lemma {:induction false} SortIsStable(ms: seq<Match>, v: int)
    ensures WithScore(SortByScore(ms), v) == WithScore(ms, v)
    decreases |ms|
  {
    if ms != [] {
      SortIsStable(ms[1..], v);
      WithScoreInsert(ms[0], SortByScore(ms[1..]), v);
    }
  }

  lemma {:induction false} WithScoreEmpty(ms: seq<Match>)
    requires ms != []
    ensures WithScore(ms, ms[0].score) != []
  {
  }

  lemma {:induction false} WithScoreHead(ms: seq<Match>)
    requires ms != []
    ensures WithScore(ms, ms[0].score)[0] == ms[0]
  {
  }

  lemma {:induction false} WithScoreMember(ms: seq<Match>, v: int, x: Match)
    requires x in WithScore(ms, v)
    ensures x in ms && x.score == v
    decreases |ms|
  {
    if ms[0].score == v && x == ms[0] {
    } else {
      WithScoreMember(ms[1..], v, x);
    }
  }

  lemma {:induction false} SortedHeadHighest(ms: seq<Match>, x: Match)
    requires Sorted(ms) && x in ms
    ensures ms[0].score >= x.score
  {
    var j :| 0 <= j < |ms| && ms[j] == x;
    if j > 0 {
      assert ms[0].score >= ms[j].score;
    }
  }

  /** Two sorted sequences with the same first score class start alike. */
  lemma {:induction false} SortedSameHead(a: seq<Match>, b: seq<Match>)
    requires Sorted(a) && Sorted(b) && a != [] && b != []
    requires forall v :: WithScore(a, v) == WithScore(b, v)
    ensures a[0] == b[0]
  {
    var va := a[0].score;
    var vb := b[0].score;
    WithScoreEmpty(a);
    WithScoreEmpty(b);
    assert WithScore(b, va) == WithScore(a, va);
    assert WithScore(a, vb) == WithScore(b, vb);
    WithScoreMember(b, va, WithScore(b, va)[0]);
    SortedHeadHighest(b, WithScore(b, va)[0]);
    WithScoreMember(a, vb, WithScore(a, vb)[0]);
    SortedHeadHighest(a, WithScore(a, vb)[0]);
    WithScoreHead(a);
    WithScoreHead(b);
  }

  /** A sorted sequence is fixed by its score classes: there is exactly one
      stable high-to-low order of a list of matches. */
  lemma {:induction false} SortedByClassesUnique(a: seq<Match>, b: seq<Match>)
    requires Sorted(a) && Sorted(b)
    requires forall v :: WithScore(a, v) == WithScore(b, v)
    ensures a == b
    decreases |a|
  {
    if a == [] {
      if b != [] {
        WithScoreEmpty(b);
      }
    } else if b == [] {
      WithScoreEmpty(a);
    } else {
      SortedSameHead(a, b);
      forall v
        ensures WithScore(a[1..], v) == WithScore(b[1..], v)
      {
        assert WithScore(a, v) == (if a[0].score == v then [a[0]] else []) + WithScore(a[1..], v);
        assert WithScore(b, v) == (if b[0].score == v then [b[0]] else []) + WithScore(b[1..], v);
        var head := if a[0].score == v then [a[0]] else [];
        assert WithScore(a, v) == WithScore(b, v);
        assert (head + WithScore(a[1..], v))[|head|..] == WithScore(a[1..], v);
        assert (head + WithScore(b[1..], v))[|head|..] == WithScore(b[1..], v);
      }
      SortedByClassesUnique(a[1..], b[1..]);
      assert a == [a[0]] + a[1..] && b == [b[0]] + b[1..];
    }
  }

  /** The sort is the only stable high-to-low order: any sorted sequence with
      the same matches of each score, in the same order, is the sort. */
  lemma SortIsTheStableOrder(ms: seq<Match>, r: seq<Match>)
    requires Sorted(r)
    requires forall v :: WithScore(r, v) == WithScore(ms, v)
    ensures r == SortByScore(ms)
  {
    forall v
      ensures WithScore(r, v) == WithScore(SortByScore(ms), v)
    {
      SortIsStable(ms, v);
    }
    SortedByClassesUnique(r, SortByScore(ms));
  }

  // ---------------------------------------------------------------------
  // The whole policy

  /** The candidates of the mentors the query returns, in mentor order. */
  function Found(
    menteeId: string, mentee: Scoring.Profile, mentors: seq<Mentor>,
    round: nat -> int -> int, ids: nat -> string, clock: nat -> Value): (r: seq<Match>)
    ensures |r| <= MentorFetchLimit
  {
    Above(Built(menteeId, mentee, Fetched(mentors), round, ids, clock))
  }

  /** The candidates ranked: sorted high to low, the same matches, and the
      same order among equal scores. */
  function Ranked(
    menteeId: string, mentee: Scoring.Profile, mentors: seq<Mentor>,
    round: nat -> int -> int, ids: nat -> string, clock: nat -> Value): (r: seq<Match>)
    ensures Sorted(r)
    ensures |r| == |Found(menteeId, mentee, mentors, round, ids, clock)|
    ensures multiset(r) == multiset(Found(menteeId, mentee, mentors, round, ids, clock))
    ensures forall v :: WithScore(r, v) == WithScore(Found(menteeId, mentee, mentors, round, ids, clock), v)
    ensures forall i | 0 <= i < |r| :: r[i].score > Threshold
  {
    var candidates := Found(menteeId, mentee, mentors, round, ids, clock);
    var ranked := SortByScore(candidates);
    forall i | 0 <= i < |ranked|
      ensures ranked[i].score > Threshold
    {
      assert ranked[i] in multiset(candidates);
    }
    forall v
      ensures WithScore(ranked, v) == WithScore(candidates, v)
    {
      SortIsStable(candidates, v);
    }
    assert |ranked| == |candidates| by {
      assert |multiset(ranked)| == |ranked|;
    }
    ranked
  }

  /** `find_matches` once the mentee is loaded: the candidates ranked, the
      first five stored without their display columns and the first ten
      shown. */
  function FindMatches(
    menteeId: string, mentee: Scoring.Profile, mentors: seq<Mentor>,
    round: nat -> int -> int, ids: nat -> string, clock: nat -> Value): (r: Outcome)
    ensures |r.shown| == Min(|Found(menteeId, mentee, mentors, round, ids, clock)|, ShownCount)
    ensures r.shown == Ranked(menteeId, mentee, mentors, round, ids, clock)[..|r.shown|]
    ensures |r.stored| == Min(|r.shown|, StoredCount)
    ensures forall i | 0 <= i < |r.stored| :: r.stored[i] == Stored(r.shown[i])
    ensures forall i | 0 <= i < |r.shown| :: r.shown[i].score > Threshold
    ensures Sorted(r.shown)
  {
    var ranked := Ranked(menteeId, mentee, mentors, round, ids, clock);
    var shown := ranked[..Min(|ranked|, ShownCount)];
    var stored := seq(Min(|ranked|, StoredCount), i requires 0 <= i < Min(|ranked|, StoredCount) => Stored(ranked[i]));
    Outcome(shown, stored)
  }

  /** Every shown match is the match of one of the first thousand mentors:
      it carries that mentor's id, a fresh identifier and the reasons the
      scorer gave for that mentor. */
  lemma ShownComeFromMentors(
    menteeId: string, mentee: Scoring.Profile, mentors: seq<Mentor>,
    round: nat -> int -> int, ids: nat -> string, clock: nat -> Value, k: nat)
    requires k < |FindMatches(menteeId, mentee, mentors, round, ids, clock).shown|
    ensures var m := FindMatches(menteeId, mentee, mentors, round, ids, clock).shown[k];
            exists i | 0 <= i < |mentors| && i < MentorFetchLimit ::
              && m.mentorId == mentors[i].id
              && m.id == ids(i)
              && m.reasons == Scoring.Score(mentors[i].profile, mentee).reasons
  {
    var ranked := Ranked(menteeId, mentee, mentors, round, ids, clock);
    var m := FindMatches(menteeId, mentee, mentors, round, ids, clock).shown[k];
    var fetched := Fetched(mentors);
    var built := Built(menteeId, mentee, fetched, round, ids, clock);
    assert m == ranked[k];
    assert m in multiset(ranked);
    AboveExactly(built, m);
    var i :| 0 <= i < |built| && built[i] == m;
    assert fetched[i] == mentors[i];
  }

  /** A prefix of a sorted sequence holds its best elements. */
  lemma PrefixIsBest(ranked: seq<Match>, k: nat)
    requires Sorted(ranked) && k <= |ranked|
    ensures multiset(ranked[..k]) <= multiset(ranked)
    ensures forall x: Match | x in multiset(ranked) - multiset(ranked[..k]) ::
              forall j | 0 <= j < k :: x.score <= ranked[j].score
  {
    var shown := ranked[..k];
    var rest := ranked[k..];
    assert ranked == shown + rest;
    assert multiset(ranked) == multiset(shown) + multiset(rest);
    forall x: Match | x in multiset(ranked) - multiset(shown)
      ensures forall j | 0 <= j < k :: x.score <= ranked[j].score
    {
      assert x in multiset(rest);
      var t :| 0 <= t < |rest| && rest[t] == x;
      assert ranked[k + t] == x;
    }
  }

  /** The matches shown are the best candidates: they come from the
      candidates, and every candidate left out scores no higher than any
      shown. */
  lemma ShownAreTheBest(
    menteeId: string, mentee: Scoring.Profile, mentors: seq<Mentor>,
    round: nat -> int -> int, ids: nat -> string, clock: nat -> Value)
    ensures var found := Found(menteeId, mentee, mentors, round, ids, clock);
            var shown := FindMatches(menteeId, mentee, mentors, round, ids, clock).shown;
            multiset(shown) <= multiset(found) &&
            forall x: Match | x in multiset(found) - multiset(shown) ::
              forall j | 0 <= j < |shown| :: x.score <= shown[j].score
  {
    var ranked := Ranked(menteeId, mentee, mentors, round, ids, clock);
    var shown := FindMatches(menteeId, mentee, mentors, round, ids, clock).shown;
    PrefixIsBest(ranked, |shown|);
  }

  /** A mentor whose profile makes the scorer fail is scored 0.5 with the
      basic reason, which clears the threshold: such a mentor, if among the
      first thousand, is always a candidate. */
  lemma FailingMentorIsCandidate(
    menteeId: string, mentee: Scoring.Profile, mentors: seq<Mentor>,
    round: nat -> int -> int, ids: nat -> string, clock: nat -> Value, i: nat)
    requires i < |mentors| && i < MentorFetchLimit
    requires Scoring.Raises(mentors[i].profile, mentee)
    ensures var m := MatchFor(menteeId, mentee, mentors, i, round, ids, clock);
            m.score == 50 && m.reasons == [Scoring.BasicCompatibility] &&
            m in multiset(Ranked(menteeId, mentee, mentors, round, ids, clock))
  {
    var m := MatchFor(menteeId, mentee, mentors, i, round, ids, clock);
    var built := Built(menteeId, mentee, Fetched(mentors), round, ids, clock);
    assert built[i] == m;
    AboveExactly(built, m);
  }

  /** Mentors past the first thousand the query returns play no part. */
  lemma MentorsPastLimitIgnored(
    menteeId: string, mentee: Scoring.Profile, mentors: seq<Mentor>,
    round: nat -> int -> int, ids: nat -> string, clock: nat -> Value)
    requires |mentors| >= MentorFetchLimit
    ensures FindMatches(menteeId, mentee, mentors, round, ids, clock)
         == FindMatches(menteeId, mentee, mentors[..MentorFetchLimit], round, ids, clock)
  {
    assert Fetched(mentors) == Fetched(mentors[..MentorFetchLimit]);
  }

  /** Among candidates of equal score the ranking keeps mentor order: for
      every score above the threshold, the ranked matches of that score are
      the mentors' matches of that score, in the order the query returned
      the mentors. */
  lemma TiesKeepMentorOrder(
    menteeId: string, mentee: Scoring.Profile, mentors: seq<Mentor>,
    round: nat -> int -> int, ids: nat -> string, clock: nat -> Value, v: int)
    requires v > Threshold
    ensures WithScore(Ranked(menteeId, mentee, mentors, round, ids, clock), v)
         == WithScore(Built(menteeId, mentee, Fetched(mentors), round, ids, clock), v)
  {
    AboveClasses(Built(menteeId, mentee, Fetched(mentors), round, ids, clock), v);
  }

  /** Against the 0.3 threshold, a correctly rounded exact score decides:
      from 0.31 up (62 units) the mentor is a candidate, up to 0.30 (60
      units) it is not. */
  lemma ExactScoreDecides(
    menteeId: string, mentee: Scoring.Profile, mentors: seq<Mentor>,
    round: nat -> int -> int, ids: nat -> string, clock: nat -> Value, i: nat)
    requires i < |mentors| && i < MentorFetchLimit
    requires forall u :: Scoring.RoundsTo(u, round(i)(u))
    ensures var m := MatchFor(menteeId, mentee, mentors, i, round, ids, clock);
            var units := Scoring.Score(mentors[i].profile, mentee).units;
            && (units >= 62 ==> m in multiset(Ranked(menteeId, mentee, mentors, round, ids, clock)))
            && (units <= 60 ==> m !in multiset(Ranked(menteeId, mentee, mentors, round, ids, clock)))
  {
    var m := MatchFor(menteeId, mentee, mentors, i, round, ids, clock);
    var result := Scoring.Score(mentors[i].profile, mentee);
    Scoring.RoundingAgainstThreshold(result.units, m.score);
    var built := Built(menteeId, mentee, Fetched(mentors), round, ids, clock);
    assert built[i] == m;
    AboveExactly(built, m);
  }
}
