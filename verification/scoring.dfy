/** `calculate_match_score` (backend/server.py:212-276): the additive
    mentor/mentee compatibility heuristic.

    Scores are kept exactly, in integer units of 1/200 (0.005): every term
    the heuristic adds is a whole number of such units once readiness values
    are integers. The final `round(score, 2)` is described by `RoundsTo`. */
module Scoring {
  import opened Wrappers
  import Text

  /** A profile key read with `.get(key, default)`: missing (the default
      applies), present with a usable value, or present with a value the
      scorer's arithmetic or method calls reject (`None`, a string where a
      number is expected, a non-list, a list holding an unhashable item),
      which raises. */
  datatype Field<+T> = Absent | Present(value: T) | Malformed {

    /** The value read, with `default` standing in for a missing key. */
    function Or(default: T): T
      requires !Malformed?
    {
      if Present? then value else default
    }
  }

  /** An item of the mentee's `goals` list: a string, or anything else (which
      has no `.lower()`). */
  datatype Goal = GoalText(text: string) | GoalOther

  /** The `ai_analysis` sub-record when it is a mapping. A missing or `None`
      communication style is `None`. */
  datatype Analysis = Analysis(style: Option<string>, readiness: Field<int>)

  /** The keys of a stored profile that the scorer reads. A missing or
      `None` industry is `None`; an `ai_analysis` that is present but not a
      mapping is `Malformed`. */
  datatype Profile = Profile(
    industry: Option<string>,
    experience: Field<int>,
    skills: Field<seq<string>>,
    goals: Field<seq<Goal>>,
    interests: Field<seq<string>>,
    analysis: Field<Analysis>)

  /** The justifications the scorer appends; each carries the measured value
      its text shows. `BasicCompatibility` is the fallback's only reason. */
  datatype Reason =
    | SameIndustry(industry: Option<string>)
    | GoodGap(years: nat)
    | ModerateGap(years: nat)
    | SkillsAlignment(areas: nat)
    | CompatibleStyles(mentorStyle: string, menteeStyle: string)
    | SharedInterests(areas: nat)
    | BasicCompatibility

  /** A score in units of 1/200, with its reasons in the order appended. */
  datatype MatchResult = MatchResult(units: int, reasons: seq<Reason>)

  // The weighting table, in units of 1/200.
  const IndustryWeight := 40      // 0.2
  const GoodGapWeight := 30       // 0.15, for a gap of 3 years or more
  const ModerateGapWeight := 20   // 0.1, for a gap of 1 or 2 years
  const SkillsPerArea := 40       // 1/5 per matching skill ...
  const SkillsCap := 50           // ... capped at 0.25
  const StyleWeight := 30         // 0.15
  const InterestsCap := 30        // 0.15; one shared interest (1/3) already exceeds it
  const DefaultReadiness := 5
  const DefaultExperience := 0

  /** The result returned when reading the profiles raises. */
  const Fallback := MatchResult(100, [BasicCompatibility])

  /** Mentor style to the mentee styles it is compatible with. */
  const StyleTable: map<string, seq<string>> := map[
    "collaborative" := ["collaborative", "analytical"],
    "direct" := ["direct", "analytical"],
    "analytical" := ["analytical", "collaborative", "direct"],
    "creative" := ["creative", "collaborative"]]

  // ---------------------------------------------------------------------
  // Reading the profiles

  /** Every goal item is a string; a missing `goals` key reads as `[]`. */
  predicate GoalsReadable(goals: Field<seq<Goal>>) {
    match goals
    case Absent => true
    case Present(gs) => forall i | 0 <= i < |gs| :: gs[i].GoalText?
    case Malformed => false
  }

  predicate ReadinessMalformed(p: Profile) {
    p.analysis.Present? && p.analysis.value.readiness.Malformed?
  }

  /** Some field access or arithmetic step of the scorer raises, which sends
      it to its `except` branch. */
  predicate Raises(mentor: Profile, mentee: Profile) {
    || mentor.experience.Malformed? || mentee.experience.Malformed?
    || mentor.skills.Malformed? || !GoalsReadable(mentee.goals)
    || mentor.analysis.Malformed? || mentee.analysis.Malformed?
    || mentor.interests.Malformed? || mentee.interests.Malformed?
    || ReadinessMalformed(mentor) || ReadinessMalformed(mentee)
  }

  function Style(p: Profile): Option<string>
    requires !p.analysis.Malformed?
  {
    if p.analysis.Present? then p.analysis.value.style else None
  }

  function Readiness(p: Profile): int
    requires !p.analysis.Malformed? && !ReadinessMalformed(p)
  {
    if p.analysis.Present? then p.analysis.value.readiness.Or(DefaultReadiness) else DefaultReadiness
  }

  function Gap(mentor: Profile, mentee: Profile): int
    requires !mentor.experience.Malformed? && !mentee.experience.Malformed?
  {
    mentor.experience.Or(DefaultExperience) - mentee.experience.Or(DefaultExperience)
  }

  /** `set(xs)` for a list of strings. */
  function Items(f: Field<seq<string>>): set<string>
    requires !f.Malformed?
  {
    set x | x in f.Or([])
  }

  /** `goal.lower().split()`. */
  function Words(g: Goal): seq<string> {
    match g
    case GoalText(t) => Text.Split(Text.Lower(t))
    case GoalOther => []
  }

  /** The distinct words of one goal. */
  function WordSet(g: Goal): set<string> {
    set w | w in Words(g)
  }

  /** The union of the words of all goals. */
  function GoalWords(goals: seq<Goal>): set<string> {
    set i, w | 0 <= i < |goals| && w in Words(goals[i]) :: w
  }

  function SkillOverlap(mentor: Profile, mentee: Profile): nat
    requires !mentor.skills.Malformed? && GoalsReadable(mentee.goals)
  {
    |Items(mentor.skills) * GoalWords(mentee.goals.Or([]))|
  }

  function InterestOverlap(mentor: Profile, mentee: Profile): nat
    requires !mentor.interests.Malformed? && !mentee.interests.Malformed?
  {
    |Items(mentor.interests) * Items(mentee.interests)|
  }

  /** Python truthiness of a style read with default `''`. */
  predicate Truthy(s: Option<string>) {
    s.Some? && s.value != ""
  }

  predicate Accepts(mentorStyle: string, menteeStyle: string) {
    mentorStyle in StyleTable && menteeStyle in StyleTable[mentorStyle]
  }

  predicate StylesMatch(mentorStyle: Option<string>, menteeStyle: Option<string>) {
    Truthy(mentorStyle) && Truthy(menteeStyle) && Accepts(mentorStyle.value, menteeStyle.value)
  }

  /** What the scorer reads from the two profiles before adding anything
      up, apart from the industries, whose `.get` cannot raise. */
  datatype Reads = Reads(
    gap: int, skillOverlap: nat, mentorStyle: Option<string>, menteeStyle: Option<string>,
    interestOverlap: nat, readiness: int)

  /** The reads of the `try` block in the order the scorer makes them: the
      experience subtraction, the mentor's skill set, the goal words, the
      two analyses, the interest sets and the readiness values. The first
      read that raises ends the attempt. */
  function Read(mentor: Profile, mentee: Profile): (r: Option<Reads>)
    ensures r.None? <==> Raises(mentor, mentee)
    ensures r.Some? ==>
      && r.value.gap == Gap(mentor, mentee)
      && r.value.skillOverlap == SkillOverlap(mentor, mentee)
      && r.value.mentorStyle == Style(mentor) && r.value.menteeStyle == Style(mentee)
      && r.value.interestOverlap == InterestOverlap(mentor, mentee)
      && r.value.readiness == Readiness(mentor) + Readiness(mentee)
  {
    if mentor.experience.Malformed? || mentee.experience.Malformed? then None
    else if mentor.skills.Malformed? then None
    else if !GoalsReadable(mentee.goals) then None
    else if mentor.analysis.Malformed? || mentee.analysis.Malformed? then None
    else if mentor.interests.Malformed? || mentee.interests.Malformed? then None
    else if ReadinessMalformed(mentor) || ReadinessMalformed(mentee) then None
    else
      var gap := mentor.experience.Or(DefaultExperience) - mentee.experience.Or(DefaultExperience);
      var skills := set x | x in mentor.skills.Or([]);
      var interests := |Items(mentor.interests) * Items(mentee.interests)|;
      Some(Reads(gap, |skills * GoalWords(mentee.goals.Or([]))|, Style(mentor), Style(mentee),
                 interests, Readiness(mentor) + Readiness(mentee)))
  }

  // ---------------------------------------------------------------------
  // The terms

  /** What one signal adds: an amount and at most one reason. */
  datatype Term = Term(units: nat, reason: Option<Reason>) {
    function Reasons(): seq<Reason> {
      if reason.Some? then [reason.value] else []
    }
  }

  const NoTerm := Term(0, None)

  function IndustryTerm(mentor: Profile, mentee: Profile): (t: Term)
    ensures Accounted(t, 0)
    ensures t.units <= IndustryWeight
  {
    if mentor.industry == mentee.industry then Term(IndustryWeight, Some(SameIndustry(mentor.industry)))
    else NoTerm
  }

  function ExperienceTerm(gap: int): (t: Term)
    ensures Accounted(t, 1)
    ensures t.units <= GoodGapWeight
  {
    if gap >= 3 then Term(GoodGapWeight, Some(GoodGap(gap)))
    else if gap >= 1 then Term(ModerateGapWeight, Some(ModerateGap(gap)))
    else NoTerm
  }

  function SkillsAmount(k: nat): nat {
    if SkillsPerArea * k < SkillsCap then SkillsPerArea * k else SkillsCap
  }

  function SkillsTerm(k: nat): (t: Term)
    ensures Accounted(t, 2)
    ensures t.units <= SkillsCap
  {
    if k > 0 then Term(SkillsAmount(k), Some(SkillsAlignment(k))) else NoTerm
  }

  function StyleTerm(mentorStyle: Option<string>, menteeStyle: Option<string>): (t: Term)
    ensures Accounted(t, 3)
    ensures t.units <= StyleWeight
  {
    if StylesMatch(mentorStyle, menteeStyle) then
      Term(StyleWeight, Some(CompatibleStyles(mentorStyle.value, menteeStyle.value)))
    else NoTerm
  }

  function InterestsTerm(j: nat): (t: Term)
    ensures Accounted(t, 4)
    ensures t.units <= InterestsCap
  {
    if j > 0 then Term(InterestsCap, Some(SharedInterests(j))) else NoTerm
  }

  /** Which signal a reason belongs to, in the order the scorer tries them. */
  function Signal(r: Reason): nat {
    match r
    case SameIndustry(_) => 0
    case GoodGap(_) => 1
    case ModerateGap(_) => 1
    case SkillsAlignment(_) => 2
    case CompatibleStyles(_, _) => 3
    case SharedInterests(_) => 4
    case BasicCompatibility => 5
  }

  /** The amount a reason stands for. */
  function Weight(r: Reason): nat {
    match r
    case SameIndustry(_) => IndustryWeight
    case GoodGap(_) => GoodGapWeight
    case ModerateGap(_) => ModerateGapWeight
    case SkillsAlignment(k) => SkillsAmount(k)
    case CompatibleStyles(_, _) => StyleWeight
    case SharedInterests(_) => InterestsCap
    case BasicCompatibility => 0
  }

  /** The total amount a list of reasons stands for. */
  function Explained(rs: seq<Reason>): nat {
    if rs == [] then 0 else Weight(rs[0]) + Explained(rs[1..])
  }

  /** Reasons strictly ordered by signal: at most one per signal, in the
      scorer's order. */
  predicate InSignalOrder(rs: seq<Reason>) {
    forall i, j | 0 <= i < j < |rs| :: Signal(rs[i]) < Signal(rs[j])
  }

  predicate HasSignal(rs: seq<Reason>, s: nat) {
    exists i | 0 <= i < |rs| :: Signal(rs[i]) == s
  }

  // ---------------------------------------------------------------------
  // The scorer

  /** The term stands for its reason's amount, under signal `s`. */
  predicate Accounted(t: Term, s: nat) {
    if t.reason.Some? then t.units == Weight(t.reason.value) && Signal(t.reason.value) == s
    else t.units == 0
  }

  /** Every term stands for its reason's amount, the terms covering signals
      `first`, `first + 1`, ... in turn. */
  predicate AllAccounted(ts: seq<Term>, first: nat)
    decreases |ts|
  {
    ts == [] || (Accounted(ts[0], first) && AllAccounted(ts[1..], first + 1))
  }

  lemma AccountedCons(t: Term, ts: seq<Term>, first: nat)
    requires Accounted(t, first) && AllAccounted(ts, first + 1)
    ensures AllAccounted([t] + ts, first)
  {
    assert ([t] + ts)[1..] == ts;
  }

  lemma AccountedFive(a: Term, b: Term, c: Term, d: Term, e: Term)
    requires Accounted(a, 0) && Accounted(b, 1) && Accounted(c, 2) && Accounted(d, 3) && Accounted(e, 4)
    ensures AllAccounted([a, b, c, d, e], 0)
  {
    var none: seq<Term> := [];
    AccountedCons(e, none, 4);
    assert [e] + none == [e];
    AccountedCons(d, [e], 3);
    assert [d] + [e] == [d, e];
    AccountedCons(c, [d, e], 2);
    assert [c] + [d, e] == [c, d, e];
    AccountedCons(b, [c, d, e], 1);
    assert [b] + [c, d, e] == [b, c, d, e];
    AccountedCons(a, [b, c, d, e], 0);
    assert [a] + [b, c, d, e] == [a, b, c, d, e];
  }

  /** The five signal terms in the order the scorer adds them. */
  function Terms(mentor: Profile, mentee: Profile): (ts: seq<Term>)
    requires !Raises(mentor, mentee)
    ensures |ts| == 5
    ensures AllAccounted(ts, 0)
    ensures ts[0] == IndustryTerm(mentor, mentee)
    ensures ts[1] == ExperienceTerm(Gap(mentor, mentee))
    ensures ts[2] == SkillsTerm(SkillOverlap(mentor, mentee))
    ensures ts[3] == StyleTerm(Style(mentor), Style(mentee))
    ensures ts[4] == InterestsTerm(InterestOverlap(mentor, mentee))
  {
    var industry := IndustryTerm(mentor, mentee);
    var experience := ExperienceTerm(Gap(mentor, mentee));
    var skills := SkillsTerm(SkillOverlap(mentor, mentee));
    var style := StyleTerm(Style(mentor), Style(mentee));
    var interests := InterestsTerm(InterestOverlap(mentor, mentee));
    AccountedFive(industry, experience, skills, style, interests);
    [industry, experience, skills, style, interests]
  }

  /** Adds up terms that stand for signals `first`, `first + 1`, ...: the
      total is what the collected reasons stand for, and the reasons come
      in signal order. */
  function Tally(ts: seq<Term>, first: nat): (r: MatchResult)
    requires AllAccounted(ts, first)
    ensures |r.reasons| <= |ts|
    ensures forall i | 0 <= i < |r.reasons| :: first <= Signal(r.reasons[i]) < first + |ts|
    ensures InSignalOrder(r.reasons)
    ensures r.units == Explained(r.reasons)
  {
    if ts == [] then MatchResult(0, [])
    else
      var rest := Tally(ts[1..], first + 1);
      assert Accounted(ts[0], first + 0);
      match ts[0].reason
      case None => MatchResult(rest.units, rest.reasons)
      case Some(x) =>
        ConsInSignalOrder(x, rest.reasons);
        var rs := [x] + rest.reasons;
        assert rs[1..] == rest.reasons;
        MatchResult(ts[0].units + rest.units, rs)
  }

  lemma ConsInSignalOrder(x: Reason, rs: seq<Reason>)
    requires InSignalOrder(rs)
    requires forall i | 0 <= i < |rs| :: Signal(x) < Signal(rs[i])
    ensures InSignalOrder([x] + rs)
  {
    var xs := [x] + rs;
    forall i, j | 0 <= i < j < |xs|
      ensures Signal(xs[i]) < Signal(xs[j])
    {
      if i > 0 {
        assert xs[i] == rs[i - 1] && xs[j] == rs[j - 1];
      } else {
        assert xs[j] == rs[j - 1];
      }
    }
  }

  /** `calculate_match_score` before its final rounding. It never fails: a
      profile that makes a read raise yields the fixed fallback, and only
      then. Otherwise the reasons come one per triggered signal in signal
      order, and the score is what the reasons stand for plus the two
      readiness values. */
  function Score(mentor: Profile, mentee: Profile): (r: MatchResult)
    ensures Raises(mentor, mentee) <==> r == Fallback
    ensures !Raises(mentor, mentee) ==>
      && InSignalOrder(r.reasons)
      && |r.reasons| <= 5
      && (forall i | 0 <= i < |r.reasons| :: Signal(r.reasons[i]) < 5)
      && r.units == Explained(r.reasons) + Readiness(mentor) + Readiness(mentee)
  {
    match Read(mentor, mentee)
    case None => Fallback
    case Some(input) =>
      var readiness := input.readiness;
      var t := Tally(Terms(mentor, mentee), 0);
      assert t.reasons != Fallback.reasons by {
        if t.reasons != [] {
          assert Signal(t.reasons[0]) < 5;
        }
      }
      MatchResult(t.units + readiness, t.reasons)
  }

  // ---------------------------------------------------------------------
  // What the score says about each signal

  /** The sum of the terms' amounts. */
  function UnitsOf(ts: seq<Term>): nat {
    if ts == [] then 0 else ts[0].units + UnitsOf(ts[1..])
  }

  /** One step of a tally: the first term's reason, then the rest's. */
  lemma TallyStep(ts: seq<Term>, first: nat)
    requires ts != []
    requires AllAccounted(ts, first)
    ensures Tally(ts, first).reasons == ts[0].Reasons() + Tally(ts[1..], first + 1).reasons
    ensures Tally(ts, first).units == ts[0].units + Tally(ts[1..], first + 1).units
  {
    assert Accounted(ts[0], first + 0);
  }

  lemma HasSignalAppend(a: seq<Reason>, b: seq<Reason>, s: nat)
    ensures HasSignal(a + b, s) <==> HasSignal(a, s) || HasSignal(b, s)
  {
    if HasSignal(a + b, s) {
      var i :| 0 <= i < |a + b| && Signal((a + b)[i]) == s;
      if i >= |a| {
        assert b[i - |a|] == (a + b)[i];
      }
    }
    if HasSignal(b, s) {
      var i :| 0 <= i < |b| && Signal(b[i]) == s;
      assert (a + b)[|a| + i] == b[i];
    }
    if HasSignal(a, s) {
      var i :| 0 <= i < |a| && Signal(a[i]) == s;
      assert (a + b)[i] == a[i];
    }
  }

  lemma {:induction false} TallyUnits(ts: seq<Term>, first: nat)
    requires AllAccounted(ts, first)
    ensures Tally(ts, first).units == UnitsOf(ts)
    decreases |ts|
  {
    if ts != [] {
      TallyStep(ts, first);
      TallyUnits(ts[1..], first + 1);
    }
  }

  /** The reasons of the terms that fired, in order. */
  function Fired(ts: seq<Term>): seq<Reason> {
    if ts == [] then [] else ts[0].Reasons() + Fired(ts[1..])
  }

  lemma {:induction false} TallyFired(ts: seq<Term>, first: nat)
    requires AllAccounted(ts, first)
    ensures Tally(ts, first).reasons == Fired(ts)
    decreases |ts|
  {
    if ts != [] {
      TallyStep(ts, first);
      TallyFired(ts[1..], first + 1);
    }
  }

  lemma {:induction false} FiredSignalsFrom(ts: seq<Term>, first: nat, s: nat)
    requires AllAccounted(ts, first) && s < first
    ensures !HasSignal(Fired(ts), s)
    decreases |ts|
  {
    if ts != [] {
      FiredSignalsFrom(ts[1..], first + 1, s);
      HasSignalAppend(ts[0].Reasons(), Fired(ts[1..]), s);
    }
  }

  /** The reasons have one for the signal of term `k` exactly when that
      term fired, and then it is that term's reason. */
  lemma FiredSignalFirst(ts: seq<Term>, first: nat)
    requires AllAccounted(ts, first) && ts != []
    ensures HasSignal(Fired(ts), first) <==> ts[0].reason.Some?
    ensures ts[0].reason.Some? ==> ts[0].reason.value in Fired(ts)
  {
    var head := ts[0].Reasons();
    HasSignalAppend(head, Fired(ts[1..]), first);
    FiredSignalsFrom(ts[1..], first + 1, first);
    if ts[0].reason.Some? {
      assert Fired(ts)[0] == ts[0].reason.value;
    }
  }

  lemma FiredSignalLater(ts: seq<Term>, first: nat, k: nat)
    requires AllAccounted(ts, first) && 0 < k < |ts|
    ensures HasSignal(Fired(ts), first + k) <==> HasSignal(Fired(ts[1..]), first + k)
  {
    var head := ts[0].Reasons();
    HasSignalAppend(head, Fired(ts[1..]), first + k);
    assert !HasSignal(head, first + k);
  }

  /** The reasons have one for the signal of term `k` exactly when that
      term fired, and then it is that term's reason. */
  lemma {:induction false} FiredSignal(ts: seq<Term>, first: nat, k: nat)
    requires AllAccounted(ts, first)
    requires k < |ts|
    ensures HasSignal(Fired(ts), first + k) <==> ts[k].reason.Some?
    ensures ts[k].reason.Some? ==> ts[k].reason.value in Fired(ts)
    decreases k
  {
    if k == 0 {
      FiredSignalFirst(ts, first);
    } else {
      var tail := ts[1..];
      FiredSignal(tail, first + 1, k - 1);
      FiredSignalLater(ts, first, k);
      assert tail[k - 1] == ts[k];
      assert first + 1 + (k - 1) == first + k;
      assert Fired(ts) == ts[0].Reasons() + Fired(tail);
    }
  }

  lemma TallySignal(ts: seq<Term>, first: nat, k: nat)
    requires AllAccounted(ts, first)
    requires k < |ts|
    ensures HasSignal(Tally(ts, first).reasons, first + k) <==> ts[k].reason.Some?
    ensures ts[k].reason.Some? ==> ts[k].reason.value in Tally(ts, first).reasons
  {
    TallyFired(ts, first);
    FiredSignal(ts, first, k);
  }

  /** A tally collects exactly the reasons of the terms that fired, and adds
      up every term. */
  lemma TallyReasons(ts: seq<Term>, first: nat)
    requires AllAccounted(ts, first)
    ensures Tally(ts, first).units == UnitsOf(ts)
    ensures forall k | 0 <= k < |ts| ::
      && (HasSignal(Tally(ts, first).reasons, first + k) <==> ts[k].reason.Some?)
      && (ts[k].reason.Some? ==> ts[k].reason.value in Tally(ts, first).reasons)
  {
    TallyUnits(ts, first);
    forall k | 0 <= k < |ts|
      ensures HasSignal(Tally(ts, first).reasons, first + k) <==> ts[k].reason.Some?
      ensures ts[k].reason.Some? ==> ts[k].reason.value in Tally(ts, first).reasons
    {
      TallySignal(ts, first, k);
    }
  }

  /** When every term fires, the tally lists every term's reason in order. */
  lemma {:induction false} TallyAllFired(ts: seq<Term>, first: nat)
    requires AllAccounted(ts, first)
    requires forall i | 0 <= i < |ts| :: ts[i].reason.Some?
    ensures Tally(ts, first).reasons == seq(|ts|, i requires 0 <= i < |ts| => ts[i].reason.value)
    decreases |ts|
  {
    if ts != [] {
      TallyAllFired(ts[1..], first + 1);
    }
  }

  /** The score's amount, read off the five terms. */
  lemma ScoreUnits(mentor: Profile, mentee: Profile)
    requires !Raises(mentor, mentee)
    ensures var ts := Terms(mentor, mentee);
      Score(mentor, mentee).units
        == ts[0].units + ts[1].units + ts[2].units + ts[3].units + ts[4].units
           + Readiness(mentor) + Readiness(mentee)
  {
    var ts := Terms(mentor, mentee);
    TallyUnits(ts, 0);
    assert UnitsOf(ts[4..]) == ts[4].units by {
      assert ts[4..][1..] == [];
    }
    assert UnitsOf(ts[3..]) == ts[3].units + UnitsOf(ts[4..]) by {
      assert ts[3..][1..] == ts[4..];
    }
    assert UnitsOf(ts[2..]) == ts[2].units + UnitsOf(ts[3..]) by {
      assert ts[2..][1..] == ts[3..];
    }
    assert UnitsOf(ts[1..]) == ts[1].units + UnitsOf(ts[2..]) by {
      assert ts[1..][1..] == ts[2..];
    }
  }

  /** The score's reasons, read off the five terms. */
  lemma ScoreTerms(mentor: Profile, mentee: Profile)
    requires !Raises(mentor, mentee)
    ensures var ts := Terms(mentor, mentee);
      var r := Score(mentor, mentee);
      && r.units == ts[0].units + ts[1].units + ts[2].units + ts[3].units + ts[4].units
                    + Readiness(mentor) + Readiness(mentee)
      && r.reasons == Tally(ts, 0).reasons
      && forall k | 0 <= k < 5 ::
        && (HasSignal(r.reasons, k) <==> ts[k].reason.Some?)
        && (ts[k].reason.Some? ==> ts[k].reason.value in r.reasons)
  {
    TallyReasons(Terms(mentor, mentee), 0);
    ScoreUnits(mentor, mentee);
  }

  /** Industry: one reason, worth 0.2, exactly when the two industries are
      equal, compared case-sensitively, two missing industries counting as
      equal. */
  lemma ScoreIndustry(mentor: Profile, mentee: Profile)
    requires !Raises(mentor, mentee)
    ensures HasSignal(Score(mentor, mentee).reasons, 0) <==> mentor.industry == mentee.industry
    ensures mentor.industry == mentee.industry ==> SameIndustry(mentor.industry) in Score(mentor, mentee).reasons
  {
    ScoreTerms(mentor, mentee);
  }

  /** Experience: a gap of 3 years or more gives the 0.15 reason, a gap of 1
      or 2 the 0.1 reason, and no gap or a negative one no reason. */
  lemma ScoreExperience(mentor: Profile, mentee: Profile)
    requires !Raises(mentor, mentee)
    ensures var gap := Gap(mentor, mentee);
      var rs := Score(mentor, mentee).reasons;
      && (HasSignal(rs, 1) <==> gap >= 1)
      && (gap >= 3 ==> GoodGap(gap) in rs)
      && (1 <= gap < 3 ==> ModerateGap(gap) in rs)
  {
    ScoreTerms(mentor, mentee);
  }

  /** Skills: a reason carrying the number of mentor skills that are goal
      words exactly when there is at least one. */
  lemma ScoreSkills(mentor: Profile, mentee: Profile)
    requires !Raises(mentor, mentee)
    ensures var k := SkillOverlap(mentor, mentee);
      var rs := Score(mentor, mentee).reasons;
      && (HasSignal(rs, 2) <==> k >= 1)
      && (k >= 1 ==> SkillsAlignment(k) in rs)
  {
    ScoreTerms(mentor, mentee);
  }

  /** Style: a reason exactly when both styles are non-empty and the table
      lists the mentee's style under the mentor's. */
  lemma ScoreStyle(mentor: Profile, mentee: Profile)
    requires !Raises(mentor, mentee)
    ensures var rs := Score(mentor, mentee).reasons;
      && (HasSignal(rs, 3) <==> StylesMatch(Style(mentor), Style(mentee)))
      && (StylesMatch(Style(mentor), Style(mentee)) ==>
            CompatibleStyles(Style(mentor).value, Style(mentee).value) in rs)
  {
    ScoreTerms(mentor, mentee);
  }

  /** Interests: a reason carrying the number of shared interests exactly
      when there is at least one. */
  lemma ScoreInterests(mentor: Profile, mentee: Profile)
    requires !Raises(mentor, mentee)
    ensures var j := InterestOverlap(mentor, mentee);
      var rs := Score(mentor, mentee).reasons;
      && (HasSignal(rs, 4) <==> j >= 1)
      && (j >= 1 ==> SharedInterests(j) in rs)
  {
    ScoreTerms(mentor, mentee);
  }

  /** Without any analysis on either side no style reason can appear and the
      two default readiness values add 0.05. */
  lemma ScoreWithoutAnalysis(mentor: Profile, mentee: Profile)
    requires !Raises(mentor, mentee)
    requires mentor.analysis.Absent? && mentee.analysis.Absent?
    ensures !HasSignal(Score(mentor, mentee).reasons, 3)
    ensures Score(mentor, mentee).units == Explained(Score(mentor, mentee).reasons) + 10
  {
    ScoreTerms(mentor, mentee);
  }

  // ---------------------------------------------------------------------
  // The score against the source's own arithmetic

  function RealMin(a: real, b: real): real {
    if b < a then b else a
  }

  /** The score as the source computes it, term by term, in exact real
      arithmetic (before rounding). */
  function SourceScore(mentor: Profile, mentee: Profile): real
    requires !Raises(mentor, mentee)
  {
    IndustryPart(mentor.industry == mentee.industry)
    + ExperiencePart(Gap(mentor, mentee))
    + SkillsPart(SkillOverlap(mentor, mentee))
    + StylePart(StylesMatch(Style(mentor), Style(mentee)))
    + InterestsPart(InterestOverlap(mentor, mentee))
    + ReadinessPart(Readiness(mentor), Readiness(mentee))
  }

  function IndustryPart(same: bool): real {
    if same then 0.2 else 0.0
  }

  function ExperiencePart(gap: int): real {
    if gap >= 3 then 0.15 else if gap >= 1 then 0.1 else 0.0
  }

  function SkillsPart(k: nat): real {
    if k > 0 then RealMin(k as real / 5.0, 0.25) else 0.0
  }

  function StylePart(compatible: bool): real {
    if compatible then 0.15 else 0.0
  }

  function InterestsPart(j: nat): real {
    if j > 0 then RealMin(j as real / 3.0, 0.15) else 0.0
  }

  function ReadinessPart(mentorReadiness: int, menteeReadiness: int): real {
    (mentorReadiness + menteeReadiness) as real / 20.0 * 0.1
  }

  lemma SkillsAmountExact(k: nat)
    ensures SkillsTerm(k).units as real == 200.0 * SkillsPart(k)
  {
    if k >= 2 {
      assert k as real / 5.0 >= 0.4;
    }
  }

  lemma InterestsAmountExact(j: nat)
    ensures InterestsTerm(j).units as real == 200.0 * InterestsPart(j)
  {
    if j > 0 {
      assert j as real / 3.0 >= 1.0 / 3.0;
    }
  }

  /** The integer model loses nothing: its units are exactly 200 times the
      source's sum. */
  lemma ScoreIsExact(mentor: Profile, mentee: Profile)
    requires !Raises(mentor, mentee)
    ensures Score(mentor, mentee).units as real == 200.0 * SourceScore(mentor, mentee)
  {
    ScoreUnits(mentor, mentee);
    TermsExact(mentor, mentee);
  }

  lemma TermsExact(mentor: Profile, mentee: Profile)
    requires !Raises(mentor, mentee)
    ensures var ts := Terms(mentor, mentee);
      (ts[0].units + ts[1].units + ts[2].units + ts[3].units + ts[4].units
        + Readiness(mentor) + Readiness(mentee)) as real == 200.0 * SourceScore(mentor, mentee)
  {
    var ts := Terms(mentor, mentee);
    SkillsAmountExact(SkillOverlap(mentor, mentee));
    InterestsAmountExact(InterestOverlap(mentor, mentee));
    assert ts[0].units as real == 200.0 * IndustryPart(mentor.industry == mentee.industry);
    assert ts[1].units as real == 200.0 * ExperiencePart(Gap(mentor, mentee));
    assert ts[3].units as real == 200.0 * StylePart(StylesMatch(Style(mentor), Style(mentee)));
    assert (Readiness(mentor) + Readiness(mentee)) as real
        == 200.0 * ReadinessPart(Readiness(mentor), Readiness(mentee));
  }

  predicate ReadinessWithin(p: Profile, lo: int, hi: int) {
    p.analysis.Present? && p.analysis.value.readiness.Present? ==>
      lo <= p.analysis.value.readiness.value <= hi
  }

  /** With readiness values in [0, 10] the score lies in [0, 1]: the six
      terms' maxima add up to exactly 1. */
  lemma ScoreBounds(mentor: Profile, mentee: Profile)
    requires ReadinessWithin(mentor, 0, 10) && ReadinessWithin(mentee, 0, 10)
    ensures 0 <= Score(mentor, mentee).units <= 200
  {
    if !Raises(mentor, mentee) {
      ScoreTerms(mentor, mentee);
      var ts := Terms(mentor, mentee);
      assert ts[0].units + ts[1].units + ts[2].units + ts[3].units + ts[4].units <= 180;
      assert 0 <= Readiness(mentor) <= 10 && 0 <= Readiness(mentee) <= 10;
    }
  }

  /** A more experienced mentor never scores lower against the same mentee. */
  lemma MoreExperienceNeverLowers(mentor: Profile, mentee: Profile, years: int)
    requires !Raises(mentor, mentee)
    requires years >= mentor.experience.Or(DefaultExperience)
    ensures Score(mentor.(experience := Present(years)), mentee).units >= Score(mentor, mentee).units
  {
    var senior := mentor.(experience := Present(years));
    assert !Raises(senior, mentee);
    ScoreUnits(mentor, mentee);
    ScoreUnits(senior, mentee);
    var ts := Terms(mentor, mentee);
    var us := Terms(senior, mentee);
    assert us[0] == ts[0] && us[2] == ts[2] && us[3] == ts[3] && us[4] == ts[4];
    assert Gap(senior, mentee) >= Gap(mentor, mentee);
    assert us[1].units >= ts[1].units;
    assert Readiness(senior) == Readiness(mentor);
  }

  /** The mentor's goals and the mentee's skills play no part. */
  lemma ScoreIgnoresMentorGoalsAndMenteeSkills(
    mentor: Profile, mentee: Profile, goals: Field<seq<Goal>>, skills: Field<seq<string>>)
    ensures Score(mentor.(goals := goals), mentee.(skills := skills)) == Score(mentor, mentee)
  {
    ReadIgnoresMentorGoalsAndMenteeSkills(mentor, mentee, goals, skills);
    if !Raises(mentor, mentee) {
      TermsIgnoreMentorGoalsAndMenteeSkills(mentor, mentee, goals, skills);
    }
  }

  lemma ReadIgnoresMentorGoalsAndMenteeSkills(
    mentor: Profile, mentee: Profile, goals: Field<seq<Goal>>, skills: Field<seq<string>>)
    ensures Read(mentor.(goals := goals), mentee.(skills := skills)) == Read(mentor, mentee)
  {
    var mentor' := mentor.(goals := goals);
    var mentee' := mentee.(skills := skills);
    assert Raises(mentor', mentee') == Raises(mentor, mentee);
    if !Raises(mentor, mentee) {
      var input := Reads(Gap(mentor, mentee), SkillOverlap(mentor, mentee), Style(mentor), Style(mentee),
                         InterestOverlap(mentor, mentee), Readiness(mentor) + Readiness(mentee));
      assert Read(mentor, mentee) == Some(input);
      assert Read(mentor', mentee') == Some(input) by {
        assert SkillOverlap(mentor', mentee') == SkillOverlap(mentor, mentee);
        assert InterestOverlap(mentor', mentee') == InterestOverlap(mentor, mentee);
        assert Gap(mentor', mentee') == Gap(mentor, mentee);
        assert Style(mentor') == Style(mentor) && Style(mentee') == Style(mentee);
        assert Readiness(mentor') == Readiness(mentor) && Readiness(mentee') == Readiness(mentee);
      }
    }
  }

  lemma TermsIgnoreMentorGoalsAndMenteeSkills(
    mentor: Profile, mentee: Profile, goals: Field<seq<Goal>>, skills: Field<seq<string>>)
    requires !Raises(mentor, mentee)
    ensures !Raises(mentor.(goals := goals), mentee.(skills := skills))
    ensures Terms(mentor.(goals := goals), mentee.(skills := skills)) == Terms(mentor, mentee)
  {
    var mentor' := mentor.(goals := goals);
    var mentee' := mentee.(skills := skills);
    assert Raises(mentor', mentee') == Raises(mentor, mentee);
    assert SkillOverlap(mentor', mentee') == SkillOverlap(mentor, mentee);
    assert InterestOverlap(mentor', mentee') == InterestOverlap(mentor, mentee);
    assert Gap(mentor', mentee') == Gap(mentor, mentee);
    assert Style(mentor') == Style(mentor) && Style(mentee') == Style(mentee);
  }

  /** Every mentor style in the table accepts its own kind of mentee. */
  lemma StyleTableReflexive(style: string)
    requires style in StyleTable
    ensures Accepts(style, style)
  {
  }

  /** A profile with only a communication style. */
  function StyleOnly(style: string): Profile {
    Profile(None, Absent, Absent, Absent, Absent, Present(Analysis(Some(style), Absent)))
  }

  /** Two style-only profiles: no industry (equal), no gap, no skills, no
      interests, default readiness; only the style term can differ. */
  lemma StyleOnlyScore(mentorStyle: string, menteeStyle: string)
    ensures var mentor := StyleOnly(mentorStyle);
      var mentee := StyleOnly(menteeStyle);
      Score(mentor, mentee).units
        == IndustryWeight + (if StylesMatch(Some(mentorStyle), Some(menteeStyle)) then StyleWeight else 0)
           + 2 * DefaultReadiness
  {
    var mentor := StyleOnly(mentorStyle);
    var mentee := StyleOnly(menteeStyle);
    assert !Raises(mentor, mentee);
    assert Items(mentor.skills) == {} && Items(mentor.interests) == {};
    assert SkillOverlap(mentor, mentee) == 0 && InterestOverlap(mentor, mentee) == 0;
    ScoreUnits(mentor, mentee);
  }

  /** The score is not symmetric: a creative mentor accepts a collaborative
      mentee but not the other way round. */
  lemma ScoreNotSymmetric()
    ensures Score(StyleOnly("creative"), StyleOnly("collaborative")).units == 80
    ensures Score(StyleOnly("collaborative"), StyleOnly("creative")).units == 50
  {
    StyleOnlyScore("creative", "collaborative");
    StyleOnlyScore("collaborative", "creative");
    CreativeAcceptsCollaborative();
  }

  lemma CreativeAcceptsCollaborative()
    ensures StylesMatch(Some("creative"), Some("collaborative"))
    ensures !StylesMatch(Some("collaborative"), Some("creative"))
  {
    assert StyleTable["creative"] == ["creative", "collaborative"];
    assert StyleTable["collaborative"] == ["collaborative", "analytical"];
  }

  // ---------------------------------------------------------------------
  // Goal words

  /** Lower-casing then splitting yields only lower-case words. */
  lemma GoalWordsAreLowerWords(goals: seq<Goal>)
    ensures forall w | w in GoalWords(goals) :: Text.IsLowerWord(w)
  {
    forall w | w in GoalWords(goals)
      ensures Text.IsLowerWord(w)
    {
      var i :| 0 <= i < |goals| && w in Words(goals[i]);
      var t := goals[i].text;
      var ws := Text.Split(Text.Lower(t));
      var n :| 0 <= n < |ws| && ws[n] == w;
      forall c | 0 <= c < |w|
        ensures !Text.IsUpper(w[c])
      {
        assert w[c] in Text.Lower(t);
      }
    }
  }

  /** A mentor skill holding an upper-case ASCII letter or whitespace
      ("Machine Learning") can never be counted as a matching skill. */
  lemma SkillNeverMatches(mentor: Profile, mentee: Profile, skill: string)
    requires !mentor.skills.Malformed? && GoalsReadable(mentee.goals)
    requires !Text.IsLowerWord(skill)
    ensures skill !in Items(mentor.skills) * GoalWords(mentee.goals.Or([]))
  {
    GoalWordsAreLowerWords(mentee.goals.Or([]));
  }

  lemma GoalWordsSnoc(goals: seq<Goal>, i: nat)
    requires i < |goals|
    ensures GoalWords(goals[..i + 1]) == GoalWords(goals[..i]) + WordSet(goals[i])
  {
    GoalWordsSnocSub(goals, i);
    GoalWordsSnocSuper(goals, i);
  }

  lemma GoalWordsSnocSub(goals: seq<Goal>, i: nat)
    requires i < |goals|
    ensures GoalWords(goals[..i + 1]) <= GoalWords(goals[..i]) + WordSet(goals[i])
  {
    var a := goals[..i + 1];
    var b := goals[..i];
    forall w | w in GoalWords(a)
      ensures w in GoalWords(b) + WordSet(goals[i])
    {
      var k :| 0 <= k < |a| && w in Words(a[k]);
      if k < i {
        assert b[k] == a[k];
        assert w in GoalWords(b);
      } else {
        assert a[k] == goals[i];
      }
    }
  }

  lemma GoalWordsSnocSuper(goals: seq<Goal>, i: nat)
    requires i < |goals|
    ensures GoalWords(goals[..i]) + WordSet(goals[i]) <= GoalWords(goals[..i + 1])
  {
    var a := goals[..i + 1];
    var b := goals[..i];
    forall w | w in GoalWords(b)
      ensures w in GoalWords(a)
    {
      var k :| 0 <= k < |b| && w in Words(b[k]);
      assert a[k] == b[k];
    }
    forall w | w in Words(goals[i])
      ensures w in GoalWords(a)
    {
      assert a[i] == goals[i];
    }
  }

  /** The loop over the mentee's goals: it stops with no result at the
      first goal that is not a string, and otherwise collects the words of
      every goal. */
  method CollectGoalWords(goals: seq<Goal>) returns (words: Option<set<string>>)
    ensures words.None? <==> exists i | 0 <= i < |goals| :: goals[i].GoalOther?
    ensures words.Some? ==> words.value == GoalWords(goals)
  {
    var acc: set<string> := {};
    var i := 0;
    while i < |goals|
      invariant 0 <= i <= |goals|
      invariant forall k | 0 <= k < i :: goals[k].GoalText?
      invariant acc == GoalWords(goals[..i])
    {
      if goals[i].GoalOther? {
        return None;
      }
      forall k | 0 <= k < i + 1
        ensures goals[k].GoalText?
      {
        if k == i {
          assert goals[k].GoalText?;
        }
      }
      GoalWordsSnoc(goals, i);
      acc := acc + WordSet(goals[i]);
      i := i + 1;
    }
    assert goals[..i] == goals;
    return Some(acc);
  }

  /** The text of a reason, as the scorer formats it. Each kind of reason
      has its own first two letters. */
  function ReasonText(r: Reason): (t: string)
    ensures |t| >= 2 && t[..2] == Initials(r)
  {
    match r
    case SameIndustry(industry) => "Same industry: " + (if industry.Some? then industry.value else "None")
    case GoodGap(years) => "Good experience gap: " + Text.Decimal(years) + " years"
    case ModerateGap(years) => "Moderate experience gap: " + Text.Decimal(years) + " years"
    case SkillsAlignment(areas) => "Skills alignment: " + Text.Decimal(areas) + " matching areas"
    case CompatibleStyles(mentorStyle, menteeStyle) =>
      "Compatible communication styles: " + (mentorStyle + "-" + menteeStyle)
    case SharedInterests(areas) => "Shared interests: " + Text.Decimal(areas) + " common areas"
    case BasicCompatibility => "Basic compatibility assessment"
  }

  /** The first two letters of each kind of reason text. */
  function Initials(r: Reason): string
  {
    match r
    case SameIndustry(_) => "Sa"
    case GoodGap(_) => "Go"
    case ModerateGap(_) => "Mo"
    case SkillsAlignment(_) => "Sk"
    case CompatibleStyles(_, _) => "Co"
    case SharedInterests(_) => "Sh"
    case BasicCompatibility => "Ba"
  }

  lemma StripSuffix(a: string, b: string, suffix: string)
    requires a + suffix == b + suffix
    ensures a == b
  {
    assert a == (a + suffix)[..|a|];
    assert b == (b + suffix)[..|b|];
  }

  lemma StripPrefix(prefix: string, a: string, b: string)
    requires prefix + a == prefix + b
    ensures a == b
  {
    assert a == (prefix + a)[|prefix|..];
    assert b == (prefix + b)[|prefix|..];
  }

  /** The text of a counted reason gives back its count. */
  lemma CountedTextsDiffer(prefix: string, m: nat, n: nat, suffix: string)
    requires prefix + Text.Decimal(m) + suffix == prefix + Text.Decimal(n) + suffix
    ensures m == n
  {
    assert prefix + Text.Decimal(m) + suffix == prefix + (Text.Decimal(m) + suffix);
    assert prefix + Text.Decimal(n) + suffix == prefix + (Text.Decimal(n) + suffix);
    StripPrefix(prefix, Text.Decimal(m) + suffix, Text.Decimal(n) + suffix);
    StripSuffix(Text.Decimal(m), Text.Decimal(n), suffix);
    Text.DecimalInjective(m, n);
  }

  /** The texts tell the reasons apart: equal texts come from the same kind
      of reason, and for every kind but the industry and style ones, from
      the same reason. Those two are ambiguous (`ReasonTextAmbiguous`). */
  lemma ReasonTextTells(a: Reason, b: Reason)
    requires ReasonText(a) == ReasonText(b)
    ensures Initials(a) == Initials(b)
    ensures !a.SameIndustry? && !a.CompatibleStyles? ==> a == b
  {
    assert ReasonText(a)[..2] == Initials(a) && ReasonText(b)[..2] == Initials(b);
    match a
    case GoodGap(m) =>
      assert b.GoodGap?;
      CountedTextsDiffer("Good experience gap: ", m, b.years, " years");
    case ModerateGap(m) =>
      assert b.ModerateGap?;
      CountedTextsDiffer("Moderate experience gap: ", m, b.years, " years");
    case SkillsAlignment(m) =>
      assert b.SkillsAlignment?;
      CountedTextsDiffer("Skills alignment: ", m, b.areas, " matching areas");
    case SharedInterests(m) =>
      assert b.SharedInterests?;
      CountedTextsDiffer("Shared interests: ", m, b.areas, " common areas");
    case _ =>
  }

  /** A missing industry prints as `None`, like an industry named "None";
      and a dash inside a style moves freely between the two styles. */
  lemma ReasonTextAmbiguous()
    ensures ReasonText(SameIndustry(None)) == ReasonText(SameIndustry(Some("None")))
    ensures ReasonText(CompatibleStyles("a", "b-c")) == ReasonText(CompatibleStyles("a-b", "c"))
  {
    assert "a" + "-" + "b-c" == "a-b" + "-" + "c";
  }

  // ---------------------------------------------------------------------
  // Rounding

  /** The hundredths `round(x, 2)` may return for the float sum `x` that
      approximates `units`/200. An even count is a whole number of
      hundredths, which the tiny float error cannot move; an odd count sits
      on a half, where the float error decides the direction. */
  predicate RoundsTo(units: int, hundredths: int) {
    if units % 2 == 0 then hundredths == units / 2
    else hundredths == units / 2 || hundredths == units / 2 + 1
  }

  /** The score `calculate_match_score` returns, in hundredths: the rounded
      sum, or the fallback's 0.5, which is returned as is. `round` is the
      rounding of this one call's float sum; that sum depends on which
      terms were added, so calls with the same exact score may round apart.
      With a rounding that behaves as `RoundsTo` says, the result is a
      correct rounding of the exact score either way. */
  function MatchScore(mentor: Profile, mentee: Profile, round: int -> int): (h: int)
    ensures Raises(mentor, mentee) ==> h == 50
    ensures (forall u :: RoundsTo(u, round(u))) ==> RoundsTo(Score(mentor, mentee).units, h)
  {
    if Raises(mentor, mentee) then 50 else round(Score(mentor, mentee).units)
  }

  /** Against the ranking threshold of 0.3 only 0.305 (61 units) is in
      doubt. */
  lemma RoundingAgainstThreshold(units: int, hundredths: int)
    requires RoundsTo(units, hundredths)
    ensures units >= 62 ==> hundredths > 30
    ensures units <= 60 ==> hundredths <= 30
  {
  }
}
