/** One score evaluated in full on the model: a Technology mentor and
    mentee for whom every signal fires. */
module Examples {
  import opened Wrappers
  import Text
  import opened Scoring

  // The goal and its words are parameters of the lemmas below: on a
  // literal string Dafny would unfold `Split` and `JoinSpaced` without bound.

  lemma ExampleJoin(words: seq<string>)
    requires words == ["improve", "python", "skills"]
    ensures Text.JoinSpaced(words) == "improve python skills"
  {
    assert Text.JoinSpaced(words[2..]) == "skills";
    assert words[1..][1..] == words[2..];
    assert words[1..] == ["python", "skills"];
  }

  lemma ExampleSplitJoin(words: seq<string>)
    requires words == ["improve", "python", "skills"]
    ensures Text.Split(Text.JoinSpaced(words)) == words
  {
    assert forall i | 0 <= i < |words| :: Text.IsWord(words[i]);
    Text.SplitJoinSpaced(words);
  }

  lemma ExampleLower(goal: string)
    requires goal == "improve python skills"
    ensures Text.Lower(goal) == goal
  {
    Text.LowerOfLower(goal);
  }

  lemma ExampleSplit(goal: string, words: seq<string>)
    requires goal == "improve python skills" && words == ["improve", "python", "skills"]
    ensures Text.Split(Text.Lower(goal)) == words
  {
    ExampleJoin(words);
    ExampleSplitJoin(words);
    ExampleLower(goal);
  }

  lemma GoalWordsSingle(g: Goal)
    ensures GoalWords([g]) == set w | w in Words(g)
  {
    assert forall w | w in Words(g) :: w in Words([g][0]);
  }

  lemma ExampleGoalWords(goal: string, words: seq<string>)
    requires goal == "improve python skills" && words == ["improve", "python", "skills"]
    ensures GoalWords([GoalText(goal)]) == {"improve", "python", "skills"}
  {
    ExampleSplit(goal, words);
    GoalWordsSingle(GoalText(goal));
    assert Words(GoalText(goal)) == words;
  }

  const ExampleMentor := Profile(Some("Technology"), Present(8), Present(["python", "leadership"]),
                                 Absent, Present(["ai"]), Present(Analysis(Some("analytical"), Present(8))))

  const ExampleMentee := Profile(Some("Technology"), Present(2), Present([]),
                                 Present([GoalText("improve python skills")]), Present(["ai"]),
                                 Present(Analysis(Some("collaborative"), Present(6))))

  lemma ExampleSkillSet(mentor: Profile)
    requires mentor == ExampleMentor
    ensures Items(mentor.skills) == {"python", "leadership"}
  {
    var skills := Items(mentor.skills);
    assert forall x | x in skills :: x == "python" || x == "leadership";
    assert "python" == mentor.skills.value[0] && "leadership" == mentor.skills.value[1];
  }

  lemma ExampleSkillMeet(skills: set<string>, words: set<string>)
    requires skills == {"python", "leadership"} && words == {"improve", "python", "skills"}
    ensures skills * words == {"python"}
  {
    assert "leadership" !in words;
    assert "python" in words;
  }

  lemma ExampleSkills(mentor: Profile, mentee: Profile)
    requires mentor == ExampleMentor && mentee == ExampleMentee
    ensures SkillOverlap(mentor, mentee) == 1
  {
    var goal := mentee.goals.value[0].text;
    assert mentee.goals.Or([]) == [GoalText(goal)];
    ExampleGoalWords(goal, ["improve", "python", "skills"]);
    ExampleSkillSet(mentor);
    ExampleSkillMeet(Items(mentor.skills), GoalWords(mentee.goals.Or([])));
  }

  lemma ExampleInterests(mentor: Profile, mentee: Profile)
    requires mentor == ExampleMentor && mentee == ExampleMentee
    ensures InterestOverlap(mentor, mentee) == 1
  {
    assert Items(mentor.interests) == {"ai"} by {
      assert "ai" == mentor.interests.value[0];
    }
    assert Items(mentee.interests) == {"ai"} by {
      assert "ai" == mentee.interests.value[0];
    }
  }

  lemma ExampleReadable(mentor: Profile, mentee: Profile)
    requires mentor == ExampleMentor && mentee == ExampleMentee
    ensures !Raises(mentor, mentee)
  {
    assert GoalsReadable(mentee.goals);
  }

  lemma ExampleOverlaps(mentor: Profile, mentee: Profile)
    requires mentor == ExampleMentor && mentee == ExampleMentee
    ensures !Raises(mentor, mentee)
    ensures SkillOverlap(mentor, mentee) == 1 && InterestOverlap(mentor, mentee) == 1
  {
    ExampleReadable(mentor, mentee);
    ExampleSkills(mentor, mentee);
    ExampleInterests(mentor, mentee);
  }

  lemma ExampleTerms(mentor: Profile, mentee: Profile)
    requires mentor == ExampleMentor && mentee == ExampleMentee
    ensures !Raises(mentor, mentee)
    ensures Terms(mentor, mentee) == [
      Term(40, Some(SameIndustry(Some("Technology")))),
      Term(30, Some(GoodGap(6))),
      Term(40, Some(SkillsAlignment(1))),
      Term(30, Some(CompatibleStyles("analytical", "collaborative"))),
      Term(30, Some(SharedInterests(1)))]
  {
    ExampleOverlaps(mentor, mentee);
  }

  /** A Technology mentor with 8 years, skills python and leadership,
      interest ai, analytical style and readiness 8, against a Technology
      mentee with 2 years, the goal "improve python skills", interest ai,
      collaborative style and readiness 6. Every signal fires: 0.2 for the
      industry, 0.15 for the gap of 6 years, 1/5 for the one matching skill,
      0.15 for the styles, the 0.15 cap for the one shared interest (1/3
      exceeds it), and 0.07 for readiness, 0.92 in all. */
  lemma WorkedExample(mentor: Profile, mentee: Profile)
    requires mentor == ExampleMentor && mentee == ExampleMentee
    ensures Score(mentor, mentee) == MatchResult(184, [
      SameIndustry(Some("Technology")), GoodGap(6), SkillsAlignment(1),
      CompatibleStyles("analytical", "collaborative"), SharedInterests(1)])
  {
    ExampleTerms(mentor, mentee);
    var ts := Terms(mentor, mentee);
    ExampleReasons(ts);
    ScoreTerms(mentor, mentee);
    assert Readiness(mentor) == 8 && Readiness(mentee) == 6;
  }

  lemma ExampleReasons(ts: seq<Term>)
    requires ts == [
      Term(40, Some(SameIndustry(Some("Technology")))),
      Term(30, Some(GoodGap(6))),
      Term(40, Some(SkillsAlignment(1))),
      Term(30, Some(CompatibleStyles("analytical", "collaborative"))),
      Term(30, Some(SharedInterests(1)))]
    requires AllAccounted(ts, 0)
    ensures Tally(ts, 0).reasons == [
      SameIndustry(Some("Technology")), GoodGap(6), SkillsAlignment(1),
      CompatibleStyles("analytical", "collaborative"), SharedInterests(1)]
  {
    TallyAllFired(ts, 0);
  }
}
