# MentorMatch AI: the matching core in Dafny

MentorMatch AI pairs mentees with mentors. Its backend stores user profiles in
a document database. For a given mentee, it scores every mentor with a fixed
additive heuristic, keeps the mentors above 0.3 and ranks them. It stores the
top five as pending matches and returns the top ten. This project models that
core and proves properties of the model:

- `calculate_match_score`, in `scoring.dfy` (module `Scoring`):
  - industry, experience gap, skills against the mentee's goal words,
    communication style, shared interests, and readiness;
  - the fallback to 0.5 with "Basic compatibility assessment" when reading a
    profile raises;
  - the texts of the reasons.
- The ranking policy of `find_matches`, in `ranking.dfy` (module `Ranking`):
  - at most 1000 mentors are read;
  - the threshold is 0.3;
  - the sort is stable, from high to low;
  - the top five are stored without their four display columns;
  - the top ten are returned.
- `clean_mongo_doc` and `clean_mongo_list`, in `clean.dfy` (module `Clean`):
  they remove the database's `_id` key from documents.
- The supporting modules:
  - `json.dfy` (`Json`): document values, with dicts as ordered key/value lists;
  - `text.dfy` (`Text`): `str.lower`, `str.split` and `str(n)`;
  - `wrappers.dfy` (`Wrappers`): `Option`.
- `examples.dfy` (`Examples`): one score evaluated in full.

Scores are exact integers in units of 1/200, so the sum has no floating-point
error. Every term of the heuristic is a whole number of such units once the
readiness values are integers. `round(score, 2)` is a parameter of the
ranking, one rounding per mentor. The float sum the backend rounds depends on
which terms it added, so two mentors with the same exact score may round
apart. `Scoring.RoundsTo` states which hundredths a correct rounding may
return: one value for an even count of units, and either neighbour for an odd
count, where the float error decides.

A profile field read with `.get(key, default)` is a `Scoring.Field`:
- `Absent`: the key is missing and the default applies;
- `Present`: the field holds a usable value;
- `Malformed`: the field holds a value that makes the scorer raise.

A malformed field the scorer reads sends it to its `except` branch
(`Scoring.Raises`). It reads, in this order:
- both `experience_years`;
- the mentor's `skills` and the mentee's `goals`, where a goal that is not a
  string also raises;
- both `ai_analysis` dicts;
- both `interests`;
- both readiness values.

It never reads the mentee's `skills` or the mentor's `goals`.

The skill term adds `min(k / 5, 0.25)` for k matching skills, so it reaches
its cap at two skills. The interest term adds `min(j / 3, 0.15)`, so one
shared interest already reaches its cap. `Examples.WorkedExample` evaluates a
Technology mentor and mentee for whom every signal fires: 184 units, or 0.92.

## Model

| member | source | states |
|---|---|---|
| Scoring.Score | backend/server.py:212-276 | The fallback (100 units, the basic reason) comes back exactly when a read raises (`Raises`). Otherwise, at most one reason per signal, in the scorer's order, and the score is the reasons' weights plus both readiness values. |
| Scoring.Tally | backend/server.py:215-265 | Adding up the signal terms: the total is what the collected reasons stand for, and the reasons come in signal order. |
| Scoring.TallyReasons | backend/server.py:215-265 | The tally adds up every term. It holds a reason for a signal if and only if that term fired, and then it holds that term's reason. |
| Scoring.ScoreTerms | backend/server.py:212-273 | The score is the sum of the five terms plus readiness. Each signal has a reason in the result if and only if its term fired. |
| Scoring.ScoreIndustry | backend/server.py:219-221 | The industry reason appears if and only if the industries are equal (two missing industries count as equal), and it carries the mentor's industry. |
| Scoring.ScoreExperience | backend/server.py:224-230 | An experience reason appears if and only if the gap is at least 1. A gap of 3 or more gives the good-gap reason, and a gap of 1 or 2 the moderate one. |
| Scoring.ScoreSkills | backend/server.py:233-242 | A skills reason appears if and only if at least one mentor skill is a goal word, and it carries that count. |
| Scoring.ScoreStyle | backend/server.py:245-256 | A style reason appears if and only if both styles are non-empty and the table lists the mentee's style under the mentor's. |
| Scoring.ScoreInterests | backend/server.py:259-265 | An interests reason appears if and only if at least one interest is shared, and it carries that count. |
| Scoring.ScoreWithoutAnalysis | backend/server.py:245-271 | Without an analysis on either side there is no style reason, and the default readiness values add 10 units (0.05). |
| Scoring.ScoreIsExact | backend/server.py:216-271 | The integer score is exactly 200 times the source's real-valued sum, including the `min` caps and the readiness division. |
| Scoring.SkillsAmountExact | backend/server.py:239-241 | The skills term equals 200 times `min(k / 5, 0.25)` for every count k. |
| Scoring.InterestsAmountExact | backend/server.py:262-264 | The interests term equals 200 times `min(j / 3, 0.15)` for every count j. |
| Scoring.ScoreBounds | backend/server.py:216-271 | With readiness values in 0..10, the score lies in 0..200 units (0 to 1.0). |
| Scoring.MoreExperienceNeverLowers | backend/server.py:224-230 | Raising the mentor's years of experience never lowers the score. |
| Scoring.ScoreIgnoresMentorGoalsAndMenteeSkills | backend/server.py:233-236 | The mentor's goals and the mentee's skills play no part in the score. |
| Scoring.StyleTableReflexive | backend/server.py:248-253 | Every style in the compatibility table accepts a mentee of its own style. |
| Scoring.StyleOnlyScore | backend/server.py:219-271 | For two profiles that hold only a style, the score is 0.2 (the missing industries are equal), plus 0.15 if the styles match, plus 0.05 for readiness. |
| Scoring.ScoreNotSymmetric | backend/server.py:248-254 | The score is not symmetric: a creative mentor with a collaborative mentee scores 0.4, and the reverse pair scores 0.25. |
| Scoring.CreativeAcceptsCollaborative | backend/server.py:248-254 | The table accepts creative→collaborative and rejects collaborative→creative. |
| Scoring.GoalWordsAreLowerWords | backend/server.py:235-236 | Every goal word is a non-empty, whitespace-free word without upper-case letters. |
| Scoring.SkillNeverMatches | backend/server.py:233-238 | A mentor skill with an upper-case letter or whitespace never counts as matching. |
| Scoring.GoalWordsSnoc | backend/server.py:235-236 | The words of the first i+1 goals are those of the first i goals plus those of goal i. |
| Scoring.CollectGoalWords | backend/server.py:234-236 | The loop over the goals fails if and only if some goal is not a string. Otherwise it collects exactly the words of every goal. |
| Scoring.ReasonText | backend/server.py:221-276 | Each kind of reason text starts with its own two letters (`Initials`). |
| Scoring.ReasonTextTells | backend/server.py:221-276 | Equal reason texts come from the same kind of reason. For the gap, skills and interests kinds, they come from the same reason. |
| Scoring.CountedTextsDiffer | backend/server.py:227-265 | Two texts with the same prefix and suffix around `str(n)` are equal only for equal counts. |
| Scoring.ReasonTextAmbiguous | backend/server.py:221-256 | A missing industry and the industry "None" print the same text. Styles containing a dash can print the same text as other styles. |
| Scoring.MatchScore | backend/server.py:273-276 | The returned score is 0.5 when reading raises. Otherwise it is a correct rounding of the exact score, given a correct `round` for this call. |
| Scoring.RoundingAgainstThreshold | backend/server.py:273 | From 62 units up the rounded score clears 0.3; at 60 units or less it does not. |
| Examples.WorkedExample | backend/server.py:212-273 | The Technology example scores 184 units (0.92), with all five reasons in order. |
| Text.Lower | backend/server.py:236 | `lower()` keeps the length, maps every ASCII capital to its small letter and keeps every other character. |
| Text.LowerOfLower | backend/server.py:236 | Lower-casing leaves a string with no upper-case letters unchanged. |
| Text.Split | backend/server.py:236 | `split()` yields non-empty, whitespace-free words made of the input's characters. |
| Text.SplitWord | backend/server.py:236 | A whitespace-free, non-empty string splits into itself. |
| Text.SplitAtSpace | backend/server.py:236 | Any whitespace character separates: the split of a + c + b is the split of a followed by the split of b. With `SplitWord` this fixes `split()` as the maximal whitespace-free runs. |
| Text.SplitKeepsText | backend/server.py:236 | The words glued back together are the input with its whitespace removed. |
| Text.SplitJoinSpaced | backend/server.py:236 | Splitting words joined by single spaces gives the words back. |
| Text.Decimal | backend/server.py:227 | `str(n)` is a non-empty string of digits with no leading zero. |
| Text.DecimalRoundTrip | backend/server.py:227 | Reading back the digits of `str(n)` gives n. |
| Text.DecimalInjective | backend/server.py:227 | Different counts print differently. |
| Ranking.CollectCandidates | backend/server.py:420-436 | The loop over the mentors keeps exactly the built matches that score above 0.3, in mentor order. |
| Ranking.AboveExactly | backend/server.py:422 | A match is kept if and only if it is one of the built matches and scores above 0.3. |
| Ranking.AboveClasses | backend/server.py:422 | Filtering keeps each score class above 0.3 whole and in order, and drops the others. |
| Ranking.Insert | backend/server.py:439 | Inserting keeps the same multiset of matches and keeps the order sorted. |
| Ranking.SortByScore | backend/server.py:439 | The sort is a permutation into high-to-low order. |
| Ranking.SortIsStable | backend/server.py:439 | For every score, the sorted matches of that score are the input's matches of that score, in input order. |
| Ranking.SortedByClassesUnique | backend/server.py:439 | Two sorted sequences with the same score classes are equal. |
| Ranking.SortIsTheStableOrder | backend/server.py:439 | Any sorted order that keeps every score class in input order is the sort itself. |
| Ranking.Fetched | backend/server.py:417 | The query returns the first min(n, 1000) mentors. |
| Ranking.MatchFor | backend/server.py:421-435 | The match for a mentor carries a fresh id and clock reading, the mentor's and mentee's ids and the four display columns. Its reasons are the scorer's own reasons for that mentor. Its score is 0.5 with the basic reason when the scorer raises, and otherwise a correct rounding of the exact score given a correct `round`. |
| Ranking.Built | backend/server.py:420-435 | One match per mentor, in mentor order, the one at position i built from mentor i. |
| Ranking.Above | backend/server.py:422 | Only matches scoring above 0.3 are kept, and never more than given. |
| Ranking.MentorsPastLimitIgnored | backend/server.py:417 | Mentors after the first thousand do not change the outcome. |
| Ranking.Ranked | backend/server.py:417-439 | The ranked candidates are sorted high to low and all score above 0.3. They are the candidates, with each score class in mentor order. |
| Ranking.Stored | backend/server.py:443 | A stored match has the keys id, mentor_id, mentee_id, match_score, match_reasons, status and created_at, in that order. Every key except the four display ones reads as before, and the display ones are gone. |
| Ranking.FindMatches | backend/server.py:408-446 | Shows the first min(n, 10) ranked candidates, all above 0.3 and sorted. Stores the first min(n, 5) of them, in rank order and without display columns. |
| Ranking.ShownComeFromMentors | backend/server.py:420-446 | Every shown match belongs to one of the first thousand mentors: it carries that mentor's id, a fresh identifier and the scorer's reasons for that mentor. |
| Ranking.PrefixIsBest | backend/server.py:439-446 | A prefix of a sorted sequence is part of it, and nothing left out scores higher than anything in the prefix. |
| Ranking.ShownAreTheBest | backend/server.py:439-446 | The shown matches are candidates, and no candidate left out scores higher than a shown one. |
| Ranking.TiesKeepMentorOrder | backend/server.py:417-439 | For every score above 0.3, the ranked matches of that score are the mentors' matches of that score, in the order the query returned them. |
| Ranking.FailingMentorIsCandidate | backend/server.py:274-276 | A mentor whose profile makes the scorer raise scores 0.5 with the basic reason. If it is among the first thousand, it is always ranked. |
| Ranking.ExactScoreDecides | backend/server.py:273 | With a correct rounding for that mentor, a mentor at 62 units or more is ranked, and one at 60 units or less is not. |
| Json.Get | backend/server.py:443 | A key reads as missing if and only if no entry has it; a key that reads as present reads as the value of one of its entries. |
| Json.GetFirst | backend/server.py:443 | A key reads as the value of its first entry. |
| Json.Without | backend/server.py:443 | The comprehension keeps, in order, exactly the entries whose key is not dropped. |
| Json.WithoutAppend | backend/server.py:443 | Dropping keys from a concatenation drops them from each part, so the kept entries stay in their order. |
| Json.WithoutSingle | backend/server.py:443 | A single entry is kept if and only if its key is not dropped. With `WithoutAppend` this fixes the comprehension's result entry by entry. |
| Json.GetWithout | backend/server.py:443 | After dropping keys, a dropped key reads as missing and every other key reads as before. |
| Clean.CleanDoc | backend/server.py:126-138 | A cleaned dict has the same keys in the same order, minus `_id`, and each value cleaned by `CleanField`; atomic values are kept. A non-dict comes back unchanged. No dict the walk visits keeps `_id`. |
| Clean.CleanField | backend/server.py:133-137 | A dict value is cleaned by `CleanDoc`. A list value keeps its length, has every item cleaned by `CleanDoc` and keeps its non-dict items. Other values are unchanged. |
| Clean.CleanList | backend/server.py:140-142 | Every document is cleaned by `CleanDoc`, in order, and the length is kept. |
| Clean.CleanDocOfIdFree | backend/server.py:126-138 | A document with no `_id` where the walk looks comes back unchanged. |
| Clean.CleanDocFixpoints | backend/server.py:126-138 | Cleaning leaves a document unchanged if and only if it has no `_id` where the walk looks. |
| Clean.CleanDocIdempotent | backend/server.py:126-138 | Cleaning twice is the same as cleaning once. |
| Clean.CleanListFixpoints | backend/server.py:140-142 | Cleaning leaves a list unchanged if and only if every document in it has no `_id` where the walk looks. |
| Clean.CleanListIdempotent | backend/server.py:140-142 | Cleaning a list twice is the same as cleaning it once. |
| Clean.CleanSkipsListsInLists | backend/server.py:136-137 | A dict inside a list inside a list keeps its `_id`, so a cleaned document can still contain one. |

## Left out

- The AI helpers are foreign calls with no fixed behaviour: LLM chat setup, profile analysis, session agendas, goal suggestions. So is the simulated LinkedIn import.
- The HTTP routes other than `find_matches`, the dashboard statistics, the Pydantic request and response models, CORS and logging are I/O and framework glue.
- The database is not modelled. The mentee lookup and its 404, the mentor query and `insert_one` are I/O. The mentors arrive as a sequence, and the stored documents are returned rather than written. `insert_one` adds an `_id` to the stored copy only, which does not reach the response.
- `uuid4()` and `utcnow()` are the parameters `ids` and `clock`, indexed by mentor position.
- The float arithmetic of the score is not modelled. `round(score, 2)` is the parameter `round`, one rounding per mentor, since float sums with the same exact value can round apart. `Scoring.RoundsTo` constrains the values a correct float rounding may give, and the lemmas that need a correct rounding assume it explicitly.
- The error path of `find_matches`: a mentor that scores above 0.3 but lacks `id`, `name`, `current_position`, `industry` or `experience_years` raises `KeyError`, which becomes a 500. A mentor below the threshold is never looked up and cannot raise. `Ranking.Mentor` always holds these columns.
- Ranking.MatchFor: `uuid4()` and `utcnow()` are called only for mentors that clear the threshold. Indexing them by mentor position gives the same records, since the values are arbitrary.
- Scoring.Profile: readiness and experience are integers. The source also accepts floats there, which the units of 1/200 cannot represent. A non-integer value is out of scope rather than malformed.
- Scoring.Profile: industries and styles are strings or missing. Comparing other types (a number as the industry, say) is out of scope.
- Scoring.Profile: a bare string stored where a list of skills, interests or goals is expected is iterated character by character by the source. The model treats such a field as a list of strings, or as malformed.
- Text.Lower: lower-cases only ASCII letters. Python's `str.lower` also maps non-ASCII letters.
- Clean.CleanDoc: returns a new value. The source mutates the dict in place and returns it, so aliases of the input see the change; aliasing is not modelled.
- The test script `backend_test.py` drives the live HTTP API and is not modelled.
