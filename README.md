# Quiz attempts, scoring and profile statistics

A Dafny model of the core of a quiz platform's back end:

- the attempt lifecycle: starting a quiz opens an attempt (an attempt with
  no score); submitting it checks ownership, that it is still open and the
  time limit (with 30 seconds of grace), then counts the submitted choice
  ids that are correct, scores the attempt as a percentage rounded to two
  decimals and closes it;
- the profile refresh that runs after every save of a scored attempt:
  number of quizzes taken, total score, win rate (a win is a score of at
  least 50), level (one per 500 points), time played and best category;
- the permission predicates that guard reads and writes (staff-only
  writes, owner-only access, owner-only writes);
- the "Xh Ym" display of a profile's time played.

Files and modules:

- `wrappers.dfy` (`Wrappers`): `Option`.
- `scoring.dfy` (`Scoring`): the correct-answer count (a specification
  function and the loop that computes it), round-half-even to two
  decimals on exact reals, and the score of a submission.
- `attempts.dfy` (`Attempts`): quizzes, attempts and the outcomes of the
  two handlers as pure functions (`StartSpec`, `SubmitSpec`), the attempt
  table as the class `AttemptStore` whose `Start` and `Submit` update it
  in place and are proved equal to those functions, and the lifecycle
  properties.
- `profile_stats.dfy` (`ProfileStats`): a user's scored history, the
  aggregates as folds over it, the refreshed profile as a function, and
  the class `Profile` whose `UpdateStats` overwrites its fields in place.
- `permissions.dfy` (`CorePermissions`) and `account_permissions.dfy`
  (`AccountPermissions`): the permission classes as predicates.
- `time_display.dfy` (`TimeDisplay`): the hours/minutes split, the
  decimal formatting and a parser that inverts it.

Representation choices:

- Attempt ids are positions in the attempt table counted from 1, as the
  database's auto-increment key would hand them out; deletion is not
  modelled, so an id never comes back.
- Instants and durations are whole seconds (`int`).
- An attempt is open exactly when its score is null. `completed_at` is set
  when the row is created (`auto_now_add` in quizzes/models.py:79), so it
  says nothing about openness; the model keeps it as a plain time.
- The quiz catalog is a map from quiz id to the quiz's active flag, time
  limit, question count, set of correct choice ids and category name.
  Every attempt names a quiz of the catalog (the foreign key cascades on
  delete); the operations that read the catalog require this.
- The handler's JSON payload is `Answers`: absent (treated as the empty
  list), a list of choice ids, or something that is not a list.

Points where the code behaves in a way that is easy to misread, and
which the model follows:

- The submit handler checks the time limit (quizzes/views.py:176) before
  it checks that `answers` is a list (quizzes/views.py:185), so a late
  submission with a malformed payload gets the time-limit error
  (`LateBeforeBadAnswers`).
- Nothing in the code bounds `correct_answers` by `total_questions` or the
  score by 100: every submitted position holding a correct id is counted,
  duplicates included (quizzes/views.py:195-197). `DuplicatesOverCount`
  shows one correct id sent three times on a two-question quiz scoring
  150. The bounds are proved only where they hold (`Scoring.ScoreOf` when
  the count is at most the question count, `Attempts.AllOrNothingScores`).
- `score` is declared non-null in quizzes/models.py:73, yet every open
  attempt is created without a score and the handlers test it for null;
  the model follows the handlers and makes the score optional.

## Model

| member | source | states |
|---|---|---|
| Scoring.CorrectCount | quizzes/views.py:194-197 | the count never exceeds the number of submitted ids; it equals that number exactly when every submitted id is correct, and is 0 exactly when none is |
| Scoring.CorrectCountIsPositions | quizzes/views.py:194-197 | the count is the number of submitted positions holding a correct choice id, so a duplicated correct id is counted once per occurrence |
| Scoring.CountCorrect | quizzes/views.py:194-197 | the counting loop returns the count of submitted positions holding a correct id |
| Scoring.Round2 | quizzes/views.py:205 | the rounded value is a whole number of hundredths within half a hundredth of its argument |
| Scoring.Round2Exact | quizzes/views.py:205 | a value that already has at most two decimals is left unchanged by rounding |
| Scoring.Round2AtMost | quizzes/views.py:205 | a value of at most m hundredths rounds to at most m hundredths |
| Scoring.Round2NonNegative | quizzes/views.py:205 | rounding a non-negative value gives a non-negative value |
| Scoring.Percentage | quizzes/views.py:200-201 | the ratio as a percentage is non-negative, at most 100 when the count is at most the total, and exactly 100 when they are equal |
| Scoring.ScoreOf | quizzes/views.py:199-205 | the score is non-negative, is 0 for a quiz without questions, lies within 0.005 of the exact percentage otherwise, and is at most 100 when the count is at most the question count |
| Attempts.StartSpec | quizzes/views.py:109-124 | starting succeeds exactly when the quiz exists and is active; success appends one open attempt of the caller stamped now, whose id is the new table size, and reports the quiz's time limit; failure leaves the table unchanged; catalog integrity is kept |
| Attempts.SubmitSpec | quizzes/views.py:159-218 | the table never changes size and keeps catalog integrity; every rejection leaves it unchanged; a success names the requested id, which belonged to the caller and was open, is closed afterwards, and every other attempt is unchanged |
| Attempts.AttemptStore.constructor | quizzes/models.py:67-80 | a new attempt table is empty |
| Attempts.AttemptStore.Start | quizzes/views.py:109-124 | the in-place handler returns the result and leaves the table that `StartSpec` describes |
| Attempts.AttemptStore.Submit | quizzes/views.py:159-218 | the in-place handler, with its counting loop and five field updates, returns the result and leaves the table that `SubmitSpec` describes |
| Attempts.RepeatedStartsAddAttempts | quizzes/views.py:113-117 | starting the same quiz twice opens two attempts with different ids; nothing makes an open attempt unique per user and quiz |
| Attempts.MissingOrUnknownId | quizzes/views.py:161-165 | a submission without an attempt id is refused as missing, and one naming an id outside the table as not found, whatever the payload and time, and nothing changes |
| Attempts.ForeignAttemptLooksMissing | quizzes/views.py:165 | submitting another user's attempt gives the same not-found outcome as submitting an id that does not exist, and changes nothing |
| Attempts.ClosedAttemptRejected | quizzes/views.py:167-168 | a closed attempt of the caller is rejected as already submitted whatever the payload and time, and nothing changes |
| Attempts.TimeCheckDecides | quizzes/views.py:171-186 | for an open attempt of the caller, the submission is refused for lateness exactly when more than limit + 30 seconds have passed, whatever the payload; an on-time submission is scored unless its answers are not a list, in which case it is refused as such |
| Attempts.TimeBoundary | quizzes/views.py:171-181 | a submission exactly limit + 30 seconds after the start passes the time check; one second later it is rejected with the elapsed and limit seconds, and nothing changes |
| Attempts.LateStaysLate | quizzes/views.py:171-181 | a submission rejected for lateness is rejected for lateness at every later time, whatever the answers |
| Attempts.LateBeforeBadAnswers | quizzes/views.py:171-186 | a late submission whose answers are not a list reports the time limit, not the malformed answers |
| Attempts.SuccessClosesAttempt | quizzes/views.py:184-210 | a successful submission had list (or absent) answers and was on time; it stores the score of the correct count against the question count, the count, the question count, completion at now and duration now minus start, and keeps user, quiz and start |
| Attempts.SecondSubmitRejected | quizzes/views.py:165-168 | after a successful submission, every later submission of that attempt is rejected without change: as already submitted for its owner, as not found for anyone else |
| Attempts.EmptyQuizScoresZero | quizzes/views.py:199-203 | an on-time submission for a quiz without questions succeeds with score 0 and total 0 |
| Attempts.AllOrNothingScores | quizzes/views.py:189-205 | as many submitted ids as questions, all correct, scores 100; no correct id scores 0 with count 0 |
| Attempts.HalfRightExample | quizzes/views.py:109-218 | a two-question quiz answered with one correct and one wrong id two seconds after starting scores 50 with one correct answer out of two |
| Attempts.DuplicatesOverCount | quizzes/views.py:194-201 | one correct id submitted three times on a two-question quiz counts 3 correct answers and scores 150 |
| ProfileStats.Tally | quizzes/signals.py:18-30 | the count of a history is its length and the wins are at most the count |
| ProfileStats.WinsArePositions | quizzes/signals.py:30 | the wins are the number of scored attempts whose score is at least 50 |
| ProfileStats.TallyMeaning | quizzes/signals.py:19-40 | time played is null exactly when no scored attempt has a duration; the total of non-negative scores is non-negative; all wins or no wins give as many wins as attempts or none |
| ProfileStats.TallyPermutation | quizzes/signals.py:18-40 | count, total score, wins and time played depend only on which attempts are scored, not on their order |
| ProfileStats.FirstMax | quizzes/signals.py:43-45 | the chosen position holds a greatest value and no earlier position holds an equal one |
| ProfileStats.BestCategory | quizzes/signals.py:43-48 | there is a best category exactly when the user has a scored attempt; it is the category of one of them and no category of the history has a higher mean score |
| ProfileStats.MeanPermutation | quizzes/signals.py:43-45 | a category's mean score depends only on which attempts are scored, not on their order |
| ProfileStats.BestMeanOrderIndependent | quizzes/signals.py:43-48 | two orders of the same scored attempts give best categories with the same mean score |
| ProfileStats.LevelFor | quizzes/signals.py:36 | the level is the one whose 500-point bracket contains the total score |
| ProfileStats.LevelExamples | quizzes/signals.py:36 | totals 80 and 499.99 are level 1, 500 is level 2 and 1200 is level 3 |
| ProfileStats.WinRate | quizzes/signals.py:30-32 | the win rate lies between 0 and 100, is 100 when every attempt is a win and 0 when none is |
| ProfileStats.Refreshed | quizzes/signals.py:13-50 | after a refresh the quizzes taken are the history's length, total score and time played are its sums, the level brackets the total, the win rate is 100 times the share of attempts scoring at least 50 (so it lies in 0..100) and the best category is the history's when there is an attempt, and both are kept otherwise; streaks, completion rate and weakest category are never written |
| ProfileStats.RefreshIdempotent | quizzes/signals.py:13-50 | refreshing twice from the same history gives the profile one refresh gives |
| ProfileStats.RefreshOrderIndependent | quizzes/signals.py:18-48 | two orders of the same scored attempts refresh to profiles equal in every field but the best category, and the two best categories have the same mean score |
| ProfileStats.RefreshExample | quizzes/tests/test_signals.py:10-46 | one attempt scored 80 in "Science" lasting two minutes gives one quiz taken, total 80, level 1, win rate 100, two minutes played and best category "Science" |
| ProfileStats.OpenAttemptNotCounted | quizzes/signals.py:13-18 | appending an open attempt leaves every user's scored history unchanged |
| ProfileStats.HistoryConcat | quizzes/signals.py:18 | the scored history of two stretches of the attempt table is the history of the first followed by that of the second |
| ProfileStats.ClosingLeavesOthers | quizzes/signals.py:18 | closing an open attempt leaves every other user's scored history exactly as it was |
| ProfileStats.ClosingAddsRecord | quizzes/signals.py:18 | closing an open attempt adds to its owner's scored history exactly the record of its score, duration and quiz category |
| ProfileStats.ClosingCountsOnce | quizzes/signals.py:18 | closing an open attempt into a scored one makes its owner's history one record longer and leaves every other user's history as long as it was |
| ProfileStats.SubmissionCounted | quizzes/signals.py:13-27 | a successful submission adds to the submitter's history exactly the record of the returned score, the elapsed time and the quiz's category, so the refresh that follows counts one more quiz and adds the returned score to the total |
| ProfileStats.Profile.constructor | accounts/models.py:46-59 | a new profile has the column defaults: level 1, zero counts, zero rates, no time played and empty category names |
| ProfileStats.Profile.UpdateStats | quizzes/signals.py:8-50 | saving an open attempt leaves the profile unchanged; saving a scored one overwrites the profile with `Refreshed` of its user's history |
| CorePermissions.AdminOrReadOnlyRule | core/permissions.py:8-11 | GET, HEAD and OPTIONS are always allowed; any other method is allowed exactly when there is a user and it is staff |
| CorePermissions.OwnerOnlyIsOwnership | core/permissions.py:19-21 | owner-only access ignores the method and holds exactly when the object is the user or carries that user |
| CorePermissions.OwnerOrReadOnlyRule | core/permissions.py:29-32 | GET, HEAD and OPTIONS are always allowed; any other method is allowed exactly when owner-only access would be; owner-only access implies it |
| CorePermissions.PermissionExamples | core/tests/test_permissions.py:17-69 | a staff POST passes the admin rule and a regular user's does not; the owner passes owner-only access and may PUT the object, another user fails both |
| AccountPermissions.ProfileWriteRule | accounts/permissions.py:7-15 | reads are always allowed; a write is allowed exactly when the object is the requester or its `user` is the requester, so an object without a `user` is only readable |
| AccountPermissions.AgreesWithCore | accounts/permissions.py:7-15 | the account-level rule and the core owner-or-read-only rule decide every request alike |
| TimeDisplay.HoursMinutes | accounts/serializers.py:41-42 | the split gives minutes in 0..59 and hours and minutes that account for the seconds to within the dropped remainder below one minute |
| TimeDisplay.DecimalRoundTrip | accounts/serializers.py:43 | the decimal text of an integer parses back to that integer |
| TimeDisplay.FormatRoundTrip | accounts/serializers.py:43 | the "Xh Ym" text of an hours/minutes pair parses back to that pair |
| TimeDisplay.Display | accounts/serializers.py:37-44 | the display is the "Xh Ym" text of the split of the time played (no time played counting as 0 seconds), and parsing it gives that split back |
| TimeDisplay.DisplayExample | accounts/tests/test_serializers.py:27-37 | 2 h 30 min displays as "2h 30m" |
| TimeDisplay.DisplayEdgeExamples | accounts/serializers.py:40-44 | 2 h 30 min 59 s displays as "2h 30m" (leftover seconds dropped), and both no time played and a zero duration display as "0h 0m" |

## Left out

- Scoring.Round2: Python's `round` works on binary floats, whose
  representation can move a half-way value to either side; the model
  rounds the exact rational half to even. Scores and the win rate are
  exact reals, not floats.
- Scoring.ScoreOf: computes `correct * 100 / total` exactly, where the
  code computes `(correct / total) * 100` in floating point; the two agree
  on reals.
- Attempts.SubmitSpec: `total_seconds()` fractions are dropped, since time
  is whole seconds; the elapsed and limit seconds are integers.
- Attempts.SubmitSpec: an `attempt_id` that is present but falsy (0, the
  empty string) is modelled as missing; one that is not an integer is not
  modelled. Elements of `answers` that are not integers are not modelled.
- Attempts.SubmitSpec: the response message strings and the HTTP status
  codes are represented by the result constructors only.
- Attempts.AttemptStore: two concurrent submissions of the same attempt
  (no row lock in the handler) are not modelled; each handler runs as one
  step.
- ProfileStats.BestCategory: the database gives no order to ties in the
  average score; the model picks the category met first in table order.
  Categories are identified by name; a quiz whose category was deleted
  (null name) is not modelled.
- ProfileStats.Refreshed: the profile is assumed to exist already
  (`get_or_create` creating one is the constructor followed by the
  refresh); `weakest_category`, the streaks and the completion rate are
  carried through because the handler never writes them.
- ProfileStats.History: the `avg_s` aggregate is computed by the handler
  but never used, so it is not modelled.
- An anonymous requester (Django REST framework's `AnonymousUser`) is
  not staff and equals no user, so the model represents it as `None`,
  which owns nothing and is not staff.
- The list views, filters, serializers other than the time display,
  forms, admin, user manager, the account views and signals and the
  activity log are not part of this model.
