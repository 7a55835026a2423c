/**
 * The quiz-attempt lifecycle of quizzes/views.py: `QuizStartView.post`
 * opens an attempt, `TakenQuizCreateView.post` validates a submission,
 * scores it and closes the attempt.
 *
 * The attempt table is a sequence: the attempt with id `k` is element
 * `k - 1`, as an auto-increment primary key starting at 1 would number
 * them; the core never deletes attempts. The quiz catalog (quizzes, their
 * question counts and correct choices) is read-only here and is passed in.
 * Times and durations are whole seconds.
 */
module Attempts {
  import opened Wrappers
  import opened Scoring

  type UserId = int
  type QuizId = int
  type AttemptId = int
  type Time = int

  /** Seconds allowed past the time limit for network latency. */
  const GraceSeconds: int := 30

  /** What the submit handler reads of a quiz. */
  datatype Quiz = Quiz(
    active: bool,
    timeLimitMinutes: nat,
    questionCount: nat,
    correctChoices: set<ChoiceId>,
    category: string)

  type Catalog = map<QuizId, Quiz>

  /** A row of the attempt table. `completedAt` is stamped at creation
      (auto_now_add) and again on a successful submission; whether the
      attempt is still open is decided by `score` alone. */
  datatype Attempt = Attempt(
    user: UserId,
    quiz: QuizId,
    startedAt: Time,
    completedAt: Time,
    score: Option<real>,
    correctAnswers: Option<nat>,
    totalQuestions: Option<nat>,
    duration: Option<int>)
  {
    predicate IsOpen() {
      score.None?
    }
  }

  datatype StartResult =
    | Started(attemptId: AttemptId, quizId: QuizId, timeLimit: nat)
    | QuizNotFound

  /** The `answers` field of a submission: missing (read as an empty
      list), a list of choice ids, or some value that is not a list. */
  datatype Answers = Absent | Items(ids: seq<ChoiceId>) | NotAList

  datatype SubmitResult =
    | Scored(id: AttemptId, score: real, correctAnswers: nat, totalQuestions: nat)
    | MissingId
    | NotFound
    | AlreadySubmitted
    | TimeExceeded(elapsedSeconds: int, limitSeconds: int)
    | BadAnswers

  /** A result together with the attempt table after the operation. */
  datatype Outcome<R> = Outcome(result: R, attempts: seq<Attempt>)

  /** Every attempt refers to a quiz of the catalog (a foreign key whose
      quiz deletion cascades to the attempts). */
  predicate QuizzesKnown(attempts: seq<Attempt>, catalog: Catalog) {
    forall i :: 0 <= i < |attempts| ==> attempts[i].quiz in catalog
  }

  /** The attempt numbered `id` exists and belongs to `caller`. */
  predicate Owns(attempts: seq<Attempt>, id: AttemptId, caller: UserId) {
    0 < id <= |attempts| && attempts[id - 1].user == caller
  }

  /** A freshly started attempt: nothing scored yet. */
  function Opened(user: UserId, quizId: QuizId, now: Time): Attempt {
    Attempt(user, quizId, now, now, None, None, None, None)
  }

  function LimitSeconds(quiz: Quiz): int {
    quiz.timeLimitMinutes * 60
  }

  /** The deadline test of the submit handler: strictly more than the
      limit plus the grace period has elapsed. */
  predicate TooLate(elapsed: int, quiz: Quiz) {
    elapsed > LimitSeconds(quiz) + GraceSeconds
  }

  function SubmittedIds(answers: Answers): seq<ChoiceId>
    requires !answers.NotAList?
  {
    if answers.Items? then answers.ids else []
  }

  predicate AllIn(ids: seq<ChoiceId>, correct: set<ChoiceId>) {
    forall i :: 0 <= i < |ids| ==> ids[i] in correct
  }

  predicate NoneIn(ids: seq<ChoiceId>, correct: set<ChoiceId>) {
    forall i :: 0 <= i < |ids| ==> ids[i] !in correct
  }

  /** Start: an active quiz of the catalog gets one more open attempt,
      stamped `now`; a missing or inactive quiz is not found. */
  function StartSpec(attempts: seq<Attempt>, caller: UserId, quizId: QuizId, now: Time, catalog: Catalog)
    : (out: Outcome<StartResult>)
    ensures QuizzesKnown(attempts, catalog) ==> QuizzesKnown(out.attempts, catalog)
    ensures out.result.Started? <==> quizId in catalog && catalog[quizId].active
    ensures out.result.Started? ==>
      && out.attempts == attempts + [Opened(caller, quizId, now)]
      && out.result.attemptId == |out.attempts|
      && out.result.timeLimit == catalog[quizId].timeLimitMinutes
    ensures out.result.QuizNotFound? ==> out.attempts == attempts
  {
    if quizId in catalog && catalog[quizId].active then
      Outcome(Started(|attempts| + 1, quizId, catalog[quizId].timeLimitMinutes),
              attempts + [Opened(caller, quizId, now)])
    else
      Outcome(QuizNotFound, attempts)
  }

  /** Submit: the checks in the order the handler makes them, then the
      scoring and the closing of the attempt in one step. */
  function SubmitSpec(attempts: seq<Attempt>, caller: UserId, attemptId: Option<AttemptId>,
                      answers: Answers, now: Time, catalog: Catalog): (out: Outcome<SubmitResult>)
    requires QuizzesKnown(attempts, catalog)
    ensures QuizzesKnown(out.attempts, catalog)
    ensures |out.attempts| == |attempts|
    ensures !out.result.Scored? ==> out.attempts == attempts
    ensures out.result.Scored? ==>
      && attemptId == Some(out.result.id)
      && Owns(attempts, out.result.id, caller)
      && attempts[out.result.id - 1].IsOpen()
      && !out.attempts[out.result.id - 1].IsOpen()
      && forall i :: 0 <= i < |attempts| && i != out.result.id - 1 ==> out.attempts[i] == attempts[i]
  {
    if attemptId.None? then Outcome(MissingId, attempts)
    else if !Owns(attempts, attemptId.value, caller) then Outcome(NotFound, attempts)
    else
      var idx := attemptId.value - 1;
      var attempt := attempts[idx];
      var quiz := catalog[attempt.quiz];
      var elapsed := now - attempt.startedAt;
      if !attempt.IsOpen() then Outcome(AlreadySubmitted, attempts)
      else if TooLate(elapsed, quiz) then Outcome(TimeExceeded(elapsed, LimitSeconds(quiz)), attempts)
      else if answers.NotAList? then Outcome(BadAnswers, attempts)
      else
        var count := CorrectCount(SubmittedIds(answers), quiz.correctChoices);
        var total := quiz.questionCount;
        var score := ScoreOf(count, total);
        var closed := attempt.(score := Some(score), correctAnswers := Some(count),
                               totalQuestions := Some(total), completedAt := now,
                               duration := Some(elapsed));
        Outcome(Scored(attemptId.value, score, count, total), attempts[idx := closed])
  }

  /** The attempt table, updated in place by the two handlers. */
  class AttemptStore {
    var attempts: seq<Attempt>

    constructor ()
      ensures attempts == []
    {
      attempts := [];
    }

    method Start(caller: UserId, quizId: QuizId, now: Time, catalog: Catalog) returns (r: StartResult)
      modifies this
      ensures Outcome(r, attempts) == StartSpec(old(attempts), caller, quizId, now, catalog)
    {
      if quizId !in catalog || !catalog[quizId].active {
        return QuizNotFound;
      }
      attempts := attempts + [Opened(caller, quizId, now)];
      r := Started(|attempts|, quizId, catalog[quizId].timeLimitMinutes);
    }

    method Submit(caller: UserId, attemptId: Option<AttemptId>, answers: Answers, now: Time, catalog: Catalog)
      returns (r: SubmitResult)
      requires QuizzesKnown(attempts, catalog)
      modifies this
      ensures Outcome(r, attempts) == SubmitSpec(old(attempts), caller, attemptId, answers, now, catalog)
    {
      if attemptId.None? {
        return MissingId;
      }
      var id := attemptId.value;
      if !(0 < id <= |attempts|) || attempts[id - 1].user != caller {
        return NotFound;
      }
      var attempt := attempts[id - 1];
      if attempt.score.Some? {
        return AlreadySubmitted;
      }

      // Time validation, before the answers are looked at.
      var quiz := catalog[attempt.quiz];
      var elapsed := now - attempt.startedAt;
      var limit := quiz.timeLimitMinutes * 60;
      if elapsed > limit + GraceSeconds {
        return TimeExceeded(elapsed, limit);
      }

      var ids: seq<ChoiceId>;
      match answers {
        case NotAList => return BadAnswers;
        case Absent => ids := [];
        case Items(xs) => ids := xs;
      }
      var count := CountCorrect(ids, quiz.correctChoices);
      var total := quiz.questionCount;
      var score := ScoreOf(count, total);

      attempt := attempt.(score := Some(score));
      attempt := attempt.(correctAnswers := Some(count));
      attempt := attempt.(totalQuestions := Some(total));
      attempt := attempt.(completedAt := now);
      attempt := attempt.(duration := Some(elapsed));
      attempts := attempts[id - 1 := attempt];
      r := Scored(id, score, count, total);
    }
  }

  // ---------------------------------------------------------------------
  // Properties of the lifecycle

  /** Starting twice on the same quiz opens two distinct attempts; there is
      no uniqueness per user and quiz. */
  lemma RepeatedStartsAddAttempts(attempts: seq<Attempt>, caller: UserId, quizId: QuizId,
                                  t1: Time, t2: Time, catalog: Catalog)
    requires quizId in catalog && catalog[quizId].active
    ensures var first := StartSpec(attempts, caller, quizId, t1, catalog);
            var second := StartSpec(first.attempts, caller, quizId, t2, catalog);
            && first.result.Started? && second.result.Started?
            && first.result.attemptId != second.result.attemptId
            && second.attempts == attempts + [Opened(caller, quizId, t1), Opened(caller, quizId, t2)]
  {
  }

  /** The first two checks: no attempt id is refused as missing, and an id
      naming no attempt as not found, whatever the payload and the time. */
  lemma MissingOrUnknownId(attempts: seq<Attempt>, caller: UserId, id: AttemptId,
                           answers: Answers, now: Time, catalog: Catalog)
    requires QuizzesKnown(attempts, catalog)
    ensures SubmitSpec(attempts, caller, None, answers, now, catalog) == Outcome(MissingId, attempts)
    ensures !(0 < id <= |attempts|) ==>
      SubmitSpec(attempts, caller, Some(id), answers, now, catalog) == Outcome(NotFound, attempts)
  {
  }

  /** A submission naming an attempt of another user is answered exactly as
      one naming no attempt at all: existence does not leak. */
  lemma ForeignAttemptLooksMissing(attempts: seq<Attempt>, caller: UserId, id: AttemptId,
                                   answers: Answers, now: Time, catalog: Catalog)
    requires QuizzesKnown(attempts, catalog)
    requires 0 < id <= |attempts| && attempts[id - 1].user != caller
    ensures SubmitSpec(attempts, caller, Some(id), answers, now, catalog)
         == SubmitSpec(attempts, caller, Some(|attempts| + 1), answers, now, catalog)
         == Outcome(NotFound, attempts)
  {
  }

  /** A closed attempt of the caller is rejected as already submitted,
      whatever the payload and the time, and its stored score stays. */
  lemma ClosedAttemptRejected(attempts: seq<Attempt>, caller: UserId, id: AttemptId,
                              answers: Answers, now: Time, catalog: Catalog)
    requires QuizzesKnown(attempts, catalog)
    requires Owns(attempts, id, caller) && !attempts[id - 1].IsOpen()
    ensures SubmitSpec(attempts, caller, Some(id), answers, now, catalog) == Outcome(AlreadySubmitted, attempts)
  {
  }

  /** The deadline is inclusive: exactly limit + 30 s passes the time
      check, one second more fails it and changes nothing. */
  lemma TimeBoundary(attempts: seq<Attempt>, caller: UserId, id: AttemptId,
                     answers: Answers, catalog: Catalog)
    requires QuizzesKnown(attempts, catalog)
    requires Owns(attempts, id, caller) && attempts[id - 1].IsOpen()
    ensures var a := attempts[id - 1];
            var limit := LimitSeconds(catalog[a.quiz]);
            var onTime := SubmitSpec(attempts, caller, Some(id), answers, a.startedAt + limit + GraceSeconds, catalog);
            var late := SubmitSpec(attempts, caller, Some(id), answers, a.startedAt + limit + GraceSeconds + 1, catalog);
            && !onTime.result.TimeExceeded?
            && late == Outcome(TimeExceeded(limit + GraceSeconds + 1, limit), attempts)
  {
  }

  /** For an open attempt of the caller, the time check decides exactly
      the lateness error, whatever the payload; an on-time submission is
      scored unless its answers are not a list. */
  lemma TimeCheckDecides(attempts: seq<Attempt>, caller: UserId, id: AttemptId,
                         answers: Answers, now: Time, catalog: Catalog)
    requires QuizzesKnown(attempts, catalog)
    requires Owns(attempts, id, caller) && attempts[id - 1].IsOpen()
    ensures var a := attempts[id - 1];
            var late := TooLate(now - a.startedAt, catalog[a.quiz]);
            var r := SubmitSpec(attempts, caller, Some(id), answers, now, catalog).result;
            && (r.TimeExceeded? <==> late)
            && (!late && !answers.NotAList? ==> r.Scored?)
            && (!late && answers.NotAList? ==> r == BadAnswers)
  {
  }

  /** A submission refused for lateness stays refused at any later time:
      the attempt stays open but can never be scored past its window. */
  lemma LateStaysLate(attempts: seq<Attempt>, caller: UserId, id: AttemptId,
                      answers: Answers, answers': Answers, now: Time, later: Time, catalog: Catalog)
    requires QuizzesKnown(attempts, catalog)
    requires SubmitSpec(attempts, caller, Some(id), answers, now, catalog).result.TimeExceeded?
    requires now <= later
    ensures SubmitSpec(attempts, caller, Some(id), answers', later, catalog).result.TimeExceeded?
  {
  }

  /** The time check comes before the type check of `answers`: a late
      submission whose answers are not a list reports the time limit. */
  lemma LateBeforeBadAnswers(attempts: seq<Attempt>, caller: UserId, id: AttemptId, now: Time, catalog: Catalog)
    requires QuizzesKnown(attempts, catalog)
    requires Owns(attempts, id, caller) && attempts[id - 1].IsOpen()
    requires TooLate(now - attempts[id - 1].startedAt, catalog[attempts[id - 1].quiz])
    ensures SubmitSpec(attempts, caller, Some(id), NotAList, now, catalog).result.TimeExceeded?
  {
  }

  /** A successful submission sets the five result fields together: the
      score of the correct count against the question count read now,
      `completedAt = now` and `duration = now - startedAt`; user, quiz and
      start time stay. */
  lemma SuccessClosesAttempt(attempts: seq<Attempt>, caller: UserId, id: AttemptId,
                             answers: Answers, now: Time, catalog: Catalog)
    requires QuizzesKnown(attempts, catalog)
    requires SubmitSpec(attempts, caller, Some(id), answers, now, catalog).result.Scored?
    ensures var out := SubmitSpec(attempts, caller, Some(id), answers, now, catalog);
            var before := attempts[id - 1];
            var after := out.attempts[id - 1];
            var quiz := catalog[before.quiz];
            var count := CorrectCount(SubmittedIds(answers), quiz.correctChoices);
            && !answers.NotAList?
            && !TooLate(now - before.startedAt, quiz)
            && out.result == Scored(id, ScoreOf(count, quiz.questionCount), count, quiz.questionCount)
            && after == Attempt(before.user, before.quiz, before.startedAt, now,
                                Some(out.result.score), Some(count), Some(quiz.questionCount),
                                Some(now - before.startedAt))
            && count <= |SubmittedIds(answers)|
  {
  }

  /** Once an attempt has been scored, every later submission of it is
      rejected without change: by its owner as already submitted, by anyone
      else as not found. */
  lemma SecondSubmitRejected(attempts: seq<Attempt>, caller: UserId, id: AttemptId,
                             answers: Answers, now: Time, other: UserId,
                             answers': Answers, later: Time, catalog: Catalog)
    requires QuizzesKnown(attempts, catalog)
    requires SubmitSpec(attempts, caller, Some(id), answers, now, catalog).result.Scored?
    ensures var closed := SubmitSpec(attempts, caller, Some(id), answers, now, catalog).attempts;
            SubmitSpec(closed, other, Some(id), answers', later, catalog)
              == Outcome(if other == caller then AlreadySubmitted else NotFound, closed)
  {
  }

  /** An empty quiz scores 0 and does not fail. */
  lemma EmptyQuizScoresZero(attempts: seq<Attempt>, caller: UserId, id: AttemptId,
                            ids: seq<ChoiceId>, now: Time, catalog: Catalog)
    requires QuizzesKnown(attempts, catalog)
    requires Owns(attempts, id, caller) && attempts[id - 1].IsOpen()
    requires !TooLate(now - attempts[id - 1].startedAt, catalog[attempts[id - 1].quiz])
    requires catalog[attempts[id - 1].quiz].questionCount == 0
    ensures var r := SubmitSpec(attempts, caller, Some(id), Items(ids), now, catalog).result;
            r.Scored? && r.score == 0.0 && r.totalQuestions == 0
  {
  }

  /** As many submitted ids as questions, all correct, score 100; no
      submitted id correct scores 0. */
  lemma AllOrNothingScores(attempts: seq<Attempt>, caller: UserId, id: AttemptId,
                           ids: seq<ChoiceId>, now: Time, catalog: Catalog)
    requires QuizzesKnown(attempts, catalog)
    requires Owns(attempts, id, caller) && attempts[id - 1].IsOpen()
    requires !TooLate(now - attempts[id - 1].startedAt, catalog[attempts[id - 1].quiz])
    ensures var quiz := catalog[attempts[id - 1].quiz];
            var r := SubmitSpec(attempts, caller, Some(id), Items(ids), now, catalog).result;
            && (AllIn(ids, quiz.correctChoices) && |ids| == quiz.questionCount > 0 ==>
                  r == Scored(id, 100.0, quiz.questionCount, quiz.questionCount))
            && (NoneIn(ids, quiz.correctChoices) ==> r == Scored(id, 0.0, 0, quiz.questionCount))
  {
    var quiz := catalog[attempts[id - 1].quiz];
    if quiz.questionCount > 0 {
      Round2Exact(100.0, 10000);
      Round2Exact(0.0, 0);
    }
  }

  /** Two questions whose correct choices are 10 and 30, answered [10, 20]
      two seconds after the start: one correct answer, score 50. */
  lemma HalfRightExample(caller: UserId, now: Time)
    ensures var catalog := map[7 := Quiz(true, 10, 2, {10, 30}, "Science")];
            var started := StartSpec([], caller, 7, now, catalog);
            var submitted := SubmitSpec(started.attempts, caller, Some(1), Items([10, 20]), now + 2, catalog);
            submitted.result == Scored(1, 50.0, 1, 2)
  {
    var ids: seq<ChoiceId> := [10, 20];
    assert ids[..1] == [10];
    assert CorrectCount(ids, {10, 30}) == 1;
    Round2Exact(50.0, 5000);
  }

  /** Duplicated ids are counted each time, so the correct count and the
      score can exceed the question count and 100: a correct id sent three
      times on a two-question quiz scores 150. */
  lemma DuplicatesOverCount(caller: UserId, now: Time)
    ensures var catalog := map[7 := Quiz(true, 10, 2, {10, 30}, "Science")];
            var started := StartSpec([], caller, 7, now, catalog);
            var submitted := SubmitSpec(started.attempts, caller, Some(1), Items([10, 10, 10]), now, catalog);
            submitted.result == Scored(1, 150.0, 3, 2)
  {
    var ids: seq<ChoiceId> := [10, 10, 10];
    assert ids[..2] == [10, 10];
    assert ids[..2][..1] == [10];
    assert CorrectCount(ids, {10, 30}) == 3;
    Round2Exact(150.0, 15000);
  }
}
