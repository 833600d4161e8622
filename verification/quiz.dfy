/** POST /quizzes: the next quiz question, drawn at random from the pool of
    questions (all of them, or one category's) among those the player has
    not yet seen. The random draw is a parameter: `pick` selects which of
    the unseen questions the rejection loop ends on. */
module Quiz {

  import opened Wrappers
  import opened Model
  import opened Responses

  /** The JSON body fields: the ids already asked, and the id of the quiz
      category (0 for all categories); `None` is an absent or null field. */
  datatype QuizPost = QuizPost(previousQuestions: Option<seq<int>>, quizCategory: Option<int>)

  /** `question` is `None` when the quiz is over. */
  datatype QuizReply = QuizReply(question: Option<Question>)

  /** The questions the quiz draws from. */
  function Pool(s: Store, categoryId: int): (pool: seq<Question>)
    ensures forall q :: q in pool <==> q in s.questions && (categoryId == 0 || q.category == categoryId)
  {
    if categoryId == 0 then s.questions else Filter(s.questions, InCategory(categoryId))
  }

  function NotAskedIn(previous: seq<int>): Question -> bool {
    (q: Question) => q.id !in previous
  }

  /** The pool questions whose id is not among the previous ones. */
  function Unseen(pool: seq<Question>, previous: seq<int>): (rs: seq<Question>)
    ensures forall q :: q in rs <==> q in pool && q.id !in previous
  {
    Filter(pool, NotAskedIn(previous))
  }

  /** The rejection loop can end: whenever the handler enters it, some
      question of the pool has an id outside `previous_questions`. */
  predicate LoopCanExit(s: Store, req: QuizPost) {
    req.previousQuestions.Some? && req.quizCategory.Some? &&
    |req.previousQuestions.value| != |Pool(s, req.quizCategory.value)| ==>
      |Unseen(Pool(s, req.quizCategory.value), req.previousQuestions.value)| > 0
  }

  /** `play_trivia_game`. A missing field gives 400. The quiz is declared
      over when as many ids were asked as the pool holds; otherwise the
      question returned is from the pool and was not asked before. The
      store is never modified. */
  function PlayTriviaGame(s: Store, req: QuizPost, pick: nat): (r: Outcome<QuizReply>)
    requires LoopCanExit(s, req)
    ensures r.Fail? <==> req.previousQuestions.None? || req.quizCategory.None?
    ensures r.Fail? ==> r.status == BadRequest
    ensures r.Ok? ==> r.store == s
    ensures r.Ok? ==>
      (r.body.question.None? <==> |req.previousQuestions.value| == |Pool(s, req.quizCategory.value)|)
    ensures r.Ok? && r.body.question.Some? ==>
      var q := r.body.question.value;
      && q in s.questions
      && (req.quizCategory.value == 0 || q.category == req.quizCategory.value)
      && q.id !in req.previousQuestions.value
  {
    if req.previousQuestions.None? || req.quizCategory.None? then Fail(BadRequest)
    else
      var previous := req.previousQuestions.value;
      var pool := Pool(s, req.quizCategory.value);
      if |previous| == |pool| then Ok(QuizReply(None), s)
      else
        var unseen := Unseen(pool, previous);
        Ok(QuizReply(Some(unseen[pick % |unseen|])), s)
  }

  /** The draw can end on every unseen pool question and on nothing else. */
  lemma {:induction false} QuizDrawsExactlyUnseen(s: Store, req: QuizPost, q: Question)
    requires req.previousQuestions.Some? && req.quizCategory.Some?
    requires LoopCanExit(s, req)
    requires |req.previousQuestions.value| != |Pool(s, req.quizCategory.value)|
    ensures (exists pick: nat :: PlayTriviaGame(s, req, pick) == Ok(QuizReply(Some(q)), s)) <==>
      q in Pool(s, req.quizCategory.value) && q.id !in req.previousQuestions.value
  {
    DrawnIsUnseen(s, req, q);
    if q in Pool(s, req.quizCategory.value) && q.id !in req.previousQuestions.value {
      UnseenCanBeDrawn(s, req, q);
    }
  }

  /** Whatever the draw ends on is an unseen pool question. */
  lemma DrawnIsUnseen(s: Store, req: QuizPost, q: Question)
    requires req.previousQuestions.Some? && req.quizCategory.Some?
    requires LoopCanExit(s, req)
    ensures (exists pick: nat :: PlayTriviaGame(s, req, pick) == Ok(QuizReply(Some(q)), s)) ==>
      q in Pool(s, req.quizCategory.value) && q.id !in req.previousQuestions.value
  {
  }

  /** Every unseen pool question is the end of some draw. */
  lemma UnseenCanBeDrawn(s: Store, req: QuizPost, q: Question)
    requires req.previousQuestions.Some? && req.quizCategory.Some?
    requires LoopCanExit(s, req)
    requires |req.previousQuestions.value| != |Pool(s, req.quizCategory.value)|
    requires q in Pool(s, req.quizCategory.value) && q.id !in req.previousQuestions.value
    ensures exists pick: nat :: PlayTriviaGame(s, req, pick) == Ok(QuizReply(Some(q)), s)
  {
    var pool := Pool(s, req.quizCategory.value);
    var unseen := Unseen(pool, req.previousQuestions.value);
    assert q in unseen;
    var i :| 0 <= i < |unseen| && unseen[i] == q;
    RemainderBelow(i, |unseen|);
    assert PlayTriviaGame(s, req, i) == Ok(QuizReply(Some(q)), s);
  }

  /** A draw already below the pool size is its own remainder. */
  lemma RemainderBelow(i: nat, n: nat)
    requires i < n
    ensures i % n == i
  {
  }

  /** The loop `while True: i = randint(0, len(pool) - 1); if pool[i].id not
      in previous: break`, run on the successive values of `randint` in
      `draws`. It ends on the first drawn question not asked before; `None`
      means every draw so far was rejected and the loop is still running. */
  method RejectionLoop(pool: seq<Question>, previous: seq<int>, draws: seq<int>) returns (r: Option<Question>, tries: nat)
    requires forall k :: 0 <= k < |draws| ==> 0 <= draws[k] < |pool|
    ensures r.Some? ==> tries < |draws| && r.value == pool[draws[tries]] && r.value.id !in previous
    ensures r.Some? ==> forall k :: 0 <= k < tries ==> pool[draws[k]].id in previous
    ensures r.None? ==> forall k :: 0 <= k < |draws| ==> pool[draws[k]].id in previous
  {
    tries := 0;
    while tries < |draws|
      invariant tries <= |draws|
      invariant forall k :: 0 <= k < tries ==> pool[draws[k]].id in previous
    {
      var candidate := pool[draws[tries]];
      if candidate.id !in previous {
        return Some(candidate), tries;
      }
      tries := tries + 1;
    }
    r := None;
  }

  /** The quiz with the end decided by the unseen questions themselves
      rather than by counting ids: total, it returns `None` exactly when no
      pool question is left unseen, and otherwise an unseen pool question. */
  function PlayTriviaGameByUnseen(s: Store, req: QuizPost, pick: nat): (r: Outcome<QuizReply>)
    ensures r.Fail? <==> req.previousQuestions.None? || req.quizCategory.None?
    ensures r.Fail? ==> r.status == BadRequest
    ensures r.Ok? ==> r.store == s
    ensures r.Ok? ==>
      (r.body.question.None? <==>
        forall q :: q in Pool(s, req.quizCategory.value) ==> q.id in req.previousQuestions.value)
    ensures r.Ok? && r.body.question.Some? ==>
      var q := r.body.question.value;
      q in Pool(s, req.quizCategory.value) && q.id !in req.previousQuestions.value
  {
    if req.previousQuestions.None? || req.quizCategory.None? then Fail(BadRequest)
    else
      var unseen := Unseen(Pool(s, req.quizCategory.value), req.previousQuestions.value);
      if |unseen| == 0 then Ok(QuizReply(None), s)
      else
        assert unseen[0] in unseen;
        Ok(QuizReply(Some(unseen[pick % |unseen|])), s)
  }

  /* ---------------------------------------------------------------------
     Where counting ids and looking at the unseen questions part ways
     --------------------------------------------------------------------- */

  function TwoQuestionStore(): Store {
    Store([Question(1, "Q1", "A1", 1, 1), Question(2, "Q2", "A2", 1, 2)], [Category(1, "Science")], 3)
  }

  /** A repeated id makes the count reach the pool size while question 2
      was never asked: the handler ends the quiz, the unseen-based version
      still serves question 2. */
  lemma QuizEndsEarlyOnRepeatedId()
    ensures var s := TwoQuestionStore();
      var req := QuizPost(Some([1, 1]), Some(0));
      && PlayTriviaGame(s, req, 0) == Ok(QuizReply(None), s)
      && Question(2, "Q2", "A2", 1, 2) in Pool(s, 0)
      && PlayTriviaGameByUnseen(s, req, 0) == Ok(QuizReply(Some(Question(2, "Q2", "A2", 1, 2))), s)
  {
  }

  /** An id outside the pool keeps the count below the pool size although
      every pool question was asked: the handler enters a loop no draw can
      end (its precondition fails), the unseen-based version ends the quiz. */
  lemma QuizLoopCannotExitOnStrayId()
    ensures var s := TwoQuestionStore();
      var req := QuizPost(Some([1, 2, 7]), Some(0));
      && |req.previousQuestions.value| != |Pool(s, 0)|
      && !LoopCanExit(s, req)
      && PlayTriviaGameByUnseen(s, req, 0) == Ok(QuizReply(None), s)
  {
  }
}
