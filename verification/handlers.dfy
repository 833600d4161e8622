/** The request handlers of the trivia API, except the quiz route: each is a
    pure function from the store and the request's fields to an `Outcome`,
    the success body paired with the store after the request or one of the
    three error kinds. */
module Handlers {

  import opened Wrappers
  import opened Model
  import opened Pagination
  import opened Search
  import opened Responses

  /* ---------------------------------------------------------------------
     The two ordered queries
     --------------------------------------------------------------------- */

  /** `Question.query.order_by(Question.id).all()`: every stored question,
      each once, in ascending id order. */
  function OrderedQuestions(s: Store): (rs: seq<Question>)
    ensures Ascending(rs)
    ensures multiset(rs) == multiset(s.questions)
    ensures |rs| == |s.questions|
  {
    var rs := OrderById(s.questions);
    assert |rs| == |multiset(rs)| == |multiset(s.questions)| == |s.questions|;
    rs
  }

  /** `Question.query.order_by(Question.id).filter(question ILIKE '%term%')`:
      exactly the stored questions whose text contains the term, in id
      order, as many as the store holds. */
  function SearchResults(s: Store, term: string): (rs: seq<Question>)
    ensures Ascending(rs)
    ensures forall q :: q in rs <==> q in s.questions && ContainsIgnoringCase(q.question, term)
    ensures |rs| == |Filter(s.questions, MatchesTerm(term))|
  {
    var all := OrderedQuestions(s);
    var rs := Filter(all, MatchesTerm(term));
    FilterKeepsAscending(all, MatchesTerm(term));
    FilterLengthPermutation(all, s.questions, MatchesTerm(term));
    assert forall q :: q in all <==> q in multiset(all);
    rs
  }

  /** A page of rows in id order is itself in id order. */
  lemma PageOfAscending(page: int, qs: seq<Question>)
    requires Ascending(qs)
    ensures Ascending(Paginate(page, qs))
  {
  }

  /* ---------------------------------------------------------------------
     GET /categories
     --------------------------------------------------------------------- */

  datatype CategoriesReply = CategoriesReply(categories: map<int, string>)

  /** Fails with 404 exactly when there are no categories; otherwise the
      dictionary's keys are the category ids, each mapped to its type, and
      the store is unchanged. */
  function GetAllCategories(s: Store): (r: Outcome<CategoriesReply>)
    ensures r.Fail? <==> |s.categories| == 0
    ensures r.Fail? ==> r.status == NotFound
    ensures r.Ok? ==> r.store == s && r.body.categories.Keys == CategoryIds(s.categories)
    ensures r.Ok? && UniqueCategoryIds(s.categories) ==>
      forall c :: c in s.categories ==> r.body.categories[c.id] == c.kind
  {
    var categories := CategoryMap(s.categories);
    assert UniqueCategoryIds(s.categories) ==>
      forall c :: c in s.categories ==> categories[c.id] == c.kind by {
      if UniqueCategoryIds(s.categories) {
        CategoryMapOfUnique(s.categories);
      }
    }
    if |s.categories| == 0 then Fail(NotFound)
    else Ok(CategoriesReply(categories), s)
  }

  /* ---------------------------------------------------------------------
     GET /questions?page=N
     --------------------------------------------------------------------- */

  datatype QuestionsReply = QuestionsReply(questions: seq<Question>, totalQuestions: nat, categories: map<int, string>)

  /** Fails with 404 exactly when the requested page of the id-ordered
      questions is empty or there are no categories; otherwise returns that
      page, in id order, with the count of ALL questions. */
  function GetQuestions(s: Store, page: int): (r: Outcome<QuestionsReply>)
    ensures r.Fail? <==> Paginate(page, OrderedQuestions(s)) == [] || |s.categories| == 0
    ensures page >= 1 ==>
      (r.Fail? <==> |s.questions| <= (page - 1) * QuestionsPerPage || |s.categories| == 0)
    ensures r.Fail? ==> r.status == NotFound
    ensures r.Ok? ==>
      && r.store == s
      && r.body.questions == Paginate(page, OrderedQuestions(s))
      && Ascending(r.body.questions)
      && (forall q :: q in r.body.questions ==> q in s.questions)
      && r.body.totalQuestions == |s.questions|
      && r.body.categories.Keys == CategoryIds(s.categories)
    ensures r.Ok? && UniqueCategoryIds(s.categories) ==>
      forall c :: c in s.categories ==> r.body.categories[c.id] == c.kind
  {
    var questions := OrderedQuestions(s);
    var current := Paginate(page, questions);
    PageOfAscending(page, questions);
    PageWithin(page, questions);
    assert forall q :: q in questions ==> q in multiset(s.questions);
    if |current| == 0 then Fail(NotFound)
    else
      var categories := CategoryMap(s.categories);
      assert UniqueCategoryIds(s.categories) ==>
        forall c :: c in s.categories ==> categories[c.id] == c.kind by {
        if UniqueCategoryIds(s.categories) {
          CategoryMapOfUnique(s.categories);
        }
      }
      if |s.categories| == 0 then Fail(NotFound)
      else Ok(QuestionsReply(current, |questions|, categories), s)
  }

  /* ---------------------------------------------------------------------
     DELETE /questions/{qid}
     --------------------------------------------------------------------- */

  datatype DeleteReply = DeleteReply(message: string, id: int)

  /** An absent id, or a failing delete, gives 422 and no change; otherwise
      exactly the rows with that id go, everything else stays, and the id is
      echoed. `storageFails` stands for the delete raising. */
  function RemoveQuestion(s: Store, qid: int, storageFails: bool): (r: Outcome<DeleteReply>)
    ensures r.Fail? <==> qid !in QuestionIds(s.questions) || storageFails
    ensures r.Fail? ==> r.status == Unprocessable
    ensures r.Ok? ==>
      && r.body.id == qid
      && (forall q :: q in r.store.questions <==> q in s.questions && q.id != qid)
      && r.store.categories == s.categories
      && r.store.nextId == s.nextId
    ensures r.Ok? && Valid(s) ==> |r.store.questions| == |s.questions| - 1 && Valid(r.store)
  {
    match FindQuestion(s.questions, qid)
    case None => Fail(Unprocessable)
    case Some(_) =>
      if storageFails then Fail(Unprocessable)
      else Ok(DeleteReply("Deletion was Successful!", qid), DeleteQuestion(s, qid))
  }

  /* ---------------------------------------------------------------------
     POST /questions (search or create)
     --------------------------------------------------------------------- */

  /** The JSON body fields the route reads; `None` is an absent or null
      field. */
  datatype QuestionPost = QuestionPost(
    searchTerm: Option<string>,
    question: Option<string>,
    answer: Option<string>,
    category: Option<int>,
    difficulty: Option<int>)

  datatype PostReply =
    | Searched(questions: seq<Question>, totalQuestions: nat)
    | Inserted(message: string, id: int)

  /** Python truthiness of the search term: present and non-empty. */
  predicate Truthy(term: Option<string>) {
    term.Some? && |term.value| > 0
  }

  predicate HasAllFields(req: QuestionPost) {
    req.question.Some? && req.answer.Some? && req.category.Some? && req.difficulty.Some?
  }

  /** With a truthy search term: read-only, never an error, the requested
      page of the id-ordered matches together with the count of ALL matches.
      Otherwise: 422 without insertion when a field is missing or the insert
      fails, else exactly one new row with the given fields under a fresh id,
      which is returned. */
  function CreateQuestion(s: Store, req: QuestionPost, page: int, storageFails: bool): (r: Outcome<PostReply>)
    ensures Truthy(req.searchTerm) ==>
      && r.Ok? && r.store == s && r.body.Searched?
      && r.body.questions == Paginate(page, SearchResults(s, req.searchTerm.value))
      && Ascending(r.body.questions)
      && (forall q :: q in r.body.questions ==>
            q in s.questions && ContainsIgnoringCase(q.question, req.searchTerm.value))
      && r.body.totalQuestions == |Filter(s.questions, MatchesTerm(req.searchTerm.value))|
    ensures !Truthy(req.searchTerm) && (!HasAllFields(req) || storageFails) ==> r == Fail(Unprocessable)
    ensures !Truthy(req.searchTerm) && HasAllFields(req) && !storageFails ==>
      && r.Ok? && r.body.Inserted?
      && r.store.questions == s.questions + [Question(r.body.id, req.question.value, req.answer.value,
                                                       req.category.value, req.difficulty.value)]
      && r.store.categories == s.categories
    ensures r.Ok? && r.body.Inserted? && Valid(s) ==>
      r.body.id !in QuestionIds(s.questions) && Valid(r.store)
  {
    if Truthy(req.searchTerm) then
      var selection := SearchResults(s, req.searchTerm.value);
      var current := Paginate(page, selection);
      PageOfAscending(page, selection);
      PageWithin(page, selection);
      Ok(Searched(current, |selection|), s)
    else if !HasAllFields(req) then
      Fail(Unprocessable)
    else if storageFails then
      Fail(Unprocessable)
    else
      var (s', id) := InsertQuestion(s, req.question.value, req.answer.value, req.category.value, req.difficulty.value);
      Ok(Inserted("Insertion was Successful!", id), s')
  }

  /* ---------------------------------------------------------------------
     GET /categories/{cid}/questions
     --------------------------------------------------------------------- */

  datatype CategoryQuestionsReply = CategoryQuestionsReply(questions: seq<Question>, totalQuestions: nat)

  /** An unknown category gives 400; otherwise the requested page of that
      category's questions, read-only, and `total_questions` is the length
      of the returned page, not the number of questions in the category. */
  function GetQuestionsByCategory(s: Store, cid: int, page: int): (r: Outcome<CategoryQuestionsReply>)
    ensures r.Fail? <==> cid !in CategoryIds(s.categories)
    ensures r.Fail? ==> r.status == BadRequest
    ensures r.Ok? ==>
      && r.store == s
      && r.body.questions == Paginate(page, Filter(s.questions, InCategory(cid)))
      && (forall q :: q in r.body.questions ==> q in s.questions && q.category == cid)
      && |r.body.questions| <= QuestionsPerPage
      && r.body.totalQuestions == |r.body.questions|
  {
    if cid !in CategoryIds(s.categories) then Fail(BadRequest)
    else
      var selection := Filter(s.questions, InCategory(cid));
      var current := Paginate(page, selection);
      PageWithin(page, selection);
      Ok(CategoryQuestionsReply(current, |current|), s)
  }

  /** The same route with `total_questions` reporting the whole category,
      as the other listing routes do. */
  function GetQuestionsByCategoryCounted(s: Store, cid: int, page: int): (r: Outcome<CategoryQuestionsReply>)
    ensures r.Fail? <==> cid !in CategoryIds(s.categories)
    ensures r.Fail? ==> r.status == BadRequest
    ensures r.Ok? ==>
      && r.store == s
      && r.body.questions == Paginate(page, Filter(s.questions, InCategory(cid)))
      && (forall q :: q in r.body.questions ==> q in s.questions && q.category == cid)
      && r.body.totalQuestions == |Filter(s.questions, InCategory(cid))|
      && |r.body.questions| <= r.body.totalQuestions
  {
    if cid !in CategoryIds(s.categories) then Fail(BadRequest)
    else
      var selection := Filter(s.questions, InCategory(cid));
      var current := Paginate(page, selection);
      PageWithin(page, selection);
      Ok(CategoryQuestionsReply(current, |selection|), s)
  }
}
