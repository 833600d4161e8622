/** Properties that relate several requests, or one request on a concrete
    store: what the routes promise a client over a sequence of calls. */
module Scenarios {

  import opened Wrappers
  import opened Model
  import opened Pagination
  import opened Responses
  import opened Handlers

  /** Deleting the same question twice: the first call answers 200 and the
      row is gone, the second answers 422. */
  lemma DeleteTwice(s: Store, qid: int)
    requires qid in QuestionIds(s.questions)
    ensures var first := RemoveQuestion(s, qid, false);
      && HttpStatus(first) == 200
      && qid !in QuestionIds(first.store.questions)
      && HttpStatus(RemoveQuestion(first.store, qid, false)) == 422
  {
  }

  /** Creating a question and then deleting the id it was given leaves the
      question table exactly as it was: the two routes are inverse. */
  lemma CreateThenDeleteRestores(s: Store, req: QuestionPost, page: int)
    requires Valid(s)
    requires !Truthy(req.searchTerm) && HasAllFields(req)
    ensures var created := CreateQuestion(s, req, page, false);
      && created.Ok? && created.body.Inserted?
      && var removed := RemoveQuestion(created.store, created.body.id, false);
         && removed.Ok?
         && removed.store.questions == s.questions
         && removed.store.categories == s.categories
  {
    var created := CreateQuestion(s, req, page, false);
    var id := created.body.id;
    var added := Question(id, req.question.value, req.answer.value, req.category.value, req.difficulty.value);
    assert added in created.store.questions;
    forall k | 0 <= k < |s.questions|
      ensures OtherThan(id)(s.questions[k])
    {
      assert s.questions[k] in s.questions;
    }
    FilterKeepsAll(s.questions, OtherThan(id));
    FilterConcat(s.questions, [added], OtherThan(id));
    assert Filter([added], OtherThan(id)) == [];
  }

  /** A created question is listed after every existing one: it is the
      last item of the id-ordered list, it ends the last non-empty page, and
      the page after that is empty. */
  lemma CreatedQuestionIsListedLast(s: Store, req: QuestionPost, page: int)
    requires Valid(s)
    requires !Truthy(req.searchTerm) && HasAllFields(req)
    ensures var created := CreateQuestion(s, req, page, false);
      && created.Ok? && created.body.Inserted?
      && var added := Question(created.body.id, req.question.value, req.answer.value,
                               req.category.value, req.difficulty.value);
         && OrderedQuestions(created.store) == OrderedQuestions(s) + [added]
         && var last := |s.questions| / QuestionsPerPage + 1;
            var p := Paginate(last, OrderedQuestions(created.store));
            && |p| > 0 && p[|p| - 1] == added
            && Paginate(last + 1, OrderedQuestions(created.store)) == []
  {
    var created := CreateQuestion(s, req, page, false);
    var added := Question(created.body.id, req.question.value, req.answer.value,
                          req.category.value, req.difficulty.value);
    assert created.store.questions == s.questions + [added];
    OrderByIdAppendLargest(s.questions, added);
    var ordered := OrderedQuestions(created.store);
    assert ordered == OrderedQuestions(s) + [added];
    assert |ordered| == |s.questions| + 1;
    LastItemEndsLastPage(ordered);
  }

  /** The question table `Q1 .. Q12`, all in category 1. */
  function TwelveQuestions(): seq<Question> {
    seq(12, i => Question(i + 1, "Q", "A", 1, 1))
  }

  /** With twelve questions whose ids are 1 to 12 in storage order, and
      at least one category, page 2 of GET /questions holds questions 11
      and 12, and `total_questions` is 12. */
  lemma SecondPageOfTwelve(s: Store)
    requires |s.questions| == 12
    requires forall i :: 0 <= i < |s.questions| ==> s.questions[i].id == i + 1
    requires |s.categories| > 0
    ensures var r := GetQuestions(s, 2);
      && r.Ok?
      && |r.body.questions| == 2
      && r.body.questions[0].id == 11 && r.body.questions[1].id == 12
      && r.body.totalQuestions == 12
  {
    forall i, j | 0 <= i < j < |s.questions|
      ensures s.questions[i].id <= s.questions[j].id
    {
    }
    OrderByIdOfAscending(s.questions);
    assert OrderedQuestions(s) == s.questions;
    SecondPageOfOrderedTwelve(s);
    var page := GetQuestions(s, 2).body.questions;
    assert page[0] == s.questions[10] && page[1] == s.questions[11];
  }

  /** Page 2 of an id-ordered table of twelve questions is its last two. */
  lemma SecondPageOfOrderedTwelve(s: Store)
    requires OrderedQuestions(s) == s.questions
    requires |s.questions| == 12
    requires |s.categories| > 0
    ensures GetQuestions(s, 2).Ok?
    ensures GetQuestions(s, 2).body.questions == s.questions[10..12]
    ensures GetQuestions(s, 2).body.totalQuestions == 12
  {
  }

  /** With eleven questions, all in category 1, page 1 of that category
      reports `total_questions` 10 although the category holds 11; the
      counted version reports 11. */
  lemma CategoryTotalIsPageLength(s: Store)
    requires s.questions == TwelveQuestions()[..11]
    requires 1 in CategoryIds(s.categories)
    ensures |Filter(s.questions, InCategory(1))| == 11
    ensures GetQuestionsByCategory(s, 1, 1).body.totalQuestions == 10
    ensures GetQuestionsByCategoryCounted(s, 1, 1).body.totalQuestions == 11
  {
    var qs := TwelveQuestions()[..11];
    forall k | 0 <= k < |qs|
      ensures InCategory(1)(qs[k])
    {
    }
    FilterKeepsAll(qs, InCategory(1));
  }
}
