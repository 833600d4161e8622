/** Optional values, for request fields that may be absent from a JSON body
    and for lookups that may miss. */
module Wrappers {

  datatype Option<+T> = None | Some(value: T)
}

/** The persistence layer of the trivia backend: the two tables (questions
    and categories) as an immutable in-memory store, and the queries and
    updates the request handlers issue against it. */
module Model {

  import opened Wrappers

  /** One row of the question table. Its formatted projection exposes
      exactly these five columns, so the formatted record is the row. */
  datatype Question = Question(id: int, question: string, answer: string, category: int, difficulty: int)

  /** One row of the category table; `kind` is the table's `type` column. */
  datatype Category = Category(id: int, kind: string)

  /** The whole database. `questions` and `categories` are in storage order;
      `nextId` is the primary-key sequence of the question table: the id the
      next inserted row will receive. */
  datatype Store = Store(questions: seq<Question>, categories: seq<Category>, nextId: int)

  predicate UniqueQuestionIds(qs: seq<Question>) {
    forall i, j :: 0 <= i < j < |qs| ==> qs[i].id != qs[j].id
  }

  predicate UniqueCategoryIds(cs: seq<Category>) {
    forall i, j :: 0 <= i < j < |cs| ==> cs[i].id != cs[j].id
  }

  /** What the database guarantees: primary keys are unique and every
      stored question id was handed out by the sequence before `nextId`. */
  predicate Valid(s: Store) {
    && UniqueQuestionIds(s.questions)
    && UniqueCategoryIds(s.categories)
    && forall q :: q in s.questions ==> q.id < s.nextId
  }

  function QuestionIds(qs: seq<Question>): set<int> {
    set q | q in qs :: q.id
  }

  function CategoryIds(cs: seq<Category>): set<int> {
    set c | c in cs :: c.id
  }

  /* ---------------------------------------------------------------------
     Filtering (the `filter` / `filter_by` queries)
     --------------------------------------------------------------------- */

  /** The rows of `xs` that satisfy `f`, in their original order. */
  function Filter(xs: seq<Question>, f: Question -> bool): (r: seq<Question>)
    ensures |r| <= |xs|
    ensures forall x :: x in r <==> x in xs && f(x)
  {
    if |xs| == 0 then []
    else if f(xs[0]) then [xs[0]] + Filter(xs[1..], f)
    else Filter(xs[1..], f)
  }

  /** `filter_by(category=cid)` */
  function InCategory(cid: int): Question -> bool {
    (q: Question) => q.category == cid
  }

  /** Every row except the one with primary key `qid`. */
  function OtherThan(qid: int): Question -> bool {
    (q: Question) => q.id != qid
  }

  lemma {:induction false} FilterConcat(xs: seq<Question>, ys: seq<Question>, f: Question -> bool)
    ensures Filter(xs + ys, f) == Filter(xs, f) + Filter(ys, f)
  {
    if |xs| == 0 {
      assert xs + ys == ys;
    } else {
      assert (xs + ys)[1..] == xs[1..] + ys;
      FilterConcat(xs[1..], ys, f);
    }
  }

  /** Filtering keeps every row exactly when the predicate holds of all. */
  lemma {:induction false} FilterKeepsAll(xs: seq<Question>, f: Question -> bool)
    requires forall k :: 0 <= k < |xs| ==> f(xs[k])
    ensures Filter(xs, f) == xs
  {
    if |xs| > 0 {
      FilterKeepsAll(xs[1..], f);
    }
  }

  /** How many rows a filter selects depends only on which rows there are,
      not on the order they come in. */
  lemma {:induction false} FilterLengthPermutation(xs: seq<Question>, ys: seq<Question>, f: Question -> bool)
    requires multiset(xs) == multiset(ys)
    ensures |Filter(xs, f)| == |Filter(ys, f)|
  {
    if |xs| == 0 {
      assert |ys| == |multiset(ys)| == 0;
    } else {
      var x := xs[0];
      assert x in multiset(ys);
      var i :| 0 <= i < |ys| && ys[i] == x;
      var ys' := ys[..i] + ys[i + 1..];
      assert ys == ys[..i] + [x] + ys[i + 1..];
      assert xs == [x] + xs[1..];
      assert multiset(ys') == multiset(ys) - multiset{x};
      FilterLengthPermutation(xs[1..], ys', f);
      FilterConcat(ys[..i] + [x], ys[i + 1..], f);
      FilterConcat(ys[..i], [x], f);
      FilterConcat(ys[..i], ys[i + 1..], f);
    }
  }

  /** With unique primary keys, removing one present id removes exactly one
      row and keeps the keys unique. */
  lemma {:induction false} FilterRemovesOne(qs: seq<Question>, qid: int)
    requires UniqueQuestionIds(qs)
    requires qid in QuestionIds(qs)
    ensures |Filter(qs, OtherThan(qid))| == |qs| - 1
  {
    var rest := qs[1..];
    assert UniqueQuestionIds(rest) by {
      forall i, j | 0 <= i < j < |rest|
        ensures rest[i].id != rest[j].id
      {
        assert rest[i] == qs[i + 1] && rest[j] == qs[j + 1];
      }
    }
    if qs[0].id == qid {
      forall k | 0 <= k < |rest|
        ensures OtherThan(qid)(rest[k])
      {
        assert rest[k] == qs[k + 1];
      }
      FilterKeepsAll(rest, OtherThan(qid));
    } else {
      var q :| q in qs && q.id == qid;
      var k :| 0 <= k < |qs| && qs[k] == q;
      assert qs[k - 1 + 1] == q;
      assert q in rest;
      FilterRemovesOne(rest, qid);
    }
  }

  lemma {:induction false} FilterKeepsUniqueIds(qs: seq<Question>, f: Question -> bool)
    requires UniqueQuestionIds(qs)
    ensures UniqueQuestionIds(Filter(qs, f))
  {
    if |qs| > 0 {
      var rest := qs[1..];
      assert UniqueQuestionIds(rest) by {
        forall i, j | 0 <= i < j < |rest|
          ensures rest[i].id != rest[j].id
        {
          assert rest[i] == qs[i + 1] && rest[j] == qs[j + 1];
        }
      }
      FilterKeepsUniqueIds(rest, f);
      if f(qs[0]) {
        var r := Filter(qs, f);
        var t := Filter(rest, f);
        assert r == [qs[0]] + t;
        forall i, j | 0 <= i < j < |r|
          ensures r[i].id != r[j].id
        {
          if i == 0 {
            assert r[j] == t[j - 1];
            assert t[j - 1] in rest;
            var k :| 0 <= k < |rest| && rest[k] == t[j - 1];
            assert qs[k + 1] == rest[k];
          } else {
            assert r[i] == t[i - 1] && r[j] == t[j - 1];
          }
        }
      }
    }
  }

  /* ---------------------------------------------------------------------
     Ordering (the `order_by(id)` queries)
     --------------------------------------------------------------------- */

  predicate Ascending(qs: seq<Question>) {
    forall i, j :: 0 <= i < j < |qs| ==> qs[i].id <= qs[j].id
  }

  /** Places `q` among the already ordered rows `qs`. */
  function InsertById(q: Question, qs: seq<Question>): (r: seq<Question>)
    requires Ascending(qs)
    ensures Ascending(r)
    ensures multiset(r) == multiset(qs) + multiset{q}
  {
    if |qs| == 0 then [q]
    else if q.id <= qs[0].id then [q] + qs
    else
      AscendingTail(qs);
      var tail := InsertById(q, qs[1..]);
      HeadBelowTail(qs[0], q, qs[1..], tail);
      AscendingCons(qs[0], tail);
      assert qs == [qs[0]] + qs[1..];
      [qs[0]] + tail
  }

  /** Dropping the first of ordered rows leaves ordered rows, all at or
      above the one dropped. */
  lemma AscendingTail(qs: seq<Question>)
    requires Ascending(qs) && |qs| > 0
    ensures Ascending(qs[1..])
    ensures forall k :: 0 <= k < |qs[1..]| ==> qs[0].id <= qs[1..][k].id
  {
  }

  /** A row at or below every row of ordered rows can go in front. */
  lemma AscendingCons(head: Question, tail: seq<Question>)
    requires Ascending(tail)
    requires forall k :: 0 <= k < |tail| ==> head.id <= tail[k].id
    ensures Ascending([head] + tail)
  {
  }

  /** The step of `InsertById` that keeps the head of the rows in front. */
  lemma HeadBelowTail(head: Question, q: Question, rest: seq<Question>, tail: seq<Question>)
    requires head.id < q.id
    requires forall k :: 0 <= k < |rest| ==> head.id <= rest[k].id
    requires multiset(tail) == multiset(rest) + multiset{q}
    ensures forall k :: 0 <= k < |tail| ==> head.id <= tail[k].id
  {
    forall k | 0 <= k < |tail|
      ensures head.id <= tail[k].id
    {
      assert tail[k] in multiset(tail);
      if tail[k] != q {
        assert tail[k] in multiset(rest);
        var m :| 0 <= m < |rest| && rest[m] == tail[k];
      }
    }
  }

  /** The rows of `qs` ordered by ascending id: a permutation of `qs`. */
  function OrderById(qs: seq<Question>): (r: seq<Question>)
    ensures Ascending(r)
    ensures multiset(r) == multiset(qs)
  {
    if |qs| == 0 then []
    else
      assert qs == [qs[0]] + qs[1..];
      InsertById(qs[0], OrderById(qs[1..]))
  }

  /** Ordering rows that are already in order changes nothing. */
  lemma {:induction false} OrderByIdOfAscending(qs: seq<Question>)
    requires Ascending(qs)
    ensures OrderById(qs) == qs
  {
    if |qs| > 0 {
      OrderByIdOfAscending(qs[1..]);
    }
  }

  /** Inserting a row in front of a larger last row leaves that row last. */
  lemma {:induction false} InsertByIdBeforeLast(h: Question, rows: seq<Question>, x: Question)
    requires Ascending(rows + [x])
    requires h.id < x.id
    ensures Ascending(rows)
    ensures InsertById(h, rows + [x]) == InsertById(h, rows) + [x]
  {
    assert Ascending(rows) by {
      forall i, j | 0 <= i < j < |rows|
        ensures rows[i].id <= rows[j].id
      {
        assert rows[i] == (rows + [x])[i] && rows[j] == (rows + [x])[j];
      }
    }
    if |rows| > 0 {
      assert (rows + [x])[0] == rows[0];
      assert (rows + [x])[1..] == rows[1..] + [x];
      if h.id > rows[0].id {
        InsertByIdBeforeLast(h, rows[1..], x);
      }
    }
  }

  /** A row whose id exceeds every stored id comes last in id order: the
      question the sequence hands out next is listed after all others. */
  lemma {:induction false} OrderByIdAppendLargest(qs: seq<Question>, x: Question)
    requires forall q :: q in qs ==> q.id < x.id
    ensures OrderById(qs + [x]) == OrderById(qs) + [x]
  {
    if |qs| == 0 {
      assert qs + [x] == [x];
    } else {
      assert (qs + [x])[0] == qs[0];
      assert (qs + [x])[1..] == qs[1..] + [x];
      OrderByIdAppendLargest(qs[1..], x);
      var sorted := OrderById(qs[1..]);
      forall k | 0 <= k < |sorted|
        ensures sorted[k].id < x.id
      {
        assert sorted[k] in multiset(qs[1..]);
      }
      InsertByIdBeforeLast(qs[0], sorted, x);
    }
  }

  /** A filter over ordered rows returns ordered rows. */
  lemma {:induction false} FilterKeepsAscending(qs: seq<Question>, f: Question -> bool)
    requires Ascending(qs)
    ensures Ascending(Filter(qs, f))
  {
    if |qs| > 0 {
      var rest := qs[1..];
      FilterKeepsAscending(rest, f);
      if f(qs[0]) {
        var t := Filter(rest, f);
        forall k | 0 <= k < |t|
          ensures qs[0].id <= t[k].id
        {
          assert t[k] in rest;
          var m :| 0 <= m < |rest| && rest[m] == t[k];
          assert qs[m + 1] == rest[m];
        }
      }
    }
  }

  /* ---------------------------------------------------------------------
     Lookups and the category dictionary
     --------------------------------------------------------------------- */

  /** `Question.query.filter_by(id=qid).one_or_none()` on a store whose
      primary keys are unique. */
  function FindQuestion(qs: seq<Question>, qid: int): (r: Option<Question>)
    ensures r.None? <==> qid !in QuestionIds(qs)
    ensures r.Some? ==> r.value in qs && r.value.id == qid
  {
    if |qs| == 0 then None
    else if qs[0].id == qid then Some(qs[0])
    else
      assert qs == [qs[0]] + qs[1..];
      FindQuestion(qs[1..], qid)
  }

  /** The `{id: type}` dictionary the handlers build by walking the category
      rows in order: a later row with the same id overwrites an earlier one. */
  function CategoryMap(cs: seq<Category>): (m: map<int, string>)
    ensures m.Keys == CategoryIds(cs)
    ensures forall i :: 0 <= i < |cs| && (forall j :: i < j < |cs| ==> cs[j].id != cs[i].id) ==>
      m[cs[i].id] == cs[i].kind
  {
    if |cs| == 0 then map[]
    else
      var init := cs[..|cs| - 1];
      var last := cs[|cs| - 1];
      assert cs == init + [last];
      CategoryMap(init)[last.id := last.kind]
  }

  /** With unique category ids every row's id maps to that row's type. */
  lemma CategoryMapOfUnique(cs: seq<Category>)
    requires UniqueCategoryIds(cs)
    ensures forall c :: c in cs ==> c.id in CategoryMap(cs) && CategoryMap(cs)[c.id] == c.kind
  {
  }

  /* ---------------------------------------------------------------------
     Updates (`question.insert()` / `question.delete()`)
     --------------------------------------------------------------------- */

  /** Inserts a new question row; the database assigns it the next id of
      the sequence. Returns the new store and the assigned id. */
  function InsertQuestion(s: Store, question: string, answer: string, category: int, difficulty: int): (r: (Store, int))
    ensures r.0.questions == s.questions + [Question(r.1, question, answer, category, difficulty)]
    ensures r.0.categories == s.categories
    ensures Valid(s) ==> r.1 !in QuestionIds(s.questions) && Valid(r.0)
    ensures Valid(s) ==> forall q :: q in s.questions ==> q.id < r.1
  {
    var id := s.nextId;
    var s' := Store(s.questions + [Question(id, question, answer, category, difficulty)], s.categories, id + 1);
    assert Valid(s) ==> Valid(s') by {
      if Valid(s) {
        forall i, j | 0 <= i < j < |s'.questions|
          ensures s'.questions[i].id != s'.questions[j].id
        {
          if j == |s.questions| {
            assert s'.questions[i] == s.questions[i];
            assert s.questions[i] in s.questions;
          } else {
            assert s'.questions[i] == s.questions[i] && s'.questions[j] == s.questions[j];
          }
        }
      }
    }
    (s', id)
  }

  /** Deletes the row with primary key `qid`; the categories and the id
      sequence are untouched. */
  function DeleteQuestion(s: Store, qid: int): (r: Store)
    ensures forall q :: q in r.questions <==> q in s.questions && q.id != qid
    ensures r.categories == s.categories && r.nextId == s.nextId
    ensures Valid(s) && qid in QuestionIds(s.questions) ==> |r.questions| == |s.questions| - 1
    ensures Valid(s) ==> Valid(r)
  {
    var r := Store(Filter(s.questions, OtherThan(qid)), s.categories, s.nextId);
    if Valid(s) then
      FilterKeepsUniqueIds(s.questions, OtherThan(qid));
      if qid in QuestionIds(s.questions) then
        FilterRemovesOne(s.questions, qid);
        r
      else r
    else r
  }
}
