# Trivia API request handlers in Dafny

This project models the request-handling core of the trivia backend
(`backend/flaskr/__init__.py`). The backend is a small REST service over a question bank.
It lists categories and paginated questions. It deletes and creates questions, and the
create route doubles as a search. It lists a category's questions and serves the next
quiz question. Errors come back as a uniform JSON envelope for 400, 404 and 422.

The database is replaced by an immutable in-memory `Store`:

- the question table as a sequence of `Question(id, question, answer, category, difficulty)` rows in storage order;
- the category table as a sequence of `Category(id, kind)` rows (`kind` is the `type` column);
- `nextId`, the primary-key sequence that hands out the id of the next inserted question.

`Valid(s)` is what the database guarantees: unique primary keys, and every stored id
below `nextId`. The handlers do not require it. Their contracts say what follows when it
holds, and the updates preserve it.

Each route is a pure function from the store and the request's fields to an `Outcome`.
That is either `Ok(body, store')` or `Fail(status)` with one of `BadRequest`, `NotFound`
and `Unprocessable`. A failure aborts before any write, so it carries no new store.

Modules, one per component:

- `Wrappers`: `Option`.
- `Model`: the entities, `Valid`, and the queries. Those are `filter`/`filter_by`, which keep storage order; `order_by(id)`, an insertion sort proved to return an id-ordered permutation; `one_or_none`; and the `{id: type}` dictionary. The two updates, `insert` and `delete`, are here too.
- `Pagination`: `paginate_questions` with Python's slice semantics.
- `Search`: the `ILIKE '%term%'` filter as ASCII case-insensitive substring matching.
- `Responses`: the error kinds, their codes, the error envelope, and `Outcome`.
- `Handlers`: the five non-quiz routes.
- `Quiz`: the quiz route and its rejection-sampling loop.
- `Scenarios`: properties spanning several requests.

Inputs the source takes from the environment become parameters:

- the `page` query argument is `page: int`;
- the outcome of a storage write (the bare `except:` branches) is `storageFails: bool`;
- the random draw of the quiz is `pick: nat`, which chooses among the unseen pool questions;
- `Quiz.RejectionLoop` models the loop itself, run on a finite stream of `randint` values.

The page number is modelled with Python's slice clamping, not restricted to `page >= 1`.
`request.args.get('page', 1, type=int)` falls back to 1 only when the value does not
parse as an integer, so zero and negative numbers reach the slice. Page 0 is always
empty. Page -k is `items[10(-k-1):10(-k)]`, the (k+1)-th run of ten counted from the
back, so page -1 is the ten items before the last ten and no page below 1 serves the last ten
questions.

## Model

| member | source | states |
|---|---|---|
| `Pagination.Paginate` | backend/flaskr/__init__.py:9-20 | At most 10 items. For page p >= 1 the result is the items at indices [(p-1)*10, min(p*10, L)), so its length is min(10, max(0, L-10(p-1))). Page 0 is empty. Page -k is the (k+1)-th run of ten counted from the back. |
| `Pagination.PageOfIndex` | backend/flaskr/__init__.py:12-20 | Every item appears on positive page i/10+1 at position i mod 10, so the positive pages read in order are the list and no item is lost. |
| `Pagination.LastItemEndsLastPage` | backend/flaskr/__init__.py:12-20 | In a non-empty list of L items, the last item ends page (L-1)/10+1 and page (L-1)/10+2 is empty. |
| `Pagination.PageWithin` | backend/flaskr/__init__.py:17-18 | A page holds only items of the list it was cut from. |
| `Model.OrderById` | backend/flaskr/__init__.py:78 | `order_by(Question.id)` returns a permutation of the stored questions in ascending id order. |
| `Model.OrderByIdOfAscending` | backend/flaskr/__init__.py:78 | Ordering rows that are already in id order returns them unchanged. |
| `Model.Filter` | backend/flaskr/__init__.py:191 | `filter_by` keeps exactly the rows satisfying the condition, and never more rows than it was given. |
| `Model.FilterLengthPermutation` | backend/flaskr/__init__.py:142-143 | How many rows a filter selects does not depend on their order. So the count of the ordered search equals the count over the whole table. |
| `Model.OrderByIdAppendLargest` | backend/flaskr/__init__.py:78 | A row whose id exceeds every stored id comes last in id order: ordering the table with it appended is the ordered table followed by that row. |
| `Model.FilterKeepsAscending` | backend/flaskr/__init__.py:142-143 | Filtering id-ordered rows keeps them in id order. |
| `Model.FindQuestion` | backend/flaskr/__init__.py:109-111 | `one_or_none` finds nothing exactly when no question has that id. Otherwise it returns a stored question with that id. |
| `Model.CategoryMap` | backend/flaskr/__init__.py:53-55 | The dictionary's keys are exactly the category ids. Each id maps to the type of the last row carrying it. |
| `Model.CategoryMapOfUnique` | backend/flaskr/__init__.py:84-87 | With unique category ids, every category row's id maps to that row's type. |
| `Model.InsertQuestion` | backend/flaskr/__init__.py:155-159 | The table gains exactly one row with the given fields, appended, and the categories are untouched. In a valid store the assigned id exceeds every stored id (so it is fresh) and the store stays valid. |
| `Model.DeleteQuestion` | backend/flaskr/__init__.py:113 | Exactly the rows with other ids remain, and the categories and id sequence are untouched. In a valid store with the id present, exactly one row goes and the store stays valid. |
| `Handlers.OrderedQuestions` | backend/flaskr/__init__.py:78 | The id-ordered question list is a permutation of the table with the same length. |
| `Handlers.SearchResults` | backend/flaskr/__init__.py:142-143 | The search query returns exactly the stored questions whose text contains the term ignoring case, in id order. Their number is the count of matching rows in the table. |
| `Handlers.PageOfAscending` | backend/flaskr/__init__.py:79 | A page of id-ordered questions is id-ordered. |
| `Handlers.GetAllCategories` | backend/flaskr/__init__.py:50-61 | 404 exactly when there are no categories. Otherwise the keys are exactly the category ids, each id maps to its type (for unique ids), and the store is unchanged. |
| `Handlers.GetQuestions` | backend/flaskr/__init__.py:76-97 | 404 exactly when the requested page of the id-ordered questions is empty or there are no categories. For p >= 1 that means the table has at most (p-1)*10 rows. Otherwise the result is that page, in id order and drawn from the store. `total_questions` counts all questions, the category keys are the ids and each maps to its type (for unique ids), and the store is unchanged. |
| `Handlers.RemoveQuestion` | backend/flaskr/__init__.py:107-120 | 422 exactly when the id is absent or the delete fails. Otherwise the id is echoed, exactly the rows with other ids remain, and the categories are untouched. In a valid store one row goes and validity is kept. |
| `Handlers.CreateQuestion` | backend/flaskr/__init__.py:132-166 | Truthy search term: never an error, read-only, and a page of the id-ordered matches. Every returned question is stored and contains the term ignoring case, and `total_questions` is the full match count. Otherwise: 422 with no insertion when a field is missing or the insert fails. Else exactly one row with the given fields is appended under an id that is returned, fresh in a valid store, and validity is kept. |
| `Handlers.GetQuestionsByCategory` | backend/flaskr/__init__.py:186-197 | 400 exactly when the category id is unknown. Otherwise the result is read-only, it is the requested page of the category's questions in storage order, every returned question is stored with that category, there are at most 10, and `total_questions` equals the length of the returned page. |
| `Handlers.GetQuestionsByCategoryCounted` | backend/flaskr/__init__.py:192-197 | The same route with `total_questions` equal to the number of questions in the category, which is never below the page length. |
| `Search.MatchIgnoresTermCase` | backend/flaskr/__init__.py:143 | The case of the search term does not change the match, and an exact occurrence always matches. |
| `Search.LowerIdempotent` | backend/flaskr/__init__.py:143 | Case folding the text twice is the same as folding it once. |
| `Responses.Envelope` | backend/flaskr/__init__.py:244-266 | An error body has `success` false, a code that maps back to its error kind, and the kind's fixed message. |
| `Responses.Code` | backend/flaskr/__init__.py:248 | Every error kind answers 400, 404 or 422. |
| `Responses.FromCode` | backend/flaskr/__init__.py:244-266 | Exactly the codes 400, 404 and 422 have a handler, and each selects the kind whose code it is. |
| `Responses.CodeRoundTrip` | backend/flaskr/__init__.py:244-266 | Code and FromCode are inverse. |
| `Responses.EnvelopeInjective` | backend/flaskr/__init__.py:244-266 | Distinct error kinds produce distinct envelopes. |
| `Responses.HttpStatus` | backend/flaskr/__init__.py:61 | A success answers 200. A failure answers the code of its error kind. |
| `Quiz.Pool` | backend/flaskr/__init__.py:219-223 | The pool holds all questions for category id 0, and otherwise exactly the questions of that category. |
| `Quiz.Unseen` | backend/flaskr/__init__.py:231 | The eligible questions are exactly the pool questions whose id is not among the previous ones. |
| `Quiz.PlayTriviaGame` | backend/flaskr/__init__.py:209-237 | 400 exactly when `previous_questions` or `quiz_category` is missing. The quiz is over (`question` null) exactly when the previous list is as long as the pool. Otherwise the question is stored, in the chosen category, and not previously asked. The store is never modified. |
| `Quiz.QuizDrawsExactlyUnseen` | backend/flaskr/__init__.py:228-232 | When a question is drawn, the possible outcomes over all random choices are exactly the unseen pool questions. |
| `Quiz.DrawnIsUnseen` | backend/flaskr/__init__.py:228-232 | Whatever question a draw ends on is in the pool and was not asked before. |
| `Quiz.UnseenCanBeDrawn` | backend/flaskr/__init__.py:228-232 | Every pool question not asked before is the end of some draw. |
| `Quiz.RejectionLoop` | backend/flaskr/__init__.py:228-232 | On a stream of in-range draws, the loop stops at the first drawn question not previously asked and returns it. `None` means every draw so far was rejected. |
| `Quiz.PlayTriviaGameByUnseen` | backend/flaskr/__init__.py:219-236 | The quiz ends exactly when every pool question was asked, and otherwise returns an unseen pool question. It needs no precondition. |
| `Quiz.QuizEndsEarlyOnRepeatedId` | backend/flaskr/__init__.py:225-226 | With previous ids [1, 1] and pool {1, 2}, the handler returns null although question 2 was never asked. The unseen-based version returns question 2. |
| `Quiz.QuizLoopCannotExitOnStrayId` | backend/flaskr/__init__.py:225-232 | With previous ids [1, 2, 7] and pool {1, 2}, the count says draw, but no pool question is unseen, so the loop cannot end. The unseen-based version ends the quiz. |
| `Scenarios.DeleteTwice` | backend/flaskr/__init__.py:107-120 | In any store, deleting a present id answers 200 and removes it. Deleting it again answers 422. |
| `Scenarios.CreateThenDeleteRestores` | backend/flaskr/__init__.py:150-166 | Creating a question and deleting the id it was given restores the question table and categories exactly. |
| `Scenarios.CreatedQuestionIsListedLast` | backend/flaskr/__init__.py:128-130 | In a valid store a created question is the last item of the id-ordered list, it ends the last non-empty page of GET /questions, and the next page is empty. |
| `Scenarios.SecondPageOfTwelve` | backend/flaskr/__init__.py:76-97 | With questions 1..12 and some category, page 2 returns questions 11 and 12 and `total_questions` 12. |
| `Scenarios.SecondPageOfOrderedTwelve` | backend/flaskr/__init__.py:78-95 | For an id-ordered table of twelve, page 2 is its last two rows and the total is 12. |
| `Scenarios.CategoryTotalIsPageLength` | backend/flaskr/__init__.py:191-196 | With eleven questions in category 1, page 1 reports `total_questions` 10. The counted version reports 11. |

## Left out

- Flask app construction, route decorators, `jsonify` and status-code plumbing (backend/flaskr/__init__.py:23-26). Responses are datatypes, and `HttpStatus` gives the code.
- CORS setup and the `after_request` header injection (backend/flaskr/__init__.py:32-43). These only decorate the I/O.
- The SQLAlchemy models and `setup_db`: `models` is not part of this model. `insert` and `delete` are abstract store updates. A write failure is the `storageFails` flag, answered with 422, and it is assumed to leave the store unchanged.
- Parsing of the `page` query argument: the model takes the parsed integer, so the fallback to 1 on a non-integer value is not modelled.
- Crash paths answered with 500: `request.get_json()` returning `None`, `quiz_category` without an `id` key, `randint(0, -1)` on an empty pool, and `one_or_none` finding two rows. The last cannot happen in a valid store. `DeleteQuestion` removes every row with the id, which in a valid store is the single row.
- JSON values of other types: `searchTerm` is a string or absent, `category` and `difficulty` are integers or absent, and `previous_questions` is a list of integers. Truthiness of non-string search terms is not modelled.
- SQL `ILIKE` wildcards and collation: `%` and `_` inside the term act as wildcards in the source, and a backslash escapes the next character (the term `a\b` matches the text `ab`). The model matches the term literally and folds only the ASCII letters A-Z.
- Randomness: the distribution of `random.randint` is not modelled. `pick` chooses any unseen pool question, and `QuizDrawsExactlyUnseen` shows that every one of them is possible.
- Quiz.PlayTriviaGame: requires `LoopCanExit`, so it does not model the rejection loop spinning forever when every pool question was asked but the previous list is longer than the pool. `QuizLoopCannotExitOnStrayId` shows that such inputs exist.
- Handlers.GetQuestionsByCategory: `filter_by(category=cid)` has no defined order. The model assumes storage order: its contract fixes the returned page as a page of the category's questions in storage order, which the database does not promise. Membership, the category of each question and the counts hold in any order. The same assumption is made for `Quiz.Pool` (`Question.query.all()`), whose contract states membership only.
- Handlers.GetAllCategories: `order_by(Category.id)` is not applied before building the dictionary. With unique category ids the order cannot change the result, and the contract states the values only for unique ids.
- Handlers.GetQuestions: the same holds for its category dictionary (backend/flaskr/__init__.py:84-87). The id order is not applied, and the contract states the values only for unique ids.
- Handlers.RemoveQuestion: the route's `<int:qid>` converter matches only non-negative digits, so `DELETE /questions/-3` gets the routing 404 and never reaches the handler. The model takes any integer and answers 422 for a negative id, which no stored question has.
- Handlers.GetQuestionsByCategory: the route's `<int:cid>` converter matches only non-negative digits, so `GET /categories/-1/questions` gets the routing 404 and never reaches the handler. The model takes any integer and answers 400 for a negative id that is not a category id.

## Findings

| source | as written | input that shows it | evidently intended | confidence | as-written member | corrected member |
|---|---|---|---|---|---|---|
| backend/flaskr/__init__.py:225-226 | the quiz is declared over when `len(previous_questions) == len(pool)` | previous ids [1, 1], pool of questions 1 and 2: the answer is `question: null` although question 2 was never asked | end the quiz exactly when no pool question is left unasked | high (not executed) | `Quiz.QuizEndsEarlyOnRepeatedId` | `Quiz.PlayTriviaGameByUnseen` |
| backend/flaskr/__init__.py:225-232 | the loop is entered whenever the lengths differ, and redraws until it finds an unasked question | previous ids [1, 2, 7], pool of questions 1 and 2: every draw is rejected and the loop never ends | draw only from the unasked pool questions, and end the quiz when there are none | high (not executed) | `Quiz.QuizLoopCannotExitOnStrayId` | `Quiz.PlayTriviaGameByUnseen` |
| backend/flaskr/__init__.py:196 | `total_questions` is the length of the returned page | eleven questions in category 1, page 1: `total_questions` is 10 | the number of questions in the category, as the other listing routes report at lines 95 and 148 | medium (not executed) | `Scenarios.CategoryTotalIsPageLength` | `Handlers.GetQuestionsByCategoryCounted` |
