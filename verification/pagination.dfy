/** `paginate_questions`: a fixed-size page cut out of an ordered list with
    Python's slice semantics, including what a zero or negative `page`
    query parameter does. */
module Pagination {

  /** `QUESTIONS_PER_PAGE` */
  const QuestionsPerPage: nat := 10

  function Min(a: int, b: int): int {
    if a <= b then a else b
  }

  function Max(a: int, b: int): int {
    if a >= b then a else b
  }

  /** How Python normalises one bound of a slice over a list of length `n`:
      a negative bound counts from the end, and whatever is still out of
      range is clamped to the list. */
  function SliceBound(i: int, n: nat): (k: nat)
    ensures k <= n
    ensures 0 <= i <= n ==> k == i
  {
    if i < 0 then Max(0, i + n) else Min(i, n)
  }

  /** Python's `xs[start:stop]` with step 1: empty when the normalised
      bounds cross. */
  function Slice<T>(xs: seq<T>, start: int, stop: int): (r: seq<T>)
    ensures |r| <= |xs|
  {
    var a := SliceBound(start, |xs|);
    var b := SliceBound(stop, |xs|);
    if a < b then xs[a..b] else []
  }

  /** Page `page` of `items`: `items[(page-1)*10 : (page-1)*10 + 10]`.
      Positive pages are the consecutive runs of ten from the front; page 0
      is always empty; page -k is the (k+1)-th run of ten counted from the
      back, so no page below 1 serves the last ten items. */
  function Paginate<T>(page: int, items: seq<T>): (r: seq<T>)
    ensures |r| <= QuestionsPerPage
    ensures page >= 1 ==>
      r == items[Min((page - 1) * QuestionsPerPage, |items|)..Min(page * QuestionsPerPage, |items|)]
    ensures page >= 1 ==> |r| == Min(QuestionsPerPage, Max(0, |items| - QuestionsPerPage * (page - 1)))
    ensures page == 0 ==> r == []
    ensures page < 0 ==>
      r == items[Max(0, |items| + QuestionsPerPage * (page - 1))..Max(0, |items| + QuestionsPerPage * page)]
  {
    var start := (page - 1) * QuestionsPerPage;
    Slice(items, start, start + QuestionsPerPage)
  }

  /** Every item lies on exactly one positive page, at the position its
      index modulo the page size says: the positive pages, read in order,
      are the list. */
  lemma PageOfIndex<T>(items: seq<T>, i: int)
    requires 0 <= i < |items|
    ensures var p := i / QuestionsPerPage + 1;
      i % QuestionsPerPage < |Paginate(p, items)| && Paginate(p, items)[i % QuestionsPerPage] == items[i]
  {
  }

  /** The last item of a non-empty list ends the last non-empty page, and
      the page after that one is empty. */
  lemma LastItemEndsLastPage<T>(items: seq<T>)
    requires |items| > 0
    ensures var last := (|items| - 1) / QuestionsPerPage + 1;
      var p := Paginate(last, items);
      && |p| > 0 && p[|p| - 1] == items[|items| - 1]
      && Paginate(last + 1, items) == []
  {
  }

  /** A page holds nothing that is not in the list. */
  lemma PageWithin<T>(page: int, items: seq<T>)
    ensures forall x :: x in Paginate(page, items) ==> x in items
  {
  }
}
