/** The search filter `question ILIKE '%term%'`: the term occurs somewhere
    in the question text, ignoring the case of ASCII letters. */
module Search {

  import opened Model

  function LowerChar(c: char): char {
    if 'A' <= c <= 'Z' then (c as int + 32) as char else c
  }

  /** The text with every ASCII capital letter replaced by its small letter. */
  function Lower(s: string): (r: string)
    ensures |r| == |s|
    ensures forall i :: 0 <= i < |s| ==> r[i] == LowerChar(s[i])
  {
    seq(|s|, i requires 0 <= i < |s| => LowerChar(s[i]))
  }

  /** `term` occurs in `text` starting at position `i`. */
  predicate OccursAt(text: string, term: string, i: int) {
    0 <= i <= |text| - |term| && text[i..i + |term|] == term
  }

  predicate Contains(text: string, term: string) {
    exists i :: 0 <= i <= |text| - |term| && OccursAt(text, term, i)
  }

  predicate ContainsIgnoringCase(text: string, term: string) {
    Contains(Lower(text), Lower(term))
  }

  /** The row filter of the search query. */
  function MatchesTerm(term: string): Question -> bool {
    (q: Question) => ContainsIgnoringCase(q.question, term)
  }

  /** Lower-casing twice is lower-casing once. */
  lemma LowerIdempotent(s: string)
    ensures Lower(Lower(s)) == Lower(s)
  {
  }

  /** The case of the term does not matter to the search, and an exact
      occurrence is always found. */
  lemma MatchIgnoresTermCase(text: string, term: string)
    ensures ContainsIgnoringCase(text, Lower(term)) <==> ContainsIgnoringCase(text, term)
    ensures Contains(text, term) ==> ContainsIgnoringCase(text, term)
  {
    LowerIdempotent(term);
    if Contains(text, term) {
      var i :| 0 <= i <= |text| - |term| && OccursAt(text, term, i);
      assert text[i..i + |term|] == term;
      assert Lower(text)[i..i + |term|] == Lower(term) by {
        forall k | 0 <= k < |term|
          ensures Lower(text)[i + k] == Lower(term)[k]
        {
          assert text[i + k] == term[k];
        }
      }
      assert OccursAt(Lower(text), Lower(term), i);
    }
  }
}
