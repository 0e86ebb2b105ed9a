/**
 * Phrase matching used by the status filter. The database decides what
 * "the text contains the phrase" means; this model takes it to be plain
 * substring containment.
 */
module TextMatch {

  /** `phrase` occurs in `text` starting at index `i`. */
  predicate OccursAt(text: string, phrase: string, i: int) {
    0 <= i && i + |phrase| <= |text| && text[i..i + |phrase|] == phrase
  }

  /** An occurrence in the tail of `text` is an occurrence in `text` one place on, and back. */
  lemma OccursInTail(text: string, phrase: string)
    requires text != []
    ensures forall i :: OccursAt(text[1..], phrase, i) ==> OccursAt(text, phrase, i + 1)
    ensures forall i :: OccursAt(text, phrase, i) && i > 0 ==> OccursAt(text[1..], phrase, i - 1)
  { }

  /**
   * Whether `phrase` occurs somewhere in `text`, found by trying each start
   * position from the left; true exactly when some position holds it.
   */
  function Contains(text: string, phrase: string): (r: bool)
    ensures r <==> exists i :: OccursAt(text, phrase, i)
    decreases |text|
  {
    if |phrase| <= |text| && text[..|phrase|] == phrase then
      assert OccursAt(text, phrase, 0);
      true
    else if text == [] then
      false
    else
      OccursInTail(text, phrase);
      Contains(text[1..], phrase)
  }

  /** A phrase inside a phrase that occurs in `text` occurs in `text` too. */
  lemma ContainsTransitive(text: string, middle: string, phrase: string)
    requires Contains(text, middle) && Contains(middle, phrase)
    ensures Contains(text, phrase)
  { }

  /** A phrase whose first character never appears in `text` does not occur in it. */
  lemma FirstCharAbsent(text: string, phrase: string)
    requires phrase != [] && phrase[0] !in text
    ensures !Contains(text, phrase)
  { }
}
