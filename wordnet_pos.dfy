/** The part-of-speech choice at the head of `get_lemma` (Tagging.py and lexicon.py):
    a chain of tag-prefix tests that picks the WordNet class handed to the lemmatizer.
    The two scripts differ only in the verb prefix: "VV" in Tagging.py, "VB" in lexicon.py. */
module WordNetPos {
  import opened Text

  datatype Pos = Verb | Adj | Noun | Adv

  /** The verb prefix tested by Tagging.py, which sees CLAWS-style tags. */
  const TaggingVerbPrefix := "VV"
  /** The verb prefix tested by lexicon.py, which sees Penn tags. */
  const LexiconVerbPrefix := "VB"

  /** `get_lemma`'s choice: the first matching prefix in the order verb, JJ, NN, RB,
      PRP/PRP$, DT/WDT, IN, and noun when nothing matches. */
  function ChoosePos(verbPrefix: string, tag: string): (pos: Pos)
    ensures pos == Verb <==> StartsWith(tag, verbPrefix)
    ensures pos == Adj <==> !StartsWith(tag, verbPrefix) && StartsWith(tag, "JJ")
    ensures pos == Adv <==>
      && !StartsWith(tag, verbPrefix) && !StartsWith(tag, "JJ") && !StartsWith(tag, "NN")
      && (StartsWith(tag, "RB")
          || (&& !StartsWith(tag, "PRP") && !StartsWith(tag, "DT") && !StartsWith(tag, "WDT")
              && StartsWith(tag, "IN")))
  {
    if StartsWith(tag, verbPrefix) then Verb
    else if StartsWith(tag, "JJ") then Adj
    else if StartsWith(tag, "NN") then Noun
    else if StartsWith(tag, "RB") then Adv
    else if StartsWith(tag, "PRP") || StartsWith(tag, "PRP$") then Noun
    else if StartsWith(tag, "DT") || StartsWith(tag, "WDT") then Noun
    else if StartsWith(tag, "IN") then Adv
    else Noun
  }

  /** WordNet's `lemmatize(word, pos)`, which is not part of this model. */
  type Lemmatizer = (string, Pos) -> string

  /** `get_lemma(token, tag)`: the lemmatizer on the lower-cased token and the chosen class. */
  function GetLemma(verbPrefix: string, lemmatize: Lemmatizer, token: string, tag: string): string
  {
    lemmatize(Lower(token), ChoosePos(verbPrefix, tag))
  }

  /** A Penn past-tense verb is a verb for lexicon.py but falls through to the noun
      default in Tagging.py, whose prefix expects the CLAWS "VV" family. */
  lemma VerbPrefixesDiffer(tag: string)
    requires tag == "VBD"
    ensures ChoosePos(LexiconVerbPrefix, tag) == Verb
    ensures ChoosePos(TaggingVerbPrefix, tag) == Noun
  {
    assert StartsWith(tag, "VB");
    assert !StartsWith(tag, "VV") && !StartsWith(tag, "JJ") && !StartsWith(tag, "NN");
    assert !StartsWith(tag, "RB") && !StartsWith(tag, "IN");
  }
}
