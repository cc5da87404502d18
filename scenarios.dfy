/**
 * The scenarios of ml-assignment/tests/test_ngram.py, stated about the model.
 */
module Scenarios {
  import opened Text
  import opened Sums
  import opened NGramModel

  /** "I am." has the two tokens "i" and "am.". */
  lemma ShortTextTokens()
    ensures Tokenize("I am.") == ["i", "am."]
  {
    var words := ["i", "am."];
    assert Lower("I am.") == Join(words);
    assert IsWord("i") && IsWord("am.");
    SplitJoin(words);
  }

  /** Training a fresh model on "I am." counts two trigrams and two bigrams. */
  lemma ShortTextCounts()
    ensures Total(Train(Untrained, "I am.").trigrams) == 2
    ensures Total(Train(Untrained, "I am.").bigrams) == 2
  {
    ShortTextTokens();
    TrainTotals(Untrained, "I am.");
  }

  /** Training a fresh model on "" leaves it empty, and it then generates "" whatever the draws. */
  lemma EmptyText(sample: Sampler, maxLength: nat)
    ensures Train(Untrained, "") == Untrained
    ensures Join(Walk(Train(Untrained, ""), sample, 0, maxLength, StartToken, StartToken)) == ""
  {
    TrainOnBlankText(Untrained, "");
  }

  /**
   * Generation after training on any text may come out empty: `</s>` is a
   * vocabulary word with positive probability after (<s>, <s>), and a first
   * draw of `</s>` ends generation with no word emitted.
   */
  lemma GenerationMayBeEmpty(c: Counts, sample: Sampler, maxLength: nat)
    requires WellFormed(c) && EndToken in c.vocab
    requires sample(0, Smoothed(c, StartToken, StartToken)) == EndToken
    ensures Smoothed(c, StartToken, StartToken)[EndToken] > 0.0
    ensures Join(Walk(c, sample, 0, maxLength, StartToken, StartToken)) == ""
  {
    SmoothedBounds(c, StartToken, StartToken, EndToken);
  }

  /** Training on a text with tokens puts `</s>` into the vocabulary. */
  lemma TrainedHasEnd(c: Counts, text: string)
    requires Tokenize(text) != []
    ensures EndToken in Train(c, text).vocab
  {
    TrainVocab(c, text);
  }

  /**
   * Generation after training on "I am." is not limited to two words: a
   * sampler that always draws "i", a vocabulary word, yields as many words
   * as there are steps.
   */
  lemma ShortTextLongOutput()
    ensures Walk(Train(Untrained, "I am."), (k: nat, d: map<string, real>) => "i", 0, 3, StartToken, StartToken)
      == ["i", "i", "i"]
  {
    var c := Train(Untrained, "I am.");
    var sample: Sampler := (k: nat, d: map<string, real>) => "i";
    ShortTextTokens();
    TrainVocab(Untrained, "I am.");
    assert "i" in c.vocab;
    WalkConstant(c, sample, "i", 0, 3, StartToken, StartToken);
  }
}
