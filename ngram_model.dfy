/**
 * The trigram language model of ml-assignment/src/ngram_model.py.
 *
 * The model counts word trigrams and the bigrams that start them, and keeps
 * the vocabulary of every token seen, including the two sentinels that pad
 * each training text.  From these it derives the add-one (Laplace) smoothed
 * distribution of the next word given two context words, and generates text
 * by sampling from that distribution.
 *
 * The pure part (`Counts`, `Train`, `Smoothed`, `Walk`) states what the
 * class `TrigramModel` computes; the lemmas state what the program promises
 * about it.
 */
module NGramModel {
  import opened Text
  import opened Sums
  import opened Counting

  const StartToken: string := "<s>"
  const EndToken: string := "</s>"

  type Bigram = (string, string)
  type Trigram = (string, string, string)

  /** The state of a model: trigram counts, bigram counts and vocabulary. */
  datatype Counts = Counts(trigrams: map<Trigram, nat>, bigrams: map<Bigram, nat>, vocab: set<string>)

  /** A freshly constructed model. */
  const Untrained: Counts := Counts(map[], map[], {})

  // ---------------------------------------------------------------------
  // Training

  /** `text.lower().split()`. */
  function Tokenize(text: string): (words: seq<string>)
    ensures forall w :: w in words ==> IsWord(w)
  {
    Split(Lower(text))
  }

  /** A text yields no token exactly when it is all whitespace (the empty text included). */
  lemma TokenizeEmpty(text: string)
    ensures Tokenize(text) == [] <==> AllSpace(text)
  {
    SplitEmpty(Lower(text));
    assert AllSpace(Lower(text)) <==> AllSpace(text) by {
      assert forall i :: 0 <= i < |text| ==> IsSpace(Lower(text)[i]) == IsSpace(text[i]);
    }
  }

  /** The tokens of one training text between the two sentinels. */
  function Pad(words: seq<string>): seq<string>
  {
    [StartToken] + words + [EndToken]
  }

  /** The windows of width 3, stride 1, over `p`, in order. */
  function Windows(p: seq<string>): (ws: seq<Trigram>)
    ensures |ws| == if |p| < 3 then 0 else |p| - 2
    ensures forall i {:trigger ws[i]} :: 0 <= i < |ws| ==> ws[i] == (p[i], p[i + 1], p[i + 2])
  {
    if |p| < 3 then [] else [(p[0], p[1], p[2])] + Windows(p[1..])
  }

  /** The bigram `(w1, w2)` that starts each window `(w1, w2, w3)`. */
  function Contexts(ws: seq<Trigram>): (bs: seq<Bigram>)
    ensures |bs| == |ws|
    ensures forall i {:trigger bs[i]} :: 0 <= i < |ws| ==> bs[i] == (ws[i].0, ws[i].1)
  {
    if ws == [] then [] else [(ws[0].0, ws[0].1)] + Contexts(ws[1..])
  }

  /**
   * Adding one padded token sequence to `c`: its tokens join the vocabulary,
   * and each of its windows, and the bigram starting it, is counted once.
   */
  function Absorb(c: Counts, padded: seq<string>): Counts
  {
    var ws := Windows(padded);
    Counts(AddAll(c.trigrams, ws), AddAll(c.bigrams, Contexts(ws)), c.vocab + set w | w in padded)
  }

  /** What one call of `fit(text)` does to the state `c`. */
  function Train(c: Counts, text: string): Counts
  {
    var words := Tokenize(text);
    if words == [] then c else Absorb(c, Pad(words))
  }

  /** Counting window i, and the bigram that opens it, extends the counts of the windows before it. */
  lemma CountWindowStep(tri: map<Trigram, nat>, bi: map<Bigram, nat>, p: seq<string>, i: nat)
    requires i + 2 < |p|
    ensures var ws, t := Windows(p), (p[i], p[i + 1], p[i + 2]);
      && i < |ws|
      && AddFirst(tri, ws, i + 1) == AddFirst(tri, ws, i)[t := Get(AddFirst(tri, ws, i), t) + 1]
      && AddFirst(bi, Contexts(ws), i + 1)
        == AddFirst(bi, Contexts(ws), i)[(t.0, t.1) := Get(AddFirst(bi, Contexts(ws), i), (t.0, t.1)) + 1]
  {
    var ws := Windows(p);
    AddFirstNext(tri, ws, i, (p[i], p[i + 1], p[i + 2]));
    AddFirstNext(bi, Contexts(ws), i, (p[i], p[i + 1]));
  }

  // ---------------------------------------------------------------------
  // The invariant of a model

  /** The observed third words after the context `p`, each with its trigram count. */
  function Row(tri: map<Trigram, nat>, p: Bigram): map<string, nat>
  {
    map w | w in (set t | t in tri && t.0 == p.0 && t.1 == p.1 :: t.2) :: Get(tri, (p.0, p.1, w))
  }

  /** Every bigram count is the sum of the trigram counts that extend it. */
  ghost predicate Marginal(tri: map<Trigram, nat>, bi: map<Bigram, nat>)
  {
    forall p: Bigram {:trigger Row(tri, p)} :: Get(bi, p) == Total(Row(tri, p))
  }

  /** Every token of every counted key is in the vocabulary. */
  ghost predicate Closed(c: Counts)
  {
    && (forall t :: t in c.trigrams ==> t.0 in c.vocab && t.1 in c.vocab && t.2 in c.vocab)
    && (forall p :: p in c.bigrams ==> p.0 in c.vocab && p.1 in c.vocab)
  }

  /** Every vocabulary entry is a token as `split` produces it. */
  ghost predicate WordsOnly(c: Counts)
  {
    forall w :: w in c.vocab ==> IsWord(w)
  }

  /** The invariant every reachable model state satisfies. */
  ghost predicate WellFormed(c: Counts)
  {
    && Marginal(c.trigrams, c.bigrams)
    && Closed(c)
    && WordsOnly(c)
  }

  /** Counting the trigram `t` adds one to the entry of `t.2` in the row of its context. */
  lemma RowAfterInc(tri: map<Trigram, nat>, t: Trigram)
    ensures Row(Inc(tri, t), (t.0, t.1)) == Row(tri, (t.0, t.1))[t.2 := Get(tri, t) + 1]
  {
    var p := (t.0, t.1);
    var row, row' := Row(tri, p), Row(Inc(tri, t), p);
    forall w ensures w in row' <==> w in row[t.2 := Get(tri, t) + 1] {
      if w in row && w != t.2 {
        var u :| u in tri && u.0 == p.0 && u.1 == p.1 && u.2 == w;
        assert u in Inc(tri, t);
      }
    }
  }

  /** Counting the trigram `t` leaves the rows of the other contexts alone. */
  lemma RowUnchanged(tri: map<Trigram, nat>, t: Trigram, p: Bigram)
    requires p != (t.0, t.1)
    ensures Row(Inc(tri, t), p) == Row(tri, p)
  {
  }

  /** Counting one window and its starting bigram keeps the marginal invariant. */
  lemma MarginalStep(tri: map<Trigram, nat>, bi: map<Bigram, nat>, t: Trigram)
    requires Marginal(tri, bi)
    ensures Marginal(Inc(tri, t), Inc(bi, (t.0, t.1)))
  {
    var tri', bi' := Inc(tri, t), Inc(bi, (t.0, t.1));
    forall p: Bigram ensures Get(bi', p) == Total(Row(tri', p)) {
      if p == (t.0, t.1) {
        var row := Row(tri, p);
        RowAfterInc(tri, t);
        TotalUpdate(row, t.2, Get(tri, t) + 1);
        if t.2 !in row {
          assert t !in tri;
        }
      } else {
        RowUnchanged(tri, t, p);
      }
    }
  }

  /** Counting the first `n` windows and their starting bigrams keeps the marginal invariant. */
  lemma {:induction false} MarginalAddFirst(tri: map<Trigram, nat>, bi: map<Bigram, nat>, ws: seq<Trigram>, n: nat)
    requires Marginal(tri, bi)
    requires n <= |ws|
    ensures Marginal(AddFirst(tri, ws, n), AddFirst(bi, Contexts(ws), n))
  {
    if n > 0 {
      var m := n - 1;
      MarginalAddFirst(tri, bi, ws, m);
      MarginalStep(AddFirst(tri, ws, m), AddFirst(bi, Contexts(ws), m), ws[m]);
    }
  }

  /** Counting a run of windows and their starting bigrams keeps the marginal invariant. */
  lemma MarginalAddAll(tri: map<Trigram, nat>, bi: map<Bigram, nat>, ws: seq<Trigram>)
    requires Marginal(tri, bi)
    ensures Marginal(AddAll(tri, ws), AddAll(bi, Contexts(ws)))
  {
    MarginalAddFirst(tri, bi, ws, |ws|);
  }

  /** The two sentinels are tokens like any other: non-empty, no whitespace. */
  lemma SentinelsAreWords()
    ensures IsWord(StartToken) && IsWord(EndToken)
    ensures StartToken != EndToken
  {
    assert StartToken[1] != EndToken[1];
  }

  /** A fresh model satisfies the invariant. */
  lemma UntrainedWellFormed()
    ensures WellFormed(Untrained)
  {
    forall p: Bigram ensures Get(Untrained.bigrams, p) == Total(Row(Untrained.trigrams, p)) {
      assert Row(Untrained.trigrams, p) == map[];
    }
  }

  /** Absorbing a token sequence keeps the tokens of every counted trigram inside the vocabulary. */
  lemma AbsorbClosedTrigrams(c: Counts, padded: seq<string>)
    requires forall t :: t in c.trigrams ==> t.0 in c.vocab && t.1 in c.vocab && t.2 in c.vocab
    ensures var c' := Absorb(c, padded);
      forall t :: t in c'.trigrams ==> t.0 in c'.vocab && t.1 in c'.vocab && t.2 in c'.vocab
  {
    var ws := Windows(padded);
    var c' := Absorb(c, padded);
    AddAllKeys(c.trigrams, ws);
    forall t | t in c'.trigrams ensures t.0 in c'.vocab && t.1 in c'.vocab && t.2 in c'.vocab {
      if t !in c.trigrams {
        var i :| 0 <= i < |ws| && ws[i] == t;
        assert padded[i] in padded && padded[i + 1] in padded && padded[i + 2] in padded;
      }
    }
  }

  /** Absorbing a token sequence keeps both tokens of every counted bigram inside the vocabulary. */
  lemma AbsorbClosedBigrams(c: Counts, padded: seq<string>)
    requires forall p :: p in c.bigrams ==> p.0 in c.vocab && p.1 in c.vocab
    ensures var c' := Absorb(c, padded);
      forall p :: p in c'.bigrams ==> p.0 in c'.vocab && p.1 in c'.vocab
  {
    var ws := Windows(padded);
    var bs := Contexts(ws);
    var c' := Absorb(c, padded);
    AddAllKeys(c.bigrams, bs);
    forall p | p in c'.bigrams ensures p.0 in c'.vocab && p.1 in c'.vocab {
      if p !in c.bigrams {
        var i :| 0 <= i < |bs| && bs[i] == p;
        assert padded[i] in padded && padded[i + 1] in padded;
      }
    }
  }

  /** Absorbing a token sequence keeps every token of every counted key inside the vocabulary. */
  lemma AbsorbClosed(c: Counts, padded: seq<string>)
    requires Closed(c)
    ensures Closed(Absorb(c, padded))
  {
    AbsorbClosedTrigrams(c, padded);
    AbsorbClosedBigrams(c, padded);
  }

  /** Every token of a padded text is a word: the sentinels and the tokens between them. */
  lemma PaddedAreWords(words: seq<string>)
    requires forall w :: w in words ==> IsWord(w)
    ensures forall w :: w in Pad(words) ==> IsWord(w)
  {
    SentinelsAreWords();
    var padded := Pad(words);
    forall w | w in padded ensures IsWord(w) {
      var i :| 0 <= i < |padded| && padded[i] == w;
      if 0 < i < |padded| - 1 {
        assert w == words[i - 1];
      }
    }
  }

  /** Training keeps the invariant. */
  lemma TrainWellFormed(c: Counts, text: string)
    requires WellFormed(c)
    ensures WellFormed(Train(c, text))
  {
    var words := Tokenize(text);
    if words != [] {
      var padded := Pad(words);
      MarginalAddAll(c.trigrams, c.bigrams, Windows(padded));
      AbsorbClosed(c, padded);
      PaddedAreWords(words);
      assert Train(c, text) == Absorb(c, padded);
    }
  }

  // ---------------------------------------------------------------------
  // What training promises

  /** A text with no tokens (empty or all whitespace) leaves the model unchanged. */
  lemma TrainOnBlankText(c: Counts, text: string)
    requires AllSpace(text)
    ensures Train(c, text) == c
  {
    TokenizeEmpty(text);
  }

  /**
   * Training on a text with tokens adds exactly its lower-cased tokens and
   * the two sentinels to the vocabulary, and removes nothing.
   */
  lemma TrainVocab(c: Counts, text: string)
    requires Tokenize(text) != []
    ensures Train(c, text).vocab == c.vocab + {StartToken, EndToken} + set w | w in Tokenize(text)
  {
    var words := Tokenize(text);
    var padded := Pad(words);
    assert (set w | w in padded) == {StartToken, EndToken} + set w | w in words by {
      forall w | w in padded ensures w in {StartToken, EndToken} + set w | w in words {
        var i :| 0 <= i < |padded| && padded[i] == w;
        if 0 < i < |padded| - 1 {
          assert w == words[i - 1];
        }
      }
      assert padded[0] == StartToken && padded[|padded| - 1] == EndToken;
      forall w | w in words ensures w in padded {
        var i :| 0 <= i < |words| && words[i] == w;
        assert padded[i + 1] == w;
      }
    }
  }

  /** A text of n tokens is padded to n + 2 tokens and so has exactly n windows. */
  lemma PaddedWindows(words: seq<string>)
    ensures |Pad(words)| == |words| + 2
    ensures |Windows(Pad(words))| == |words|
  {
  }

  /**
   * Training adds to each trigram's count the number of windows of the
   * padded text equal to it, and to each bigram's count the number of
   * windows it starts.
   */
  lemma TrainCounts(c: Counts, text: string, t: Trigram, p: Bigram)
    ensures var ws := Windows(Pad(Tokenize(text)));
      && Get(Train(c, text).trigrams, t) == Get(c.trigrams, t) + multiset(ws)[t]
      && Get(Train(c, text).bigrams, p) == Get(c.bigrams, p) + multiset(Contexts(ws))[p]
  {
    var ws := Windows(Pad(Tokenize(text)));
    AddAllCount(c.trigrams, ws, t);
    AddAllCount(c.bigrams, Contexts(ws), p);
  }

  /** Training is cumulative: no count decreases and no token leaves the vocabulary. */
  lemma TrainMonotone(c: Counts, text: string)
    ensures forall t :: Get(c.trigrams, t) <= Get(Train(c, text).trigrams, t)
    ensures forall p :: Get(c.bigrams, p) <= Get(Train(c, text).bigrams, p)
    ensures c.vocab <= Train(c, text).vocab
  {
    var words := Tokenize(text);
    if words != [] {
      var ws := Windows(Pad(words));
      AddAllMonotone(c.trigrams, ws);
      AddAllMonotone(c.bigrams, Contexts(ws));
    }
  }

  /** Training on a text of n tokens adds exactly n to the trigram total and n to the bigram total. */
  lemma TrainTotals(c: Counts, text: string)
    ensures Total(Train(c, text).trigrams) == Total(c.trigrams) + |Tokenize(text)|
    ensures Total(Train(c, text).bigrams) == Total(c.bigrams) + |Tokenize(text)|
  {
    var words := Tokenize(text);
    if words != [] {
      var ws := Windows(Pad(words));
      AddAllTotal(c.trigrams, ws);
      AddAllTotal(c.bigrams, Contexts(ws));
    }
  }

  /** Training on the same text twice from a fresh model adds the same amount to each count both times. */
  lemma TrainTwiceCount(text: string, t: Trigram, p: Bigram)
    ensures var once := Train(Untrained, text);
      var twice := Train(once, text);
      && Get(twice.trigrams, t) == 2 * Get(once.trigrams, t)
      && Get(twice.bigrams, p) == 2 * Get(once.bigrams, p)
  {
    TrainCounts(Untrained, text, t, p);
    TrainCounts(Train(Untrained, text), text, t, p);
  }

  /** Training a fresh model twice on the same text doubles every count and keeps the vocabulary. */
  lemma TrainTwiceDoubles(text: string)
    ensures var once := Train(Untrained, text);
      var twice := Train(once, text);
      && (forall t :: Get(twice.trigrams, t) == 2 * Get(once.trigrams, t))
      && (forall p :: Get(twice.bigrams, p) == 2 * Get(once.bigrams, p))
      && twice.vocab == once.vocab
  {
    var once := Train(Untrained, text);
    var twice := Train(once, text);
    forall t ensures Get(twice.trigrams, t) == 2 * Get(once.trigrams, t) {
      TrainTwiceCount(text, t, (t.0, t.1));
    }
    forall p ensures Get(twice.bigrams, p) == 2 * Get(once.bigrams, p) {
      TrainTwiceCount(text, (p.0, p.1, ""), p);
    }
  }

  // ---------------------------------------------------------------------
  // Smoothed prediction

  /**
   * `predict_next(w1, w2)`: every vocabulary word w3 gets
   * (C(w1, w2, w3) + 1) / (C(w1, w2) + V), V the vocabulary size.
   */
  function Smoothed(c: Counts, w1: string, w2: string): (probs: map<string, real>)
    ensures probs.Keys == c.vocab
  {
    if c.vocab == {} then map[]
    else map w3 | w3 in c.vocab :: Prob(c, w1, w2, w3)
  }

  /** (C(w1, w2, w3) + 1) / (C(w1, w2) + V). */
  function Prob(c: Counts, w1: string, w2: string, w3: string): real
    requires w3 in c.vocab
  {
    (Get(c.trigrams, (w1, w2, w3)) + 1) as real / (Get(c.bigrams, (w1, w2)) + |c.vocab|) as real
  }

  /** No trigram count exceeds the count of the bigram it starts with. */
  lemma TrigramAtMostBigram(c: Counts, t: Trigram)
    requires Marginal(c.trigrams, c.bigrams)
    ensures Get(c.trigrams, t) <= Get(c.bigrams, (t.0, t.1))
  {
    if t in c.trigrams {
      var row := Row(c.trigrams, (t.0, t.1));
      assert t.2 in row;
      EntryAtMostTotal(row, t.2);
    }
  }

  /** Every smoothed probability is positive and at most 1. */
  lemma SmoothedBounds(c: Counts, w1: string, w2: string, w: string)
    requires WellFormed(c)
    requires w in c.vocab
    ensures 0.0 < Smoothed(c, w1, w2)[w] <= 1.0
  {
    TrigramAtMostBigram(c, (w1, w2, w));
    var a := (Get(c.trigrams, (w1, w2, w)) + 1) as real;
    var b := (Get(c.bigrams, (w1, w2)) + |c.vocab|) as real;
    assert 0.0 < a <= b;
    assert a / b <= 1.0;
  }

  /** A context with no recorded bigram gives the uniform distribution 1/V. */
  lemma SmoothedUnseenContext(c: Counts, w1: string, w2: string, w: string)
    requires WellFormed(c)
    requires Get(c.bigrams, (w1, w2)) == 0
    requires w in c.vocab
    ensures Smoothed(c, w1, w2)[w] == 1.0 / |c.vocab| as real
  {
    TrigramAtMostBigram(c, (w1, w2, w));
  }

  /** The trigram count of every vocabulary word after the context (w1, w2), zeros included. */
  function VocabRow(c: Counts, w1: string, w2: string): (row: map<string, nat>)
    ensures row.Keys == c.vocab
  {
    map w | w in c.vocab :: Get(c.trigrams, (w1, w2, w))
  }

  /**
   * The smoothed probabilities add up to (S + V) / (C(w1, w2) + V), where S
   * is the sum of the trigram counts of the vocabulary words after (w1, w2).
   */
  lemma SmoothedMass(c: Counts, w1: string, w2: string)
    requires c.vocab != {}
    ensures Mass(Smoothed(c, w1, w2))
      == (Total(VocabRow(c, w1, w2)) + |c.vocab|) as real / (Get(c.bigrams, (w1, w2)) + |c.vocab|) as real
  {
    var d := (Get(c.bigrams, (w1, w2)) + |c.vocab|) as real;
    var full := VocabRow(c, w1, w2);
    var probs := Smoothed(c, w1, w2);
    forall w | w in probs ensures probs[w] == (full[w] + 1) as real / d {
    }
    MassOfSmoothedRow(full, probs, d);
  }

  /** When the vocabulary is closed, the vocabulary row adds up to the observed row. */
  lemma VocabRowTotal(c: Counts, w1: string, w2: string)
    requires Closed(c)
    ensures Total(VocabRow(c, w1, w2)) == Total(Row(c.trigrams, (w1, w2)))
  {
    var row := Row(c.trigrams, (w1, w2));
    var full := VocabRow(c, w1, w2);
    forall w | w in row ensures w in full && full[w] == row[w] {
      var t :| t in c.trigrams && t.0 == w1 && t.1 == w2 && t.2 == w;
    }
    forall w | w in full && w !in row ensures full[w] == 0 {
      assert (w1, w2, w) !in c.trigrams;
    }
    TotalZeroExtension(row, full);
  }

  /**
   * With a closed vocabulary, the smoothed probabilities add up to
   * (R + V) / (C(w1, w2) + V), where R is the sum of the observed trigram
   * counts after (w1, w2).
   */
  lemma SmoothedMassObserved(c: Counts, w1: string, w2: string)
    requires Closed(c)
    requires c.vocab != {}
    ensures Mass(Smoothed(c, w1, w2))
      == (Total(Row(c.trigrams, (w1, w2))) + |c.vocab|) as real / (Get(c.bigrams, (w1, w2)) + |c.vocab|) as real
  {
    SmoothedMass(c, w1, w2);
    VocabRowTotal(c, w1, w2);
  }

  lemma SelfRatio(n: nat, v: nat)
    requires v > 0
    ensures (n + v) as real / (n + v) as real == 1.0
  {
  }

  /** On a well-formed model the smoothed probabilities add up to exactly 1. */
  lemma SmoothedSumsToOne(c: Counts, w1: string, w2: string)
    requires WellFormed(c)
    requires c.vocab != {}
    ensures Mass(Smoothed(c, w1, w2)) == 1.0
  {
    var n := Get(c.bigrams, (w1, w2));
    assert n == Total(Row(c.trigrams, (w1, w2)));
    SmoothedMassObserved(c, w1, w2);
    SelfRatio(n, |c.vocab|);
  }

  // ---------------------------------------------------------------------
  // Generation

  /**
   * The weighted draw: given the step number and the distribution, a
   * sampler returns one of its words.
   */
  type Sampler = (nat, map<string, real>) -> string

  /** The sampler only returns words of the (non-empty) distribution it is given. */
  ghost predicate DrawsFromSupport(sample: Sampler)
  {
    forall k: nat, d: map<string, real> :: d != map[] ==> sample(k, d) in d
  }

  /**
   * The words `generate` emits from step `k` on, with `remaining` steps
   * left and context (w1, w2): nothing once the steps run out or when the
   * distribution is empty.
   */
  function Walk(c: Counts, sample: Sampler, k: nat, remaining: nat, w1: string, w2: string): seq<string>
    decreases remaining, 1
  {
    if remaining == 0 || c.vocab == {} then []
    else Step(c, sample, k, remaining, w1, w2)
  }

  /**
   * One step of `generate` and the steps after it: draw w3 from the
   * smoothed distribution after (w1, w2); stop at `</s>`, leave out `<s>`,
   * and go on with the context (w2, w3).
   */
  function Step(c: Counts, sample: Sampler, k: nat, remaining: nat, w1: string, w2: string): seq<string>
    requires remaining > 0
    decreases remaining, 0
  {
    var w3 := sample(k, Smoothed(c, w1, w2));
    if w3 == EndToken then []
    else (if w3 == StartToken then [] else [w3]) + Walk(c, sample, k + 1, remaining - 1, w2, w3)
  }

  /** The tokens `generate` draws from step `k` on, up to and including a first `</s>`. */
  function Drawn(c: Counts, sample: Sampler, k: nat, remaining: nat, w1: string, w2: string): seq<string>
    decreases remaining
  {
    if remaining == 0 then []
    else
      var d := Smoothed(c, w1, w2);
      if c.vocab == {} then []
      else
        var w3 := sample(k, d);
        if w3 == EndToken then [w3]
        else [w3] + Drawn(c, sample, k + 1, remaining - 1, w2, w3)
  }

  /** The tokens of `ds` other than the two sentinels, in order. */
  function NonSentinels(ds: seq<string>): (ws: seq<string>)
    ensures forall w :: w in ws ==> w in ds && w != StartToken && w != EndToken
  {
    if ds == [] then []
    else (if ds[0] == StartToken || ds[0] == EndToken then [] else [ds[0]]) + NonSentinels(ds[1..])
  }

  /**
   * Filtering keeps every token of `ds` other than the sentinels, and never
   * produces more tokens than it is given.
   */
  lemma {:induction false} NonSentinelsKeeps(ds: seq<string>)
    ensures |NonSentinels(ds)| <= |ds|
    ensures forall w :: w in ds && w != StartToken && w != EndToken ==> w in NonSentinels(ds)
  {
    if ds != [] {
      NonSentinelsKeeps(ds[1..]);
      forall w | w in ds && w != StartToken && w != EndToken ensures w in NonSentinels(ds) {
        if w != ds[0] {
          assert w in ds[1..];
        }
      }
    }
  }

  /**
   * Generation draws at most one token per step and stops at the first
   * `</s>`: no draw but the last can be `</s>`.
   */
  lemma {:induction false} DrawnStopsAtEnd(c: Counts, sample: Sampler, k: nat, remaining: nat, w1: string, w2: string)
    ensures var ds := Drawn(c, sample, k, remaining, w1, w2);
      && |ds| <= remaining
      && forall i :: 0 <= i < |ds| - 1 ==> ds[i] != EndToken
    decreases remaining
  {
    if remaining > 0 && c.vocab != {} {
      var w3 := sample(k, Smoothed(c, w1, w2));
      if w3 != EndToken {
        DrawnStopsAtEnd(c, sample, k + 1, remaining - 1, w2, w3);
        var rest := Drawn(c, sample, k + 1, remaining - 1, w2, w3);
        assert forall i :: 1 <= i < |rest| + 1 ==> ([w3] + rest)[i] == rest[i - 1];
      }
    }
  }

  /** The generated words are exactly the drawn tokens, in order, with the sentinels left out. */
  lemma {:induction false} WalkIsDrawnWords(c: Counts, sample: Sampler, k: nat, remaining: nat, w1: string, w2: string)
    ensures Walk(c, sample, k, remaining, w1, w2) == NonSentinels(Drawn(c, sample, k, remaining, w1, w2))
    decreases remaining
  {
    if remaining > 0 && c.vocab != {} {
      var w3 := sample(k, Smoothed(c, w1, w2));
      if w3 == EndToken {
        assert NonSentinels([w3]) == [] + NonSentinels([]);
      } else {
        WalkIsDrawnWords(c, sample, k + 1, remaining - 1, w2, w3);
        var rest := Drawn(c, sample, k + 1, remaining - 1, w2, w3);
        assert ([w3] + rest)[1..] == rest;
      }
    }
  }

  /** At most one word per step. */
  lemma {:induction false} WalkLength(c: Counts, sample: Sampler, k: nat, remaining: nat, w1: string, w2: string)
    ensures |Walk(c, sample, k, remaining, w1, w2)| <= remaining
    decreases remaining
  {
    if remaining > 0 && c.vocab != {} {
      var w3 := sample(k, Smoothed(c, w1, w2));
      if w3 != EndToken {
        WalkLength(c, sample, k + 1, remaining - 1, w2, w3);
      }
    }
  }

  /** When `</s>` is drawn before the steps run out, fewer words than steps are emitted. */
  lemma {:induction false} WalkEndsEarly(c: Counts, sample: Sampler, k: nat, remaining: nat, w1: string, w2: string)
    requires EndToken in Drawn(c, sample, k, remaining, w1, w2)
    ensures |Walk(c, sample, k, remaining, w1, w2)| < remaining
    decreases remaining
  {
    var w3 := sample(k, Smoothed(c, w1, w2));
    if w3 != EndToken {
      assert EndToken in Drawn(c, sample, k + 1, remaining - 1, w2, w3);
      WalkEndsEarly(c, sample, k + 1, remaining - 1, w2, w3);
    }
  }

  /**
   * Smoothing gives every vocabulary word a chance at every step: a sampler
   * that always draws the same ordinary vocabulary word `w` emits `w` at
   * every step, so the output can be as long as the step budget allows.
   */
  lemma {:induction false} WalkConstant(c: Counts, sample: Sampler, w: string, k: nat, remaining: nat, w1: string, w2: string)
    requires w in c.vocab && w != StartToken && w != EndToken
    requires forall j: nat, d: map<string, real> :: sample(j, d) == w
    ensures var ws := Walk(c, sample, k, remaining, w1, w2);
      |ws| == remaining && forall i :: 0 <= i < |ws| ==> ws[i] == w
    decreases remaining
  {
    if remaining > 0 {
      assert sample(k, Smoothed(c, w1, w2)) == w;
      WalkConstant(c, sample, w, k + 1, remaining - 1, w2, w);
    }
  }

  /** Every generated word is a vocabulary word and neither sentinel. */
  lemma {:induction false} WalkWords(c: Counts, sample: Sampler, k: nat, remaining: nat, w1: string, w2: string)
    requires DrawsFromSupport(sample)
    ensures forall w :: w in Walk(c, sample, k, remaining, w1, w2) ==>
      w in c.vocab && w != StartToken && w != EndToken
    decreases remaining
  {
    if remaining > 0 && c.vocab != {} {
      var w3 := sample(k, Smoothed(c, w1, w2));
      assert w3 in c.vocab;
      if w3 != EndToken {
        var rest := Walk(c, sample, k + 1, remaining - 1, w2, w3);
        assert Walk(c, sample, k, remaining, w1, w2) == (if w3 == StartToken then [] else [w3]) + rest;
        WalkWords(c, sample, k + 1, remaining - 1, w2, w3);
      }
    }
  }

  /** A larger step budget only extends the generated words; it never changes the ones before. */
  lemma {:induction false} WalkPrefix(c: Counts, sample: Sampler, k: nat, remaining: nat, w1: string, w2: string)
    ensures var short := Walk(c, sample, k, remaining, w1, w2);
      short <= Walk(c, sample, k, remaining + 1, w1, w2)
    decreases remaining
  {
    if remaining > 0 && c.vocab != {} {
      var w3 := sample(k, Smoothed(c, w1, w2));
      if w3 != EndToken {
        WalkPrefix(c, sample, k + 1, remaining - 1, w2, w3);
      }
    }
  }

  /** Generation stops when the draw at step k is `</s>`. */
  lemma WalkStops(c: Counts, sample: Sampler, k: nat, remaining: nat, w1: string, w2: string,
                  done: seq<string>, full: seq<string>)
    requires remaining > 0
    requires sample(k, Smoothed(c, w1, w2)) == EndToken
    requires done + Walk(c, sample, k, remaining, w1, w2) == full
    ensures done == full
  {
    assert done + [] == done;
  }

  /**
   * One step of generation: with the context (w1, w2) at step k, a draw
   * `w3` other than `</s>` is emitted (unless it is `<s>`) in front of the
   * walk from the context (w2, w3).
   */
  lemma WalkAdvance(c: Counts, sample: Sampler, k: nat, remaining: nat, left: nat,
                    w1: string, w2: string, w3: string, done: seq<string>, done': seq<string>, full: seq<string>)
    requires remaining > 0 && left == remaining - 1 && c.vocab != {}
    requires w3 == sample(k, Smoothed(c, w1, w2)) && w3 != EndToken
    requires done' == if w3 == StartToken then done else done + [w3]
    requires done + Walk(c, sample, k, remaining, w1, w2) == full
    ensures done' + Walk(c, sample, k + 1, left, w2, w3) == full
  {
    var rest := Walk(c, sample, k + 1, left, w2, w3);
    if w3 != StartToken {
      assert done + ([w3] + rest) == (done + [w3]) + rest;
    }
  }

  /**
   * The text generated in at most n steps has at most n words, each a
   * vocabulary word and neither sentinel; with an empty vocabulary it is empty.
   */
  lemma GeneratedText(c: Counts, sample: Sampler, n: nat)
    requires DrawsFromSupport(sample)
    requires WordsOnly(c)
    ensures var text := Join(Walk(c, sample, 0, n, StartToken, StartToken));
      && (c.vocab == {} ==> text == "")
      && |Split(text)| <= n
      && forall w :: w in Split(text) ==> w in c.vocab && w != StartToken && w != EndToken
  {
    var ws := Walk(c, sample, 0, n, StartToken, StartToken);
    WalkLength(c, sample, 0, n, StartToken, StartToken);
    WalkWords(c, sample, 0, n, StartToken, StartToken);
    assert forall w :: w in ws ==> IsWord(w) by {
      forall w | w in ws ensures IsWord(w) {
        assert w in c.vocab;
      }
    }
    SplitJoin(ws);
  }

  // ---------------------------------------------------------------------
  // The model object

  class TrigramModel {
    var trigramCounts: map<Trigram, nat>
    var bigramCounts: map<Bigram, nat>
    var vocab: set<string>

    /** The state of this model as a value. */
    function Snapshot(): Counts
      reads this
    {
      Counts(trigramCounts, bigramCounts, vocab)
    }

    ghost predicate Valid()
      reads this
    {
      WellFormed(Snapshot())
    }

    /** `__init__`: empty counts and an empty vocabulary. */
    constructor ()
      ensures Valid()
      ensures Snapshot() == Untrained
    {
      trigramCounts := map[];
      bigramCounts := map[];
      vocab := {};
      new;
      UntrainedWellFormed();
    }

    /** `fit(text)`: count the windows of the padded tokens of `text`. */
    method Fit(text: string)
      requires Valid()
      modifies this
      ensures Valid()
      ensures Snapshot() == Train(old(Snapshot()), text)
    {
      ghost var before := Snapshot();
      var words := Tokenize(text);
      if |words| == 0 {
        assert Train(before, text) == before;
        return;
      }
      var padded := [StartToken] + words + [EndToken];
      assert padded == Pad(words);
      vocab := vocab + set w | w in padded;
      CountWindows(padded);
      assert Train(before, text) == Absorb(before, padded);
      TrainWellFormed(before, text);
    }

    /**
     * The counting loop of `fit`: each window of width 3 over `padded` adds
     * one to its trigram count and one to the count of the bigram that
     * starts it; the vocabulary is left alone.
     */
    method CountWindows(padded: seq<string>)
      modifies this
      ensures trigramCounts == AddAll(old(trigramCounts), Windows(padded))
      ensures bigramCounts == AddAll(old(bigramCounts), Contexts(Windows(padded)))
      ensures vocab == old(vocab)
    {
      ghost var ws := Windows(padded);
      ghost var bs := Contexts(ws);
      var trigrams, bigrams := trigramCounts, bigramCounts;
      var i := 0;
      while i + 2 < |padded|
        modifies {}
        invariant 0 <= i <= |ws|
        invariant trigrams == AddFirst(trigramCounts, ws, i)
        invariant bigrams == AddFirst(bigramCounts, bs, i)
      {
        var w1, w2, w3 := padded[i], padded[i + 1], padded[i + 2];
        var trigram := (w1, w2, w3);
        var bigram := (w1, w2);
        CountWindowStep(trigramCounts, bigramCounts, padded, i);
        trigrams := trigrams[trigram := Get(trigrams, trigram) + 1];
        bigrams := bigrams[bigram := Get(bigrams, bigram) + 1];
        i := i + 1;
      }
      assert i == |ws|;
      trigramCounts, bigramCounts := trigrams, bigrams;
    }

    /** `predict_next(w1, w2)`: the smoothed distribution, one vocabulary word at a time. */
    method PredictNext(w1: string, w2: string) returns (probs: map<string, real>)
      ensures probs == Smoothed(Snapshot(), w1, w2)
    {
      if vocab == {} {
        return map[];
      }
      var v := |vocab|;
      var bigram := (w1, w2);
      var c12 := Get(bigramCounts, bigram);
      probs := map[];
      var rest := vocab;
      while rest != {}
        invariant rest <= vocab
        invariant probs.Keys == vocab - rest
        invariant forall w :: w in probs ==>
          probs[w] == (Get(trigramCounts, (w1, w2, w)) + 1) as real / (c12 + v) as real
        decreases rest
      {
        var w3 :| w3 in rest;
        var trigram := (w1, w2, w3);
        var c123 := Get(trigramCounts, trigram);
        probs := probs[w3 := (c123 + 1) as real / (c12 + v) as real];
        rest := rest - {w3};
      }
    }

    /**
     * `generate(max_length)`: starting from the context (<s>, <s>), draw up
     * to `max_length` tokens, stop at `</s>`, leave out `<s>`, and join the
     * emitted words with single spaces.
     */
    method Generate(maxLength: int, sample: Sampler) returns (text: string)
      ensures text == Join(Walk(Snapshot(), sample, 0, if maxLength < 0 then 0 else maxLength, StartToken, StartToken))
    {
      ghost var c := Snapshot();
      ghost var n: nat := if maxLength < 0 then 0 else maxLength;
      if vocab == {} {
        return "";
      }
      var w1, w2 := StartToken, StartToken;
      var generated: seq<string> := [];
      ghost var full := Walk(c, sample, 0, n, StartToken, StartToken);
      var i := 0;
      while i < maxLength
        invariant 0 <= i <= n
        invariant generated + Walk(c, sample, i, n - i, w1, w2) == full
      {
        var probs := PredictNext(w1, w2);
        if |probs| == 0 {
          break;
        }
        var w3 := sample(i, probs);
        if w3 == EndToken {
          WalkStops(c, sample, i, n - i, w1, w2, generated, full);
          break;
        }
        ghost var done := generated;
        if w3 != StartToken {
          generated := generated + [w3];
        }
        WalkAdvance(c, sample, i, n - i, n - (i + 1), w1, w2, w3, done, generated, full);
        w1, w2 := w2, w3;
        i := i + 1;
      }
      assert generated == full;
      text := Join(generated);
    }
  }
}
