# Trigram language model and Gutenberg text cleaning

This project models two parts of `ml-assignment` in Dafny.

- **`TrigramModel`** is a word-trigram language model.
  - `fit(text)` lower-cases the text and splits it on whitespace. It pads the tokens with `<s>` and `</s>`, adds them to the vocabulary, and counts each window of three tokens. It also counts the bigram that opens each window.
  - `predict_next(w1, w2)` returns the add-one (Laplace) smoothed distribution `(C(w1,w2,w3) + 1) / (C(w1,w2) + V)` over the vocabulary.
  - `generate(max_length)` starts from the context `(<s>, <s>)`. It draws up to `max_length` tokens from that distribution, stops at `</s>` and leaves out `<s>`. It returns the drawn words joined with single spaces.
- **`strip_gutenberg_metadata`** removes a Project Gutenberg header and footer. It cuts the text after the first listed start marker that occurs, then cuts what remains before the first listed end marker that occurs. Finally it strips surrounding whitespace.

The model has six modules:

- `Text` (`text.dfy`): the string primitives the source relies on.
  - `str.lower`, `str.split`, `" ".join`;
  - `str.lstrip`, `str.rstrip`, `str.strip`;
  - `marker in text` together with the position of the first occurrence.
- `Counting` (`counting.dfy`): dictionaries of counts, read with `get(k, 0)` and incremented one key at a time.
- `Sums` (`sums.dfy`): the sum of the values of a finite map, for counts and for probabilities.
- `NGramModel` (`ngram_model.dfy`):
  - the state of a model as a value, `Counts`, with what `fit` does to it (`Train`), the smoothed distribution (`Smoothed`) and the words generation emits (`Walk`);
  - the class `TrigramModel`, whose methods update its fields as the Python methods do and are proved against those functions;
  - the invariant every reachable state keeps: each bigram count is the sum of the trigram counts that extend it, and every token of a counted key is in the vocabulary.
- `PrepareData` (`prepare_data.dfy`): `strip_gutenberg_metadata` as a method with its two marker loops, proved equal to a first-match function. The lemmas give the properties of that function.
- `Scenarios` (`scenarios.dfy`): the situations of the repository's tests, stated as lemmas.

Generation draws from a `Sampler`, a function given the step number and the distribution. Where a property depends on the draw, the only requirement is that the sampler returns a word of the non-empty distribution it is given (`DrawsFromSupport`). Probabilities are exact reals.

## Model

| member | source | states |
|---|---|---|
| Text.Lower | ml-assignment/src/ngram_model.py:26 | Lower-casing keeps the length and maps each character on its own. Whitespace stays whitespace, and no upper-case ASCII letter is left. |
| Text.Split | ml-assignment/src/ngram_model.py:26 | Every token `split()` returns is non-empty and free of whitespace. |
| Text.SplitEmpty | ml-assignment/src/ngram_model.py:26-29 | Splitting gives no token exactly when the text is all whitespace. Both directions are proved. |
| Text.SplitJoin | ml-assignment/src/ngram_model.py:117 | Joining tokens with single spaces and splitting again gives the same tokens back. |
| Text.Trim | ml-assignment/src/prepare_data.py:83 | The stripped text neither begins nor ends with whitespace. |
| Text.TrimStartCut | ml-assignment/src/prepare_data.py:83 | `lstrip` removes a leading run of whitespace and keeps the rest of the text unchanged. |
| Text.TrimEndCut | ml-assignment/src/prepare_data.py:83 | `rstrip` removes a trailing run of whitespace and keeps the rest of the text unchanged. |
| Text.TrimOffset | ml-assignment/src/prepare_data.py:83 | The stripped text is a contiguous slice of the input. |
| Text.TrimIsPiece | ml-assignment/src/prepare_data.py:83 | The stripped text is the part of the input between a leading and a trailing run of whitespace. |
| Text.FindFrom | ml-assignment/src/prepare_data.py:68-69 | The search returns the first index at or after the start where the marker occurs. It returns nothing when the marker does not occur there. |
| Text.Find | ml-assignment/src/prepare_data.py:68-69 | `marker in text` holds exactly when a first occurrence exists; no earlier index matches. |
| Counting.Inc | ml-assignment/src/ngram_model.py:43 | Incrementing adds one to the count of the key, adds the key if it was missing, and changes no other count. |
| Counting.AddAllCount | ml-assignment/src/ngram_model.py:38-47 | After counting a sequence of keys, each count has grown by that key's number of occurrences in the sequence. |
| Counting.AddAllKeys | ml-assignment/src/ngram_model.py:38-47 | After counting, the keys are the old keys plus those of the sequence. |
| Counting.AddAllTotal | ml-assignment/src/ngram_model.py:38-47 | Counting n keys adds exactly n to the sum of all counts. |
| Counting.AddAllMonotone | ml-assignment/src/ngram_model.py:43-47 | Counting never lowers a count. |
| Sums.MassOfSmoothedRow | ml-assignment/src/ngram_model.py:70-73 | When every probability is (count + 1) / d, the probabilities add up to (total + number of keys) / d. |
| NGramModel.Tokenize | ml-assignment/src/ngram_model.py:26 | Every token of `text.lower().split()` is non-empty and free of whitespace. |
| NGramModel.TokenizeEmpty | ml-assignment/src/ngram_model.py:26-29 | A text gives no token exactly when it is empty or all whitespace. |
| NGramModel.Windows | ml-assignment/src/ngram_model.py:38-39 | A sequence of n >= 3 tokens has n - 2 windows, and window i is tokens i, i + 1 and i + 2. This is proved by induction from the one-step-at-a-time definition. |
| NGramModel.Contexts | ml-assignment/src/ngram_model.py:39-46 | Each window gets one context, and context i is the first two tokens of window i. |
| NGramModel.Smoothed | ml-assignment/src/ngram_model.py:61-75 | The distribution has exactly the vocabulary as its keys, so it is empty exactly when the vocabulary is. |
| NGramModel.UntrainedWellFormed | ml-assignment/src/ngram_model.py:4-16 | A freshly constructed model satisfies the invariant. |
| NGramModel.SentinelsAreWords | ml-assignment/src/ngram_model.py:15-16 | `<s>` and `</s>` are distinct, non-empty and free of whitespace. |
| NGramModel.RowAfterInc | ml-assignment/src/ngram_model.py:43 | Counting a trigram adds one to its third word's entry in the row of its context. |
| NGramModel.MarginalStep | ml-assignment/src/ngram_model.py:43-47 | Counting one window and the bigram that opens it keeps each bigram count equal to the sum of the trigram counts that extend it. |
| NGramModel.MarginalAddAll | ml-assignment/src/ngram_model.py:38-47 | The counting loop as a whole keeps that invariant. |
| NGramModel.AbsorbClosed | ml-assignment/src/ngram_model.py:35-47 | After the padded tokens are added to the vocabulary and their windows are counted, every token of every counted key is in the vocabulary. |
| NGramModel.PaddedAreWords | ml-assignment/src/ngram_model.py:32 | The padded sequence consists only of whitespace-free, non-empty tokens. |
| NGramModel.TrainWellFormed | ml-assignment/src/ngram_model.py:18-47 | `fit` preserves the invariant: the bigram counts are the marginals of the trigram counts, the vocabulary is closed, and every vocabulary entry is a token. |
| NGramModel.TrainOnBlankText | ml-assignment/src/ngram_model.py:26-29 | `fit` on an empty or all-whitespace text changes neither count map nor the vocabulary. |
| NGramModel.TrainVocab | ml-assignment/src/ngram_model.py:32-35 | A `fit` with tokens adds exactly the lower-cased tokens, `<s>` and `</s>` to the vocabulary, and removes nothing. |
| NGramModel.PaddedWindows | ml-assignment/src/ngram_model.py:32-38 | Any n tokens, none included, are padded to n + 2 and give exactly n windows. |
| NGramModel.TrainCounts | ml-assignment/src/ngram_model.py:26-47 | For every text, blank ones included, `fit` adds to each trigram count the number of windows equal to that trigram. It adds to each bigram count the number of windows that bigram opens. |
| NGramModel.TrainMonotone | ml-assignment/src/ngram_model.py:35-47 | Training is cumulative: no count decreases and no word leaves the vocabulary. |
| NGramModel.TrainTotals | ml-assignment/src/ngram_model.py:38-47 | A `fit` of n tokens adds exactly n to the total of the trigram counts and n to the total of the bigram counts. |
| NGramModel.TrainTwiceCount | ml-assignment/src/ngram_model.py:43-47 | From a fresh model, the second `fit` of the same text adds as much to each count as the first. |
| NGramModel.CountWindowStep | ml-assignment/src/ngram_model.py:38-47 | Counting window i, and the bigram that opens it, extends the counts of the windows before it by one each. |
| NGramModel.TrainTwiceDoubles | ml-assignment/src/ngram_model.py:43-47 | Fitting a fresh model twice on the same text doubles every count and leaves the vocabulary as after the first fit. |
| NGramModel.TrigramAtMostBigram | ml-assignment/src/ngram_model.py:43-47 | Under the invariant, no trigram count exceeds the count of the bigram it starts with. |
| NGramModel.SmoothedBounds | ml-assignment/src/ngram_model.py:64-73 | On a model that keeps the invariant, every smoothed probability is greater than 0 and at most 1. |
| NGramModel.SmoothedUnseenContext | ml-assignment/src/ngram_model.py:64-73 | For a context with bigram count 0, every word gets probability 1/V. |
| NGramModel.VocabRow | ml-assignment/src/ngram_model.py:70-72 | Each context has one count per vocabulary word, zeros included. |
| NGramModel.SmoothedMass | ml-assignment/src/ngram_model.py:64-73 | The smoothed probabilities add up to (S + V) / (C(w1,w2) + V), where S sums the trigram counts of the vocabulary words after the context. |
| NGramModel.VocabRowTotal | ml-assignment/src/ngram_model.py:35-47 | With a closed vocabulary, S equals the sum of the observed trigram counts after the context. |
| NGramModel.SmoothedMassObserved | ml-assignment/src/ngram_model.py:64-73 | With a closed vocabulary, the probabilities add up to (R + V) / (C(w1,w2) + V), where R sums the observed trigram counts after the context. |
| NGramModel.SmoothedSumsToOne | ml-assignment/src/ngram_model.py:61-75 | On a model that keeps the invariant and has a vocabulary, the probabilities of `predict_next` add up to exactly 1. |
| NGramModel.NonSentinels | ml-assignment/src/ngram_model.py:110-112 | The kept words are drawn words other than `<s>` and `</s>`. |
| NGramModel.NonSentinelsKeeps | ml-assignment/src/ngram_model.py:110-112 | Every drawn token other than `<s>` and `</s>` is kept, and filtering never gives more tokens than it is given. |
| NGramModel.DrawnStopsAtEnd | ml-assignment/src/ngram_model.py:94-108 | `generate` draws at most one token per step, and only the last draw can be `</s>`. |
| NGramModel.WalkIsDrawnWords | ml-assignment/src/ngram_model.py:104-112 | The emitted words are exactly the drawn tokens, in order, without the sentinels. |
| NGramModel.WalkLength | ml-assignment/src/ngram_model.py:94-112 | At most `max_length` words are emitted. |
| NGramModel.WalkEndsEarly | ml-assignment/src/ngram_model.py:94-108 | When `</s>` is drawn within the budget, strictly fewer than `max_length` words are emitted. |
| NGramModel.WalkConstant | ml-assignment/src/ngram_model.py:94-115 | A sampler that always draws the same vocabulary word other than a sentinel emits that word at every step, so the output reaches the full budget. |
| NGramModel.WalkWords | ml-assignment/src/ngram_model.py:96-112 | Every emitted word is a vocabulary word and is neither `<s>` nor `</s>`. |
| NGramModel.WalkPrefix | ml-assignment/src/ngram_model.py:94 | A larger `max_length` only extends the emitted words, with the same draws. |
| NGramModel.WalkStops | ml-assignment/src/ngram_model.py:107-108 | Generation ends as soon as `</s>` is drawn. |
| NGramModel.WalkAdvance | ml-assignment/src/ngram_model.py:110-115 | A draw other than `</s>` is appended unless it is `<s>`, and the context shifts to (w2, w3). |
| NGramModel.GeneratedText | ml-assignment/src/ngram_model.py:87-117 | With an empty vocabulary the text is "". Otherwise it has at most `max_length` words, each a vocabulary word and neither sentinel. |
| NGramModel.TrigramModel.constructor | ml-assignment/src/ngram_model.py:4-16 | `__init__` leaves both count maps and the vocabulary empty, a state that keeps the invariant. |
| NGramModel.TrigramModel.Fit | ml-assignment/src/ngram_model.py:18-47 | `fit` moves the state to `Train(old state, text)` and keeps the invariant. |
| NGramModel.TrigramModel.CountWindows | ml-assignment/src/ngram_model.py:37-47 | The counting loop adds every window of the padded tokens to the trigram counts and the bigram that opens it to the bigram counts. It leaves the vocabulary alone. |
| NGramModel.TrigramModel.PredictNext | ml-assignment/src/ngram_model.py:49-75 | `predict_next` returns the smoothed distribution of the current state and modifies nothing. |
| NGramModel.TrigramModel.Generate | ml-assignment/src/ngram_model.py:77-117 | `generate` returns the emitted words of `Walk` from (`<s>`, `<s>`) joined with spaces. A negative `max_length` means no step. |
| PrepareData.AfterFirstMarker | ml-assignment/src/prepare_data.py:67-70 | The header step returns a suffix of its input. |
| PrepareData.BeforeFirstMarker | ml-assignment/src/prepare_data.py:78-81 | The footer step returns a prefix of its input. |
| PrepareData.AfterFirstMarkerFrom | ml-assignment/src/prepare_data.py:67-70 | The header loop tries `start_markers[i]` before the markers after it, and cuts at its first occurrence. |
| PrepareData.BeforeFirstMarkerFrom | ml-assignment/src/prepare_data.py:78-81 | The footer loop tries `end_markers[i]` before the markers after it, and cuts at its first occurrence. |
| PrepareData.HeaderCutAtFirstListedMarker | ml-assignment/src/prepare_data.py:61-70 | When start marker k is the first listed marker that occurs, the header step keeps exactly the text after its first occurrence. Later markers are not consulted. |
| PrepareData.FooterCutAtFirstListedMarker | ml-assignment/src/prepare_data.py:73-81 | When end marker k is the first listed marker that occurs, the footer step keeps exactly the text before its first occurrence. |
| PrepareData.NoMarkerNoCut | ml-assignment/src/prepare_data.py:67-81 | When no listed marker occurs, both steps leave the text unchanged. |
| PrepareData.StrippedWithoutMarkers | ml-assignment/src/prepare_data.py:67-83 | With no marker anywhere in the input, the result is the input stripped of surrounding whitespace. |
| PrepareData.StripWithIsSubstring | ml-assignment/src/prepare_data.py:67-83 | For any marker lists, the cleaned text is a contiguous substring of the input. |
| PrepareData.StrippedIsTrimmedSubstring | ml-assignment/src/prepare_data.py:50-83 | The result is a contiguous substring of the input and neither begins nor ends with whitespace. |
| PrepareData.NoMarkerBeforeFirstOccurrence | ml-assignment/src/prepare_data.py:80 | A piece cut out before a marker's first occurrence does not contain the marker. |
| PrepareData.CutEndMarkerAbsent | ml-assignment/src/prepare_data.py:78-83 | The non-empty end marker the footer step cuts at does not occur in the result. |
| PrepareData.AppliedEndMarkerAbsent | ml-assignment/src/prepare_data.py:73-83 | The end marker `strip_gutenberg_metadata` cuts at does not occur anywhere in its result. |
| PrepareData.StripGutenbergMetadata | ml-assignment/src/prepare_data.py:50-83 | The two marker loops, with their `break` on the first match, followed by `strip()`, compute `Stripped(text)`. |
| Scenarios.ShortTextTokens | ml-assignment/tests/test_ngram.py:27-30 | "I am." tokenizes to "i" and "am.". |
| Scenarios.ShortTextCounts | ml-assignment/tests/test_ngram.py:27-30 | Fitting a fresh model on "I am." counts two trigrams and two bigrams. |
| Scenarios.EmptyText | ml-assignment/tests/test_ngram.py:16-24 | Fitting on "" leaves the model empty, and generation then returns "" whatever the draws. |
| Scenarios.TrainedHasEnd | ml-assignment/src/ngram_model.py:32-35 | A `fit` with tokens puts `</s>` into the vocabulary. |
| Scenarios.GenerationMayBeEmpty | ml-assignment/tests/test_ngram.py:5-13 | After training, `</s>` has positive probability after (`<s>`, `<s>`). A first draw of `</s>` makes `generate` return "", so the test's non-empty expectation depends on the draw. |
| Scenarios.ShortTextLongOutput | ml-assignment/tests/test_ngram.py:27-35 | After `fit("I am.")`, generation is not limited to one or two tokens. A sampler that always draws the vocabulary word "i" gives three words in three steps. |

## Left out

- `download_gutenberg_book` and `main` in ml-assignment/src/prepare_data.py are left out because they are network access, file writes and console I/O.
- ml-assignment/src/generate.py and ml-assignment/src/generate_text.py are not part of this model: they are command-line glue around the class.
- Floating-point division in `predict_next` is modelled as exact real division, so the sum-to-one property is exact rather than approximate.
- `random.choices` is replaced by a `Sampler` passed to `Generate`. The only assumption about it is that it returns a word of the distribution. The weighting itself is not modelled.
- `str.lower`, `str.split` and `str.strip` are modelled on ASCII. Lower-casing maps only A-Z, and whitespace is the characters 9-13 and 28-32 (what `str.isspace` accepts below 128). Unicode case mappings and whitespace are not modelled.
- Iteration order of Python sets and dictionaries is not modelled. `PredictNext` picks the vocabulary words in an arbitrary order, and the result does not depend on it.
- The `Sampler` sees the distribution as a map. The Python code passes parallel key and weight lists in dictionary order; that order is not modelled.
- NGramModel.TrigramModel.Generate: its `ensures` ties the result to `Walk`. The length, vocabulary and sentinel properties are proved about `Walk` in `GeneratedText`. They need the sampler to draw from the support and the vocabulary to hold only tokens, which `Valid()` guarantees.
- The `fit` loop over window indices is the separate method `CountWindows`, called after the vocabulary has grown, as at ml-assignment/src/ngram_model.py:35. It counts into local copies of the two maps and stores them in the fields once the loop ends. Nothing reads the fields in between, so the resulting state is the same as that of the per-iteration update at ml-assignment/src/ngram_model.py:43 and :47. Aliasing of the dictionaries by other holders is not modelled.
- Python's `max_length` default of 50 is not modelled; callers pass the bound explicitly.
