# HMM part-of-speech tagger: estimator and Viterbi decoder

The repository is a hidden-Markov-model part-of-speech tagger in two scripts.

`train.py` reads a corpus with one `word<TAB>tag` line per token and a blank line after each sentence. It counts:
- emissions: how often each tag emits each lower-cased word;
- transitions: how often each tag follows each previous tag, with the pseudo-tags `Begin_Sent` before a sentence and `End_Sent` after it.

`freq_to_prob` then divides every row by its total, so that each row becomes a probability distribution.

`viterbi.py` loads the two tables. For each sentence, `get_tags` finds the most probable tag sequence with the Viterbi algorithm:
- a lattice of best path scores with backpointers;
- a fallback probability of `1e-7` for every unseen pair;
- ties broken by Python's `(prob, tag)` tuple comparison;
- a trace-back from the best final tag.

The model has these modules:

- `Tags`: the two reserved tag names.
- `Text`: Python's string order and ASCII lower-casing.
- `Sums`: the total of a map's values.
- `Wrappers`: `Option`.
- `Train`: the estimator.
  - Its module-level dictionaries are the fields of the class `Estimator`.
  - `GetFrequencies`, `FreqToProb` and `Train` are methods that update those fields.
  - Each method is proved against a specification function: the increment `Bump`, the fold `Run` of one line `Step`, and the normalization `NormalizeTable`.
- `TrainProperties`: what training guarantees.
  - Counts and totals.
  - Normalized rows are distributions.
  - The reserved tags appear only where the decoder expects them.
  - Trained tables satisfy the decoder's precondition when the corpus ends with a blank line, has at least one tagged word and uses no reserved tag name.
- `Viterbi`: the decoder.
  - The ghost functions `Prob`, `Back`, `Trace` and `Decode` define the lattice cell by cell.
  - The method `GetTags` keeps the loops of `get_tags`: initialization, recursion, termination and trace-back. It is proved to return `Decode`.
- `ViterbiProperties`: what the decoder guarantees.
  - Shape of the output.
  - Each cell is the maximum over predecessors.
  - The result is optimal against an independent path score `PathScore`.
  - Case insensitivity and the one-word case.

Four behaviours of the code that a reader might not expect, all modelled as written:

- **Boundary emission.** At each sentence boundary the trainer also records an emission of the word `None` under `End_Sent` (train.py:78-79). `End_Sent` is therefore a key of the emission table and a candidate tag of the decoder.
- **Final tag.** The final `max` ranges over all tags, `End_Sent` included (viterbi.py:146-148). So `End_Sent` can be the last tag output. It is never output earlier, since it is excluded as a predecessor (viterbi.py:136).
- **Ties.** Ties are not decided by iteration order. `max` over `(prob, tag)` tuples picks the greatest tag name among equal scores.
- **Empty corpus.** A corpus with no sentences is not rejected; it yields empty tables.

## Model

| member | source | states |
|---|---|---|
| `Text.StrLtTotal` | viterbi.py:131-137 | Python's order on two different tag names always ranks one below the other, so the `(prob, tag)` comparison of `max` never ties |
| `Text.StrLtTransitive` | viterbi.py:131-137 | Python's string order is transitive, so the greatest `(prob, tag)` tuple is well defined |
| `Text.LowerIdempotent` | train.py:83 | a lower-cased word is unchanged by lower-casing again, so a stored vocabulary word is its own key |
| `Viterbi.BestExists` | viterbi.py:131-137 | a non-empty candidate set always has a candidate whose `(score, tag)` tuple is above every other's |
| `Viterbi.BestUnique` | viterbi.py:146-148 | at most one candidate is above all others: the result of `max` does not depend on the order the dictionary yields the tags |
| `Viterbi.Best` | viterbi.py:131-137 | the tag returned beats every other candidate under tuple order: higher score, or equal score and a greater name |
| `Viterbi.Back` | viterbi.py:124-142 | the backpointer at position 0 is `Begin_Sent`; later ones are always a tag other than `End_Sent` |
| `Viterbi.Trace` | viterbi.py:155-158 | the trace-back from position `j` has `j + 1` tags and ends in the tag it starts from |
| `Viterbi.TraceFollows` | viterbi.py:155-158 | in a trace every tag is a tag of the table, and each tag is the backpointer of the tag after it |
| `Viterbi.FinalTag` | viterbi.py:146-148 | the final tag beats every other tag on last-column probability, ties going to the greater name |
| `Viterbi.Decode` | viterbi.py:89-160 | the decoder returns exactly one tag per input word |
| `Viterbi.BestIsBack` | viterbi.py:131-142 | the tag `max` picks from the list of offers is the lattice's backpointer, and its score is the cell's probability |
| `Viterbi.BestIsFinal` | viterbi.py:146-148 | the tag `max` picks from the last column is the final tag |
| `Viterbi.GetTags` | viterbi.py:89-160 | on every input the decoder can process without an exception, the loop implementation returns exactly `Decode` of the words |
| `Viterbi.Initialize` | viterbi.py:118-125 | after initialization, every tag has a row holding its position-0 probability (emission of the first word times the `Begin_Sent` transition) and the backpointer `Begin_Sent` |
| `Viterbi.Recur` | viterbi.py:128-142 | one pass of the recursion extends every tag's row by the correct probability and backpointer for position `j` |
| `Viterbi.MaxPrev` | viterbi.py:131-137 | the maximum over predecessors returns the cell's probability and its backpointer |
| `Viterbi.Termination` | viterbi.py:146-148 | the argmax over the last column is the final tag |
| `Viterbi.TraceBack` | viterbi.py:155-158 | following the stored backpointers from the final tag yields the trace from the last position |
| `ViterbiProperties.CellIsMax` | viterbi.py:128-142 | each later cell's probability is the offer of its backpointer, no predecessor offers more, and among equal offers the backpointer has the greatest name |
| `ViterbiProperties.FinalIsMax` | viterbi.py:146-148 | no tag has a higher last-column probability than the final tag; among equals the final tag has the greatest name |
| `ViterbiProperties.TraceValid` | viterbi.py:155-158 | every trace uses only tags of the table and has `End_Sent` at most in its last place |
| `ViterbiProperties.TraceScore` | viterbi.py:118-142 | the independently defined score of the traced path equals the lattice probability of the cell it ends in |
| `ViterbiProperties.PathAtMost` | viterbi.py:128-142 | with non-negative tables, no valid path ending in tag `t` at position `j` scores more than the cell `viterbi[t][j]` |
| `ViterbiProperties.FinalAtMost` | viterbi.py:146-148 | with non-negative tables, no valid full-length path scores more than the best last-column probability |
| `ViterbiProperties.FinalOptimal` | viterbi.py:146-158 | the trace from the final tag is valid and scores the best final probability, which no valid path exceeds |
| `ViterbiProperties.DecodeValid` | viterbi.py:155-160 | the output has one tag per word; every tag is a key of the emission table, and `End_Sent` is at most the last tag |
| `ViterbiProperties.DecodeNoBeginSent` | viterbi.py:105-108 | if `Begin_Sent` is not a tag of the emission table, it never appears in the output |
| `ViterbiProperties.DecodeOptimal` | viterbi.py:89-160 | the returned sequence is valid, and no other valid tag sequence for the same words has a higher path score |
| `ViterbiProperties.DecodeCaseInsensitive` | viterbi.py:114 | decoding lower-cased words gives the same tags as decoding the originals |
| `ViterbiProperties.OneWord` | viterbi.py:118-148 | for a one-word sentence the answer is the tag with the best start score, emission times `Begin_Sent` transition |
| `Train.BumpEffect` | train.py:23-41 | one increment adds the row and the key if missing and raises that one count by exactly 1; every other entry and row is unchanged |
| `Train.BumpPositive` | train.py:23-41 | incrementing keeps every stored count positive |
| `Train.Step` | train.py:75-88 | one corpus line keeps both tables positive |
| `Train.Run` | train.py:74-88 | the whole line loop keeps both tables positive |
| `Train.NormalizeRow` | train.py:54-55 | normalizing a row keeps its set of keys |
| `Train.NormalizeTable` | train.py:52-60 | normalizing a table keeps its set of rows |
| `Train.RowSum` | train.py:53 | the loop total of a row is the sum of all its values |
| `Train.DivideRow` | train.py:54-55 | the in-place loop divides every entry of the row by the total, and touches nothing else |
| `Train.NormalizeRows` | train.py:52-55 | the loop over rows leaves every row divided by its own total (empty rows unchanged) |
| `Train.Estimator.constructor` | train.py:100-102 | the estimator starts with empty tables and an empty vocabulary |
| `Train.Estimator.GetFrequencies` | train.py:11-41 | the emission count of `(tag, word)` is incremented; the transition count of `(prev, tag)` is incremented unless `prev` is None; the vocabulary is unchanged |
| `Train.Estimator.FreqToProb` | train.py:43-60 | both tables are replaced by their row-normalized versions; the vocabulary is unchanged |
| `Train.Estimator.Train` | train.py:72-90 | after the line loop and `freq_to_prob`, the tables are the normalized counts of the corpus and the vocabulary is that of the line fold |
| `TrainProperties.BumpCount` | train.py:23-41 | incrementing keeps every stored count a whole number of at least 1 |
| `TrainProperties.BumpTotal` | train.py:23-41 | each increment adds exactly 1 to the total of the table |
| `TrainProperties.StepCounts` | train.py:77-88 | each line adds exactly one emission and one transition, whether it is a boundary or a word |
| `TrainProperties.StepRecords` | train.py:77-88 | a boundary counts `End_Sent`/None and `previous -> End_Sent`, then resets the previous tag to `Begin_Sent`; a word line counts its lower-cased word under its tag and `previous -> tag`, adds the word to the vocabulary and makes the tag the previous one |
| `TrainProperties.RunCounts` | train.py:74-88 | over a corpus, each table gains one count per line and keeps whole counts |
| `TrainProperties.TrainedTotals` | train.py:72-88 | trained from nothing, the emission total and the transition total both equal the number of lines |
| `TrainProperties.NormalizeRowSpec` | train.py:52-55 | a normalized non-empty row keeps its keys; each entry is its count over the row total, lies in (0, 1], and the entries sum to 1 |
| `TrainProperties.NormalizeTableSpec` | train.py:52-60 | normalizing a table of non-empty positive rows makes every row a probability distribution over its own keys |
| `TrainProperties.BumpNoEmptyRow` | train.py:23-41 | counting never leaves an empty row |
| `TrainProperties.RunNoEmptyRow` | train.py:74-88 | the line loop never leaves an empty row |
| `TrainProperties.TrainedDistributions` | train.py:72-90 | after training, every row of both tables sums to 1 and every entry lies in (0, 1] |
| `TrainProperties.BumpEmissionsReserved` | train.py:23-29 | counting one line's emission keeps the word None only under `End_Sent` and every other word lower-case |
| `TrainProperties.BumpTransitionsReserved` | train.py:35-41 | counting one line's transition never creates an `End_Sent` row or a transition into `Begin_Sent` |
| `TrainProperties.StepReserved` | train.py:77-88 | one line of a corpus whose tags are not reserved names keeps the reserved tags in their places |
| `TrainProperties.RunReserved` | train.py:74-88 | the whole line loop keeps the reserved tags in their places |
| `TrainProperties.TrainedReserved` | train.py:72-88 | after training: no `Begin_Sent` emission row, None only under `End_Sent`, no `End_Sent` transition row, no transition into `Begin_Sent`, and a lower-case vocabulary |
| `TrainProperties.StepLinked` | train.py:77-88 | after each line, the old previous tag has a transition row, a word's tag has an emission row, and rows are never lost |
| `TrainProperties.RunLinked` | train.py:72-88 | every tag counted in the corpus has an emission row, and every emission tag other than `End_Sent` and the pending previous tag has a transition row |
| `TrainProperties.TrainedDecodable` | train.py:72-90 | a corpus that ends with a blank line, has at least one tagged word and uses no reserved tag yields tables on which `get_tags` runs for every non-empty sentence |

## Left out

- Script I/O is outside the model: `sys.argv`, opening files, `FileNotFoundError`, `print`, and JSON dump and load. The corpus arrives as a sequence of `Line` values; the decoder's tables arrive as parameters.
- `tag` and `get_sent` (viterbi.py:33-60) are not modelled. They read and write files; the model starts from one sentence's word list.
- Line splitting (`strip().split('\t')`) is not modelled. A line with fewer than two fields is a `Boundary`; otherwise only the first two fields, word and tag, are used. This is why a one-field line counts as a boundary.
- Floating point is modelled as exact real arithmetic: no rounding and no underflow of long products.
- `Text.Lower`: lower-cases only ASCII letters; Python's full Unicode case mapping is not captured.
- How the trained tables become `likelihood.json` and `transition_table.json` is not modelled: train.py only prints them. The decoder's tables have string keys, while the trainer's emission table also holds the word None at `End_Sent`. `TrainProperties.TrainedDecodable` therefore relates only the key sets of the two emission tables.
- `Viterbi.GetTags`: `get_tags` raises an exception in four cases: a `KeyError` on a missing transition row, a `ValueError` from `max` over no predecessors, a `ValueError` from the final `max` when the emission table is empty, and an `IndexError` on an empty sentence. These are not modelled as error results. Instead the precondition `Decodable` excludes them. `TrainProperties.TrainedDecodable` proves that trained tables meet it only for a corpus that ends with a blank line, contains at least one tagged word and uses no reserved tag name; for other corpora the model promises nothing about decodability.
- `Train.Estimator.FreqToProb`: has the precondition that every stored count is positive. This stands in for the `ZeroDivisionError` a zero-total non-empty row would cause, which training never produces (`Train.Run` keeps counts positive).
- Dictionary iteration order is modelled by arbitrary picks from the key set. For the decoder the result is proved independent of that order (`Viterbi.BestUnique`); for the estimator each row is processed independently.
- The inner dictionaries `viterbi[tag]` and `backpointers[tag]`, keyed `0..j`, are sequences. The module-level dictionaries of train.py are fields of one `Estimator`; aliasing between them is not modelled.
- The corpus should end with a blank line. If it does not, the last sentence's final tag may have no transition row. The decoder would then raise a `KeyError` when that tag is a predecessor, so `TrainProperties.TrainedDecodable` requires a final boundary line.
