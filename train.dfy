/**
 The parameter estimator of the tagger (train.py). It reads a tagged
 corpus line by line, counts (tag, word) emissions and (previous tag,
 tag) transitions in two nested tables, and then turns every row into
 probabilities by dividing each count by the row total.

 The estimator's module-level state (`likelihoods`, `transition_table`,
 `vocabulary`) is the class `Estimator`; the line loop of `train` is
 specified by the fold `Run` over `Step`, and the normalization by
 `NormalizeTable`.
 */
module Train {
  import opened Wrappers
  import opened Tags
  import opened Text
  import opened Sums

  /** A corpus line after `line.strip().split('\t')`: fewer than two
      fields is a sentence boundary, otherwise the first two fields are
      the word and its tag. */
  datatype Line = Boundary | Pair(word: string, tag: string)

  /** A two-level table of counts (later of probabilities). */
  type Nested<V> = map<string, map<V, real>>

  /** The count stored for `(row, key)`, an absent pair counting 0. */
  function Count<V>(table: Nested<V>, row: string, key: V): real
  {
    if row in table && key in table[row] then table[row][key] else 0.0
  }

  /** Every stored value is positive. */
  ghost predicate Positive<V>(table: Nested<V>)
  {
    forall r :: r in table ==> AllPositive(table[r])
  }

  /** The increment of `get_frequencies` (train.py:23-29 and 35-41):
      `table[row][key]` rises by one, the row and the entry being created
      with count 1 when absent; nothing else changes. */
  function Bump<V>(table: Nested<V>, row: string, key: V): Nested<V>
  {
    if row in table then
      if key in table[row] then table[row := table[row][key := table[row][key] + 1.0]]
      else table[row := table[row][key := 1.0]]
    else table[row := map[key := 1.0]]
  }

  /** What `Bump` changes: the row and the key are added if absent, the
      count of `(row, key)` rises by exactly one, and every other row and
      every other entry of the row keep their values. */
  lemma {:induction false} BumpEffect<V>(table: Nested<V>, row: string, key: V)
    ensures Bump(table, row, key).Keys == table.Keys + {row}
    ensures Bump(table, row, key)[row].Keys == (if row in table then table[row].Keys else {}) + {key}
    ensures Count(Bump(table, row, key), row, key) == Count(table, row, key) + 1.0
    ensures forall k :: row in table && k in table[row] && k != key ==> Bump(table, row, key)[row][k] == table[row][k]
    ensures forall q :: q in table && q != row ==> Bump(table, row, key)[q] == table[q]
  {
  }

  /** Counting keeps every stored value positive. */
  lemma {:induction false} BumpPositive<V>(table: Nested<V>, row: string, key: V)
    requires Positive(table)
    ensures Positive(Bump(table, row, key))
  {
    var r := Bump(table, row, key);
    BumpEffect(table, row, key);
    forall q | q in r
      ensures AllPositive(r[q])
    {
      if q == row {
        forall k | k in r[row]
          ensures r[row][k] > 0.0
        {
          if k != key {
            assert AllPositive(table[row]);
          }
        }
      } else {
        assert AllPositive(table[q]);
      }
    }
  }

  lemma {:induction false} BumpPositiveIf<V>(table: Nested<V>, row: string, key: V)
    ensures Positive(table) ==> Positive(Bump(table, row, key))
  {
    if Positive(table) {
      BumpPositive(table, row, key);
    }
  }

  /** The state of the `train` loop: the two tables, the vocabulary and
      `previous_tag`. */
  datatype Tally = Tally(likelihoods: Nested<Option<string>>, transitions: Nested<string>,
                         vocabulary: set<string>, previous: string)

  /** The state `train` starts from: empty tables, `previous_tag =
      "Begin_Sent"` (train.py:72, 100-102). */
  const Empty: Tally := Tally(map[], map[], {}, BeginSent)

  /** `curr_tag` for a line: `End_Sent` at a boundary (train.py:78, 85). */
  function TagOf(line: Line): string
  {
    if line.Boundary? then EndSent else line.tag
  }

  /** The word counted for a line: None at a boundary, else the
      lower-cased word (train.py:79, 83). */
  function WordOf(line: Line): Option<string>
  {
    if line.Boundary? then None else Some(Lower(line.word))
  }

  /** One iteration of the line loop (train.py:75-88). A boundary counts
      the emission `End_Sent`/None and the transition `previous ->
      End_Sent`, and resets `previous_tag`; a pair counts the lower-cased
      word under its tag and the transition `previous -> tag`, and adds
      the word to the vocabulary. */
  function Step(s: Tally, line: Line): (r: Tally)
    ensures Positive(s.likelihoods) && Positive(s.transitions) ==> Positive(r.likelihoods) && Positive(r.transitions)
  {
    var tag := TagOf(line);
    BumpPositiveIf(s.likelihoods, tag, WordOf(line));
    BumpPositiveIf(s.transitions, s.previous, tag);
    Tally(Bump(s.likelihoods, tag, WordOf(line)), Bump(s.transitions, s.previous, tag),
          if line.Boundary? then s.vocabulary else s.vocabulary + {Lower(line.word)},
          if line.Boundary? then BeginSent else tag)
  }

  /** The line loop over a whole corpus. */
  function Run(s: Tally, lines: seq<Line>): (r: Tally)
    ensures Positive(s.likelihoods) && Positive(s.transitions) ==> Positive(r.likelihoods) && Positive(r.transitions)
    decreases |lines|
  {
    if |lines| == 0 then s else Step(Run(s, lines[..|lines| - 1]), lines[|lines| - 1])
  }

  /** A row divided by its total; an empty row stays empty (its loop
      body never runs, so no division by zero happens). */
  ghost function NormalizeRow<V>(row: map<V, real>): (r: map<V, real>)
    requires AllPositive(row)
    ensures r.Keys == row.Keys
  {
    if |row| == 0 then row
    else
      SumPositive(row);
      Scale(row, Sum(row))
  }

  /** What `freq_to_prob` makes of one table (train.py:52-60). */
  ghost function NormalizeTable<V>(table: Nested<V>): (r: Nested<V>)
    requires Positive(table)
    ensures r.Keys == table.Keys
  {
    map t | t in table :: NormalizeRow(table[t])
  }

  /** The entries of `row` whose keys are in `keys`. */
  ghost function Part<V>(row: map<V, real>, keys: set<V>): map<V, real>
  {
    map k | k in keys && k in row :: row[k]
  }

  lemma {:induction false} PartAll<V>(row: map<V, real>)
    ensures Part(row, row.Keys) == row && Part(row, {}) == map[]
  {
  }

  lemma {:induction false} PartRemove<V>(row: map<V, real>, keys: set<V>, k: V)
    requires k in keys && k in row
    ensures k in Part(row, keys) && Part(row, keys)[k] == row[k]
    ensures Part(row, keys) - {k} == Part(row, keys - {k})
  {
  }

  /** `sum(row.values())` (train.py:53, 58). */
  method RowSum<V>(row: map<V, real>) returns (total: real)
    ensures total == Sum(row)
  {
    total := 0.0;
    var todo := row.Keys;
    PartAll(row);
    while todo != {}
      invariant todo <= row.Keys
      invariant total + Sum(Part(row, todo)) == Sum(row)
      decreases todo
    {
      var k :| k in todo;
      PartRemove(row, todo, k);
      SumRemove(Part(row, todo), k);
      total := total + row[k];
      todo := todo - {k};
    }
  }

  /** The inner loop of `freq_to_prob`: every entry of one row divided
      by `total`. */
  method DivideRow<V>(row: map<V, real>, total: real) returns (r: map<V, real>)
    requires total != 0.0
    ensures r == Scale(row, total)
  {
    r := row;
    var todo := row.Keys;
    while todo != {}
      invariant todo <= row.Keys && r.Keys == row.Keys
      invariant forall k :: k in row ==> r[k] == (if k in todo then row[k] else row[k] / total)
      decreases todo
    {
      var k :| k in todo;
      r := r[k := r[k] / total];
      todo := todo - {k};
    }
  }

  /** One of the two loops of `freq_to_prob`: every row of `table`
      divided by its own total. */
  method NormalizeRows<V>(table: Nested<V>) returns (result: Nested<V>)
    requires Positive(table)
    ensures result == NormalizeTable(table)
  {
    result := table;
    var todo := table.Keys;
    while todo != {}
      invariant todo <= table.Keys && result.Keys == table.Keys
      invariant forall t :: t in table ==> result[t] == (if t in todo then table[t] else NormalizeRow(table[t]))
      decreases todo
    {
      var tag :| tag in todo;
      assert AllPositive(table[tag]);
      var total := RowSum(result[tag]);
      if |result[tag]| > 0 {
        SumPositive(result[tag]);
        var row := DivideRow(result[tag], total);
        result := result[tag := row];
      }
      todo := todo - {tag};
    }
  }

  /** The module-level state of train.py and the functions that update it. */
  class Estimator {
    /** `likelihoods[tag][word]`: emission counts, then P(word | tag); the
        word `None` is stored for the `End_Sent` boundary emission. */
    var likelihoods: Nested<Option<string>>
    /** `transition_table[prev][tag]`: transition counts, then P(tag | prev). */
    var transitionTable: Nested<string>
    /** The lower-cased words seen. */
    var vocabulary: set<string>

    ghost predicate Valid()
      reads this
    {
      Positive(likelihoods) && Positive(transitionTable)
    }

    ghost function State(previous: string): Tally
      reads this
    {
      Tally(likelihoods, transitionTable, vocabulary, previous)
    }

    /** train.py:100-102. */
    constructor()
      ensures Valid()
      ensures likelihoods == map[] && transitionTable == map[] && vocabulary == {}
    {
      likelihoods, transitionTable, vocabulary := map[], map[], {};
    }

    /** `get_frequencies(curr_tag, prev_tag, word)` (train.py:11-41). */
    method GetFrequencies(currTag: string, prevTag: Option<string>, word: Option<string>)
      requires Valid()
      modifies this
      ensures Valid()
      ensures likelihoods == Bump(old(likelihoods), currTag, word)
      ensures transitionTable == if prevTag.None? then old(transitionTable) else Bump(old(transitionTable), prevTag.value, currTag)
      ensures vocabulary == old(vocabulary)
    {
      BumpPositive(likelihoods, currTag, word);
      if currTag in likelihoods {
        if word in likelihoods[currTag] {
          likelihoods := likelihoods[currTag := likelihoods[currTag][word := likelihoods[currTag][word] + 1.0]];
        } else {
          likelihoods := likelihoods[currTag := likelihoods[currTag][word := 1.0]];
        }
      } else {
        likelihoods := likelihoods[currTag := map[word := 1.0]];
      }

      if prevTag.None? {
        return;
      }

      var prev := prevTag.value;
      BumpPositive(transitionTable, prev, currTag);
      if prev in transitionTable {
        if currTag in transitionTable[prev] {
          transitionTable := transitionTable[prev := transitionTable[prev][currTag := transitionTable[prev][currTag] + 1.0]];
        } else {
          transitionTable := transitionTable[prev := transitionTable[prev][currTag := 1.0]];
        }
      } else {
        transitionTable := transitionTable[prev := map[currTag := 1.0]];
      }
    }

    /** `freq_to_prob()` (train.py:43-60): both tables divided row by row. */
    method FreqToProb()
      requires Valid()
      modifies this
      ensures likelihoods == NormalizeTable(old(likelihoods))
      ensures transitionTable == NormalizeTable(old(transitionTable))
      ensures vocabulary == old(vocabulary)
    {
      likelihoods := NormalizeRows(likelihoods);
      transitionTable := NormalizeRows(transitionTable);
    }

    /** The line loop of `train` followed by `freq_to_prob` (train.py:72-90),
        over the lines of the corpus. */
    method Train(lines: seq<Line>)
      requires Valid()
      modifies this
      ensures var t := Run(old(State(BeginSent)), lines);
        && likelihoods == NormalizeTable(t.likelihoods)
        && transitionTable == NormalizeTable(t.transitions)
        && vocabulary == t.vocabulary
    {
      var previousTag := BeginSent;
      ghost var start := State(BeginSent);
      for i := 0 to |lines|
        invariant Valid()
        invariant State(previousTag) == Run(start, lines[..i])
      {
        assert lines[..i + 1][..i] == lines[..i];
        match lines[i]
        case Boundary =>
          GetFrequencies(EndSent, Some(previousTag), None);
          previousTag := BeginSent;
        case Pair(w, tag) =>
          var word := Lower(w);
          vocabulary := vocabulary + {word};
          GetFrequencies(tag, Some(previousTag), Some(word));
          previousTag := tag;
      }
      assert lines[..|lines|] == lines;
      FreqToProb();
    }
  }
}
