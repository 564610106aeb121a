/**
 What the estimator promises, proved about `Bump`, the fold `Run` and
 `NormalizeTable` (and so about `Estimator.GetFrequencies`, `Estimator.Train`
 and `Estimator.FreqToProb`, whose contracts are stated with them):
 counts are whole numbers of at least one, both tables count one event
 per line, normalized rows are distributions, the reserved tags sit only
 where the decoder expects them, and a trained table pair meets the
 decoder's precondition.
 */
module TrainProperties {
  import opened Wrappers
  import opened Tags
  import opened Text
  import opened Sums
  import opened Train
  import Viterbi

  // ---------------------------------------------------------------------
  // Counts

  /** Every stored value is a whole number of at least one; a pair never
      counted is absent rather than stored as 0. */
  ghost predicate IsCount<V>(table: Nested<V>)
  {
    forall r, k :: r in table && k in table[r] ==> table[r][k] >= 1.0 && Whole(table[r][k])
  }

  /** `x` is an integer. */
  ghost predicate Whole(x: real)
  {
    x == x.Floor as real
  }

  lemma {:induction false} BumpCount<V>(table: Nested<V>, row: string, key: V)
    requires IsCount(table)
    ensures IsCount(Bump(table, row, key))
  {
    var r := Bump(table, row, key);
    BumpEffect(table, row, key);
    forall q, k | q in r && k in r[q]
      ensures r[q][k] >= 1.0 && Whole(r[q][k])
    {
      if q == row && k == key {
        if row in table && key in table[row] {
          var v := table[row][key];
          assert v == v.Floor as real;
          assert (v + 1.0).Floor == v.Floor + 1;
        }
      } else {
        assert r[q][k] == table[q][k];
      }
    }
  }

  /** The total of all counts of a table. */
  ghost function TableTotal<V>(table: Nested<V>): real
  {
    Sum(RowTotals(table))
  }

  ghost function RowTotals<V>(table: Nested<V>): map<string, real>
  {
    map r | r in table :: Sum(table[r])
  }

  /** Replacing one row changes only that row's total. */
  lemma {:induction false} RowTotalsUpdate<V>(table: Nested<V>, row: string, newRow: map<V, real>)
    ensures RowTotals(table[row := newRow]) == RowTotals(table)[row := Sum(newRow)]
  {
  }

  /** Each `Bump` adds exactly one to the table's total. */
  lemma {:induction false} BumpTotal<V>(table: Nested<V>, row: string, key: V)
    ensures TableTotal(Bump(table, row, key)) == TableTotal(table) + 1.0
  {
    var totals := RowTotals(table);
    var newRow := Bump(table, row, key)[row];
    assert Bump(table, row, key) == table[row := newRow];
    RowTotalsUpdate(table, row, newRow);
    if row in table {
      if key in table[row] {
        SumUpdate(table[row], key, table[row][key] + 1.0);
      } else {
        SumInsert(table[row], key, 1.0);
      }
      SumUpdate(totals, row, Sum(newRow));
    } else {
      SumSingleton(key, 1.0);
      SumInsert(totals, row, Sum(newRow));
    }
  }

  /** One line adds one emission count and one transition count, as
      `previous_tag` is never None in `train`. */
  lemma {:induction false} StepCounts(s: Tally, line: Line)
    ensures IsCount(s.likelihoods) && IsCount(s.transitions) ==>
      IsCount(Step(s, line).likelihoods) && IsCount(Step(s, line).transitions)
    ensures TableTotal(Step(s, line).likelihoods) == TableTotal(s.likelihoods) + 1.0
    ensures TableTotal(Step(s, line).transitions) == TableTotal(s.transitions) + 1.0
  {
    var tag, word := TagOf(line), WordOf(line);
    BumpTotal(s.likelihoods, tag, word);
    BumpTotal(s.transitions, s.previous, tag);
    if IsCount(s.likelihoods) && IsCount(s.transitions) {
      BumpCount(s.likelihoods, tag, word);
      BumpCount(s.transitions, s.previous, tag);
    }
  }

  /** What one line records (train.py:77-88): the emission and the
      transition it counts, and the new `previous_tag`. */
  lemma {:induction false} StepRecords(s: Tally, line: Line)
    ensures line.Boundary? ==>
      && Count(Step(s, line).likelihoods, EndSent, None) == Count(s.likelihoods, EndSent, None) + 1.0
      && Count(Step(s, line).transitions, s.previous, EndSent) == Count(s.transitions, s.previous, EndSent) + 1.0
      && Step(s, line).previous == BeginSent
    ensures line.Pair? ==>
      && Count(Step(s, line).likelihoods, line.tag, Some(Lower(line.word)))
         == Count(s.likelihoods, line.tag, Some(Lower(line.word))) + 1.0
      && Count(Step(s, line).transitions, s.previous, line.tag) == Count(s.transitions, s.previous, line.tag) + 1.0
      && Step(s, line).previous == line.tag
      && Step(s, line).vocabulary == s.vocabulary + {Lower(line.word)}
  {
    match line
    case Boundary =>
      BumpEffect(s.likelihoods, EndSent, None);
      BumpEffect(s.transitions, s.previous, EndSent);
    case Pair(w, tag) =>
      BumpEffect(s.likelihoods, tag, Some(Lower(w)));
      BumpEffect(s.transitions, s.previous, tag);
  }

  /** Over a corpus, both tables gain exactly one count per line and stay
      tables of whole counts. */
  lemma {:induction false} RunCounts(s: Tally, lines: seq<Line>)
    requires IsCount(s.likelihoods) && IsCount(s.transitions)
    ensures IsCount(Run(s, lines).likelihoods) && IsCount(Run(s, lines).transitions)
    ensures TableTotal(Run(s, lines).likelihoods) == TableTotal(s.likelihoods) + |lines| as real
    ensures TableTotal(Run(s, lines).transitions) == TableTotal(s.transitions) + |lines| as real
    decreases |lines|
  {
    if |lines| > 0 {
      var prefix := lines[..|lines| - 1];
      RunCounts(s, prefix);
      StepCounts(Run(s, prefix), lines[|lines| - 1]);
    }
  }

  /** Trained from nothing, the emission total and the transition total
      both equal the number of lines. */
  lemma {:induction false} TrainedTotals(lines: seq<Line>)
    ensures IsCount(Run(Empty, lines).likelihoods) && IsCount(Run(Empty, lines).transitions)
    ensures TableTotal(Run(Empty, lines).likelihoods) == |lines| as real
    ensures TableTotal(Run(Empty, lines).transitions) == |lines| as real
  {
    assert TableTotal(Empty.likelihoods) == 0.0 by {
      assert RowTotals(Empty.likelihoods) == map[];
    }
    assert TableTotal(Empty.transitions) == 0.0 by {
      assert RowTotals(Empty.transitions) == map[];
    }
    RunCounts(Empty, lines);
  }

  // ---------------------------------------------------------------------
  // Normalization

  lemma {:induction false} DivideSelf(x: real)
    requires x > 0.0
    ensures x / x == 1.0
  {
  }

  lemma {:induction false} DivideBounds(a: real, b: real)
    requires 0.0 < a <= b
    ensures 0.0 < a / b <= 1.0
  {
    var x := a / b;
    assert x * b == a;
  }

  /** `freq_to_prob` on one row: the keys stay, each entry becomes its
      count divided by the row total, a non-empty row sums to 1 and every
      entry lies in (0, 1]. */
  lemma {:induction false} NormalizeRowSpec<V>(row: map<V, real>)
    requires AllPositive(row)
    ensures NormalizeRow(row).Keys == row.Keys
    ensures |row| > 0 ==> Sum(row) > 0.0 && Sum(NormalizeRow(row)) == 1.0
    ensures forall k :: k in row ==> Sum(row) > 0.0 && NormalizeRow(row)[k] == row[k] / Sum(row)
    ensures forall k :: k in row ==> 0.0 < NormalizeRow(row)[k] <= 1.0
  {
    if |row| > 0 {
      var total := Sum(row);
      SumPositive(row);
      SumScale(row, total);
      assert NormalizeRow(row) == Scale(row, total);
      DivideSelf(total);
      forall k | k in row
        ensures NormalizeRow(row)[k] == row[k] / total
        ensures 0.0 < NormalizeRow(row)[k] <= 1.0
      {
        assert Scale(row, total)[k] == row[k] / total;
        EntryAtMostSum(row, k);
        DivideBounds(row[k], total);
      }
    }
  }

  /** Every row of a table that training produced is non-empty. */
  ghost predicate NoEmptyRow<V>(table: Nested<V>)
  {
    forall r :: r in table ==> |table[r]| > 0
  }

  /** `freq_to_prob` on a whole table of non-empty positive rows: the
      same rows and keys, every row a distribution. */
  lemma {:induction false} NormalizeTableSpec<V>(table: Nested<V>)
    requires Positive(table) && NoEmptyRow(table)
    ensures NormalizeTable(table).Keys == table.Keys
    ensures forall r :: r in table ==> NormalizeTable(table)[r].Keys == table[r].Keys
    ensures forall r :: r in table ==> Sum(NormalizeTable(table)[r]) == 1.0
    ensures forall r, k :: r in table && k in table[r] ==>
      Sum(table[r]) > 0.0 && NormalizeTable(table)[r][k] == table[r][k] / Sum(table[r]) && 0.0 < NormalizeTable(table)[r][k] <= 1.0
  {
    forall r | r in table
      ensures NormalizeTable(table)[r] == NormalizeRow(table[r])
      ensures NormalizeRow(table[r]).Keys == table[r].Keys
      ensures Sum(NormalizeRow(table[r])) == 1.0
      ensures forall k :: k in table[r] ==>
        Sum(table[r]) > 0.0 && NormalizeRow(table[r])[k] == table[r][k] / Sum(table[r]) && 0.0 < NormalizeRow(table[r])[k] <= 1.0
    {
      assert AllPositive(table[r]) && |table[r]| > 0;
      NormalizeRowSpec(table[r]);
    }
  }

  lemma {:induction false} BumpNoEmptyRow<V>(table: Nested<V>, row: string, key: V)
    requires NoEmptyRow(table)
    ensures NoEmptyRow(Bump(table, row, key))
  {
    BumpEffect(table, row, key);
    forall q | q in Bump(table, row, key)
      ensures |Bump(table, row, key)[q]| > 0
    {
      if q == row {
        assert key in Bump(table, row, key)[q];
      }
    }
  }

  lemma {:induction false} RunNoEmptyRow(s: Tally, lines: seq<Line>)
    requires NoEmptyRow(s.likelihoods) && NoEmptyRow(s.transitions)
    ensures NoEmptyRow(Run(s, lines).likelihoods) && NoEmptyRow(Run(s, lines).transitions)
    decreases |lines|
  {
    if |lines| > 0 {
      var prefix := lines[..|lines| - 1];
      RunNoEmptyRow(s, prefix);
      var p := Run(s, prefix);
      var line := lines[|lines| - 1];
      BumpNoEmptyRow(p.likelihoods, TagOf(line), WordOf(line));
      BumpNoEmptyRow(p.transitions, p.previous, TagOf(line));
    }
  }

  /** After `train`, every row of both tables is a probability
      distribution over the keys counted in it. */
  lemma {:induction false} TrainedDistributions(lines: seq<Line>)
    ensures var t := Run(Empty, lines);
      && (forall r :: r in t.likelihoods ==> Sum(NormalizeTable(t.likelihoods)[r]) == 1.0)
      && (forall r :: r in t.transitions ==> Sum(NormalizeTable(t.transitions)[r]) == 1.0)
      && (forall r, k :: r in t.likelihoods && k in t.likelihoods[r] ==> 0.0 < NormalizeTable(t.likelihoods)[r][k] <= 1.0)
      && (forall r, k :: r in t.transitions && k in t.transitions[r] ==> 0.0 < NormalizeTable(t.transitions)[r][k] <= 1.0)
  {
    var t := Run(Empty, lines);
    RunNoEmptyRow(Empty, lines);
    NormalizeTableSpec(t.likelihoods);
    NormalizeTableSpec(t.transitions);
  }

  // ---------------------------------------------------------------------
  // Reserved tags

  /** No corpus tag is literally one of the reserved tags. */
  ghost predicate PlainTags(lines: seq<Line>)
  {
    forall i :: 0 <= i < |lines| && lines[i].Pair? ==> lines[i].tag != BeginSent && lines[i].tag != EndSent
  }

  /** The emission table: no `Begin_Sent` row, the word None exactly
      under `End_Sent`, every other word lower-case. */
  ghost predicate EmissionsReserved(likelihoods: Nested<Option<string>>)
  {
    && BeginSent !in likelihoods
    && (forall r, k :: r in likelihoods && k in likelihoods[r] ==> (k.None? <==> r == EndSent))
    && (forall r, k :: r in likelihoods && k in likelihoods[r] && k.Some? ==> Lower(k.value) == k.value)
  }

  /** The transition table: no `End_Sent` row, no transition into `Begin_Sent`. */
  ghost predicate TransitionsReserved(transitions: Nested<string>)
  {
    && EndSent !in transitions
    && (forall r :: r in transitions ==> BeginSent !in transitions[r])
  }

  /** Where the reserved tags and the word None may appear. */
  ghost predicate Reserved(s: Tally)
  {
    && EmissionsReserved(s.likelihoods)
    && TransitionsReserved(s.transitions)
    && s.previous != EndSent
    && (forall w :: w in s.vocabulary ==> Lower(w) == w)
  }

  lemma {:induction false} BumpEmissionsReserved(likelihoods: Nested<Option<string>>, line: Line)
    requires EmissionsReserved(likelihoods)
    requires line.Pair? ==> line.tag != BeginSent && line.tag != EndSent
    ensures EmissionsReserved(Bump(likelihoods, TagOf(line), WordOf(line)))
  {
    var tag, word := TagOf(line), WordOf(line);
    var n := Bump(likelihoods, tag, word);
    BumpEffect(likelihoods, tag, word);
    if line.Pair? {
      LowerIdempotent(line.word);
    }
    forall r, k: Option<string> | r in n && k in n[r]
      ensures (k.None? <==> r == EndSent) && (k.Some? ==> Lower(k.value) == k.value)
    {
      if r != tag || k != word {
        assert k in likelihoods[r];
      }
    }
  }

  lemma {:induction false} BumpTransitionsReserved(transitions: Nested<string>, previous: string, line: Line)
    requires TransitionsReserved(transitions) && previous != EndSent
    requires line.Pair? ==> line.tag != BeginSent && line.tag != EndSent
    ensures TransitionsReserved(Bump(transitions, previous, TagOf(line)))
  {
    var n := Bump(transitions, previous, TagOf(line));
    BumpEffect(transitions, previous, TagOf(line));
    forall r | r in n
      ensures BeginSent !in n[r]
    {
      if r != previous {
        assert n[r] == transitions[r];
      }
    }
  }

  lemma {:induction false} StepReserved(s: Tally, line: Line)
    requires Reserved(s)
    requires line.Pair? ==> line.tag != BeginSent && line.tag != EndSent
    ensures Reserved(Step(s, line))
  {
    BumpEmissionsReserved(s.likelihoods, line);
    BumpTransitionsReserved(s.transitions, s.previous, line);
    if line.Pair? {
      LowerIdempotent(line.word);
    }
  }

  lemma {:induction false} RunReserved(s: Tally, lines: seq<Line>)
    requires Reserved(s) && PlainTags(lines)
    ensures Reserved(Run(s, lines))
    decreases |lines|
  {
    if |lines| > 0 {
      var prefix := lines[..|lines| - 1];
      assert PlainTags(prefix) by {
        assert forall i :: 0 <= i < |prefix| ==> prefix[i] == lines[i];
      }
      RunReserved(s, prefix);
      StepReserved(Run(s, prefix), lines[|lines| - 1]);
    }
  }

  /** If no corpus tag is a reserved name: `Begin_Sent` is never an
      emission row nor a transition target, `End_Sent` is never a
      transition row, the word None is stored exactly under `End_Sent`,
      and every stored word is lower-case. */
  lemma {:induction false} TrainedReserved(lines: seq<Line>)
    requires PlainTags(lines)
    ensures Reserved(Run(Empty, lines))
  {
    RunReserved(Empty, lines);
  }

  // ---------------------------------------------------------------------
  // The trained tables meet the decoder's precondition

  /** Every emission row other than `End_Sent` and the current
      `previous_tag` already has a transition row. */
  ghost predicate Linked(s: Tally)
  {
    forall r :: r in s.likelihoods && r != EndSent && r != s.previous ==> r in s.transitions
  }

  lemma {:induction false} StepLinked(s: Tally, line: Line)
    requires Linked(s)
    ensures Linked(Step(s, line))
    ensures s.likelihoods.Keys <= Step(s, line).likelihoods.Keys && s.transitions.Keys <= Step(s, line).transitions.Keys
    ensures s.previous in Step(s, line).transitions
    ensures line.Pair? ==> line.tag in Step(s, line).likelihoods
    ensures EndSent in Step(s, line).likelihoods || line.Pair?
  {
    var tag, word := TagOf(line), WordOf(line);
    BumpEffect(s.likelihoods, tag, word);
    BumpEffect(s.transitions, s.previous, tag);
  }

  /** There is a word (not a boundary) line with this tag. */
  ghost predicate HasTag(lines: seq<Line>, tag: string)
  {
    exists i :: 0 <= i < |lines| && lines[i].Pair? && lines[i].tag == tag
  }

  lemma {:induction false} RunLinked(lines: seq<Line>)
    ensures Linked(Run(Empty, lines))
    ensures |lines| > 0 ==> BeginSent in Run(Empty, lines).transitions && Run(Empty, lines).likelihoods != map[]
    ensures forall tag :: HasTag(lines, tag) ==> tag in Run(Empty, lines).likelihoods
    decreases |lines|
  {
    if |lines| > 0 {
      var prefix := lines[..|lines| - 1];
      var last := lines[|lines| - 1];
      RunLinked(prefix);
      var p := Run(Empty, prefix);
      StepLinked(p, last);
      if |prefix| == 0 {
        assert p == Empty;
      }
      forall tag | HasTag(lines, tag)
        ensures tag in Run(Empty, lines).likelihoods
      {
        var i :| 0 <= i < |lines| && lines[i].Pair? && lines[i].tag == tag;
        if i < |prefix| {
          assert prefix[i] == lines[i];
          assert HasTag(prefix, tag);
        }
      }
    }
  }

  /** A corpus that ends with a sentence boundary and has at least one
      tagged word, none of whose tags is a reserved name, yields tables on
      which `get_tags` runs for every non-empty sentence: no KeyError on
      `transition_prob` and no `max` of an empty sequence. The decoder's
      emission table is any table with the same tags (how the word None
      is written to JSON is outside this model). */
  lemma {:induction false} TrainedDecodable(lines: seq<Line>, likelihood: Viterbi.Table, n: nat)
    requires PlainTags(lines) && |lines| > 0 && lines[|lines| - 1].Boundary?
    requires exists i :: 0 <= i < |lines| && lines[i].Pair?
    requires likelihood.Keys == Run(Empty, lines).likelihoods.Keys && n >= 1
    ensures Run(Empty, lines).transitions.Keys == NormalizeTable(Run(Empty, lines).transitions).Keys
    ensures Viterbi.Decodable(likelihood, NormalizeTable(Run(Empty, lines).transitions), n)
  {
    var t := Run(Empty, lines);
    var i :| 0 <= i < |lines| && lines[i].Pair?;
    assert HasTag(lines, lines[i].tag);
    RunLinked(lines);
    TrainedReserved(lines);
    assert t.previous == BeginSent;
    assert lines[i].tag in Viterbi.Preds(likelihood);
    assert likelihood != map[];
  }
}
