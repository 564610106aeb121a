/**
 The Viterbi decoder of the tagger (`get_tags` in viterbi.py): given the
 emission table `likelihood` (tag -> word -> P(word | tag)) and the
 transition table `transition_prob` (previous tag -> tag -> P(tag | previous
 tag)), it returns the most probable tag sequence for one sentence.

 The ghost functions below define the lattice cell by cell (`Prob` is
 `viterbi[t][j]`, `Back` is `backpointers[t][j]`), the trace-back
 (`Trace`) and the whole decoder (`Decode`); the method `GetTags` fills
 the lattice with the loops of the source and is proved to return
 `Decode`.
 */
module Viterbi {
  import opened Text
  import opened Tags

  /** A nested probability table, as loaded by the decoder. */
  type Table = map<string, map<string, real>>

  /** The probability used for an unseen (tag, word) or (previous, tag) pair. */
  const Fallback: real := 0.0000001

  /** `row.get(key, 1e-7)`: the stored probability, or the fallback. */
  function Get(row: map<string, real>, key: string): real
  {
    if key in row then row[key] else Fallback
  }

  /** `tags - ["End_Sent"]`: the tags that may precede another tag. */
  function Preds(likelihood: Table): set<string>
  {
    likelihood.Keys - {EndSent}
  }

  /** What `get_tags` needs to run on `n` words without an IndexError,
      a ValueError (`max` of nothing) or a KeyError on `transition_prob`. */
  predicate Decodable(likelihood: Table, transition: Table, n: nat)
  {
    && n >= 1
    && likelihood != map[]
    && BeginSent in transition
    && (n >= 2 ==> Preds(likelihood) != {} && Preds(likelihood) <= transition.Keys)
  }

  /** Python's `(p1, t1) < (p2, t2)` on `(prob, tag)` tuples. */
  predicate TupleLess(p1: real, t1: string, p2: real, t2: string)
  {
    p1 < p2 || (p1 == p2 && StrLt(t1, t2))
  }

  lemma {:induction false} TupleTotal(p1: real, t1: string, p2: real, t2: string)
    requires t1 != t2
    ensures TupleLess(p1, t1, p2, t2) || TupleLess(p2, t2, p1, t1)
  {
    StrLtTotal(t1, t2);
  }

  lemma {:induction false} TupleAsymmetric(p1: real, t1: string, p2: real, t2: string)
    requires TupleLess(p1, t1, p2, t2)
    ensures !TupleLess(p2, t2, p1, t1)
  {
    if p1 == p2 {
      StrLtAsymmetric(t1, t2);
    }
  }

  lemma {:induction false} TupleTransitive(p1: real, t1: string, p2: real, t2: string, p3: real, t3: string)
    requires TupleLess(p1, t1, p2, t2) && TupleLess(p2, t2, p3, t3)
    ensures TupleLess(p1, t1, p3, t3)
  {
    if p1 == p2 && p2 == p3 {
      StrLtTransitive(t1, t2, t3);
    }
  }

  /** Candidate `b` is above candidate `c`: `(score[c], c) < (score[b], b)`. */
  predicate Above(score: map<string, real>, b: string, c: string)
    requires b in score && c in score
  {
    TupleLess(score[c], c, score[b], b)
  }

  /** `b` is what `max((score[c], c) for c in cands)` picks: its tuple is
      greater than that of every other candidate. */
  predicate IsBest(b: string, cands: set<string>, score: map<string, real>)
    requires cands <= score.Keys
  {
    b in cands && forall c {:trigger Above(score, b, c)} :: c in cands && c != b ==> Above(score, b, c)
  }

  lemma {:induction false} BestExists(cands: set<string>, score: map<string, real>)
    requires cands != {} && cands <= score.Keys
    ensures exists b :: IsBest(b, cands, score)
    decreases |cands|
  {
    var x :| x in cands;
    if cands == {x} {
      assert IsBest(x, cands, score);
    } else {
      var rest := cands - {x};
      BestExists(rest, score);
      var b :| IsBest(b, rest, score);
      if Above(score, b, x) {
        assert IsBest(b, cands, score);
      } else {
        TupleTotal(score[b], b, score[x], x);
        forall c | c in cands && c != x
          ensures Above(score, x, c)
        {
          if c != b {
            assert Above(score, b, c);
            TupleTransitive(score[c], c, score[b], b, score[x], x);
          }
        }
        assert IsBest(x, cands, score);
      }
    }
  }

  /** At most one candidate beats all others: the maximum is deterministic. */
  lemma {:induction false} BestUnique(cands: set<string>, score: map<string, real>)
    requires cands <= score.Keys
    ensures forall b1, b2 :: IsBest(b1, cands, score) && IsBest(b2, cands, score) ==> b1 == b2
  {
    forall b1, b2 | IsBest(b1, cands, score) && IsBest(b2, cands, score)
      ensures b1 == b2
    {
      if b1 != b2 {
        assert Above(score, b1, b2) && Above(score, b2, b1);
        TupleAsymmetric(score[b1], b1, score[b2], b2);
      }
    }
  }

  /** The tag of `max((score[c], c) for c in cands)` (viterbi.py:131-137
      and 146-148). */
  function Best(cands: set<string>, score: map<string, real>): (b: string)
    requires cands != {} && cands <= score.Keys
    ensures IsBest(b, cands, score)
  {
    BestExists(cands, score);
    BestUnique(cands, score);
    var b :| IsBest(b, cands, score);
    b
  }

  // The lattice. `Prob(.., j, t)` is `viterbi[t][j]` and `Back(.., j, t)`
  // is `backpointers[t][j]`; both are defined cell by cell.

  /** The score `x * trans * emit` a predecessor with score `x` offers. */
  function Offer(x: real, trans: real, emit: real): real
  {
    x * trans * emit
  }

  /** The score `viterbi[p][j-1] * trans(p, t) * emit(t, ws[j])` that
      predecessor `p` offers to tag `t` at position `j >= 1`. */
  ghost function Score(likelihood: Table, transition: Table, ws: seq<string>, j: nat, t: string, p: string): real
    requires Decodable(likelihood, transition, |ws|) && 1 <= j < |ws| && t in likelihood && p in Preds(likelihood)
    decreases j, 0
  {
    Offer(Prob(likelihood, transition, ws, j - 1, p), Get(transition[p], t), Get(likelihood[t], ws[j]))
  }

  /** Predecessor `b` beats predecessor `c` for tag `t` at position `j`:
      `(score(c), c) < (score(b), b)`. */
  ghost predicate Beats(likelihood: Table, transition: Table, ws: seq<string>, j: nat, t: string, b: string, c: string)
    requires Decodable(likelihood, transition, |ws|) && 1 <= j < |ws| && t in likelihood
    requires b in Preds(likelihood) && c in Preds(likelihood)
    decreases j, 1
  {
    TupleLess(Score(likelihood, transition, ws, j, t, c), c, Score(likelihood, transition, ws, j, t, b), b)
  }

  lemma {:induction false} ScoreOf(likelihood: Table, transition: Table, ws: seq<string>, j: nat, t: string, p: string, x: real)
    requires Decodable(likelihood, transition, |ws|) && 1 <= j < |ws| && t in likelihood && p in Preds(likelihood)
    requires x == Prob(likelihood, transition, ws, j - 1, p)
    ensures Offer(x, Get(transition[p], t), Get(likelihood[t], ws[j])) == Score(likelihood, transition, ws, j, t, p)
  {
  }

  /** `b` is the predecessor `max` picks for tag `t` at position `j >= 1`. */
  ghost predicate BestPrev(likelihood: Table, transition: Table, ws: seq<string>, j: nat, t: string, b: string)
    requires Decodable(likelihood, transition, |ws|) && 1 <= j < |ws| && t in likelihood
    decreases j, 2
  {
    && b in Preds(likelihood)
    && forall c {:trigger Beats(likelihood, transition, ws, j, t, b, c)} ::
         c in Preds(likelihood) && c != b ==> Beats(likelihood, transition, ws, j, t, b, c)
  }

  lemma {:induction false} BestPrevExists(likelihood: Table, transition: Table, ws: seq<string>, j: nat, t: string)
    requires Decodable(likelihood, transition, |ws|) && 1 <= j < |ws| && t in likelihood
    ensures exists b :: BestPrev(likelihood, transition, ws, j, t, b)
    decreases j, 3
  {
    var scores := map c | c in Preds(likelihood) :: Score(likelihood, transition, ws, j, t, c);
    BestExists(Preds(likelihood), scores);
    var b :| IsBest(b, Preds(likelihood), scores);
    forall c | c in Preds(likelihood) && c != b
      ensures Beats(likelihood, transition, ws, j, t, b, c)
    {
      assert Above(scores, b, c);
    }
    assert BestPrev(likelihood, transition, ws, j, t, b);
  }

  /** `backpointers[t][j]`: `Begin_Sent` at position 0, the best predecessor after. */
  ghost function Back(likelihood: Table, transition: Table, ws: seq<string>, j: nat, t: string): (b: string)
    requires Decodable(likelihood, transition, |ws|) && j < |ws| && t in likelihood
    ensures j == 0 ==> b == BeginSent
    ensures j > 0 ==> b in Preds(likelihood)
    decreases j, 4
  {
    if j == 0 then BeginSent
    else
      BestPrevExists(likelihood, transition, ws, j, t);
      var b :| BestPrev(likelihood, transition, ws, j, t, b);
      b
  }

  lemma {:induction false} BackIsBestPrev(likelihood: Table, transition: Table, ws: seq<string>, j: nat, t: string)
    requires Decodable(likelihood, transition, |ws|) && 1 <= j < |ws| && t in likelihood
    ensures BestPrev(likelihood, transition, ws, j, t, Back(likelihood, transition, ws, j, t))
  {
  }

  /** `viterbi[t][j]`: the score of the best path that ends in tag `t` at position `j`. */
  ghost function Prob(likelihood: Table, transition: Table, ws: seq<string>, j: nat, t: string): real
    requires Decodable(likelihood, transition, |ws|) && j < |ws| && t in likelihood
    decreases j, 5
  {
    if j == 0 then Get(likelihood[t], ws[0]) * Get(transition[BeginSent], t)
    else Score(likelihood, transition, ws, j, t, Back(likelihood, transition, ws, j, t))
  }

  /** The tags obtained by following the backpointers from tag `t` at
      position `j` down to position 0. */
  ghost function Trace(likelihood: Table, transition: Table, ws: seq<string>, j: nat, t: string): (path: seq<string>)
    requires Decodable(likelihood, transition, |ws|) && j < |ws| && t in likelihood
    ensures |path| == j + 1 && path[j] == t
    decreases j
  {
    if j == 0 then [t]
    else Trace(likelihood, transition, ws, j - 1, Back(likelihood, transition, ws, j, t)) + [t]
  }

  /** Each tag of a trace is the backpointer of the tag after it. */
  lemma {:induction false} TraceFollows(likelihood: Table, transition: Table, ws: seq<string>, j: nat, t: string, k: nat)
    requires Decodable(likelihood, transition, |ws|) && j < |ws| && t in likelihood && 1 <= k <= j
    ensures Trace(likelihood, transition, ws, j, t)[k] in likelihood
    ensures Trace(likelihood, transition, ws, j, t)[k - 1]
         == Back(likelihood, transition, ws, k, Trace(likelihood, transition, ws, j, t)[k])
    decreases j
  {
    var b := Back(likelihood, transition, ws, j, t);
    var path := Trace(likelihood, transition, ws, j - 1, b);
    assert Trace(likelihood, transition, ws, j, t) == path + [t];
    if k < j {
      TraceFollows(likelihood, transition, ws, j - 1, b, k);
    }
  }

  /** Tag `b` beats tag `c` at the last position. */
  ghost predicate BeatsLast(likelihood: Table, transition: Table, ws: seq<string>, b: string, c: string)
    requires Decodable(likelihood, transition, |ws|) && b in likelihood && c in likelihood
  {
    TupleLess(Prob(likelihood, transition, ws, |ws| - 1, c), c, Prob(likelihood, transition, ws, |ws| - 1, b), b)
  }

  /** `b` is the tag `max` picks at the last position. */
  ghost predicate BestFinal(likelihood: Table, transition: Table, ws: seq<string>, b: string)
    requires Decodable(likelihood, transition, |ws|)
  {
    && b in likelihood
    && forall c {:trigger BeatsLast(likelihood, transition, ws, b, c)} ::
         c in likelihood && c != b ==> BeatsLast(likelihood, transition, ws, b, c)
  }

  lemma {:induction false} BestFinalExists(likelihood: Table, transition: Table, ws: seq<string>)
    requires Decodable(likelihood, transition, |ws|)
    ensures exists b :: BestFinal(likelihood, transition, ws, b)
  {
    var last := map c | c in likelihood :: Prob(likelihood, transition, ws, |ws| - 1, c);
    BestExists(likelihood.Keys, last);
    var b :| IsBest(b, likelihood.Keys, last);
    forall c | c in likelihood && c != b
      ensures BeatsLast(likelihood, transition, ws, b, c)
    {
      assert Above(last, b, c);
    }
    assert BestFinal(likelihood, transition, ws, b);
  }

  /** The final tag: the best tag of the last column. */
  ghost function FinalTag(likelihood: Table, transition: Table, ws: seq<string>): (t: string)
    requires Decodable(likelihood, transition, |ws|)
    ensures BestFinal(likelihood, transition, ws, t)
  {
    BestFinalExists(likelihood, transition, ws);
    var b :| BestFinal(likelihood, transition, ws, b);
    b
  }

  /** What `get_tags(words)` returns. */
  ghost function Decode(likelihood: Table, transition: Table, words: seq<string>): (tags: seq<string>)
    requires Decodable(likelihood, transition, |words|)
    ensures |tags| == |words|
  {
    var ws := LowerAll(words);
    Trace(likelihood, transition, ws, |ws| - 1, FinalTag(likelihood, transition, ws))
  }

  /** The tag `Best` picks from scores that agree with the lattice is the
      lattice's backpointer, and its score is the lattice's probability. */
  lemma {:induction false} BestIsBack(likelihood: Table, transition: Table, ws: seq<string>, j: nat, t: string,
                   scores: map<string, real>, b: string)
    requires Decodable(likelihood, transition, |ws|) && 1 <= j < |ws| && t in likelihood
    requires scores.Keys == Preds(likelihood)
    requires forall c :: c in Preds(likelihood) ==> scores[c] == Score(likelihood, transition, ws, j, t, c)
    requires IsBest(b, Preds(likelihood), scores)
    ensures b == Back(likelihood, transition, ws, j, t)
    ensures scores[b] == Prob(likelihood, transition, ws, j, t)
  {
    var back := Back(likelihood, transition, ws, j, t);
    BackIsBestPrev(likelihood, transition, ws, j, t);
    if b != back {
      assert Above(scores, b, back);
      assert Beats(likelihood, transition, ws, j, t, back, b);
      TupleAsymmetric(scores[back], back, scores[b], b);
    }
  }

  /** The same at the last position, for `FinalTag`. */
  lemma {:induction false} BestIsFinal(likelihood: Table, transition: Table, ws: seq<string>, last: map<string, real>, b: string)
    requires Decodable(likelihood, transition, |ws|)
    requires last.Keys == likelihood.Keys
    requires forall c :: c in likelihood ==> last[c] == Prob(likelihood, transition, ws, |ws| - 1, c)
    requires IsBest(b, likelihood.Keys, last)
    ensures b == FinalTag(likelihood, transition, ws)
  {
    var f := FinalTag(likelihood, transition, ws);
    if b != f {
      assert Above(last, b, f);
      assert BeatsLast(likelihood, transition, ws, f, b);
      TupleAsymmetric(last[f], f, last[b], b);
    }
  }

  /** The first `k` cells of lattice row `t` are stored in `probs` and `backs`. */
  ghost predicate RowStored(probs: seq<real>, backs: seq<string>, likelihood: Table, transition: Table,
                            ws: seq<string>, t: string, k: nat)
    requires Decodable(likelihood, transition, |ws|) && k <= |ws| && t in likelihood
  {
    && |probs| == k && |backs| == k
    && (forall i {:trigger probs[i]} :: 0 <= i < k ==> probs[i] == Prob(likelihood, transition, ws, i, t))
    && (forall i {:trigger backs[i]} :: 0 <= i < k ==> backs[i] == Back(likelihood, transition, ws, i, t))
  }

  /** Appending the cell for position `k` to a row stored up to `k`. */
  lemma {:induction false} RowExtend(probs: seq<real>, backs: seq<string>, likelihood: Table, transition: Table,
                                     ws: seq<string>, t: string, k: nat, x: real, b: string)
    requires Decodable(likelihood, transition, |ws|) && k < |ws| && t in likelihood
    requires RowStored(probs, backs, likelihood, transition, ws, t, k)
    requires x == Prob(likelihood, transition, ws, k, t) && b == Back(likelihood, transition, ws, k, t)
    ensures RowStored(probs + [x], backs + [b], likelihood, transition, ws, t, k + 1)
  {
    forall i | 0 <= i < k + 1
      ensures (probs + [x])[i] == Prob(likelihood, transition, ws, i, t)
    {
      if i < k {
        assert (probs + [x])[i] == probs[i];
      }
    }
    forall i | 0 <= i < k + 1
      ensures (backs + [b])[i] == Back(likelihood, transition, ws, i, t)
    {
      if i < k {
        assert (backs + [b])[i] == backs[i];
      }
    }
  }

  /** `get_tags` (viterbi.py:89-160): lower-cases the words, fills the
      lattice column by column, picks the best final tag and walks the
      backpointers back to position 0. */
  method GetTags(likelihood: Table, transition: Table, wordSequence: seq<string>) returns (tagSeq: seq<string>)
    requires Decodable(likelihood, transition, |wordSequence|)
    ensures tagSeq == Decode(likelihood, transition, wordSequence)
  {
    var ws := LowerAll(wordSequence);
    assert |ws| == |wordSequence|;
    var viterbi, backpointers := Initialize(likelihood, transition, ws);
    for j := 1 to |ws|
      invariant viterbi.Keys == likelihood.Keys && backpointers.Keys == likelihood.Keys
      invariant forall t :: t in likelihood ==> RowStored(viterbi[t], backpointers[t], likelihood, transition, ws, t, j)
    {
      viterbi, backpointers := Recur(likelihood, transition, ws, j, viterbi, backpointers);
    }
    var bestLast := Termination(likelihood, transition, ws, viterbi);
    tagSeq := TraceBack(likelihood, transition, ws, backpointers, bestLast);
    DecodeIs(likelihood, transition, wordSequence, ws, tagSeq);
  }

  lemma {:induction false} DecodeIs(likelihood: Table, transition: Table, words: seq<string>, ws: seq<string>, tags: seq<string>)
    requires Decodable(likelihood, transition, |words|) && ws == LowerAll(words)
    requires Decodable(likelihood, transition, |ws|)
    requires tags == Trace(likelihood, transition, ws, |ws| - 1, FinalTag(likelihood, transition, ws))
    ensures tags == Decode(likelihood, transition, words)
  {
  }

  /** The initialization loop (viterbi.py:118-125): position 0 of every row. */
  method Initialize(likelihood: Table, transition: Table, ws: seq<string>)
    returns (viterbi: map<string, seq<real>>, backpointers: map<string, seq<string>>)
    requires Decodable(likelihood, transition, |ws|)
    ensures viterbi.Keys == likelihood.Keys && backpointers.Keys == likelihood.Keys
    ensures forall t :: t in likelihood ==> RowStored(viterbi[t], backpointers[t], likelihood, transition, ws, t, 1)
  {
    viterbi, backpointers := map[], map[];
    var todo := likelihood.Keys;
    while todo != {}
      invariant todo <= likelihood.Keys
      invariant viterbi.Keys == likelihood.Keys - todo && backpointers.Keys == likelihood.Keys - todo
      invariant forall t :: t in viterbi ==> RowStored(viterbi[t], backpointers[t], likelihood, transition, ws, t, 1)
      decreases todo
    {
      var tag :| tag in todo;
      viterbi := viterbi[tag := [Get(likelihood[tag], ws[0]) * Get(transition[BeginSent], tag)]];
      backpointers := backpointers[tag := [BeginSent]];
      todo := todo - {tag};
    }
  }

  /** Midway through one pass of the recursion loop: the rows of the tags
      in `todo` still hold positions `0..j-1`, the others `0..j`. */
  ghost predicate Partial(likelihood: Table, transition: Table, ws: seq<string>, j: nat,
                          viterbi: map<string, seq<real>>, backpointers: map<string, seq<string>>, todo: set<string>)
    requires Decodable(likelihood, transition, |ws|) && 1 <= j < |ws|
  {
    && todo <= likelihood.Keys
    && viterbi.Keys == likelihood.Keys && backpointers.Keys == likelihood.Keys
    && forall t :: t in likelihood ==>
         RowStored(viterbi[t], backpointers[t], likelihood, transition, ws, t, if t in todo then j else j + 1)
  }

  /** What the row of every tag holds at position `j - 1`. */
  lemma {:induction false} PartialPrevious(likelihood: Table, transition: Table, ws: seq<string>, j: nat,
                                           viterbi: map<string, seq<real>>, backpointers: map<string, seq<string>>,
                                           todo: set<string>)
    requires Decodable(likelihood, transition, |ws|) && 1 <= j < |ws|
    requires Partial(likelihood, transition, ws, j, viterbi, backpointers, todo)
    ensures forall p :: p in likelihood ==>
      |viterbi[p]| >= j && viterbi[p][j - 1] == Prob(likelihood, transition, ws, j - 1, p)
  {
    forall p | p in likelihood
      ensures |viterbi[p]| >= j && viterbi[p][j - 1] == Prob(likelihood, transition, ws, j - 1, p)
    {
      assert RowStored(viterbi[p], backpointers[p], likelihood, transition, ws, p, if p in todo then j else j + 1);
    }
  }

  /** Filling the cell of one pending tag keeps `Partial`. */
  lemma {:induction false} PartialStep(likelihood: Table, transition: Table, ws: seq<string>, j: nat,
                                       viterbi: map<string, seq<real>>, backpointers: map<string, seq<string>>,
                                       todo: set<string>, tag: string, x: real, b: string)
    requires Decodable(likelihood, transition, |ws|) && 1 <= j < |ws|
    requires Partial(likelihood, transition, ws, j, viterbi, backpointers, todo) && tag in todo
    requires x == Prob(likelihood, transition, ws, j, tag) && b == Back(likelihood, transition, ws, j, tag)
    ensures Partial(likelihood, transition, ws, j, viterbi[tag := viterbi[tag] + [x]],
                    backpointers[tag := backpointers[tag] + [b]], todo - {tag})
  {
    var viterbi', backpointers' := viterbi[tag := viterbi[tag] + [x]], backpointers[tag := backpointers[tag] + [b]];
    assert RowStored(viterbi[tag], backpointers[tag], likelihood, transition, ws, tag, j);
    RowExtend(viterbi[tag], backpointers[tag], likelihood, transition, ws, tag, j, x, b);
    forall t | t in likelihood
      ensures RowStored(viterbi'[t], backpointers'[t], likelihood, transition, ws, t,
                        if t in todo - {tag} then j else j + 1)
    {
      if t != tag {
        assert RowStored(viterbi[t], backpointers[t], likelihood, transition, ws, t, if t in todo then j else j + 1);
      }
    }
  }

  /** One pass of the recursion loop (viterbi.py:128-142): position `j`
      of every row is filled from position `j - 1`. */
  method Recur(likelihood: Table, transition: Table, ws: seq<string>, j: nat,
               viterbi0: map<string, seq<real>>, backpointers0: map<string, seq<string>>)
    returns (viterbi: map<string, seq<real>>, backpointers: map<string, seq<string>>)
    requires Decodable(likelihood, transition, |ws|) && 1 <= j < |ws|
    requires viterbi0.Keys == likelihood.Keys && backpointers0.Keys == likelihood.Keys
    requires forall t :: t in likelihood ==> RowStored(viterbi0[t], backpointers0[t], likelihood, transition, ws, t, j)
    ensures viterbi.Keys == likelihood.Keys && backpointers.Keys == likelihood.Keys
    ensures forall t :: t in likelihood ==> RowStored(viterbi[t], backpointers[t], likelihood, transition, ws, t, j + 1)
  {
    viterbi, backpointers := viterbi0, backpointers0;
    var todo := likelihood.Keys;
    while todo != {}
      invariant Partial(likelihood, transition, ws, j, viterbi, backpointers, todo)
      decreases todo
    {
      var tag :| tag in todo;
      PartialPrevious(likelihood, transition, ws, j, viterbi, backpointers, todo);
      var maxProb, bestPrevTag := MaxPrev(likelihood, transition, ws, j, tag, viterbi);
      PartialStep(likelihood, transition, ws, j, viterbi, backpointers, todo, tag, maxProb, bestPrevTag);
      viterbi := viterbi[tag := viterbi[tag] + [maxProb]];
      backpointers := backpointers[tag := backpointers[tag] + [bestPrevTag]];
      todo := todo - {tag};
    }
  }

  /** The `max` over predecessors for one cell (viterbi.py:131-137), read
      from position `j - 1` of the rows in `viterbi`. */
  method MaxPrev(likelihood: Table, transition: Table, ws: seq<string>, j: nat, tag: string,
                 viterbi: map<string, seq<real>>)
    returns (maxProb: real, bestPrevTag: string)
    requires Decodable(likelihood, transition, |ws|) && 1 <= j < |ws| && tag in likelihood
    requires viterbi.Keys == likelihood.Keys
    requires forall p :: p in likelihood ==> |viterbi[p]| >= j && viterbi[p][j - 1] == Prob(likelihood, transition, ws, j - 1, p)
    ensures maxProb == Prob(likelihood, transition, ws, j, tag)
    ensures bestPrevTag == Back(likelihood, transition, ws, j, tag)
  {
    var scores := map p | p in Preds(likelihood) ::
      Offer(viterbi[p][j - 1], Get(transition[p], tag), Get(likelihood[tag], ws[j]));
    bestPrevTag := Best(Preds(likelihood), scores);
    forall c | c in Preds(likelihood)
      ensures scores[c] == Score(likelihood, transition, ws, j, tag, c)
    {
      assert scores[c] == Offer(viterbi[c][j - 1], Get(transition[c], tag), Get(likelihood[tag], ws[j]));
      ScoreOf(likelihood, transition, ws, j, tag, c, viterbi[c][j - 1]);
    }
    BestIsBack(likelihood, transition, ws, j, tag, scores, bestPrevTag);
    maxProb := scores[bestPrevTag];
  }

  /** Termination (viterbi.py:146-148): the tag with the best final score. */
  method Termination(likelihood: Table, transition: Table, ws: seq<string>, viterbi: map<string, seq<real>>)
    returns (bestLast: string)
    requires Decodable(likelihood, transition, |ws|)
    requires viterbi.Keys == likelihood.Keys
    requires forall t :: t in likelihood ==> |viterbi[t]| == |ws| && viterbi[t][|ws| - 1] == Prob(likelihood, transition, ws, |ws| - 1, t)
    ensures bestLast == FinalTag(likelihood, transition, ws)
  {
    var last := map t | t in viterbi :: viterbi[t][|ws| - 1];
    bestLast := Best(likelihood.Keys, last);
    BestIsFinal(likelihood, transition, ws, last, bestLast);
  }

  /** Trace-back (viterbi.py:150-158): from the final tag, each earlier
      tag is read from the backpointers of the tag after it. */
  method TraceBack(likelihood: Table, transition: Table, ws: seq<string>,
                   backpointers: map<string, seq<string>>, finalTag: string)
    returns (tagSeq: seq<string>)
    requires Decodable(likelihood, transition, |ws|) && finalTag in likelihood
    requires backpointers.Keys == likelihood.Keys
    requires forall t :: t in likelihood ==> |backpointers[t]| == |ws|
    requires forall t, i {:trigger backpointers[t][i]} :: t in likelihood && 0 <= i < |ws| ==>
      backpointers[t][i] == Back(likelihood, transition, ws, i, t)
    ensures tagSeq == Trace(likelihood, transition, ws, |ws| - 1, finalTag)
  {
    ghost var full := Trace(likelihood, transition, ws, |ws| - 1, finalTag);
    tagSeq := [finalTag];
    for q := |ws| - 1 downto 0
      invariant |tagSeq| == |ws| - q
      invariant forall k :: 0 <= k < |tagSeq| ==> tagSeq[k] == full[q + k]
    {
      TraceFollows(likelihood, transition, ws, |ws| - 1, finalTag, q + 1);
      var bestPrevTag := backpointers[tagSeq[0]][q + 1];
      tagSeq := [bestPrevTag] + tagSeq;
    }
    assert tagSeq == full;
  }
}
