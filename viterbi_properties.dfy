/**
 What the decoder promises, proved about its reference definition
 `Viterbi.Decode` (and so about `Viterbi.GetTags`, which returns it):
 the shape of the output, where the reserved tags may appear, the
 maximum taken in each cell and at the end, optimality of the returned
 path, case insensitivity and the one-word case.
 */
module ViterbiProperties {
  import opened Text
  import opened Tags
  import opened Viterbi

  /** A tag sequence the decoder could return: every tag is a key of
      `likelihood`, and `End_Sent` (never a predecessor) is at most last. */
  ghost predicate Valid(likelihood: Table, path: seq<string>)
  {
    && (forall i :: 0 <= i < |path| ==> path[i] in likelihood)
    && (forall i :: 0 <= i < |path| - 1 ==> path[i] != EndSent)
  }

  /** Every stored probability is non-negative, as in tables written by
      training. */
  ghost predicate NonNegative(table: Table)
  {
    forall r, k :: r in table && k in table[r] ==> table[r][k] >= 0.0
  }

  /** The score of a whole tag path over the first `|path|` words, in the
      model's own terms: start transition and first emission, then one
      transition and one emission per further word. */
  ghost function PathScore(likelihood: Table, transition: Table, ws: seq<string>, path: seq<string>): real
    requires Decodable(likelihood, transition, |ws|) && 1 <= |path| <= |ws| && Valid(likelihood, path)
    decreases |path|
  {
    var j := |path| - 1;
    if j == 0 then Get(likelihood[path[0]], ws[0]) * Get(transition[BeginSent], path[0])
    else
      var prefix := path[..j];
      assert Valid(likelihood, prefix) by {
        assert forall i :: 0 <= i < |prefix| ==> prefix[i] == path[i];
      }
      Offer(PathScore(likelihood, transition, ws, prefix), Get(transition[path[j - 1]], path[j]), Get(likelihood[path[j]], ws[j]))
  }

  lemma {:induction false} GetNonNegative(table: Table, r: string, k: string)
    requires NonNegative(table) && r in table
    ensures Get(table[r], k) >= 0.0
  {
    if k in table[r] {
      assert table[r][k] >= 0.0;
    }
  }

  lemma {:induction false} OfferMonotone(x: real, y: real, trans: real, emit: real)
    requires x <= y && trans >= 0.0 && emit >= 0.0
    ensures Offer(x, trans, emit) <= Offer(y, trans, emit)
  {
    assert x * trans <= y * trans by {
      assert (y - x) * trans >= 0.0;
    }
    assert (y * trans - x * trans) * emit >= 0.0;
  }

  /** The cell `viterbi[t][j]`, `j >= 1`, is the maximum of what the
      predecessors offer, attained by `backpointers[t][j]`; among equal
      offers the greatest tag name wins. */
  lemma {:induction false} CellIsMax(likelihood: Table, transition: Table, ws: seq<string>, j: nat, t: string)
    requires Decodable(likelihood, transition, |ws|) && 1 <= j < |ws| && t in likelihood
    ensures Back(likelihood, transition, ws, j, t) in Preds(likelihood)
    ensures Prob(likelihood, transition, ws, j, t) == Score(likelihood, transition, ws, j, t, Back(likelihood, transition, ws, j, t))
    ensures forall c ::
              c in Preds(likelihood) ==> Score(likelihood, transition, ws, j, t, c) <= Prob(likelihood, transition, ws, j, t)
    ensures forall c ::
              c in Preds(likelihood) && c != Back(likelihood, transition, ws, j, t)
              && Score(likelihood, transition, ws, j, t, c) == Prob(likelihood, transition, ws, j, t)
              ==> StrLt(c, Back(likelihood, transition, ws, j, t))
  {
    var b := Back(likelihood, transition, ws, j, t);
    BackIsBestPrev(likelihood, transition, ws, j, t);
    forall c | c in Preds(likelihood) && c != b
      ensures Beats(likelihood, transition, ws, j, t, b, c)
    {
    }
  }

  /** The final tag has the greatest last-column probability, ties going
      to the greatest tag name. */
  lemma {:induction false} FinalIsMax(likelihood: Table, transition: Table, ws: seq<string>)
    requires Decodable(likelihood, transition, |ws|)
    ensures FinalTag(likelihood, transition, ws) in likelihood
    ensures forall c ::
              c in likelihood ==> Prob(likelihood, transition, ws, |ws| - 1, c) <= Prob(likelihood, transition, ws, |ws| - 1, FinalTag(likelihood, transition, ws))
    ensures forall c ::
              c in likelihood && c != FinalTag(likelihood, transition, ws)
              && Prob(likelihood, transition, ws, |ws| - 1, c) == Prob(likelihood, transition, ws, |ws| - 1, FinalTag(likelihood, transition, ws))
              ==> StrLt(c, FinalTag(likelihood, transition, ws))
  {
    var f := FinalTag(likelihood, transition, ws);
    forall c | c in likelihood && c != f
      ensures BeatsLast(likelihood, transition, ws, f, c)
    {
    }
  }

  /** A trace is a path the decoder could return. */
  lemma {:induction false} TraceValid(likelihood: Table, transition: Table, ws: seq<string>, j: nat, t: string)
    requires Decodable(likelihood, transition, |ws|) && j < |ws| && t in likelihood
    ensures Valid(likelihood, Trace(likelihood, transition, ws, j, t))
  {
    var path := Trace(likelihood, transition, ws, j, t);
    forall i | 0 <= i < |path|
      ensures path[i] in likelihood && (i < |path| - 1 ==> path[i] != EndSent)
    {
      if i < j {
        TraceFollows(likelihood, transition, ws, j, t, i + 1);
      }
    }
  }

  /** The score of the trace ending in `t` at position `j` is `viterbi[t][j]`. */
  lemma {:induction false} TraceScore(likelihood: Table, transition: Table, ws: seq<string>, j: nat, t: string)
    requires Decodable(likelihood, transition, |ws|) && j < |ws| && t in likelihood
    ensures Valid(likelihood, Trace(likelihood, transition, ws, j, t))
    ensures PathScore(likelihood, transition, ws, Trace(likelihood, transition, ws, j, t))
         == Prob(likelihood, transition, ws, j, t)
    decreases j
  {
    TraceValid(likelihood, transition, ws, j, t);
    if j > 0 {
      var b := Back(likelihood, transition, ws, j, t);
      var prefix := Trace(likelihood, transition, ws, j - 1, b);
      var path := Trace(likelihood, transition, ws, j, t);
      assert path == prefix + [t];
      assert path[..j] == prefix;
      TraceScore(likelihood, transition, ws, j - 1, b);
    }
  }

  /** No path ending in `path[j]` scores more than `viterbi[path[j]][j]`. */
  lemma {:induction false} PathAtMost(likelihood: Table, transition: Table, ws: seq<string>, path: seq<string>)
    requires Decodable(likelihood, transition, |ws|) && 1 <= |path| <= |ws| && Valid(likelihood, path)
    requires NonNegative(likelihood) && NonNegative(transition)
    ensures PathScore(likelihood, transition, ws, path)
         <= Prob(likelihood, transition, ws, |path| - 1, path[|path| - 1])
    decreases |path|
  {
    var j := |path| - 1;
    if j > 0 {
      var prefix := path[..j];
      assert Valid(likelihood, prefix) by {
        assert forall i :: 0 <= i < |prefix| ==> prefix[i] == path[i];
      }
      var c, t := path[j - 1], path[j];
      PathAtMost(likelihood, transition, ws, prefix);
      GetNonNegative(transition, c, t);
      GetNonNegative(likelihood, t, ws[j]);
      OfferMonotone(PathScore(likelihood, transition, ws, prefix), Prob(likelihood, transition, ws, j - 1, c),
                    Get(transition[c], t), Get(likelihood[t], ws[j]));
      assert PathScore(likelihood, transition, ws, path)
          == Offer(PathScore(likelihood, transition, ws, prefix), Get(transition[c], t), Get(likelihood[t], ws[j]));
      assert Offer(Prob(likelihood, transition, ws, j - 1, c), Get(transition[c], t), Get(likelihood[t], ws[j]))
          == Score(likelihood, transition, ws, j, t, c);
      CellIsMax(likelihood, transition, ws, j, t);
      assert Score(likelihood, transition, ws, j, t, c) <= Prob(likelihood, transition, ws, j, t);
    }
  }

  /** The tags `get_tags` returns: one per word, each a key of
      `likelihood`, `End_Sent` at most in the last place. */
  lemma {:induction false} DecodeValid(likelihood: Table, transition: Table, words: seq<string>)
    requires Decodable(likelihood, transition, |words|)
    ensures |Decode(likelihood, transition, words)| == |words|
    ensures Valid(likelihood, Decode(likelihood, transition, words))
  {
    var ws := LowerAll(words);
    TraceValid(likelihood, transition, ws, |ws| - 1, FinalTag(likelihood, transition, ws));
  }

  /** `Begin_Sent` is output only if it is itself a tag of `likelihood`
      (which training never makes it unless the corpus uses that name). */
  lemma {:induction false} DecodeNoBeginSent(likelihood: Table, transition: Table, words: seq<string>)
    requires Decodable(likelihood, transition, |words|) && BeginSent !in likelihood
    ensures BeginSent !in Decode(likelihood, transition, words)
  {
    DecodeValid(likelihood, transition, words);
  }

  /** No valid path over `ws` scores more than the final tag's probability. */
  lemma {:induction false} FinalAtMost(likelihood: Table, transition: Table, ws: seq<string>, path: seq<string>)
    requires Decodable(likelihood, transition, |ws|)
    requires NonNegative(likelihood) && NonNegative(transition)
    requires |path| == |ws| && Valid(likelihood, path)
    ensures PathScore(likelihood, transition, ws, path) <= Prob(likelihood, transition, ws, |ws| - 1, FinalTag(likelihood, transition, ws))
  {
    var last, f := path[|path| - 1], FinalTag(likelihood, transition, ws);
    PathAtMost(likelihood, transition, ws, path);
    if last != f {
      assert BeatsLast(likelihood, transition, ws, f, last);
    }
  }

  /** The trace from the final tag scores the best final probability,
      and no valid path over `ws` scores more. */
  lemma {:induction false} FinalOptimal(likelihood: Table, transition: Table, ws: seq<string>, path: seq<string>)
    requires Decodable(likelihood, transition, |ws|)
    requires NonNegative(likelihood) && NonNegative(transition)
    requires |path| == |ws| && Valid(likelihood, path)
    ensures Valid(likelihood, Trace(likelihood, transition, ws, |ws| - 1, FinalTag(likelihood, transition, ws)))
    ensures PathScore(likelihood, transition, ws, Trace(likelihood, transition, ws, |ws| - 1, FinalTag(likelihood, transition, ws)))
         == Prob(likelihood, transition, ws, |ws| - 1, FinalTag(likelihood, transition, ws))
    ensures PathScore(likelihood, transition, ws, path) <= Prob(likelihood, transition, ws, |ws| - 1, FinalTag(likelihood, transition, ws))
  {
    TraceScore(likelihood, transition, ws, |ws| - 1, FinalTag(likelihood, transition, ws));
    FinalAtMost(likelihood, transition, ws, path);
  }

  /** The returned path scores the best final probability, and no other
      path over the same words scores more. */
  lemma {:induction false} DecodeOptimal(likelihood: Table, transition: Table, words: seq<string>, path: seq<string>)
    requires Decodable(likelihood, transition, |words|)
    requires NonNegative(likelihood) && NonNegative(transition)
    requires |path| == |words| && Valid(likelihood, path)
    ensures Valid(likelihood, Decode(likelihood, transition, words))
    ensures PathScore(likelihood, transition, LowerAll(words), Decode(likelihood, transition, words))
         == Prob(likelihood, transition, LowerAll(words), |words| - 1, FinalTag(likelihood, transition, LowerAll(words)))
    ensures PathScore(likelihood, transition, LowerAll(words), path)
         <= PathScore(likelihood, transition, LowerAll(words), Decode(likelihood, transition, words))
  {
    var ws := LowerAll(words);
    assert Decode(likelihood, transition, words) == Trace(likelihood, transition, ws, |ws| - 1, FinalTag(likelihood, transition, ws));
    FinalOptimal(likelihood, transition, ws, path);
  }

  /** Decoding depends on the words only through their lower-cased forms. */
  lemma {:induction false} DecodeCaseInsensitive(likelihood: Table, transition: Table, words: seq<string>)
    requires Decodable(likelihood, transition, |words|)
    ensures Decode(likelihood, transition, LowerAll(words)) == Decode(likelihood, transition, words)
  {
    var ws := LowerAll(words);
    forall i | 0 <= i < |ws|
      ensures LowerAll(ws)[i] == ws[i]
    {
      LowerIdempotent(words[i]);
    }
    assert LowerAll(ws) == ws;
  }

  /** With one word the recursion is skipped: the answer is the tag with
      the best start score `emit(t, w) * trans(Begin_Sent, t)`. */
  lemma {:induction false} OneWord(likelihood: Table, transition: Table, w: string)
    requires Decodable(likelihood, transition, 1)
    ensures Decode(likelihood, transition, [w])
         == [Best(likelihood.Keys, map t | t in likelihood :: Get(likelihood[t], Lower(w)) * Get(transition[BeginSent], t))]
  {
    var ws := LowerAll([w]);
    assert ws == [Lower(w)];
    var start := map t | t in likelihood :: Get(likelihood[t], Lower(w)) * Get(transition[BeginSent], t);
    var b := Best(likelihood.Keys, start);
    forall c | c in likelihood
      ensures start[c] == Prob(likelihood, transition, ws, 0, c)
    {
    }
    BestIsFinal(likelihood, transition, ws, start, b);
  }
}
