/** Entity resolution: `fuzzy_match` picks the candidate that the scorer
    rates highest against the question. The scorer (`fuzz.partial_ratio`)
    is a parameter: any total function into 0..100. */
module Matching {
  import opened Wrappers

  type Percent = x: int | 0 <= x <= 100

  /** A similarity scorer: (query, candidate) to a score in 0..100. */
  type Scorer = (string, string) -> Percent

  /** The score of the current best match; no match scores 0, the initial
      `max_score`. */
  function ScoreOf(query: string, best: Option<string>, score: Scorer): Percent
  {
    match best
    case None => 0
    case Some(e) => score(query, e)
  }

  /** The result of `fuzzy_match(query, candidates)`: a candidate replaces
      the best so far only when it scores strictly higher, starting from 0. */
  function BestMatch(query: string, candidates: seq<string>, score: Scorer): (r: Option<string>)
    ensures r.Some? ==> r.value in candidates && score(query, r.value) > 0
    decreases |candidates|
  {
    if candidates == [] then None
    else
      var previous := BestMatch(query, candidates[..|candidates| - 1], score);
      var last := candidates[|candidates| - 1];
      if score(query, last) > ScoreOf(query, previous, score) then Some(last) else previous
  }

  /** Candidate `k` scores at least as high as every candidate and strictly
      higher than every earlier one. */
  predicate IsFirstBest(query: string, candidates: seq<string>, score: Scorer, k: int)
  {
    0 <= k < |candidates|
    && (forall j :: 0 <= j < |candidates| ==> score(query, candidates[j]) <= score(query, candidates[k]))
    && (forall j :: 0 <= j < k ==> score(query, candidates[j]) < score(query, candidates[k]))
  }

  /** There is no match exactly when every candidate scores 0, in particular
      when there are no candidates. */
  lemma {:induction false} BestMatchNone(query: string, candidates: seq<string>, score: Scorer)
    ensures BestMatch(query, candidates, score) == None
        <==> forall j :: 0 <= j < |candidates| ==> score(query, candidates[j]) == 0
    decreases |candidates|
  {
    if candidates != [] {
      var init := candidates[..|candidates| - 1];
      BestMatchNone(query, init, score);
      assert forall j :: 0 <= j < |init| ==> init[j] == candidates[j];
    }
  }

  /** A single candidate is the match only if it scores above 0: there is no
      threshold, but the initial `max_score` of 0 must be beaten. */
  lemma BestMatchSingle(query: string, c: string, score: Scorer)
    ensures BestMatch(query, [c], score) == if score(query, c) > 0 then Some(c) else None
  {
    assert [c][..0] == [];
  }

  /** A match is the first candidate with the highest score. */
  lemma {:induction false} BestMatchIsFirstBest(query: string, candidates: seq<string>, score: Scorer)
    requires BestMatch(query, candidates, score).Some?
    ensures exists k :: IsFirstBest(query, candidates, score, k)
                        && candidates[k] == BestMatch(query, candidates, score).value
    decreases |candidates|
  {
    var n := |candidates|;
    var init := candidates[..n - 1];
    var previous := BestMatch(query, init, score);
    var last := candidates[n - 1];
    if score(query, last) > ScoreOf(query, previous, score) {
      if previous.Some? {
        BestMatchIsFirstBest(query, init, score);
        var k :| IsFirstBest(query, init, score, k) && init[k] == previous.value;
        LastBeatsFirstBest(query, candidates, score, k);
      } else {
        BestMatchNone(query, init, score);
        LastBeatsZeros(query, candidates, init, score);
      }
      assert IsFirstBest(query, candidates, score, n - 1);
    } else {
      BestMatchIsFirstBest(query, init, score);
      var k :| IsFirstBest(query, init, score, k) && init[k] == previous.value;
      FirstBestKept(query, candidates, score, k);
    }
  }

  /** A last candidate beating the first best of the others is the first best. */
  lemma LastBeatsFirstBest(query: string, candidates: seq<string>, score: Scorer, k: int)
    requires |candidates| > 0 && IsFirstBest(query, candidates[..|candidates| - 1], score, k)
    requires score(query, candidates[|candidates| - 1]) > score(query, candidates[..|candidates| - 1][k])
    ensures IsFirstBest(query, candidates, score, |candidates| - 1)
  {
    var init := candidates[..|candidates| - 1];
    assert forall j :: 0 <= j < |init| ==> init[j] == candidates[j];
  }

  /** A last candidate scoring above 0, after candidates that all score 0,
      is the first best. */
  lemma LastBeatsZeros(query: string, candidates: seq<string>, init: seq<string>, score: Scorer)
    requires |candidates| > 0 && init == candidates[..|candidates| - 1]
    requires forall j :: 0 <= j < |init| ==> score(query, init[j]) == 0
    requires score(query, candidates[|candidates| - 1]) > 0
    ensures IsFirstBest(query, candidates, score, |candidates| - 1)
  {
    assert forall j :: 0 <= j < |init| ==> init[j] == candidates[j];
  }

  /** The first best of the others stays first best when the last candidate
      does not beat it. */
  lemma FirstBestKept(query: string, candidates: seq<string>, score: Scorer, k: int)
    requires |candidates| > 0 && IsFirstBest(query, candidates[..|candidates| - 1], score, k)
    requires score(query, candidates[|candidates| - 1]) <= score(query, candidates[..|candidates| - 1][k])
    ensures IsFirstBest(query, candidates, score, k)
    ensures candidates[k] == candidates[..|candidates| - 1][k]
  {
    var init := candidates[..|candidates| - 1];
    assert forall j :: 0 <= j < |init| ==> init[j] == candidates[j];
  }

  /** Conversely, the first candidate with the highest score is the match,
      provided it scores above 0. */
  lemma {:induction false} FirstBestIsMatch(query: string, candidates: seq<string>, score: Scorer, k: int)
    requires IsFirstBest(query, candidates, score, k)
    requires score(query, candidates[k]) > 0
    ensures BestMatch(query, candidates, score) == Some(candidates[k])
    decreases |candidates|
  {
    var n := |candidates|;
    var init := candidates[..n - 1];
    assert forall j :: 0 <= j < |init| ==> init[j] == candidates[j];
    var previous := BestMatch(query, init, score);
    if k < n - 1 {
      assert IsFirstBest(query, init, score, k);
      FirstBestIsMatch(query, init, score, k);
    } else {
      if previous.Some? {
        BestMatchIsFirstBest(query, init, score);
      }
    }
  }

  /** The positions of a sequence after inserting `x` at index `p`. */
  lemma InsertedAt(s: seq<string>, p: nat, x: string)
    requires p <= |s|
    ensures var longer := s[..p] + [x] + s[p..];
      |longer| == |s| + 1 && longer[p] == x
      && (forall j :: 0 <= j < p ==> longer[j] == s[j])
      && (forall j :: p < j < |longer| ==> longer[j] == s[j - 1])
  {
  }

  /** Inserting a candidate that scores strictly lower than the current match,
      anywhere in the candidate sequence, does not change the match. */
  lemma InsertLowerScoring(query: string, candidates: seq<string>, score: Scorer, p: nat, x: string)
    requires p <= |candidates|
    requires BestMatch(query, candidates, score).Some?
    requires score(query, x) < score(query, BestMatch(query, candidates, score).value)
    ensures BestMatch(query, candidates[..p] + [x] + candidates[p..], score)
         == BestMatch(query, candidates, score)
  {
    BestMatchIsFirstBest(query, candidates, score);
    var k :| IsFirstBest(query, candidates, score, k)
             && candidates[k] == BestMatch(query, candidates, score).value;
    var k' := FirstBestInserted(query, candidates, score, k, p, x);
    FirstBestIsMatch(query, candidates[..p] + [x] + candidates[p..], score, k');
  }

  /** The first best candidate stays first best, one place later if the
      insertion comes before it, when the inserted candidate scores lower. */
  lemma FirstBestInserted(query: string, candidates: seq<string>, score: Scorer, k: int, p: nat, x: string)
    returns (k': int)
    requires p <= |candidates| && IsFirstBest(query, candidates, score, k)
    requires score(query, x) < score(query, candidates[k])
    ensures k' == (if k < p then k else k + 1)
    ensures IsFirstBest(query, candidates[..p] + [x] + candidates[p..], score, k')
    ensures (candidates[..p] + [x] + candidates[p..])[k'] == candidates[k]
  {
    var longer := candidates[..p] + [x] + candidates[p..];
    var e := candidates[k];
    InsertedAt(candidates, p, x);
    k' := if k < p then k else k + 1;
    assert longer[k'] == e;
    forall j | 0 <= j < |longer|
      ensures score(query, longer[j]) <= score(query, e)
      ensures j < k' ==> score(query, longer[j]) < score(query, e)
    {
      if j < p {
        assert longer[j] == candidates[j];
      } else if j > p {
        assert longer[j] == candidates[j - 1];
      }
    }
  }
}
