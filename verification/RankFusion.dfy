/** Weighted reciprocal rank fusion of the result lists of several query variants. */
module RankFusion {
  import opened Ranking

  /** One search result: the memory's identifier and its contents. */
  datatype Item = Item(id: Id, body: string)

  datatype Fused = Fused(item: Item, score: real)

  function Weight(variant: nat): real {
    if variant == 0 then 2.0 else 1.0
  }

  function Contribution(variant: nat, rank: nat): real {
    Weight(variant) / (60.0 + (rank + 1) as real)
  }

  /** What the first `n` results of one variant add to a memory's score. */
  function VariantScore(results: seq<Item>, variant: nat, id: Id, n: nat): real
    requires n <= |results|
  {
    if n == 0 then 0.0
    else VariantScore(results, variant, id, n - 1) + if results[n - 1].id == id then Contribution(variant, n - 1)
      else 0.0
  }

  /** The weighted reciprocal-rank sum over the first `v` variants. */
  function Score(variants: seq<seq<Item>>, id: Id, v: nat): real
    requires v <= |variants|
  {
    if v == 0 then 0.0 else Score(variants, id, v - 1) + VariantScore(variants[v - 1], v - 1, id, |variants[v - 1]|)
  }

  predicate Lists(results: seq<Item>, id: Id, n: nat)
    requires n <= |results|
  {
    exists r :: 0 <= r < n && results[r].id == id
  }

  predicate Listed(variants: seq<seq<Item>>, id: Id, v: nat)
    requires v <= |variants|
  {
    exists i :: 0 <= i < v && Lists(variants[i], id, |variants[i]|)
  }

  predicate SeenFirstAt(variants: seq<seq<Item>>, item: Item, v: int, r: int) {
    && 0 <= v < |variants| && 0 <= r < |variants[v]| && variants[v][r] == item
    && !Listed(variants, item.id, v) && !Lists(variants[v], item.id, r)
  }

  /** The item is the first result for its identifier, reading the variants in order. */
  ghost predicate FirstSeen(variants: seq<seq<Item>>, item: Item) {
    exists v, r :: SeenFirstAt(variants, item, v, r)
  }

  predicate Holds(fused: seq<Fused>, id: Id) {
    exists f :: f in fused && f.item.id == id
  }

  /** The best `limit` listed memories (all of them for a negative limit), each once, in descending score. */
  ghost predicate TopOf(variants: seq<seq<Item>>, limit: int, fused: seq<Fused>) {
    && (forall f :: f in fused ==>
          FirstSeen(variants, f.item) && Listed(variants, f.item.id, |variants|) &&
            f.score == Score(variants, f.item.id, |variants|))
    && (forall i, j :: 0 <= i < j < |fused| ==>
         fused[i].item.id != fused[j].item.id && fused[i].score >= fused[j].score)
    && (limit >= 0 ==> |fused| <= limit)
    && (forall id :: Listed(variants, id, |variants|) && !Holds(fused, id) ==>
          |fused| == limit && forall f :: f in fused ==> f.score >= Score(variants, id, |variants|))
  }

  /** The score table in ranked order: every listed memory once, with its score. */
  ghost predicate RanksAll(variants: seq<seq<Item>>, memories: map<Id, Item>, all: seq<Scored>) {
    && Descending(all) && DistinctIds(all)
    && (forall i :: 0 <= i < |all| ==> all[i].score == Score(variants, all[i].id, |variants|) && all[i].id in memories)
    && (forall id: Id :: Listed(variants, id, |variants|) ==> id in Ids(all))
  }

  lemma HeldSomewhere(fused: seq<Fused>, id: Id)
    ensures Holds(fused, id) <==> exists i :: 0 <= i < |fused| && fused[i].item.id == id
  {
    if i :| 0 <= i < |fused| && fused[i].item.id == id {
      assert fused[i] in fused;
    }
  }

  function ScoreIn(scores: map<Id, real>, id: Id): real {
    if id in scores then scores[id] else 0.0
  }

  /** The scores after the first `v` variants and `n` results of the next one. */
  ghost predicate Summed(variants: seq<seq<Item>>, scores: map<Id, real>, v: nat, n: nat)
    requires v <= |variants| && (if v < |variants| then n <= |variants[v]| else n == 0)
  {
    forall id: Id :: ScoreIn(scores, id) == Score(variants, id, v) + if n == 0 then 0.0
      else VariantScore(variants[v], v, id, n)
  }

  /** Each known memory keeps its first contents, and the known ones are those listed so far. */
  ghost predicate FirstContents(variants: seq<seq<Item>>, memories: map<Id, Item>, v: nat, n: nat)
    requires v <= |variants| && (if v < |variants| then n <= |variants[v]| else n == 0)
  {
    && (forall id :: id in memories <==> Listed(variants, id, v) || (n > 0 && Lists(variants[v], id, n)))
    && (forall id :: id in memories ==> memories[id].id == id && FirstSeen(variants, memories[id]))
  }

  lemma ScoredAreListed(variants: seq<seq<Item>>, scores: map<Id, real>, memories: map<Id, Item>, all: seq<Scored>)
    requires Summed(variants, scores, |variants|, 0) && FirstContents(variants, memories, |variants|, 0)
    requires scores.Keys == memories.Keys && Ids(all) == scores.Keys && Descending(all) && DistinctIds(all)
    requires forall e :: e in all ==> e.id in scores && e.score == scores[e.id]
    ensures RanksAll(variants, memories, all)
  {
    forall i | 0 <= i < |all| ensures all[i].score == Score(variants, all[i].id, |variants|) && all[i].id in memories {
      assert all[i] in all;
      assert ScoreIn(scores, all[i].id) == Score(variants, all[i].id, |variants|);
    }
  }

  lemma PrefixIsTop(variants: seq<seq<Item>>, limit: int, memories: map<Id, Item>, all: seq<Scored>, n: nat,
                    fused: seq<Fused>)
    requires RanksAll(variants, memories, all) && FirstContents(variants, memories, |variants|, 0)
    requires n == (if limit < 0 || limit > |all| then |all| else limit) && |fused| == n
    requires forall i :: 0 <= i < n ==> fused[i] == Fused(memories[all[i].id], all[i].score)
    ensures TopOf(variants, limit, fused)
  {
    forall id | Listed(variants, id, |variants|) && !Holds(fused, id)
      ensures |fused| == limit && forall f :: f in fused ==> f.score >= Score(variants, id, |variants|)
    {
      assert id in Ids(all);
      var k :| 0 <= k < |all| && all[k].id == id;
      HeldSomewhere(fused, id);
    }
  }

  lemma NextScores(variants: seq<seq<Item>>, before: map<Id, real>, after: map<Id, real>, v: nat, r: nat)
    requires v < |variants| && r < |variants[v]| && Summed(variants, before, v, r)
    requires var id := variants[v][r].id; after == before[id := ScoreIn(before, id) + Contribution(v, r)]
    ensures Summed(variants, after, v, r + 1)
  {
    forall id: Id
      ensures ScoreIn(after, id) == Score(variants, id, v) + VariantScore(variants[v], v, id, r + 1)
    {
      assert ScoreIn(before, id) == Score(variants, id, v) + VariantScore(variants[v], v, id, r);
    }
  }

  lemma NextContents(variants: seq<seq<Item>>, before: map<Id, Item>, after: map<Id, Item>, v: nat, r: nat)
    requires v < |variants| && r < |variants[v]| && FirstContents(variants, before, v, r)
    requires var item := variants[v][r]; after == if item.id in before then before else before[item.id := item]
    ensures FirstContents(variants, after, v, r + 1)
  {
    var item := variants[v][r];
    forall id: Id ensures Lists(variants[v], id, r + 1) <==> Lists(variants[v], id, r) || id == item.id {
    }
    if item.id !in before {
      assert SeenFirstAt(variants, item, v, r);
    }
  }

  lemma VariantEnds(variants: seq<seq<Item>>, scores: map<Id, real>, memories: map<Id, Item>, v: nat)
    requires v < |variants| && Summed(variants, scores, v, |variants[v]|) &&
               FirstContents(variants, memories, v, |variants[v]|)
    ensures Summed(variants, scores, v + 1, 0) && FirstContents(variants, memories, v + 1, 0)
  {
    forall id: Id
      ensures ScoreIn(scores, id) == Score(variants, id, v + 1)
      ensures id in memories <==> Listed(variants, id, v + 1)
    {
      assert ScoreIn(scores, id) == Score(variants, id, v) + VariantScore(variants[v], v, id, |variants[v]|);
      assert Listed(variants, id, v + 1) <==> Listed(variants, id, v) || Lists(variants[v], id, |variants[v]|);
    }
  }

  /** Sum the contributions of every result, remembering the first contents seen of each memory. */
  method Accumulate(variants: seq<seq<Item>>) returns (scores: map<Id, real>, memories: map<Id, Item>)
    ensures Summed(variants, scores, |variants|, 0)
    ensures scores.Keys == memories.Keys
    ensures FirstContents(variants, memories, |variants|, 0)
  {
    scores, memories := map[], map[];
    for v := 0 to |variants|
      invariant Summed(variants, scores, v, 0)
      invariant scores.Keys == memories.Keys
      invariant FirstContents(variants, memories, v, 0)
    {
      for r := 0 to |variants[v]|
        invariant Summed(variants, scores, v, r)
        invariant scores.Keys == memories.Keys
        invariant FirstContents(variants, memories, v, r)
      {
        var item := variants[v][r];
        ghost var scoresBefore, memoriesBefore := scores, memories;
        scores := scores[item.id := ScoreIn(scores, item.id) + Contribution(v, r)];
        if item.id !in memories {
          memories := memories[item.id := item];
        }
        NextScores(variants, scoresBefore, scores, v, r);
        NextContents(variants, memoriesBefore, memories, v, r);
      }
      VariantEnds(variants, scores, memories, v);
    }
  }

  /** The entries of the score table in any order. */
  method Entries(scores: map<Id, real>) returns (entries: seq<Scored>)
    ensures DistinctIds(entries) && Ids(entries) == scores.Keys
    ensures forall e :: e in entries ==> e.id in scores && e.score == scores[e.id]
  {
    entries := [];
    var rest := scores.Keys;
    while rest != {}
      invariant rest <= scores.Keys && Ids(entries) == scores.Keys - rest && DistinctIds(entries)
      invariant forall e :: e in entries ==> e.id in scores && e.score == scores[e.id]
      decreases rest
    {
      var x: Id :| x in rest;
      var next := Scored(x, scores[x]);
      SingleId(next);
      AppendIds(entries, [next]);
      entries := entries + [next];
      rest := rest - {x};
    }
  }

  method OuterRrf(variants: seq<seq<Item>>, limit: int) returns (fused: seq<Fused>)
    ensures TopOf(variants, limit, fused)
  {
    var scores: map<Id, real>, memories: map<Id, Item> := Accumulate(variants);
    var entries := Entries(scores);
    var ranked := SortDescending(entries);
    EntriesKept(entries, ranked);
    DistinctKept(entries, ranked);
    var n := if limit < 0 || limit > |ranked| then |ranked| else limit;
    ghost var all := ranked;
    ranked := ranked[..n];
    ScoredAreListed(variants, scores, memories, all);
    fused := seq(n, i requires 0 <= i < n => Fused(memories[ranked[i].id], ranked[i].score));
    PrefixIsTop(variants, limit, memories, all, n, fused);
  }

  // ---- the formula ---------------------------------------------------------------------

  /** Listed once, at this rank, or, for -1, not at all. */
  ghost predicate RankedIn(results: seq<Item>, id: Id, rank: int) {
    && -1 <= rank < |results|
    && forall r :: 0 <= r < |results| ==> (results[r].id == id <==> r == rank)
  }

  /** Where a memory is listed in each of the first `v` variants, counted from 0. */
  ghost predicate RankedAt(variants: seq<seq<Item>>, id: Id, ranks: seq<int>, v: nat) {
    && v <= |variants| == |ranks|
    && forall i :: 0 <= i < v ==> RankedIn(variants[i], id, ranks[i])
  }

  /** 2/(61 + rank) for the first variant and 1/(61 + rank) for every other one that lists the memory. */
  function Reciprocals(ranks: seq<int>, v: nat): real
    requires v <= |ranks| && forall i :: 0 <= i < v ==> ranks[i] >= -1
  {
    if v == 0 then 0.0
    else
      Reciprocals(ranks, v - 1)
      + if ranks[v - 1] == -1 then 0.0
        else if v == 1 then 2.0 / (61.0 + ranks[v - 1] as real)
        else 1.0 / (61.0 + ranks[v - 1] as real)
  }

  lemma {:induction false} VariantScoreAt(results: seq<Item>, variant: nat, id: Id, rank: int, n: nat)
    requires n <= |results| && RankedIn(results, id, rank)
    ensures VariantScore(results, variant, id, n)
            == if 0 <= rank < n then (if variant == 0 then 2.0 else 1.0) / (61.0 + rank as real) else 0.0
  {
    if n == 0 {
    } else {
      VariantScoreAt(results, variant, id, rank, n - 1);
      assert results[n - 1].id == id <==> n - 1 == rank;
      assert 60.0 + n as real == 61.0 + (n - 1) as real;
    }
  }

  /** The score of a memory listed at most once per variant is the sum of its weighted reciprocal ranks. */
  lemma {:induction false} ScoreIsReciprocals(variants: seq<seq<Item>>, id: Id, ranks: seq<int>, v: nat)
    requires RankedAt(variants, id, ranks, v)
    ensures Score(variants, id, v) == Reciprocals(ranks, v)
  {
    if v == 0 {
    } else {
      ScoreIsReciprocals(variants, id, ranks, v - 1);
      VariantScoreAt(variants[v - 1], v - 1, id, ranks[v - 1], |variants[v - 1]|);
    }
  }

  // ---- dominance -----------------------------------------------------------------------

  predicate DistinctItems(results: seq<Item>) {
    forall i, j :: 0 <= i < j < |results| ==> results[i].id != results[j].id
  }

  /** Wherever `b` is listed, `a` is listed ahead of it. */
  predicate AheadIn(results: seq<Item>, a: Id, b: Id) {
    forall r :: 0 <= r < |results| && results[r].id == b ==> exists q :: 0 <= q < r && results[q].id == a
  }

  lemma {:induction false} VariantScoreOf(results: seq<Item>, variant: nat, id: Id, n: nat)
    requires n <= |results| && DistinctItems(results)
    ensures VariantScore(results, variant, id, n) >= 0.0
    ensures !Lists(results, id, n) ==> VariantScore(results, variant, id, n) == 0.0
    ensures forall r :: 0 <= r < n && results[r].id == id ==>
              VariantScore(results, variant, id, n) == Contribution(variant, r)
  {
    if n == 0 {
    } else {
      VariantScoreOf(results, variant, id, n - 1);
      var last := results[n - 1];
      if last.id == id {
        assert !Lists(results, id, n - 1);
        assert VariantScore(results, variant, id, n) == Contribution(variant, n - 1);
        assert Lists(results, id, n);
      } else {
        assert VariantScore(results, variant, id, n) == VariantScore(results, variant, id, n - 1);
        assert Lists(results, id, n - 1) ==> Lists(results, id, n);
      }
    }
  }

  lemma PositiveFactor(p: real, x: real)
    requires 0.0 < x && 0.0 < p * x
    ensures 0.0 < p
  {
  }

  lemma SmallerDivisor(w: real, x: real, y: real)
    requires 0.0 < w && 0.0 < x < y
    ensures w / x > w / y > 0.0
  {
    var a, b := w / x, w / y;
    assert a * x == w && b * y == w;
    assert (a - b) * x == b * (y - x);
    PositiveFactor(a - b, x);
  }

  lemma EarlierContributesMore(variant: nat, q: nat, r: nat)
    requires q < r
    ensures Contribution(variant, q) > Contribution(variant, r) > 0.0
  {
    SmallerDivisor(Weight(variant), 60.0 + (q + 1) as real, 60.0 + (r + 1) as real);
  }

  lemma VariantDominance(results: seq<Item>, variant: nat, a: Id, b: Id)
    requires DistinctItems(results) && AheadIn(results, a, b)
    ensures VariantScore(results, variant, a, |results|) >= VariantScore(results, variant, b, |results|)
    ensures Lists(results, b, |results|) ==>
              VariantScore(results, variant, a, |results|) > VariantScore(results, variant, b, |results|)
  {
    VariantScoreOf(results, variant, a, |results|);
    VariantScoreOf(results, variant, b, |results|);
    if Lists(results, b, |results|) {
      var r :| 0 <= r < |results| && results[r].id == b;
      var q :| 0 <= q < r && results[q].id == a;
      EarlierContributesMore(variant, q, r);
    }
  }

  /** A memory listed ahead of another in every variant that lists the other scores strictly higher. */
  lemma {:induction false} AheadScoresHigher(variants: seq<seq<Item>>, a: Id, b: Id, v: nat)
    requires v <= |variants|
    requires forall i :: 0 <= i < v ==> DistinctItems(variants[i]) && AheadIn(variants[i], a, b)
    ensures Score(variants, a, v) >= Score(variants, b, v)
    ensures Listed(variants, b, v) ==> Score(variants, a, v) > Score(variants, b, v)
  {
    if v == 0 {
    } else {
      AheadScoresHigher(variants, a, b, v - 1);
      VariantDominance(variants[v - 1], v - 1, a, b);
    }
  }

  lemma AheadIsListed(variants: seq<seq<Item>>, a: Id, b: Id)
    requires Listed(variants, b, |variants|)
    requires forall i :: 0 <= i < |variants| ==> AheadIn(variants[i], a, b)
    ensures Listed(variants, a, |variants|)
  {
    var i :| 0 <= i < |variants| && Lists(variants[i], b, |variants[i]|);
    var r :| 0 <= r < |variants[i]| && variants[i][r].id == b;
    assert AheadIn(variants[i], a, b);
    var q :| 0 <= q < r && variants[i][q].id == a;
    assert Lists(variants[i], a, |variants[i]|);
  }

  /** Such a memory precedes the other in every fused list that holds the other. */
  lemma AheadComesFirst(variants: seq<seq<Item>>, limit: int, fused: seq<Fused>, a: Id, j: nat)
    requires TopOf(variants, limit, fused) && j < |fused|
    requires forall i :: 0 <= i < |variants| ==> DistinctItems(variants[i]) && AheadIn(variants[i], a, fused[j].item.id)
    ensures exists i :: 0 <= i < j && fused[i].item.id == a
  {
    var b := fused[j].item.id;
    assert fused[j] in fused;
    AheadScoresHigher(variants, a, b, |variants|);
    AheadIsListed(variants, a, b);
    var f :| f in fused && f.item.id == a;
    var i :| 0 <= i < |fused| && fused[i] == f;
  }

  lemma HeldNext(fused: seq<Fused>, n: nat)
    requires |fused| == n + 1
    requires forall i, j :: 0 <= i < j < |fused| ==> fused[i].item.id != fused[j].item.id
    ensures var fewer := set i | 0 <= i < |fused[..n]| :: fused[..n][i].item.id;
            fused[n].item.id !in fewer && (set i | 0 <= i < |fused| :: fused[i].item.id) == fewer + {fused[n].item.id}
  {
    var fewer := set i | 0 <= i < |fused[..n]| :: fused[..n][i].item.id;
    var held := set i | 0 <= i < |fused| :: fused[i].item.id;
    forall id | id in fewer ensures id in held && id != fused[n].item.id {
      var i :| 0 <= i < n && fused[..n][i].item.id == id;
      assert fused[i].item.id == id;
    }
    forall id | id in held ensures id in fewer || id == fused[n].item.id {
      var i :| 0 <= i < |fused| && fused[i].item.id == id;
      assert i < n ==> fused[..n][i].item.id == id;
    }
  }

  lemma {:induction false} HeldCount(fused: seq<Fused>)
    requires forall i, j :: 0 <= i < j < |fused| ==> fused[i].item.id != fused[j].item.id
    ensures |set i | 0 <= i < |fused| :: fused[i].item.id| == |fused|
  {
    if fused == [] {
    } else {
      var n := |fused| - 1;
      HeldCount(fused[..n]);
      HeldNext(fused, n);
    }
  }

  lemma CountWithin(a: set<Id>, b: set<Id>)
    requires a <= b
    ensures |a| <= |b| && (a != b ==> |a| < |b|)
  {
    assert b == a + (b - a);
  }

  /** The fused length: every listed memory, or the limit if that is fewer. */
  lemma TopIsExact(variants: seq<seq<Item>>, limit: int, fused: seq<Fused>, ids: set<Id>)
    requires TopOf(variants, limit, fused)
    requires forall id: Id :: id in ids <==> Listed(variants, id, |variants|)
    ensures |fused| == if 0 <= limit < |ids| then limit else |ids|
  {
    var held := set i | 0 <= i < |fused| :: fused[i].item.id;
    HeldCount(fused);
    forall id | id in held ensures id in ids {
      var i :| 0 <= i < |fused| && fused[i].item.id == id;
      assert fused[i] in fused;
    }
    CountWithin(held, ids);
    if held != ids {
      var id: Id :| id in ids && id !in held;
      HeldSomewhere(fused, id);
    }
  }
}
