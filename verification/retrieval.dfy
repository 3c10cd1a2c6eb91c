/** Search hits: over-fetching past deleted documents, and merging searches into evidence. */
module Retrieval {
  import opened Results
  import opened Text
  import opened Sorting

  datatype Hit = Hit(chunk: Option<int>, document: Option<int>, text: string, similarity: Option<real>, rank: int)

  // ---------------------------------------------------------------------------
  // drop_deleted_documents
  // ---------------------------------------------------------------------------

  /** A hit stays when it names no document or its document still exists. */
  predicate Lives(h: Hit, live: set<int>) {
    h.document.None? || h.document.value in live
  }

  function LiveHits(hits: seq<Hit>, live: set<int>): seq<Hit> {
    if hits == [] then [] else (if Lives(hits[0], live) then [hits[0]] else []) + LiveHits(hits[1..], live)
  }

  function Take<T>(s: seq<T>, n: nat): seq<T> {
    if n <= |s| then s[..n] else s
  }

  /** Ranks rewritten to 1, 2, 3, ... */
  function Renumbered(hits: seq<Hit>): seq<Hit> {
    seq(|hits|, i requires 0 <= i < |hits| => hits[i].(rank := i + 1))
  }

  /** The row is of no document, or of one that is live. */
  predicate Current(h: Hit, live: set<int>) {
    match h.document
    case None => true
    case Some(d) => d in live
  }

  /** The rows kept stand at these places, one after the other, and are current. */
  ghost predicate StandAt(kept: seq<Hit>, rows: seq<Hit>, live: set<int>, at: seq<nat>) {
    && |kept| == |at|
    && (forall i :: 0 <= i < |at| ==> at[i] < |rows| && kept[i] == rows[at[i]] && Current(kept[i], live))
    && forall i, j :: 0 <= i < j < |at| ==> at[i] < at[j]
  }

  ghost predicate Among(k: nat, at: seq<nat>) {
    exists i :: 0 <= i < |at| && at[i] == k
  }

  /** The rows kept are the first `limit` current ones, in order: no current row is passed over, and none is left out
      while the limit is not filled. */
  ghost predicate FirstAt(kept: seq<Hit>, rows: seq<Hit>, live: set<int>, limit: nat, at: seq<nat>) {
    && StandAt(kept, rows, live, at) && |kept| <= limit
    && forall k: nat :: k < |rows| && Current(rows[k], live) ==>
         Among(k, at) || (|kept| == limit && forall i :: 0 <= i < |at| ==> at[i] < k)
  }

  ghost predicate FirstCurrent(kept: seq<Hit>, rows: seq<Hit>, live: set<int>, limit: nat) {
    exists at :: FirstAt(kept, rows, live, limit, at)
  }

  lemma {:induction false} LiveHitsConcat(a: seq<Hit>, b: seq<Hit>, live: set<int>)
    ensures LiveHits(a + b, live) == LiveHits(a, live) + LiveHits(b, live)
    ensures |LiveHits(a, live)| <= |a|
  {
    if a == [] {
      assert a + b == b;
    } else {
      assert (a + b)[1..] == a[1..] + b;
      LiveHitsConcat(a[1..], b, live);
    }
  }

  lemma OneLive(h: Hit, live: set<int>)
    ensures Lives(h, live) <==> Current(h, live)
    ensures LiveHits([h], live) == if Current(h, live) then [h] else []
  {
    assert [h][1..] == [];
  }

  lemma StandSnoc(kept: seq<Hit>, init: seq<Hit>, x: Hit, live: set<int>, at: seq<nat>)
    requires StandAt(kept, init, live, at)
    ensures StandAt(kept, init + [x], live, at)
    ensures Current(x, live) ==> StandAt(kept + [x], init + [x], live, at + [|init|])
  {
    hide Current;
    assert forall k :: 0 <= k < |init| ==> (init + [x])[k] == init[k];
  }

  lemma AmongSnoc(k: nat, at: seq<nat>, n: nat)
    ensures Among(k, at + [n]) <==> Among(k, at) || k == n
  {
    var more := at + [n];
    assert more[|at|] == n && forall i :: 0 <= i < |at| ==> more[i] == at[i];
  }

  lemma {:induction false} LiveAt(rows: seq<Hit>, live: set<int>) returns (at: seq<nat>)
    ensures StandAt(LiveHits(rows, live), rows, live, at)
    ensures forall k: nat :: k < |rows| && Current(rows[k], live) ==> Among(k, at)
  {
    if rows == [] {
      at := [];
    } else {
      var init, x := rows[..|rows| - 1], rows[|rows| - 1];
      assert rows == init + [x];
      var before := LiveAt(init, live);
      LiveHitsConcat(init, [x], live);
      OneLive(x, live);
      StandSnoc(LiveHits(init, live), init, x, live, before);
      hide LiveHits, StandAt, Current, Among;
      at := if Current(x, live) then before + [|init|] else before;
      forall k: nat | k < |rows| && Current(rows[k], live) ensures Among(k, at) {
        AmongSnoc(k, before, |init|);
        assert k < |init| ==> init[k] == rows[k];
      }
    }
  }

  lemma FirstOfLive(rows: seq<Hit>, live: set<int>, limit: nat)
    ensures FirstCurrent(Take(LiveHits(rows, live), limit), rows, live, limit)
  {
    var at := LiveAt(rows, live);
    hide LiveHits, Current;
    var first := Take(at, limit);
    forall k: nat | k < |rows| && Current(rows[k], live)
      ensures Among(k, first) || (|first| == limit && forall i :: 0 <= i < |first| ==> first[i] < k)
    {
      var i :| 0 <= i < |at| && at[i] == k;
      assert i < limit ==> first[i] == k;
    }
    assert FirstAt(Take(LiveHits(rows, live), limit), rows, live, limit, first);
  }

  /** The rows returned are, apart from their ranks, the first `limit` that are of no document or of a live one; their
      ranks are 1, 2, 3, ... */
  method DropDeletedDocuments(rows: seq<Hit>, live: set<int>, limit: nat) returns (kept: seq<Hit>)
    ensures kept == Renumbered(Take(LiveHits(rows, live), limit))
    ensures exists cut: seq<Hit> :: FirstCurrent(cut, rows, live, limit)
                          && |kept| == |cut| && forall i :: 0 <= i < |cut| ==> kept[i] == cut[i].(rank := i + 1)
  {
    var cut := Take(LiveHits(rows, live), limit);
    FirstOfLive(rows, live, limit);
    hide LiveHits, FirstCurrent;
    kept := cut;
    for i := 0 to |kept|
      invariant |kept| == |cut|
      invariant forall k :: 0 <= k < i ==> kept[k] == cut[k].(rank := k + 1)
      invariant forall k :: i <= k < |cut| ==> kept[k] == cut[k]
    {
      kept := kept[i := kept[i].(rank := i + 1)];
    }
  }

  const SEARCH_OVERFETCH := 3
  const SEARCH_FETCH_MAX := 600

  function Fetch(limit: nat): nat {
    if limit * SEARCH_OVERFETCH <= SEARCH_FETCH_MAX then limit * SEARCH_OVERFETCH else SEARCH_FETCH_MAX
  }

  /** What a search returns: the best `Fetch(limit)` of the engine's full ranking, the dead dropped, cut to the
      limit. */
  function Searched(ranking: seq<Hit>, live: set<int>, limit: nat): seq<Hit> {
    Take(LiveHits(Take(ranking, Fetch(limit)), live), limit)
  }

  /** What it should return: the best live hits of the full ranking. */
  function BestLive(ranking: seq<Hit>, live: set<int>, limit: nat): seq<Hit> {
    Take(LiveHits(ranking, live), limit)
  }

  /** The ideal answer is the first `limit` current hits of the whole ranking. The search never returns a wrong hit,
      only possibly too few: it is a prefix of the ideal answer, and equals it exactly when it is full or no current hit
      is left beyond the first three times the limit, or 600, that were fetched. */
  lemma OverfetchIsExact(ranking: seq<Hit>, live: set<int>, limit: nat)
    ensures FirstCurrent(BestLive(ranking, live, limit), ranking, live, limit)
    ensures Searched(ranking, live, limit) <= BestLive(ranking, live, limit)
    ensures Searched(ranking, live, limit) == BestLive(ranking, live, limit) <==>
            || |Searched(ranking, live, limit)| == limit
            || forall k :: 3 * limit <= k < |ranking| || 600 <= k < |ranking| ==> !Current(ranking[k], live)
  {
    var fetched := Take(ranking, Fetch(limit));
    var rest := ranking[|fetched|..];
    assert ranking == fetched + rest;
    FirstOfLive(ranking, live, limit);
    LiveHitsConcat(fetched, rest, live);
    NoneLive(rest, live);
    var a, b := LiveHits(fetched, live), LiveHits(rest, live);
    TakePrefix(a, b, limit);
    RestIs(ranking, Fetch(limit), live);
    hide LiveHits, Current, FirstCurrent, Take;
  }

  lemma TakePrefix<T>(a: seq<T>, b: seq<T>, limit: nat)
    ensures Take(a, limit) <= Take(a + b, limit)
    ensures Take(a, limit) == Take(a + b, limit) <==> |Take(a, limit)| == limit || b == []
  {
    if |a| < limit && b != [] {
      assert |Take(a + b, limit)| > |a|;
    }
  }

  lemma RestIs(ranking: seq<Hit>, n: nat, live: set<int>)
    ensures var rest := ranking[|Take(ranking, n)|..];
            (forall k :: 0 <= k < |rest| ==> !Current(rest[k], live))
            <==> forall k :: n <= k < |ranking| ==> !Current(ranking[k], live)
  {
    hide Current;
    var rest := ranking[|Take(ranking, n)|..];
    assert forall k :: n <= k < |ranking| ==> rest[k - n] == ranking[k];
    assert forall k :: 0 <= k < |rest| ==> rest[k] == ranking[n + k];
  }

  lemma {:induction false} NoneLive(rows: seq<Hit>, live: set<int>)
    ensures LiveHits(rows, live) == [] <==> forall k :: 0 <= k < |rows| ==> !Current(rows[k], live)
  {
    if rows != [] {
      NoneLive(rows[1..], live);
      OneLive(rows[0], live);
      assert forall k :: 0 < k < |rows| ==> rows[k] == rows[1..][k - 1];
    }
  }

  /** How many of the first `n` hits of the ranking are of deleted documents. */
  function Dead(ranking: seq<Hit>, live: set<int>, n: nat): nat
    requires n <= |ranking|
  {
    if n == 0 then 0 else Dead(ranking, live, n - 1) + if Current(ranking[n - 1], live) then 0 else 1
  }

  lemma {:induction false} DeadAndLive(ranking: seq<Hit>, live: set<int>, n: nat)
    requires n <= |ranking|
    ensures Dead(ranking, live, n) + |LiveHits(ranking[..n], live)| == n
  {
    if n == 0 {
      assert ranking[..0] == [];
    } else {
      var x := ranking[n - 1];
      DeadAndLive(ranking, live, n - 1);
      assert ranking[..n] == ranking[..n - 1] + [x];
      LiveHitsConcat(ranking[..n - 1], [x], live);
      OneLive(x, live);
    }
  }

  /** Up to a limit of 200, a search that loses at most twice its limit to deleted documents loses nothing. */
  lemma OverfetchFillsTheLimit(ranking: seq<Hit>, live: set<int>, limit: nat)
    requires limit <= 200
    ensures Dead(ranking, live, if 3 * limit <= |ranking| then 3 * limit else |ranking|) <= 2 * limit
            ==> Searched(ranking, live, limit) == BestLive(ranking, live, limit)
  {
    OverfetchIsExact(ranking, live, limit);
    var fetched := Take(ranking, Fetch(limit));
    DeadAndLive(ranking, live, |fetched|);
    assert ranking[..|fetched|] == fetched;
  }

  // ---------------------------------------------------------------------------
  // retrieve_evidence: the merge
  // ---------------------------------------------------------------------------

  /** A hit that may become evidence: a chunk, a similarity not under the floor, and text in it. */
  predicate Usable(h: Hit, floor: real) {
    h.chunk.Some? && h.similarity.Some? && h.similarity.value >= floor && Strip(h.text) != ""
  }

  /** The best hit per chunk; chunks in the order they were first met, as a dictionary keeps its keys. */
  datatype BestHits = BestHits(order: seq<int>, hits: map<int, Hit>)

  type Best = b: BestHits | forall c :: c in b.order ==> c in b.hits witness BestHits([], map[])

  function Keep(best: Best, h: Hit, floor: real): Best {
    if !Usable(h, floor) then best
    else
      var c := h.chunk.value;
      if c !in best.hits then BestHits(best.order + [c], best.hits[c := h])
      else if best.hits[c].similarity.Some? && h.similarity.value > best.hits[c].similarity.value
        then best.(hits := best.hits[c := h])
      else best
  }

  function KeepAll(best: Best, hits: seq<Hit>, floor: real): Best
    decreases |hits|
  {
    if hits == [] then best else KeepAll(Keep(best, hits[0], floor), hits[1..], floor)
  }

  function Flatten(results: seq<seq<Hit>>): seq<Hit> {
    if results == [] then [] else results[0] + Flatten(results[1..])
  }

  ghost predicate ValidBest(best: Best, floor: real) {
    && (forall c :: c in best.hits ==> c in best.order)
    && (forall i, j :: 0 <= i < j < |best.order| ==> best.order[i] != best.order[j])
    && forall c :: c in best.hits ==> Usable(best.hits[c], floor) && best.hits[c].chunk.value == c
  }

  function Sim(h: Hit): real {
    if h.similarity.Some? then h.similarity.value else 0.0
  }

  predicate NotWorse(a: Hit, b: Hit) {
    Sim(a) >= Sim(b)
  }

  /** `sorted(..., key=-similarity)`: stable, best first. */
  function SortBest(hits: seq<Hit>): seq<Hit> {
    Sort(NotWorse, hits)
  }

  function Values(best: Best): seq<Hit> {
    seq(|best.order|, i requires 0 <= i < |best.order| => assert best.order[i] in best.order; best.hits[best.order[i]])
  }

  function Ranked(best: Best, max: nat): seq<Hit> {
    Take(SortBest(Values(best)), max)
  }

  const EMPTY: Best := BestHits([], map[])

  lemma KeepValid(best: Best, h: Hit, floor: real)
    requires ValidBest(best, floor)
    ensures ValidBest(Keep(best, h, floor), floor)
  {}

  /** One numbered item; the text is cut to the evidence length. */
  datatype Item = Item(n: int, hit: Hit, text: string)

  const EVIDENCE_CHARS := 2000

  function NumberFrom(hits: seq<Hit>): seq<Item> {
    seq(|hits|, i requires 0 <= i < |hits| => Item(i + 1, hits[i], Take(hits[i].text, EVIDENCE_CHARS)))
  }

  function Merged(results: seq<seq<Hit>>, floor: real, max: nat): seq<Item> {
    NumberFrom(Ranked(KeepAll(EMPTY, Flatten(results), floor), max))
  }

  lemma {:induction false} KeepAllConcat(best: Best, a: seq<Hit>, b: seq<Hit>, floor: real)
    ensures KeepAll(best, a + b, floor) == KeepAll(KeepAll(best, a, floor), b, floor)
    decreases |a|
  {
    hide Keep;
    if a == [] {
      assert a + b == b;
    } else {
      assert (a + b)[1..] == a[1..] + b;
      KeepAllConcat(Keep(best, a[0], floor), a[1..], b, floor);
    }
  }

  /** The loops over subjects and rows compute the merge. */
  method MergeEvidence(results: seq<seq<Hit>>, floor: real, max: nat) returns (evidence: seq<Item>)
    ensures evidence == Merged(results, floor, max)
  {
    hide Strip;
    var order: seq<int>, hits: map<int, Hit> := [], map[];
    for i := 0 to |results|
      invariant forall c :: c in order ==> c in hits
      invariant KeepAll(EMPTY, Flatten(results), floor) == KeepAll(BestHits(order, hits), Flatten(results[i..]), floor)
    {
      assert results[i..][1..] == results[i + 1..];
      ghost var before: Best := BestHits(order, hits);
      var rows := results[i];
      for j := 0 to |rows|
        invariant forall c :: c in order ==> c in hits
        invariant KeepAll(before, rows, floor) == KeepAll(BestHits(order, hits), rows[j..], floor)
      {
        var row := rows[j];
        assert rows[j..][1..] == rows[j + 1..];
        if Usable(row, floor) {
          var c := row.chunk.value;
          if c !in hits {
            order, hits := order + [c], hits[c := row];
          } else if hits[c].similarity.Some? && row.similarity.value > hits[c].similarity.value {
            hits := hits[c := row];
          }
        }
      }
      KeepAllConcat(before, rows, Flatten(results[i + 1..]), floor);
    }
    return NumberFrom(Ranked(BestHits(order, hits), max));
  }

  // ---------------------------------------------------------------------------
  // The merge is the global best
  // ---------------------------------------------------------------------------

  ghost predicate Descending(hits: seq<Hit>) {
    forall i, j :: 0 <= i < j < |hits| ==> Sim(hits[i]) >= Sim(hits[j])
  }

  lemma NotWorseOrders()
    ensures Preorder(NotWorse)
  {}

  lemma SortBestSorts(hits: seq<Hit>)
    ensures Descending(SortBest(hits)) && multiset(SortBest(hits)) == multiset(hits)
    ensures |SortBest(hits)| == |hits|
    ensures forall x :: x in SortBest(hits) <==> x in hits
  {
    NotWorseOrders();
    SortSorts(NotWorse, hits);
    SortSize(NotWorse, hits);
    hide Sim;
    forall i, j | 0 <= i < j < |SortBest(hits)| ensures Sim(SortBest(hits)[i]) >= Sim(SortBest(hits)[j]) {
      assert NotWorse(SortBest(hits)[i], SortBest(hits)[j]);
    }
  }

  lemma KeepStep(best: Best, h: Hit, floor: real)
    requires ValidBest(best, floor)
    ensures var next := Keep(best, h, floor);
            && (forall c :: c in best.hits ==> c in next.hits && Sim(next.hits[c]) >= Sim(best.hits[c]))
            && (Usable(h, floor) ==> h.chunk.value in next.hits && Sim(next.hits[h.chunk.value]) >= Sim(h))
            && (forall c :: c in next.hits ==> next.hits[c] == h || (c in best.hits && next.hits[c] == best.hits[c]))
  {
    hide Strip;
  }

  /** Nothing usable is lost, and no kept hit is ever replaced by a worse one. */
  lemma {:induction false} KeepAllCovers(best: Best, hits: seq<Hit>, floor: real)
    requires ValidBest(best, floor)
    ensures ValidBest(KeepAll(best, hits, floor), floor)
    ensures forall c :: c in best.hits ==>
      c in KeepAll(best, hits, floor).hits && Sim(KeepAll(best, hits, floor).hits[c]) >= Sim(best.hits[c])
    ensures forall h :: h in hits && Usable(h, floor) ==>
      h.chunk.value in KeepAll(best, hits, floor).hits && Sim(KeepAll(best, hits, floor).hits[h.chunk.value]) >= Sim(h)
    ensures forall c :: c in KeepAll(best, hits, floor).hits ==>
      || KeepAll(best, hits, floor).hits[c] in hits
      || (c in best.hits && KeepAll(best, hits, floor).hits[c] == best.hits[c])
    decreases |hits|
  {
    if hits != [] {
      hide Strip, Keep, ValidBest;
      var next := Keep(best, hits[0], floor);
      KeepValid(best, hits[0], floor);
      KeepStep(best, hits[0], floor);
      KeepAllCovers(next, hits[1..], floor);
      assert hits == [hits[0]] + hits[1..];
    }
  }

  lemma {:induction false} InFlatten(results: seq<seq<Hit>>, j: nat, h: Hit)
    requires j < |results| && h in results[j]
    ensures h in Flatten(results)
  {
    if j > 0 {
      InFlatten(results[1..], j - 1, h);
    }
  }

  lemma {:induction false} FromFlatten(results: seq<seq<Hit>>, h: Hit)
    requires h in Flatten(results)
    ensures exists j :: 0 <= j < |results| && h in results[j]
  {
    if h !in results[0] {
      FromFlatten(results[1..], h);
      var j :| 0 <= j < |results[1..]| && h in results[1..][j];
      assert h in results[j + 1];
    } else {
      assert h in results[0];
    }
  }

  function ChunkOf(h: Hit): int {
    if h.chunk.Some? then h.chunk.value else 0
  }

  ghost function Chunks(hits: seq<Hit>): set<int> {
    set h | h in hits :: ChunkOf(h)
  }

  ghost predicate DistinctChunks(hits: seq<Hit>) {
    forall i, j :: 0 <= i < j < |hits| ==> ChunkOf(hits[i]) != ChunkOf(hits[j])
  }

  lemma ChunksSnoc(init: seq<Hit>, x: Hit)
    ensures Chunks(init + [x]) == Chunks(init) + {ChunkOf(x)}
    ensures DistinctChunks(init + [x]) ==> DistinctChunks(init) && ChunkOf(x) !in Chunks(init)
    ensures DistinctChunks(init) && ChunkOf(x) !in Chunks(init) ==> DistinctChunks(init + [x])
  {
    hide ChunkOf;
    var hits := init + [x];
    assert forall i :: 0 <= i < |init| ==> hits[i] == init[i] && init[i] in init;
    assert hits[|init|] == x;
    assert forall h :: h in hits <==> h in init || h == x;
    if DistinctChunks(hits) {
      forall i, j | 0 <= i < j < |init| ensures ChunkOf(init[i]) != ChunkOf(init[j]) {
        assert ChunkOf(hits[i]) != ChunkOf(hits[j]);
      }
      forall h | h in init ensures ChunkOf(h) != ChunkOf(x) {
        var i :| 0 <= i < |init| && init[i] == h;
        assert ChunkOf(hits[i]) != ChunkOf(hits[|init|]);
      }
    }
  }

  lemma {:induction false} ChunksSize(hits: seq<Hit>)
    ensures |Chunks(hits)| <= |hits|
    ensures DistinctChunks(hits) ==> |Chunks(hits)| == |hits|
  {
    if hits != [] {
      hide Chunks, DistinctChunks, ChunkOf;
      var init, x := hits[..|hits| - 1], hits[|hits| - 1];
      ChunksSize(init);
      assert hits == init + [x];
      ChunksSnoc(init, x);
    }
  }

  lemma SubsetSize(a: set<int>, b: set<int>)
    requires a <= b
    ensures |a| <= |b|
  {
    assert |b| == |a| + |b - a| by {
      assert b == a + (b - a);
    }
  }

  /** The best-first hits of one subject: each chunk once, each with a similarity and some text. */
  ghost predicate Compartment(full: seq<Hit>) {
    && Descending(full) && DistinctChunks(full)
    && forall h :: h in full ==> h.chunk.Some? && h.similarity.Some? && Strip(h.text) != ""
  }

  lemma ValuesAre(best: Best, floor: real)
    requires ValidBest(best, floor)
    ensures forall x :: x in Values(best) <==> exists c :: c in best.hits && x == best.hits[c]
  {
    hide Usable;
    var vs := Values(best);
    forall x ensures x in vs <==> exists c :: c in best.hits && x == best.hits[c] {
      if x in vs {
        var i :| 0 <= i < |vs| && vs[i] == x;
        assert best.order[i] in best.order;
      }
      if c :| c in best.hits && x == best.hits[c] {
        var i :| 0 <= i < |best.order| && best.order[i] == c;
        assert vs[i] == x;
      }
    }
  }

  /** The kept values, sorted, are distinct chunks. */
  lemma ValuesDistinct(best: Best, floor: real)
    requires ValidBest(best, floor)
    ensures var sorted := SortBest(Values(best));
            && Descending(sorted)
            && (forall x :: x in sorted <==> exists c :: c in best.hits && x == best.hits[c])
            && Chunks(sorted) == best.hits.Keys && DistinctChunks(sorted)
  {
    hide Usable, SortBest, Chunks, Descending, DistinctChunks;
    var sorted := SortBest(Values(best));
    SortBestSorts(Values(best));
    ValuesAre(best, floor);
    ValuesChunks(best, floor, sorted);
    KeysSize(best, floor);
    ChunksSizeForces(sorted);
  }

  lemma KeysSize(best: Best, floor: real)
    requires ValidBest(best, floor)
    ensures |best.hits.Keys| == |best.order|
  {
    hide Usable;
    OrderSize(best.order);
    var keys := set i | 0 <= i < |best.order| :: best.order[i];
    forall c ensures c in keys <==> c in best.hits {
      if c in best.hits {
        var i :| 0 <= i < |best.order| && best.order[i] == c;
      }
      if c in keys {
        var i :| 0 <= i < |best.order| && best.order[i] == c;
        assert c in best.order;
      }
    }
    assert keys == best.hits.Keys;
  }

  lemma ValuesChunks(best: Best, floor: real, sorted: seq<Hit>)
    requires ValidBest(best, floor)
    requires forall x :: x in sorted <==> exists c :: c in best.hits && x == best.hits[c]
    ensures Chunks(sorted) == best.hits.Keys
  {
    hide Strip;
    forall c | c in best.hits ensures c in Chunks(sorted) {
      assert best.hits[c] in sorted && ChunkOf(best.hits[c]) == c;
    }
    forall c | c in Chunks(sorted) ensures c in best.hits {
      var x := InChunks(sorted, c);
      var d :| d in best.hits && x == best.hits[d];
    }
  }

  lemma {:induction false} OrderSize(order: seq<int>)
    requires forall i, j :: 0 <= i < j < |order| ==> order[i] != order[j]
    ensures |set i | 0 <= i < |order| :: order[i]| == |order|
  {
    if order != [] {
      var init, x := order[..|order| - 1], order[|order| - 1];
      OrderSize(init);
      assert (set i | 0 <= i < |order| :: order[i]) == (set i | 0 <= i < |init| :: init[i]) + {x};
    }
  }

  /** As many chunks as hits leaves no room for a repeat. */
  lemma {:induction false} ChunksSizeForces(hits: seq<Hit>)
    requires |Chunks(hits)| == |hits|
    ensures DistinctChunks(hits)
  {
    if hits != [] {
      hide Chunks, DistinctChunks, ChunkOf;
      var init, x := hits[..|hits| - 1], hits[|hits| - 1];
      assert hits == init + [x];
      ChunksSnoc(init, x);
      ChunksSize(init);
      ChunksSizeForces(init);
    }
  }

  /** When `k` chunks score at least `s`, the first `k` of the sorted hits all do. */
  lemma TopAreHigh(sorted: seq<Hit>, high: set<int>, s: real, k: nat)
    requires Descending(sorted) && |high| >= k
    requires forall c :: c in high ==> exists h :: h in sorted && ChunkOf(h) == c && Sim(h) >= s
    ensures |sorted| >= k && forall i :: 0 <= i < k ==> Sim(sorted[i]) >= s
  {
    ChunksSize(sorted);
    forall c | c in high ensures c in Chunks(sorted) {
      var h :| h in sorted && ChunkOf(h) == c && Sim(h) >= s;
    }
    SubsetSize(high, Chunks(sorted));
    forall i | 0 <= i < k ensures Sim(sorted[i]) >= s {
      if Sim(sorted[i]) < s {
        forall c | c in high ensures c in Chunks(sorted[..i]) {
          var h :| h in sorted && ChunkOf(h) == c && Sim(h) >= s;
          var q :| 0 <= q < |sorted| && sorted[q] == h;
          assert q < i;
          assert sorted[..i][q] == h;
        }
        SubsetSize(high, Chunks(sorted[..i]));
        ChunksSize(sorted[..i]);
      }
    }
  }

  ghost predicate FromCompartments(h: Hit, fulls: seq<seq<Hit>>) {
    exists j :: 0 <= j < |fulls| && h in fulls[j]
  }

  lemma {:induction false} RankedIsSound(fulls: seq<seq<Hit>>, results: seq<seq<Hit>>, floor: real, max: nat)
    requires |results| == |fulls| && forall j :: 0 <= j < |fulls| ==> results[j] == Take(fulls[j], max)
    ensures var ranked := Ranked(KeepAll(EMPTY, Flatten(results), floor), max);
            && |ranked| <= max && Descending(ranked) && DistinctChunks(ranked)
            && forall h :: h in ranked ==> Usable(h, floor) && FromCompartments(h, fulls)
  {
    hide Strip, SortBest, Values, KeepAll, Flatten, Chunks;
    var best := KeepAll(EMPTY, Flatten(results), floor);
    KeepAllCovers(EMPTY, Flatten(results), floor);
    ValuesDistinct(best, floor);
    var sorted := SortBest(Values(best));
    var ranked := Take(sorted, max);
    forall h | h in ranked ensures Usable(h, floor) && FromCompartments(h, fulls) {
      assert h in sorted;
      var c :| c in best.hits && h == best.hits[c];
      FromFlatten(results, h);
    }
  }

  lemma TakenAreHigh(sorted: seq<Hit>, v: Hit, max: nat)
    requires Descending(sorted) && v in sorted
    ensures var ranked := Take(sorted, max);
            v in ranked || (|ranked| == max && forall x :: x in ranked ==> Sim(x) >= Sim(v))
  {
    var q :| 0 <= q < |sorted| && sorted[q] == v;
    if q < max {
      assert Take(sorted, max)[q] == sorted[q];
    } else {
      forall x | x in sorted[..max] ensures Sim(x) >= Sim(sorted[q]) {
        var i :| 0 <= i < max && sorted[..max][i] == x;
        assert sorted[i] == x;
      }
    }
  }

  lemma InRanked(best: Best, floor: real, max: nat, c: int)
    requires ValidBest(best, floor) && c in best.hits
    ensures var ranked := Ranked(best, max);
            best.hits[c] in ranked || (|ranked| == max && forall x :: x in ranked ==> Sim(x) >= Sim(best.hits[c]))
  {
    hide Usable, SortBest, Values, Take, Chunks;
    ValuesDistinct(best, floor);
    TakenAreHigh(SortBest(Values(best)), best.hits[c], max);
  }

  lemma RankedIsBest(fulls: seq<seq<Hit>>, results: seq<seq<Hit>>, floor: real, max: nat, j: nat, h: Hit)
    requires |results| == |fulls| && forall j :: 0 <= j < |fulls| ==> results[j] == Take(fulls[j], max)
    requires forall j :: 0 <= j < |fulls| ==> Compartment(fulls[j])
    requires j < |fulls| && h in fulls[j] && Usable(h, floor)
    ensures var ranked := Ranked(KeepAll(EMPTY, Flatten(results), floor), max);
            (exists x :: x in ranked && x.chunk == h.chunk && Sim(x) >= Sim(h))
            || (|ranked| == max && forall x :: x in ranked ==> Sim(x) >= Sim(h))
  {
    hide Strip, Ranked, KeepAll, Flatten;
    var best := KeepAll(EMPTY, Flatten(results), floor);
    KeepAllCovers(EMPTY, Flatten(results), floor);
    if h in results[j] {
      InFlatten(results, j, h);
      InRanked(best, floor, max, h.chunk.value);
    } else {
      BeyondTheLimit(best, fulls[j], results, j, floor, max, h);
    }
  }

  /** A hit its own subject's search did not return is outdone by `max` that it did. */
  lemma BeyondTheLimit(best: Best, full: seq<Hit>, results: seq<seq<Hit>>, j: nat, floor: real, max: nat, h: Hit)
    requires ValidBest(best, floor) && Compartment(full) && j < |results| && results[j] == Take(full, max)
    requires h in full && h !in results[j] && Usable(h, floor)
    requires forall x :: x in Flatten(results) && Usable(x, floor) ==>
      x.chunk.value in best.hits && Sim(best.hits[x.chunk.value]) >= Sim(x)
    ensures var ranked := Ranked(best, max); |ranked| == max && forall x :: x in ranked ==> Sim(x) >= Sim(h)
  {
    hide Strip, Flatten, SortBest, Values, Chunks;
    var sorted := SortBest(Values(best));
    var top := results[j];
    ValuesDistinct(best, floor);
    TopUsable(full, top, floor, max, h);
    ChunksSize(top);
    forall c | c in Chunks(top) ensures exists x :: x in sorted && ChunkOf(x) == c && Sim(x) >= Sim(h) {
      var x := InChunks(top, c);
      InFlatten(results, j, x);
      assert best.hits[c] in sorted;
    }
    TopAreHigh(sorted, Chunks(top), Sim(h), max);
    FirstAreHigh(sorted, Sim(h), max);
  }

  lemma InChunks(hits: seq<Hit>, c: int) returns (x: Hit)
    requires c in Chunks(hits)
    ensures x in hits && ChunkOf(x) == c
  {
    x :| x in hits && ChunkOf(x) == c;
  }

  lemma FirstAreHigh(sorted: seq<Hit>, s: real, max: nat)
    requires |sorted| >= max && forall i :: 0 <= i < max ==> Sim(sorted[i]) >= s
    ensures |Take(sorted, max)| == max && forall x :: x in Take(sorted, max) ==> Sim(x) >= s
  {
    forall x | x in sorted[..max] ensures Sim(x) >= s {
      var i :| 0 <= i < max && sorted[..max][i] == x;
      assert sorted[i] == x;
    }
  }

  /** The returned hits of a subject are usable, distinct, and at least as good as one it did not return. */
  lemma TopUsable(full: seq<Hit>, top: seq<Hit>, floor: real, max: nat, h: Hit)
    requires Compartment(full) && top == Take(full, max) && h in full && h !in top && Usable(h, floor)
    ensures |top| == max && DistinctChunks(top)
    ensures forall x :: x in top ==> Usable(x, floor) && Sim(x) >= Sim(h)
  {
    hide Strip;
    var p :| 0 <= p < |full| && full[p] == h;
    assert forall i :: 0 <= i < |top| ==> full[i] == top[i];
    assert p >= |top|;
    forall x | x in top ensures Usable(x, floor) && Sim(x) >= Sim(h) {
      var i :| 0 <= i < |top| && top[i] == x;
      assert full[i] == x && x in full;
    }
    forall i, j | 0 <= i < j < |top| ensures ChunkOf(top[i]) != ChunkOf(top[j]) {
      assert top[i] == full[i] && top[j] == full[j];
    }
  }

  // ---------------------------------------------------------------------------
  // The evidence
  // ---------------------------------------------------------------------------

  /** The hit is of a chunk, is similar enough, and has something in its text that is no blank. */
  predicate Worth(h: Hit, floor: real) {
    && h.chunk.Some? && h.similarity.Some? && h.similarity.value >= floor
    && exists c :: c in h.text && !IsSpace(c)
  }

  /** Both hits have a similarity, and the first is not less similar. */
  predicate AtLeastAs(a: Hit, b: Hit) {
    a.similarity.Some? && b.similarity.Some? && a.similarity.value >= b.similarity.value
  }

  lemma UsableIsWorth(h: Hit, floor: real)
    ensures Usable(h, floor) <==> Worth(h, floor)
  {
    var lead := StripForm(h.text);
    var t := Strip(h.text);
    hide IsSpace, Strip;
    assert t != "" ==> t[0] in t;
    if t == "" {
      assert forall i :: 0 <= i < |h.text| ==> IsSpace(h.text[i]);
    }
  }

  /** The items are numbered from one, each with the first 2000 characters of its hit's text. */
  predicate Numbered(items: seq<Item>) {
    forall i :: 0 <= i < |items| ==>
      && items[i].n == i + 1
      && items[i].text == if |items[i].hit.text| > 2000 then items[i].hit.text[..2000] else items[i].hit.text
  }

  /** Evidence is numbered, at most `max` items, best first, each chunk once, and made of hits worth it that some search
      returned. */
  lemma EvidenceIsSound(fulls: seq<seq<Hit>>, results: seq<seq<Hit>>, floor: real, max: nat)
    requires |results| == |fulls| && forall j :: 0 <= j < |fulls| ==> results[j] == Take(fulls[j], max)
    ensures var items := Merged(results, floor, max);
            && |items| <= max && Numbered(items)
            && (forall i, j :: 0 <= i < j < |items| ==>
                  AtLeastAs(items[i].hit, items[j].hit) && items[i].hit.chunk != items[j].hit.chunk)
            && forall x :: x in items ==> Worth(x.hit, floor) && FromCompartments(x.hit, fulls)
  {
    RankedIsSound(fulls, results, floor, max);
    hide Ranked, KeepAll, Flatten, Strip, FromCompartments, Worth;
    var ranked := Ranked(KeepAll(EMPTY, Flatten(results), floor), max);
    var items := Merged(results, floor, max);
    forall i | 0 <= i < |items| ensures items[i].hit in ranked && Worth(items[i].hit, floor) {
      assert items[i].hit == ranked[i];
      UsableIsWorth(ranked[i], floor);
    }
    forall i, j | 0 <= i < j < |items|
      ensures AtLeastAs(items[i].hit, items[j].hit) && items[i].hit.chunk != items[j].hit.chunk
    {
      assert Usable(ranked[i], floor) && Usable(ranked[j], floor);
      assert Sim(ranked[i]) >= Sim(ranked[j]) && ChunkOf(ranked[i]) != ChunkOf(ranked[j]);
    }
  }

  /** If every subject's search returned its best `max` hits, then no hit worth it of any subject was passed over for a
      worse one: its chunk is in the evidence at least as high, or the evidence is full of hits at least as good. */
  lemma EvidenceIsGlobalBest(fulls: seq<seq<Hit>>, results: seq<seq<Hit>>, floor: real, max: nat, j: nat, h: Hit)
    requires |results| == |fulls| && forall j :: 0 <= j < |fulls| ==> results[j] == Take(fulls[j], max)
    requires forall j :: 0 <= j < |fulls| ==> Compartment(fulls[j])
    requires j < |fulls| && h in fulls[j] && Worth(h, floor)
    ensures var items := Merged(results, floor, max);
            || (exists x :: x in items && x.hit.chunk == h.chunk && AtLeastAs(x.hit, h))
            || (|items| == max && forall x :: x in items ==> AtLeastAs(x.hit, h))
  {
    UsableIsWorth(h, floor);
    assert h.similarity.Some?;
    RankedIsBest(fulls, results, floor, max, j, h);
    RankedIsSound(fulls, results, floor, max);
    hide Ranked, KeepAll, Flatten, Strip, FromCompartments, Worth, Compartment;
    NumberedFrom(Ranked(KeepAll(EMPTY, Flatten(results), floor), max), floor, max, h);
  }

  lemma NumberedFrom(ranked: seq<Hit>, floor: real, max: nat, h: Hit)
    requires h.similarity.Some? && forall x :: x in ranked ==> Usable(x, floor)
    requires (exists x :: x in ranked && x.chunk == h.chunk && Sim(x) >= Sim(h))
             || (|ranked| == max && forall x :: x in ranked ==> Sim(x) >= Sim(h))
    ensures var items := NumberFrom(ranked);
            || (exists x :: x in items && x.hit.chunk == h.chunk && AtLeastAs(x.hit, h))
            || (|items| == max && forall x :: x in items ==> AtLeastAs(x.hit, h))
  {
    hide Strip;
    var items := NumberFrom(ranked);
    assert forall i :: 0 <= i < |items| ==> items[i].hit == ranked[i] && ranked[i] in ranked;
    if x :| x in ranked && x.chunk == h.chunk && Sim(x) >= Sim(h) {
      var i :| 0 <= i < |ranked| && ranked[i] == x;
      assert items[i] in items && AtLeastAs(items[i].hit, h);
    }
  }
}
