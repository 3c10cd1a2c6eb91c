/** Recall over several namespaces: the rows of every search in one list, best first, each chunk of a namespace once,
    cut to the limit and ranked from one. */
module Recall {
  import opened Results
  import opened Sorting

  /** A search hit of one namespace; `payload` stands for its other columns. */
  datatype Row = Row(chunk: Option<int>, similarity: Option<real>, payload: string)

  datatype Found = Found(namespace: string, row: Row)

  /** `(namespace, int(chunk_id or 0))`. */
  function KeyOf(f: Found): (string, int) {
    (f.namespace, if f.row.chunk.Some? then f.row.chunk.value else 0)
  }

  function Tagged(namespace: string, rows: seq<Row>): seq<Found> {
    if rows == [] then [] else Tagged(namespace, rows[..|rows| - 1]) + [Found(namespace, rows[|rows| - 1])]
  }

  /** Every row of every namespace, in the order the loops meet them. */
  function Flat(groups: seq<(string, seq<Row>)>): seq<Found> {
    if groups == [] then []
    else Flat(groups[..|groups| - 1]) + Tagged(groups[|groups| - 1].0, groups[|groups| - 1].1)
  }

  function Keys(found: seq<Found>): set<(string, int)> {
    set f | f in found :: KeyOf(f)
  }

  /** The first row of every key. */
  function Firsts(found: seq<Found>): seq<Found> {
    if found == [] then []
    else
      var init, last := found[..|found| - 1], found[|found| - 1];
      if KeyOf(last) in Keys(init) then Firsts(init) else Firsts(init) + [last]
  }

  /** `key=(similarity is None, -(similarity or 0.0))`. */
  predicate NotAfter(a: Found, b: Found) {
    b.row.similarity.None? || (a.row.similarity.Some? && a.row.similarity.value >= b.row.similarity.value)
  }

  datatype Ranked = Ranked(found: Found, rank: int)

  function Ranks(found: seq<Found>): seq<Ranked> {
    seq(|found|, i requires 0 <= i < |found| => Ranked(found[i], i + 1))
  }

  function Cut(found: seq<Found>, limit: nat): seq<Found> {
    if |found| <= limit then found else found[..limit]
  }

  /** The rows reported, best first. */
  function Reported(groups: seq<(string, seq<Row>)>, limit: nat): seq<Found> {
    Cut(Sort(NotAfter, Firsts(Flat(groups))), limit)
  }

  lemma KeysSnoc(found: seq<Found>, f: Found)
    ensures Keys(found + [f]) == Keys(found) + {KeyOf(f)}
  {
    assert forall x :: x in found + [f] <==> x in found || x == f;
    assert f in found + [f];
  }

  lemma FirstsSnoc(found: seq<Found>, f: Found)
    ensures Firsts(found + [f]) == if KeyOf(f) in Keys(found) then Firsts(found) else Firsts(found) + [f]
  {
    assert (found + [f])[..|found|] == found;
  }

  lemma NotAfterOrders()
    ensures Preorder(NotAfter)
  {}

  /** `merge_recall`. */
  method MergeRecall(groups: seq<(string, seq<Row>)>, limit: nat) returns (out: seq<Ranked>)
    ensures |out| == |Reported(groups, limit)|
    ensures forall i :: 0 <= i < |out| ==> out[i] == Ranked(Reported(groups, limit)[i], i + 1)
  {
    hide KeyOf, Keys, Firsts;
    var seen: set<(string, int)> := {};
    var merged: seq<Found> := [];
    NothingFound();
    for g := 0 to |groups|
      invariant seen == Keys(Flat(groups[..g])) && merged == Firsts(Flat(groups[..g]))
    {
      var namespace, rows := groups[g].0, groups[g].1;
      var before := Flat(groups[..g]);
      assert before + Tagged(namespace, rows[..0]) == before;
      for i := 0 to |rows|
        invariant seen == Keys(before + Tagged(namespace, rows[..i]))
        invariant merged == Firsts(before + Tagged(namespace, rows[..i]))
      {
        var f := Found(namespace, rows[i]);
        var met := before + Tagged(namespace, rows[..i]);
        assert rows[..i + 1][..i] == rows[..i];
        assert before + Tagged(namespace, rows[..i + 1]) == met + [f];
        KeysSnoc(met, f);
        FirstsSnoc(met, f);
        if KeyOf(f) !in seen {
          seen, merged := seen + {KeyOf(f)}, merged + [f];
        }
        assert KeyOf(f) in Keys(met) ==> Keys(met) + {KeyOf(f)} == Keys(met);
      }
      assert rows[..|rows|] == rows && groups[..g + 1][..g] == groups[..g];
    }
    assert groups[..|groups|] == groups;
    var sorted := Sort(NotAfter, merged);
    return Ranks(Cut(sorted, limit));
  }

  lemma NothingFound()
    ensures Keys([]) == {} && Firsts([]) == []
  {}

  // ---------------------------------------------------------------------------
  // What is reported
  // ---------------------------------------------------------------------------

  /** `f` is the first row met with its key. */
  ghost predicate FirstMet(found: seq<Found>, f: Found) {
    exists i :: 0 <= i < |found| && found[i] == f && forall j :: 0 <= j < i ==> KeyOf(found[j]) != KeyOf(f)
  }

  lemma {:induction false} FirstsAre(found: seq<Found>)
    ensures forall f :: f in Firsts(found) <==> FirstMet(found, f)
    ensures forall i, j :: 0 <= i < j < |Firsts(found)| ==> KeyOf(Firsts(found)[i]) != KeyOf(Firsts(found)[j])
    ensures Keys(Firsts(found)) == Keys(found)
  {
    hide KeyOf;
    if found != [] {
      var init, last := found[..|found| - 1], found[|found| - 1];
      assert found == init + [last];
      FirstsAre(init);
      KeysSnoc(init, last);
      KeysSnoc(Firsts(init), last);
      forall f ensures FirstMet(found, f) <==> FirstMet(init, f) || (f == last && KeyOf(last) !in Keys(init)) {
        FirstMetSnoc(init, last, f);
      }
      forall i | 0 <= i < |Firsts(init)| && KeyOf(last) !in Keys(init)
        ensures KeyOf(Firsts(init)[i]) != KeyOf(last)
      {
        assert Firsts(init)[i] in Firsts(init);
      }
    }
  }

  lemma FirstMetSnoc(init: seq<Found>, last: Found, f: Found)
    ensures FirstMet(init + [last], f) <==> FirstMet(init, f) || (f == last && KeyOf(last) !in Keys(init))
  {
    hide KeyOf;
    var found := init + [last];
    if FirstMet(found, f) {
      var i :| 0 <= i < |found| && found[i] == f && forall j :: 0 <= j < i ==> KeyOf(found[j]) != KeyOf(f);
      if i < |init| {
        assert init[i] == f && forall j :: 0 <= j < i ==> KeyOf(init[j]) == KeyOf(found[j]);
      } else {
        forall x | x in init ensures KeyOf(x) != KeyOf(last) {
          var j :| 0 <= j < |init| && init[j] == x;
          assert found[j] == x;
        }
      }
    }
    if FirstMet(init, f) {
      var i :| 0 <= i < |init| && init[i] == f && forall j :: 0 <= j < i ==> KeyOf(init[j]) != KeyOf(f);
      assert found[i] == f && forall j :: 0 <= j < i ==> KeyOf(found[j]) == KeyOf(init[j]);
    }
    if f == last && KeyOf(last) !in Keys(init) {
      assert found[|init|] == f;
      forall j | 0 <= j < |init| ensures KeyOf(found[j]) != KeyOf(f) {
        assert init[j] in init;
      }
    }
  }

  /** Rows of one chunk of one namespace; rows without a chunk, or of chunk 0, count as one. */
  predicate SameChunk(f: Found, g: Found) {
    f.namespace == g.namespace
    && (f.row.chunk == g.row.chunk || (f.row.chunk in {None, Some(0)} && g.row.chunk in {None, Some(0)}))
  }

  /** No row of the chunk was met before. */
  ghost predicate FirstOfChunk(found: seq<Found>, f: Found) {
    exists i :: 0 <= i < |found| && found[i] == f && forall j :: 0 <= j < i ==> !SameChunk(found[j], f)
  }

  /** Not less similar; a row without a similarity comes last. */
  predicate AtLeastAs(a: Found, b: Found) {
    match b.row.similarity
    case None => true
    case Some(y) => (match a.row.similarity case None => false case Some(x) => x >= y)
  }

  lemma KeyIsChunk(f: Found, g: Found)
    ensures KeyOf(f) == KeyOf(g) <==> SameChunk(f, g)
  {}

  lemma FirstMetIs(found: seq<Found>, f: Found)
    ensures FirstMet(found, f) <==> FirstOfChunk(found, f)
  {
    hide KeyOf, SameChunk;
    forall g: Found, h: Found ensures KeyOf(g) == KeyOf(h) <==> SameChunk(g, h) {
      KeyIsChunk(g, h);
    }
  }

  lemma NotAfterIs(a: Found, b: Found)
    ensures NotAfter(a, b) <==> AtLeastAs(a, b)
  {}

  /** What `merge_recall` reports: the first row met of every chunk, best first; and when rows are cut, none of them
      comes before one that is reported. */
  lemma RecallIsBest(groups: seq<(string, seq<Row>)>, limit: nat)
    ensures var flat, out := Flat(groups), Reported(groups, limit);
            && |out| <= limit
            && (forall i :: 0 <= i < |out| ==> FirstOfChunk(flat, out[i]))
            && (forall i, j :: 0 <= i < j < |out| ==> AtLeastAs(out[i], out[j]) && !SameChunk(out[i], out[j]))
            && forall f :: FirstOfChunk(flat, f) && (forall i :: 0 <= i < |out| ==> out[i] != f) ==>
                 |out| == limit && forall i :: 0 <= i < |out| ==> AtLeastAs(out[i], f)
  {
    RanksBest(groups, limit);
    RecallHasNoRepeats(groups, limit);
    hide NotAfter, AtLeastAs, KeyOf, SameChunk, Flat, FirstMet, FirstOfChunk, Reported;
    forall f ensures FirstMet(Flat(groups), f) <==> FirstOfChunk(Flat(groups), f) {
      FirstMetIs(Flat(groups), f);
    }
    forall a, b ensures NotAfter(a, b) <==> AtLeastAs(a, b) {
      NotAfterIs(a, b);
    }
    forall a, b ensures KeyOf(a) == KeyOf(b) <==> SameChunk(a, b) {
      KeyIsChunk(a, b);
    }
  }

  lemma RanksBest(groups: seq<(string, seq<Row>)>, limit: nat)
    ensures var flat, out := Flat(groups), Reported(groups, limit);
            && |out| <= limit
            && (forall i :: 0 <= i < |out| ==> FirstMet(flat, out[i]))
            && (forall i, j :: 0 <= i < j < |out| ==> NotAfter(out[i], out[j]))
            && forall f :: FirstMet(flat, f) && (forall i :: 0 <= i < |out| ==> out[i] != f) ==>
                 |out| == limit && forall i :: 0 <= i < |out| ==> NotAfter(out[i], f)
  {
    hide NotAfter, Firsts, Flat, FirstMet, Preorder, Sort, Sorted, Cut, Keys;
    var flat := Flat(groups);
    var sorted := Sort(NotAfter, Firsts(flat));
    FirstsAre(flat);
    NotAfterOrders();
    SortSorts(NotAfter, Firsts(flat));
    CutIsBest(sorted, limit);
  }

  lemma CutIsBest(sorted: seq<Found>, limit: nat)
    requires Sorted(NotAfter, sorted)
    ensures var cut := Cut(sorted, limit);
            && |cut| == (if |sorted| <= limit then |sorted| else limit)
            && (forall i :: 0 <= i < |cut| ==> cut[i] in sorted)
            && (forall i, j :: 0 <= i < j < |cut| ==> NotAfter(cut[i], cut[j]))
            && forall f :: f in sorted && (forall i :: 0 <= i < |cut| ==> cut[i] != f) ==>
                 |cut| == limit && forall i :: 0 <= i < |cut| ==> NotAfter(cut[i], f)
  {
    hide NotAfter;
    var cut := Cut(sorted, limit);
    assert forall i :: 0 <= i < |cut| ==> cut[i] == sorted[i];
    forall f | f in sorted && (forall i :: 0 <= i < |cut| ==> cut[i] != f)
      ensures |cut| == limit && forall i :: 0 <= i < |cut| ==> NotAfter(cut[i], f)
    {
      var k :| 0 <= k < |sorted| && sorted[k] == f;
      assert k >= |cut|;
    }
  }

  /** No chunk of a namespace is reported twice. */
  lemma RecallHasNoRepeats(groups: seq<(string, seq<Row>)>, limit: nat)
    ensures var out := Reported(groups, limit);
            forall i, j :: 0 <= i < j < |out| ==> KeyOf(out[i]) != KeyOf(out[j])
  {
    var firsts := Firsts(Flat(groups));
    FirstsAre(Flat(groups));
    NotAfterOrders();
    SortSorts(NotAfter, firsts);
    var sorted := Sort(NotAfter, firsts);
    hide KeyOf, NotAfter, Firsts, Flat, Preorder, Sort, FirstMet, Keys;
    forall i, j | 0 <= i < j < |sorted| ensures KeyOf(sorted[i]) != KeyOf(sorted[j]) {
      TwiceInBag(sorted, i, j);
      OnceInBag(firsts, sorted[i], sorted[j]);
    }
  }

  /** Two places of a list are two occurrences in its bag. */
  lemma TwiceInBag(s: seq<Found>, i: nat, j: nat)
    requires i < j < |s|
    ensures s[i] in multiset(s) && s[j] in multiset(s)
    ensures s[i] == s[j] ==> multiset(s)[s[i]] >= 2
  {
    assert s == s[..i] + [s[i]] + s[i + 1..j] + [s[j]] + s[j + 1..];
  }

  lemma {:induction false} OnceInBag(s: seq<Found>, f: Found, g: Found)
    requires forall i, j :: 0 <= i < j < |s| ==> KeyOf(s[i]) != KeyOf(s[j])
    ensures multiset(s)[f] <= 1
    ensures f in s && g in s && KeyOf(f) == KeyOf(g) ==> f == g
  {
    hide KeyOf;
    if f in s && g in s {
      var i :| 0 <= i < |s| && s[i] == f;
      var j :| 0 <= j < |s| && s[j] == g;
    }
    CountOne(s, f);
  }

  lemma {:induction false} CountOne(s: seq<Found>, f: Found)
    requires forall i, j :: 0 <= i < j < |s| ==> KeyOf(s[i]) != KeyOf(s[j])
    ensures multiset(s)[f] <= 1
  {
    hide KeyOf;
    if s != [] {
      CountOne(s[1..], f);
      assert s == [s[0]] + s[1..];
      if f == s[0] {
        assert f !in s[1..];
      }
    }
  }
}
