/** What every run of document commands keeps: tags mirror edges, and a primary is linked. */
module DocumentLinks {
  import opened Results
  import opened Text
  import opened DocumentGraph

  datatype LinkKey = LinkKey(doc: int, kind: string, name: string)

  function KeyOf(t: Tag): LinkKey {
    LinkKey(t.doc, t.kind, t.value)
  }

  function LinksOf(tags: seq<Tag>): set<LinkKey> {
    set t | t in tags :: KeyOf(t)
  }

  /** The edge a tag stands for. */
  predicate Mirrors(subjects: map<string, int>, t: Tag, e: Edge) {
    && LinkSpec(t.kind).Some? && t.value in subjects
    && e == Edge(t.doc, LinkSpec(t.kind).value.verb, subjects[t.value])
  }

  // ---------------------------------------------------------------------------
  // The invariant
  // ---------------------------------------------------------------------------

  /** Every subject has an id of its own, below the next one. */
  ghost predicate SubjectsOk(g: Graph) {
    && (forall n :: n in g.subjects ==> g.subjects[n] < g.nextSubject)
    && (forall m, n :: m in g.subjects && n in g.subjects && m != n ==> g.subjects[m] != g.subjects[n])
    && forall id :: id in g.types ==> id < g.nextSubject
  }

  ghost predicate TagOk(subjects: map<string, int>, primary: map<int, Option<int>>, t: Tag) {
    && LinkSpec(t.kind).Some? && t.value in subjects && t.objectId == Some(subjects[t.value]) && t.doc in primary
  }

  /** Tags are resolved, belong to a document, and stand in id order, one per link. */
  ghost predicate TagsOk(subjects: map<string, int>, primary: map<int, Option<int>>, tags: seq<Tag>, next: int) {
    && (forall t :: t in tags ==> TagOk(subjects, primary, t) && t.id < next)
    && Ordered(tags)
  }

  ghost predicate Ordered(tags: seq<Tag>) {
    forall i, j :: 0 <= i < j < |tags| ==> tags[i].id < tags[j].id && KeyOf(tags[i]) != KeyOf(tags[j])
  }

  predicate HasEdge(subjects: map<string, int>, edges: set<Edge>, t: Tag) {
    && LinkSpec(t.kind).Some? && t.value in subjects
    && Edge(t.doc, LinkSpec(t.kind).value.verb, subjects[t.value]) in edges
  }

  predicate HasMirror(subjects: map<string, int>, tags: seq<Tag>, e: Edge) {
    exists t :: t in tags && Mirrors(subjects, t, e)
  }

  /** Every tag has its edge and every edge its tag. */
  ghost predicate EdgesOk(subjects: map<string, int>, edges: set<Edge>, tags: seq<Tag>) {
    && (forall t :: t in tags ==> HasEdge(subjects, edges, t))
    && forall e :: e in edges ==> HasMirror(subjects, tags, e)
  }

  predicate ProjectTag(t: Tag, doc: int, id: int) {
    t.doc == doc && t.kind == "project" && t.objectId == Some(id)
  }

  /** A primary project is null or the id of a project the document is linked to. */
  ghost predicate PrimaryOk(tags: seq<Tag>, primary: map<int, Option<int>>) {
    forall d :: d in primary && primary[d].Some? ==> exists t :: t in tags && ProjectTag(t, d, primary[d].value)
  }

  ghost predicate Sound(g: Graph) {
    && SubjectsOk(g) && TagsOk(g.subjects, g.primary, g.tags, g.nextTag)
    && EdgesOk(g.subjects, g.edges, g.tags) && PrimaryOk(g.tags, g.primary)
    && forall d :: d in g.primary ==> d < g.nextDoc
  }

  /** A tag for a link exists exactly when its edge does. */
  lemma TagIffEdge(g: Graph, doc: int, kind: string, name: string)
    requires Sound(g) && LinkSpec(kind).Some?
    ensures HasTag(g.tags, doc, kind, name) <==>
            name in g.subjects && Edge(doc, LinkSpec(kind).value.verb, g.subjects[name]) in g.edges
    ensures HasTag(g.tags, doc, kind, name) <==> LinkKey(doc, kind, name) in LinksOf(g.tags)
  {
    if HasTag(g.tags, doc, kind, name) {
      var t :| t in g.tags && TagIs(t, doc, kind, name);
      assert HasEdge(g.subjects, g.edges, t);
    }
    if name in g.subjects && Edge(doc, LinkSpec(kind).value.verb, g.subjects[name]) in g.edges {
      assert HasMirror(g.subjects, g.tags, Edge(doc, LinkSpec(kind).value.verb, g.subjects[name]));
      var t :| t in g.tags && Mirrors(g.subjects, t, Edge(doc, LinkSpec(kind).value.verb, g.subjects[name]));
      SameEdgeSameLink(g.subjects, t, kind, name);
      assert TagIs(t, doc, kind, name);
    }
  }

  /** Different links have different edges: verbs tell the kinds apart and ids the names. */
  lemma SameEdgeSameLink(subjects: map<string, int>, t: Tag, kind: string, name: string)
    requires forall m, n :: m in subjects && n in subjects && m != n ==> subjects[m] != subjects[n]
    requires LinkSpec(kind).Some? && name in subjects
    requires Mirrors(subjects, t, Edge(t.doc, LinkSpec(kind).value.verb, subjects[name]))
    ensures t.kind == kind && t.value == name
  {
    KindByVerb(t.kind, kind);
  }

  lemma KindByVerb(a: string, b: string)
    requires LinkSpec(a).Some? && LinkSpec(b).Some? && LinkSpec(a).value.verb == LinkSpec(b).value.verb
    ensures a == b
  {
    var p, s, h := "concerns", "mentions", "involves";
    assert p[0] == 'c' && s[0] == 'm' && h[0] == 'i';
  }

  // ---------------------------------------------------------------------------
  // Tag lists
  // ---------------------------------------------------------------------------

  lemma {:induction false} RetaggedIs(tags: seq<Tag>, doc: int, kind: string, name: string, id: int)
    ensures var r := Retagged(tags, doc, kind, name, id);
            && |r| == |tags|
            && forall i :: 0 <= i < |tags| ==>
                 r[i] == if TagIs(tags[i], doc, kind, name) then tags[i].(objectId := Some(id)) else tags[i]
  {
    if tags != [] {
      RetaggedIs(tags[1..], doc, kind, name, id);
    }
  }

  lemma {:induction false} UntaggedIs(tags: seq<Tag>, doc: int, kind: string, name: string)
    ensures forall t :: t in Untagged(tags, doc, kind, name) <==> t in tags && !TagIs(t, doc, kind, name)
  {
    if tags != [] {
      UntaggedIs(tags[1..], doc, kind, name);
      assert forall t :: t in tags <==> t == tags[0] || t in tags[1..];
    }
  }

  lemma {:induction false} UntaggedOrdered(tags: seq<Tag>, doc: int, kind: string, name: string)
    requires Ordered(tags)
    ensures Ordered(Untagged(tags, doc, kind, name))
  {
    if tags != [] {
      var rest := Untagged(tags[1..], doc, kind, name);
      UntaggedOrdered(tags[1..], doc, kind, name);
      UntaggedIs(tags[1..], doc, kind, name);
      forall j | 0 <= j < |rest| ensures tags[0].id < rest[j].id && KeyOf(tags[0]) != KeyOf(rest[j]) {
        assert rest[j] in rest;
        var k :| 0 <= k < |tags[1..]| && tags[1..][k] == rest[j];
        assert tags[1 + k] == rest[j];
      }
    }
  }

  lemma {:induction false} FirstOtherIs(tags: seq<Tag>, doc: int, name: string)
    ensures var f := FirstOther(tags, doc, name);
            && (f.Some? ==> exists t :: t in tags && ProjectTag(t, doc, f.value) && t.value != name)
            && (f.None? ==> forall t :: t in tags && t.doc == doc && t.kind == "project" && t.objectId.Some? ==>
                                          t.value == name)
  {
    if tags != [] {
      FirstOtherIs(tags[1..], doc, name);
      if FirstOther(tags[1..], doc, name).Some? {
        var t :| t in tags[1..] && ProjectTag(t, doc, FirstOther(tags[1..], doc, name).value) && t.value != name;
        assert t in tags;
      }
      if FirstOther(tags, doc, name).Some? && tags[0].doc == doc && tags[0].kind == "project" {
        assert tags[0] in tags;
      }
      assert forall t :: t in tags <==> t == tags[0] || t in tags[1..];
    }
  }

  // ---------------------------------------------------------------------------
  // Linking keeps the invariant
  // ---------------------------------------------------------------------------

  lemma ResolvedSound(g: Graph, name: string, ty: string)
    requires Sound(g)
    ensures var r := Resolved(g, name, ty);
            && Sound(r) && name in r.subjects
            && r.(subjects := g.subjects, types := g.types, nextSubject := g.nextSubject) == g
            && (forall id :: id in g.types ==> id in r.types && r.types[id] == g.types[id])
            && (forall n :: n in g.subjects ==> n in r.subjects && r.subjects[n] == g.subjects[n])
  {
    hide LinkSpec, EdgesOk, PrimaryOk, TagsOk;
    ResolvedTags(g.subjects, Resolved(g, name, ty).subjects, g.primary, g.tags, g.nextTag);
    ResolvedEdges(g.subjects, Resolved(g, name, ty).subjects, g.edges, g.tags);
  }

  lemma ResolvedTags(s: map<string, int>, r: map<string, int>, primary: map<int, Option<int>>, tags: seq<Tag>,
                     next: int)
    requires TagsOk(s, primary, tags, next)
    requires forall n :: n in s ==> n in r && r[n] == s[n]
    ensures TagsOk(r, primary, tags, next)
  {
    hide LinkSpec, Ordered;
    forall t | t in tags ensures TagOk(r, primary, t) && t.id < next {
      assert TagOk(s, primary, t);
    }
  }

  lemma ResolvedEdges(s: map<string, int>, r: map<string, int>, edges: set<Edge>, tags: seq<Tag>)
    requires EdgesOk(s, edges, tags)
    requires forall n :: n in s ==> n in r && r[n] == s[n]
    ensures EdgesOk(r, edges, tags)
  {
    hide LinkSpec;
    forall t | t in tags ensures HasEdge(r, edges, t) {
      assert HasEdge(s, edges, t);
    }
    forall e | e in edges ensures HasMirror(r, tags, e) {
      assert HasMirror(s, tags, e);
      var t :| t in tags && Mirrors(s, t, e);
      assert Mirrors(r, t, e);
    }
  }

  /** With a resolved subject, an existing tag is only pointed at what it already points to. */
  lemma RetaggedSame(g: Graph, doc: int, kind: string, name: string)
    requires TagsOk(g.subjects, g.primary, g.tags, g.nextTag) && name in g.subjects
    ensures Retagged(g.tags, doc, kind, name, g.subjects[name]) == g.tags
  {
    hide LinkSpec;
    RetaggedIs(g.tags, doc, kind, name, g.subjects[name]);
    forall i | 0 <= i < |g.tags| ensures Retagged(g.tags, doc, kind, name, g.subjects[name])[i] == g.tags[i] {
      assert g.tags[i] in g.tags && TagOk(g.subjects, g.primary, g.tags[i]);
    }
  }

  /** The tag list after a link: unchanged when the tag was there, else one more tag at the end. */
  lemma LinkedIs(g: Graph, doc: int, kind: string, name: string)
    requires Sound(g) && LinkSpec(kind).Some?
    ensures var r := Resolved(g, name, LinkSpec(kind).value.subjectType);
            var id := r.subjects[name];
            var tag := Tag(g.nextTag, doc, kind, name, Some(id));
            var edges := g.edges + {Edge(doc, LinkSpec(kind).value.verb, id)};
            Linked(g, doc, kind, name)
            == if HasTag(g.tags, doc, kind, name) then r.(edges := edges)
               else r.(edges := edges, tags := g.tags + [tag], nextTag := g.nextTag + 1)
  {
    ResolvedSound(g, name, LinkSpec(kind).value.subjectType);
    RetaggedSame(Resolved(g, name, LinkSpec(kind).value.subjectType), doc, kind, name);
  }

  lemma LinkedSound(g: Graph, doc: int, kind: string, name: string)
    requires Sound(g) && LinkSpec(kind).Some? && doc in g.primary
    ensures var l := Linked(g, doc, kind, name);
            && Sound(l) && l.primary == g.primary && l.nextDoc == g.nextDoc
            && LinksOf(l.tags) == LinksOf(g.tags) + {LinkKey(doc, kind, name)}
            && name in l.subjects
            && (kind == "project" ==> exists t :: t in l.tags && ProjectTag(t, doc, l.subjects[name]))
            && (forall id :: id in g.types ==> id in l.types && l.types[id] == g.types[id])
  {
    var spec := LinkSpec(kind).value;
    var r := Resolved(g, name, spec.subjectType);
    hide Linked, Resolved, LinkSpec, Sound, LinksOf;
    ResolvedSound(g, name, spec.subjectType);
    LinkedIs(g, doc, kind, name);
    if HasTag(g.tags, doc, kind, name) {
      HadTag(r, doc, kind, name);
    } else {
      NewTagSound(r, doc, kind, name);
    }
  }

  lemma HadTag(g: Graph, doc: int, kind: string, name: string)
    requires Sound(g) && LinkSpec(kind).Some? && HasTag(g.tags, doc, kind, name) && name in g.subjects
    ensures g.edges + {Edge(doc, LinkSpec(kind).value.verb, g.subjects[name])} == g.edges
    ensures LinkKey(doc, kind, name) in LinksOf(g.tags)
    ensures kind == "project" ==> exists t :: t in g.tags && ProjectTag(t, doc, g.subjects[name])
  {
    TagIffEdge(g, doc, kind, name);
    hide LinkSpec;
    var t :| t in g.tags && TagIs(t, doc, kind, name);
    assert TagOk(g.subjects, g.primary, t);
    assert kind == "project" ==> ProjectTag(t, doc, g.subjects[name]);
  }

  lemma NewTagSound(g: Graph, doc: int, kind: string, name: string)
    requires Sound(g) && LinkSpec(kind).Some? && doc in g.primary && name in g.subjects
    requires !HasTag(g.tags, doc, kind, name)
    ensures var tag := Tag(g.nextTag, doc, kind, name, Some(g.subjects[name]));
            var e := Edge(doc, LinkSpec(kind).value.verb, g.subjects[name]);
            var l := g.(edges := g.edges + {e}, tags := g.tags + [tag], nextTag := g.nextTag + 1);
            && Sound(l)
            && LinksOf(l.tags) == LinksOf(g.tags) + {LinkKey(doc, kind, name)}
            && (kind == "project" ==> exists t :: t in l.tags && ProjectTag(t, doc, g.subjects[name]))
  {
    hide LinkSpec, EdgesOk, PrimaryOk, TagsOk, LinksOf;
    var tag := Tag(g.nextTag, doc, kind, name, Some(g.subjects[name]));
    var e := Edge(doc, LinkSpec(kind).value.verb, g.subjects[name]);
    assert Mirrors(g.subjects, tag, e);
    NewEdgeOk(g.subjects, g.edges, g.tags, tag, e);
    NewTagPrimary(g.tags, tag, g.primary);
    NewTagOk(g, tag);
    LinksSnoc(g.tags, tag);
    assert (g.tags + [tag])[|g.tags|] == tag;
    assert kind == "project" ==> ProjectTag(tag, doc, g.subjects[name]);
  }

  lemma LinksSnoc(tags: seq<Tag>, tag: Tag)
    ensures LinksOf(tags + [tag]) == LinksOf(tags) + {KeyOf(tag)}
  {
    var more := tags + [tag];
    assert forall t :: t in more <==> t in tags || t == tag;
    assert tag in more;
  }

  lemma NewTagOk(g: Graph, tag: Tag)
    requires TagsOk(g.subjects, g.primary, g.tags, g.nextTag)
    requires TagOk(g.subjects, g.primary, tag) && tag.id == g.nextTag
    requires !HasTag(g.tags, tag.doc, tag.kind, tag.value)
    ensures TagsOk(g.subjects, g.primary, g.tags + [tag], g.nextTag + 1)
  {
    hide TagOk;
    var tags := g.tags + [tag];
    assert forall t :: t in tags <==> t in g.tags || t == tag;
    forall i, j | 0 <= i < j < |tags| ensures tags[i].id < tags[j].id && KeyOf(tags[i]) != KeyOf(tags[j]) {
      assert tags[i] == g.tags[i] && g.tags[i] in g.tags;
      assert !TagIs(g.tags[i], tag.doc, tag.kind, tag.value);
    }
  }

  lemma NewEdgeOk(subjects: map<string, int>, edges: set<Edge>, tags: seq<Tag>, tag: Tag, e: Edge)
    requires EdgesOk(subjects, edges, tags) && Mirrors(subjects, tag, e)
    ensures EdgesOk(subjects, edges + {e}, tags + [tag])
  {
    hide LinkSpec;
    var more := tags + [tag];
    assert forall t :: t in more <==> t in tags || t == tag;
    forall t | t in more ensures HasEdge(subjects, edges + {e}, t) {
      assert t in tags ==> HasEdge(subjects, edges, t);
    }
    hide Mirrors;
    forall f | f in edges + {e} ensures HasMirror(subjects, more, f) {
      if f in edges {
        assert HasMirror(subjects, tags, f);
        var t :| t in tags && Mirrors(subjects, t, f);
        assert t in more;
      } else {
        assert tag in more;
      }
    }
  }

  lemma NewTagPrimary(tags: seq<Tag>, tag: Tag, primary: map<int, Option<int>>)
    requires PrimaryOk(tags, primary)
    ensures PrimaryOk(tags + [tag], primary)
  {
    forall d | d in primary && primary[d].Some?
      ensures exists t :: t in tags + [tag] && ProjectTag(t, d, primary[d].value)
    {
      var t :| t in tags && ProjectTag(t, d, primary[d].value);
      assert t in tags + [tag];
    }
  }

  // ---------------------------------------------------------------------------
  // Unlinking keeps the invariant
  // ---------------------------------------------------------------------------

  lemma UnlinkedSound(g: Graph, doc: int, kind: string, name: string)
    requires Sound(g) && LinkSpec(kind).Some? && doc in g.primary
    ensures var u := Unlinked(g, doc, kind, name);
            && Sound(u) && u.primary.Keys == g.primary.Keys && u.nextDoc == g.nextDoc && u.types == g.types
            && LinksOf(u.tags) == LinksOf(g.tags) - {LinkKey(doc, kind, name)}
            && (forall d :: d in g.primary && d != doc ==> u.primary[d] == g.primary[d])
  {
    hide LinkSpec, Untagged, FirstOther, EdgesOk, PrimaryOk, TagsOk, LinksOf;
    var u := Unlinked(g, doc, kind, name);
    UnlinkedTags(g, u.primary, doc, kind, name);
    UnlinkedLinks(g.tags, doc, kind, name);
    UnlinkedEdges(g, doc, kind, name);
    UnlinkedPrimary(g, doc, kind, name);
    assert u.primary.Keys == g.primary.Keys;
  }

  lemma UnlinkedTags(g: Graph, primary: map<int, Option<int>>, doc: int, kind: string, name: string)
    requires TagsOk(g.subjects, g.primary, g.tags, g.nextTag) && primary.Keys == g.primary.Keys
    ensures TagsOk(g.subjects, primary, Untagged(g.tags, doc, kind, name), g.nextTag)
  {
    UntaggedIs(g.tags, doc, kind, name);
    UntaggedOrdered(g.tags, doc, kind, name);
    hide LinkSpec, Untagged, KeyOf;
    forall t | t in Untagged(g.tags, doc, kind, name) ensures TagOk(g.subjects, primary, t) && t.id < g.nextTag {
      assert t in g.tags && TagOk(g.subjects, g.primary, t);
    }
  }

  lemma UnlinkedLinks(tags: seq<Tag>, doc: int, kind: string, name: string)
    ensures LinksOf(Untagged(tags, doc, kind, name)) == LinksOf(tags) - {LinkKey(doc, kind, name)}
  {
    UntaggedIs(tags, doc, kind, name);
    var kept := Untagged(tags, doc, kind, name);
    hide Untagged;
    forall k ensures k in LinksOf(kept) <==> k in LinksOf(tags) && k != LinkKey(doc, kind, name) {
      if k in LinksOf(kept) {
        var t :| t in kept && KeyOf(t) == k;
      }
      if k in LinksOf(tags) && k != LinkKey(doc, kind, name) {
        var t :| t in tags && KeyOf(t) == k;
        assert t in kept;
      }
    }
  }

  lemma UnlinkedEdges(g: Graph, doc: int, kind: string, name: string)
    requires Sound(g) && LinkSpec(kind).Some?
    ensures var u := Unlinked(g, doc, kind, name);
            EdgesOk(g.subjects, u.edges, Untagged(g.tags, doc, kind, name)) && u.subjects == g.subjects
  {
    var u := Unlinked(g, doc, kind, name);
    var kept := Untagged(g.tags, doc, kind, name);
    UntaggedIs(g.tags, doc, kind, name);
    assert u.edges == if name in g.subjects then g.edges - {Edge(doc, LinkSpec(kind).value.verb, g.subjects[name])}
                      else g.edges;
    hide Unlinked, Untagged, LinkSpec;
    forall t | t in kept ensures HasEdge(g.subjects, u.edges, t) {
      assert HasEdge(g.subjects, g.edges, t);
      if name in g.subjects {
        OtherEdge(g.subjects, t, doc, kind, name);
      }
    }
    forall e | e in u.edges ensures HasMirror(g.subjects, kept, e) {
      assert HasMirror(g.subjects, g.tags, e);
      var t :| t in g.tags && Mirrors(g.subjects, t, e);
      assert t in kept;
    }
  }

  /** A tag of another link has another edge. */
  lemma OtherEdge(subjects: map<string, int>, t: Tag, doc: int, kind: string, name: string)
    requires forall m, n :: m in subjects && n in subjects && m != n ==> subjects[m] != subjects[n]
    requires LinkSpec(kind).Some? && LinkSpec(t.kind).Some? && t.value in subjects
    requires !TagIs(t, doc, kind, name) && name in subjects
    ensures Edge(t.doc, LinkSpec(t.kind).value.verb, subjects[t.value])
         != Edge(doc, LinkSpec(kind).value.verb, subjects[name])
  {
    if LinkSpec(t.kind).value.verb == LinkSpec(kind).value.verb {
      KindByVerb(t.kind, kind);
    }
  }

  lemma UnlinkedPrimary(g: Graph, doc: int, kind: string, name: string)
    requires Sound(g) && LinkSpec(kind).Some? && doc in g.primary
    ensures var u := Unlinked(g, doc, kind, name); PrimaryOk(u.tags, u.primary)
  {
    var u := Unlinked(g, doc, kind, name);
    assert u.tags == Untagged(g.tags, doc, kind, name);
    UntaggedIs(g.tags, doc, kind, name);
    FirstOtherIs(g.tags, doc, name);
    hide LinkSpec, Untagged, FirstOther;
    forall d | d in u.primary && u.primary[d].Some?
      ensures exists t :: t in u.tags && ProjectTag(t, d, u.primary[d].value)
    {
      if d == doc && name in g.subjects && g.primary[doc] == Some(g.subjects[name]) {
        var t :| t in g.tags && ProjectTag(t, doc, u.primary[d].value) && t.value != name;
        assert t in u.tags;
      } else {
        var t :| t in g.tags && ProjectTag(t, d, g.primary[d].value);
        assert TagOk(g.subjects, g.primary, t);
        assert t in u.tags;
      }
    }
  }

  // ---------------------------------------------------------------------------
  // Runs
  // ---------------------------------------------------------------------------

  datatype Command =
    | Upload(projects: seq<string>, subjects: seq<string>)
    | ChangeLinks(doc: int, changes: Changes)
    | AddLink(doc: int, kind: string, name: string)
    | DropLink(doc: int, kind: string, name: string)
    | Remove(doc: int)

  /** `DELETE /v1/documents/{id}` without the engine's forget function: edges, then the document and its tags. */
  function Removed(g: Graph, doc: int): Graph {
    g.(edges := (set e | e in g.edges && e.doc != doc), tags := WithoutDoc(g.tags, doc), primary := g.primary - {doc})
  }

  function WithoutDoc(tags: seq<Tag>, doc: int): seq<Tag> {
    if tags == [] then []
    else (if tags[0].doc == doc then [] else [tags[0]]) + WithoutDoc(tags[1..], doc)
  }

  function NewDocument(g: Graph): Graph {
    g.(primary := g.primary[g.nextDoc := None], nextDoc := g.nextDoc + 1)
  }

  function Step(g: Graph, c: Command): Graph {
    match c
    case Upload(projects, subjects) => LinkBoth(NewDocument(g), g.nextDoc, projects, subjects)
    case ChangeLinks(doc, changes) => if PatchReply(g, doc, changes).Ok? then Patched(g, doc, changes) else g
    case AddLink(doc, kind, name) =>
      (var r := Link(g, doc, kind, name); if doc in g.primary && r.Ok? then r.value else g)
    case DropLink(doc, kind, name) =>
      (var r := Unlink(g, doc, kind, name); if doc in g.primary && r.Ok? then r.value else g)
    case Remove(doc) => if doc in g.primary then Removed(g, doc) else g
  }

  function Run(g: Graph, run: seq<Command>): Graph
    decreases |run|
  {
    if run == [] then g else Run(Step(g, run[0]), run[1..])
  }

  function KeysFor(doc: int, kind: string, names: seq<string>): set<LinkKey> {
    set n | n in names :: LinkKey(doc, kind, n)
  }

  lemma {:induction false} LinkAllSound(g: Graph, doc: int, kind: string, names: seq<string>)
    requires Sound(g) && LinkSpec(kind).Some? && doc in g.primary
    ensures var l := LinkAll(g, doc, kind, names);
            && Sound(l) && l.primary == g.primary && l.nextDoc == g.nextDoc
            && LinksOf(l.tags) == LinksOf(g.tags) + KeysFor(doc, kind, names)
            && (forall id :: id in g.types ==> id in l.types && l.types[id] == g.types[id])
    decreases |names|
  {
    hide Sound, Linked, LinkSpec, LinksOf;
    if names != [] {
      LinkedSound(g, doc, kind, names[0]);
      LinkAllSound(Linked(g, doc, kind, names[0]), doc, kind, names[1..]);
      assert forall n :: n in names <==> n == names[0] || n in names[1..];
      assert KeysFor(doc, kind, names) == {LinkKey(doc, kind, names[0])} + KeysFor(doc, kind, names[1..]);
    }
  }

  lemma {:induction false} UnlinkAllSound(g: Graph, doc: int, kind: string, names: seq<string>)
    requires Sound(g) && LinkSpec(kind).Some? && doc in g.primary
    ensures var u := UnlinkAll(g, doc, kind, names);
            && Sound(u) && u.primary.Keys == g.primary.Keys && u.nextDoc == g.nextDoc && u.types == g.types
            && LinksOf(u.tags) == LinksOf(g.tags) - KeysFor(doc, kind, names)
    decreases |names|
  {
    hide Sound, Unlinked, LinkSpec, LinksOf;
    if names != [] {
      UnlinkedSound(g, doc, kind, names[0]);
      UnlinkAllSound(Unlinked(g, doc, kind, names[0]), doc, kind, names[1..]);
      assert forall n :: n in names <==> n == names[0] || n in names[1..];
      assert KeysFor(doc, kind, names) == {LinkKey(doc, kind, names[0])} + KeysFor(doc, kind, names[1..]);
    }
  }

  /** The project the loops remember is linked, and stays so while more names are linked. */
  lemma FirstIsLinked(g: Graph, doc: int, projects: seq<string>)
    requires Sound(g) && doc in g.primary
    ensures var first := FirstId(g, doc, projects);
            && (first.Some? <==> projects != [])
            && (first.Some? ==>
                  exists t :: t in LinkAll(g, doc, "project", projects).tags && ProjectTag(t, doc, first.value))
  {
    if projects != [] {
      LinkedSound(g, doc, "project", projects[0]);
      var l := Linked(g, doc, "project", projects[0]);
      var t :| t in l.tags && ProjectTag(t, doc, l.subjects[projects[0]]);
      TagsStay(l, doc, "project", projects[1..], t);
    }
  }

  lemma {:induction false} TagsStay(g: Graph, doc: int, kind: string, names: seq<string>, t: Tag)
    requires Sound(g) && LinkSpec(kind).Some? && doc in g.primary && t in g.tags
    ensures t in LinkAll(g, doc, kind, names).tags
    decreases |names|
  {
    if names != [] {
      LinkedIs(g, doc, kind, names[0]);
      LinkedSound(g, doc, kind, names[0]);
      hide Sound, Linked, LinkSpec, HasTag;
      TagsStay(Linked(g, doc, kind, names[0]), doc, kind, names[1..], t);
    }
  }

  lemma LinkBothSound(g: Graph, doc: int, projects: seq<string>, subjects: seq<string>)
    requires Sound(g) && doc in g.primary
    ensures var l := LinkBoth(g, doc, projects, subjects);
            && Sound(l) && l.nextDoc == g.nextDoc
            && LinksOf(l.tags)
               == LinksOf(g.tags) + KeysFor(doc, "project", projects) + KeysFor(doc, "subject", subjects)
            && (forall id :: id in g.types ==> id in l.types && l.types[id] == g.types[id])
  {
    hide LinkAll, LinksOf, KeysFor, TagsOk, SubjectsOk, EdgesOk;
    var p := LinkAll(g, doc, "project", projects);
    var s := LinkAll(p, doc, "subject", subjects);
    LinkAllSound(g, doc, "project", projects);
    LinkAllSound(p, doc, "subject", subjects);
    FirstIsLinked(g, doc, projects);
    var first := FirstId(g, doc, projects);
    if first.Some? {
      var t :| t in p.tags && ProjectTag(t, doc, first.value);
      TagsStay(p, doc, "subject", subjects, t);
      AdoptedSound(s, doc, first);
    }
  }

  lemma AdoptedSound(g: Graph, doc: int, first: Option<int>)
    requires Sound(g) && doc in g.primary
    requires first.Some? ==> exists t :: t in g.tags && ProjectTag(t, doc, first.value)
    ensures Sound(Adopted(g, doc, first))
  {
    hide LinkSpec, EdgesOk;
    var a := Adopted(g, doc, first);
    forall t | t in a.tags ensures TagOk(a.subjects, a.primary, t) {
      assert TagOk(g.subjects, g.primary, t);
    }
  }

  lemma {:induction false} WithoutDocIs(tags: seq<Tag>, doc: int)
    ensures forall t :: t in WithoutDoc(tags, doc) <==> t in tags && t.doc != doc
    ensures Ordered(tags) ==> Ordered(WithoutDoc(tags, doc))
  {
    if tags != [] {
      WithoutDocIs(tags[1..], doc);
      assert forall t :: t in tags <==> t == tags[0] || t in tags[1..];
      var rest := WithoutDoc(tags[1..], doc);
      if Ordered(tags) {
        forall j | 0 <= j < |rest| ensures tags[0].id < rest[j].id && KeyOf(tags[0]) != KeyOf(rest[j]) {
          assert rest[j] in rest;
          var k :| 0 <= k < |tags[1..]| && tags[1..][k] == rest[j];
          assert tags[1 + k] == rest[j];
        }
      }
    }
  }

  lemma RemovedSound(g: Graph, doc: int)
    requires Sound(g) && doc in g.primary
    ensures var r := Removed(g, doc);
            Sound(r) && LinksOf(r.tags) == (set k | k in LinksOf(g.tags) && k.doc != doc)
  {
    var r := Removed(g, doc);
    WithoutDocIs(g.tags, doc);
    hide LinkSpec, WithoutDoc;
    assert Ordered(g.tags);
    forall t | t in r.tags ensures TagOk(r.subjects, r.primary, t) && t.id < r.nextTag {
      assert TagOk(g.subjects, g.primary, t);
    }
    forall t | t in r.tags ensures HasEdge(r.subjects, r.edges, t) {
      assert HasEdge(g.subjects, g.edges, t);
    }
    forall e | e in r.edges ensures HasMirror(r.subjects, r.tags, e) {
      assert HasMirror(g.subjects, g.tags, e);
      var t :| t in g.tags && Mirrors(g.subjects, t, e);
      assert t in r.tags;
    }
    RemovedPrimary(g, doc);
    RemovedLinks(g.tags, doc);
  }

  lemma RemovedPrimary(g: Graph, doc: int)
    requires PrimaryOk(g.tags, g.primary)
    ensures PrimaryOk(WithoutDoc(g.tags, doc), g.primary - {doc})
  {
    WithoutDocIs(g.tags, doc);
    forall d | d in g.primary - {doc} && (g.primary - {doc})[d].Some?
      ensures exists t :: t in WithoutDoc(g.tags, doc) && ProjectTag(t, d, g.primary[d].value)
    {
      var t :| t in g.tags && ProjectTag(t, d, g.primary[d].value);
      assert t in WithoutDoc(g.tags, doc);
    }
  }

  lemma RemovedLinks(tags: seq<Tag>, doc: int)
    ensures LinksOf(WithoutDoc(tags, doc)) == (set k | k in LinksOf(tags) && k.doc != doc)
  {
    WithoutDocIs(tags, doc);
    var kept := WithoutDoc(tags, doc);
    forall k ensures k in LinksOf(kept) <==> k in LinksOf(tags) && k.doc != doc {
      if k in LinksOf(kept) {
        var t :| t in kept && KeyOf(t) == k;
      }
      if k in LinksOf(tags) && k.doc != doc {
        var t :| t in tags && KeyOf(t) == k;
        assert t in kept;
      }
    }
  }

  lemma NewDocumentSound(g: Graph)
    requires Sound(g)
    ensures Sound(NewDocument(g))
  {
    hide LinkSpec, EdgesOk;
    var n := NewDocument(g);
    forall t | t in n.tags ensures TagOk(n.subjects, n.primary, t) {
      assert TagOk(g.subjects, g.primary, t);
    }
  }

  // ---------------------------------------------------------------------------
  // The links are a plain set
  // ---------------------------------------------------------------------------

  /** The specification: a set of (document, kind, name), its documents, and a document counter. */
  datatype Plain = Plain(links: set<LinkKey>, docs: set<int>, nextDoc: int)

  function PlainStep(p: Plain, c: Command): Plain {
    match c
    case Upload(projects, subjects) =>
      Plain(p.links + KeysFor(p.nextDoc, "project", projects) + KeysFor(p.nextDoc, "subject", subjects),
            p.docs + {p.nextDoc}, p.nextDoc + 1)
    case ChangeLinks(doc, ch) =>
      if doc !in p.docs then p
      else
        p.(links := p.links - KeysFor(doc, "project", ch.unlinkProjects) - KeysFor(doc, "subject", ch.unlinkSubjects)
                    + KeysFor(doc, "project", ch.linkProjects) + KeysFor(doc, "subject", ch.linkSubjects))
    case AddLink(doc, kind, name) =>
      if doc !in p.docs || Strip(name) == "" || LinkSpec(kind).None? then p
      else p.(links := p.links + {LinkKey(doc, kind, Strip(name))})
    case DropLink(doc, kind, name) =>
      if doc !in p.docs || Strip(name) == "" || LinkSpec(kind).None? then p
      else p.(links := p.links - {LinkKey(doc, kind, Strip(name))})
    case Remove(doc) => Plain((set k | k in p.links && k.doc != doc), p.docs - {doc}, p.nextDoc)
  }

  function PlainRun(p: Plain, run: seq<Command>): Plain
    decreases |run|
  {
    if run == [] then p else PlainRun(PlainStep(p, run[0]), run[1..])
  }

  function PlainOf(g: Graph): Plain {
    Plain(LinksOf(g.tags), g.primary.Keys, g.nextDoc)
  }

  lemma UploadStep(g: Graph, projects: seq<string>, subjects: seq<string>)
    requires Sound(g)
    ensures var c := Upload(projects, subjects); Sound(Step(g, c)) && PlainOf(Step(g, c)) == PlainStep(PlainOf(g), c)
  {
    NewDocumentSound(g);
    LinkBothSound(NewDocument(g), g.nextDoc, projects, subjects);
    LinkBothDocs(NewDocument(g), g.nextDoc, projects, subjects);
    hide Sound, LinksOf, KeysFor, LinkBoth;
    assert NewDocument(g).primary.Keys == g.primary.Keys + {g.nextDoc};
  }

  lemma LinkBothDocs(g: Graph, doc: int, projects: seq<string>, subjects: seq<string>)
    requires Sound(g) && doc in g.primary
    ensures LinkBoth(g, doc, projects, subjects).primary.Keys == g.primary.Keys
  {
    hide LinkAll, FirstId, Sound;
    LinkAllSound(g, doc, "project", projects);
    LinkAllSound(LinkAll(g, doc, "project", projects), doc, "subject", subjects);
  }

  lemma ChangeStep(g: Graph, doc: int, ch: Changes)
    requires Sound(g)
    ensures var c := ChangeLinks(doc, ch); Sound(Step(g, c)) && PlainOf(Step(g, c)) == PlainStep(PlainOf(g), c)
  {
    if PatchReply(g, doc, ch).Ok? {
      var u := UnlinkAll(g, doc, "project", ch.unlinkProjects);
      var v := UnlinkAll(u, doc, "subject", ch.unlinkSubjects);
      UnlinkAllSound(g, doc, "project", ch.unlinkProjects);
      hide Sound, LinksOf, KeysFor, LinkBoth, UnlinkAll;
      UnlinkAllSound(u, doc, "subject", ch.unlinkSubjects);
      LinkBothSound(v, doc, ch.linkProjects, ch.linkSubjects);
      LinkBothDocs(v, doc, ch.linkProjects, ch.linkSubjects);
    } else {
      var none := KeysFor(doc, "project", []) + KeysFor(doc, "subject", []);
      assert none == {};
    }
  }

  lemma OneLinkStep(g: Graph, doc: int, kind: string, name: string)
    requires Sound(g)
    ensures var c := AddLink(doc, kind, name); Sound(Step(g, c)) && PlainOf(Step(g, c)) == PlainStep(PlainOf(g), c)
    ensures var c := DropLink(doc, kind, name); Sound(Step(g, c)) && PlainOf(Step(g, c)) == PlainStep(PlainOf(g), c)
  {
    hide Sound, LinksOf, Linked, Unlinked, Strip, LinkSpec;
    if doc in g.primary && LinkSpec(kind).Some? {
      LinkedSound(g, doc, kind, Strip(name));
      UnlinkedSound(g, doc, kind, Strip(name));
    }
  }

  lemma StepSound(g: Graph, c: Command)
    requires Sound(g)
    ensures Sound(Step(g, c)) && PlainOf(Step(g, c)) == PlainStep(PlainOf(g), c)
  {
    hide Sound, LinksOf, Step, PlainStep;
    match c
    case Upload(projects, subjects) => UploadStep(g, projects, subjects);
    case ChangeLinks(doc, changes) => ChangeStep(g, doc, changes);
    case AddLink(doc, kind, name) => OneLinkStep(g, doc, kind, name);
    case DropLink(doc, kind, name) => OneLinkStep(g, doc, kind, name);
    case Remove(doc) => RemoveStep(g, doc);
  }

  lemma RemoveStep(g: Graph, doc: int)
    requires Sound(g)
    ensures var c := Remove(doc); Sound(Step(g, c)) && PlainOf(Step(g, c)) == PlainStep(PlainOf(g), c)
  {
    if doc in g.primary {
      RemovedSound(g, doc);
      assert (g.primary - {doc}).Keys == g.primary.Keys - {doc};
    } else {
      forall k | k in LinksOf(g.tags) ensures k.doc != doc {
        var t :| t in g.tags && KeyOf(t) == k;
        assert TagOk(g.subjects, g.primary, t);
      }
      assert (set k | k in LinksOf(g.tags) && k.doc != doc) == LinksOf(g.tags);
      assert g.primary.Keys - {doc} == g.primary.Keys;
    }
  }

  /** Through every run, tags, edges and primaries stay in step, and the links are those of a plain set. */
  lemma {:induction false} EveryRunIsSound(g: Graph, run: seq<Command>)
    requires Sound(g)
    ensures Sound(Run(g, run))
    ensures PlainOf(Run(g, run)) == PlainRun(PlainOf(g), run)
    decreases |run|
  {
    hide Sound, PlainOf, Step, PlainStep;
    if run != [] {
      StepSound(g, run[0]);
      EveryRunIsSound(Step(g, run[0]), run[1..]);
    }
  }

  lemma EmptyIsSound()
    ensures Sound(EMPTY) && PlainOf(EMPTY) == Plain({}, {}, 1)
  {}

  /** Every run that starts with no document. */
  lemma EveryRunFromEmpty(run: seq<Command>)
    ensures Sound(Run(EMPTY, run)) && PlainOf(Run(EMPTY, run)) == PlainRun(Plain({}, {}, 1), run)
  {
    EmptyIsSound();
    EveryRunIsSound(EMPTY, run);
  }

  /** After every run a tag for a link exists exactly when its edge does, and exactly when the plain set has the
      link. */
  lemma TagIffEdgeAfterEveryRun(run: seq<Command>, doc: int, kind: string, name: string)
    requires LinkSpec(kind).Some?
    ensures var g := Run(EMPTY, run);
            && (HasTag(g.tags, doc, kind, name) <==>
                  name in g.subjects && Edge(doc, LinkSpec(kind).value.verb, g.subjects[name]) in g.edges)
            && (HasTag(g.tags, doc, kind, name) <==> LinkKey(doc, kind, name) in PlainRun(Plain({}, {}, 1), run).links)
  {
    hide Sound, Run, PlainRun, LinkSpec, HasTag, LinksOf;
    EveryRunFromEmpty(run);
    TagIffEdge(Run(EMPTY, run), doc, kind, name);
  }

  // ---------------------------------------------------------------------------
  // Single links
  // ---------------------------------------------------------------------------

  /** Linking twice is linking once, to the last counter. */
  lemma LinkTwiceIsOnce(g: Graph, doc: int, kind: string, name: string)
    requires Sound(g) && LinkSpec(kind).Some? && doc in g.primary
    ensures Linked(Linked(g, doc, kind, name), doc, kind, name) == Linked(g, doc, kind, name)
  {
    var l := Linked(g, doc, kind, name);
    LinkedSound(g, doc, kind, name);
    hide Sound, Linked, Resolved, LinkSpec, LinksOf;
    assert LinkKey(doc, kind, name) in LinksOf(l.tags);
    assert HasTag(l.tags, doc, kind, name) by { TagIffEdge(l, doc, kind, name); }
    LinkedIs(l, doc, kind, name);
    var spec := LinkSpec(kind).value;
    assert Resolved(l, name, spec.subjectType) == l by { ResolvedKnown(l, name, spec.subjectType); }
    assert l.edges + {Edge(doc, spec.verb, l.subjects[name])} == l.edges by { HadTag(l, doc, kind, name); }
  }

  lemma ResolvedKnown(g: Graph, name: string, ty: string)
    requires name in g.subjects
    ensures Resolved(g, name, ty) == g
  {}

  /** Unlinking a fresh link of a known subject gives back the tags and edges there were. */
  lemma UnlinkUndoesLink(g: Graph, doc: int, kind: string, name: string)
    requires Sound(g) && LinkSpec(kind).Some? && doc in g.primary && !HasTag(g.tags, doc, kind, name)
    ensures var u := Unlinked(Linked(g, doc, kind, name), doc, kind, name); u.tags == g.tags && u.edges == g.edges
  {
    var r := Resolved(g, name, LinkSpec(kind).value.subjectType);
    ResolvedSound(g, name, LinkSpec(kind).value.subjectType);
    LinkedIs(g, doc, kind, name);
    assert !HasTag(r.tags, doc, kind, name);
    TagIffEdge(r, doc, kind, name);
    UntaggedAppended(g.tags, Tag(g.nextTag, doc, kind, name, Some(r.subjects[name])));
  }

  lemma {:induction false} UntaggedAppended(tags: seq<Tag>, tag: Tag)
    requires !HasTag(tags, tag.doc, tag.kind, tag.value)
    ensures Untagged(tags + [tag], tag.doc, tag.kind, tag.value) == tags
  {
    if tags != [] {
      assert (tags + [tag])[1..] == tags[1..] + [tag];
      assert tags[0] in tags && forall t :: t in tags[1..] ==> t in tags;
      UntaggedAppended(tags[1..], tag);
    }
  }

  /** Exactly when unlinking a name, under any kind, leaves a document that had a primary project without one: the name
      is that project's, and no other linked project is left to take its place. */
  lemma PrimaryIsLostExactlyWhen(g: Graph, doc: int, kind: string, name: string)
    requires Sound(g) && LinkSpec(kind).Some? && doc in g.primary && g.primary[doc].Some?
    ensures Unlinked(g, doc, kind, name).primary[doc] == None <==>
            && name in g.subjects && g.primary[doc] == Some(g.subjects[name])
            && forall t :: t in g.tags && t.doc == doc && t.kind == "project" ==> t.value == name
  {
    FirstOtherIs(g.tags, doc, name);
    assert forall t :: t in g.tags ==> t.objectId.Some? by {
      forall t | t in g.tags ensures t.objectId.Some? {
        assert TagOk(g.subjects, g.primary, t);
      }
    }
  }

  /** So a linked project does not imply a primary: link a project's name as a subject too, unlink the subject, and
      the project is still linked while the primary is null. */
  lemma LinkedProjectMayLackPrimary()
    ensures var run := [Upload(["x"], ["x"]), DropLink(1, "subject", "x")];
            var g := Run(EMPTY, run);
            HasTag(g.tags, 1, "project", "x") && g.primary == map[1 := None]
  {
    ExampleUpload();
    ExampleDrop();
    var g, h := Step(EMPTY, Upload(["x"], ["x"])), Step(EXAMPLE, DropLink(1, "subject", "x"));
    var rest := [DropLink(1, "subject", "x")];
    assert [Upload(["x"], ["x"]), DropLink(1, "subject", "x")][1..] == rest;
    assert Run(h, rest[1..]) == h;
    hide Step, TagIs;
    assert TagIs(PROJECT_X, 1, "project", "x") by { ExampleTag(); }
    assert h.tags[0] in h.tags;
  }

  const PROJECT_X := Tag(1, 1, "project", "x", Some(1))
  const SUBJECT_X := Tag(2, 1, "subject", "x", Some(1))

  /** One document, linked to "x" as a project and as a subject. */
  const EXAMPLE := Graph(map["x" := 1], map[1 := "project"], 2, {Edge(1, "concerns", 1), Edge(1, "mentions", 1)},
                         [PROJECT_X, SUBJECT_X], 3, map[1 := Some(1)], 2)

  lemma ExampleTag()
    ensures TagIs(PROJECT_X, 1, "project", "x")
  {}

  lemma ExampleUpload()
    ensures Step(EMPTY, Upload(["x"], ["x"])) == EXAMPLE
  {
    var g1 := Linked(NewDocument(EMPTY), 1, "project", "x");
    assert g1
        == Graph(map["x" := 1], map[1 := "project"], 2, {Edge(1, "concerns", 1)}, [PROJECT_X], 2, map[1 := None], 2);
    assert Linked(g1, 1, "subject", "x") == EXAMPLE.(primary := map[1 := None]);
    assert EXAMPLE.primary == map[1 := None][1 := Some(1)];
  }

  lemma ExampleDrop()
    ensures var g := Step(EXAMPLE, DropLink(1, "subject", "x")); g.tags == [PROJECT_X] && g.primary == map[1 := None]
  {
    assert Strip("x") == "x";
    assert FirstOther([SUBJECT_X], 1, "x") == None;
    assert EXAMPLE.tags[1..] == [SUBJECT_X];
    assert Untagged([SUBJECT_X], 1, "subject", "x") == [];
    assert PROJECT_X.kind[0] == 'p' && "subject"[0] == 's';
  }
}
