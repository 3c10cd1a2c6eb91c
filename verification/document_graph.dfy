/** Documents linked to projects, subjects and stakeholders: the graph edges, the soft tags and the primary project. */
module DocumentGraph {
  import opened Results
  import opened Text

  /** Which subject type a link kind creates and which verb its edge carries. */
  datatype Spec = Spec(subjectType: string, verb: string)

  function LinkSpec(kind: string): Option<Spec> {
    if kind == "project" then Some(Spec("project", "concerns"))
    else if kind == "subject" then Some(Spec("concept", "mentions"))
    else if kind == "stakeholder" then Some(Spec("person", "involves"))
    else None
  }

  datatype Edge = Edge(doc: int, verb: string, subject: int)

  /** A soft tag carrying the id of the object it resolved to; provenance is always the default one. */
  datatype Tag = Tag(id: int, doc: int, kind: string, value: string, objectId: Option<int>)

  /** `subjects` maps each canonical name to its id and `types` each id to its type; tags stand in id order; `primary`
      has a key for every document. */
  datatype Graph = Graph(subjects: map<string, int>, types: map<int, string>, nextSubject: int, edges: set<Edge>,
                         tags: seq<Tag>, nextTag: int, primary: map<int, Option<int>>, nextDoc: int)

  predicate TagIs(t: Tag, doc: int, kind: string, name: string) {
    t.doc == doc && t.kind == kind && t.value == name
  }

  predicate HasTag(tags: seq<Tag>, doc: int, kind: string, name: string) {
    exists t :: t in tags && TagIs(t, doc, kind, name)
  }

  /** `UPDATE ... SET tag_object_id` on the tag of a link. */
  function Retagged(tags: seq<Tag>, doc: int, kind: string, name: string, id: int): seq<Tag> {
    if tags == [] then []
    else
      [if TagIs(tags[0], doc, kind, name) then tags[0].(objectId := Some(id)) else tags[0]]
      + Retagged(tags[1..], doc, kind, name, id)
  }

  function Untagged(tags: seq<Tag>, doc: int, kind: string, name: string): seq<Tag> {
    if tags == [] then []
    else
      (if TagIs(tags[0], doc, kind, name) then [] else [tags[0]]) + Untagged(tags[1..], doc, kind, name)
  }

  /** The object of the first project tag with another value. */
  function FirstOther(tags: seq<Tag>, doc: int, name: string): Option<int> {
    if tags == [] then None
    else if tags[0].doc == doc && tags[0].kind == "project" && tags[0].value != name && tags[0].objectId.Some?
      then tags[0].objectId
    else FirstOther(tags[1..], doc, name)
  }

  /** The id of a subject, registered under the link kind's type when the name is new; a known one keeps its type. */
  function Resolved(g: Graph, name: string, subjectType: string): Graph {
    if name in g.subjects then g
    else g.(subjects := g.subjects[name := g.nextSubject], types := g.types[g.nextSubject := subjectType],
            nextSubject := g.nextSubject + 1)
  }

  function Tagged(g: Graph, doc: int, kind: string, name: string, id: int): Graph {
    if HasTag(g.tags, doc, kind, name) then g.(tags := Retagged(g.tags, doc, kind, name, id))
    else g.(tags := g.tags + [Tag(g.nextTag, doc, kind, name, Some(id))], nextTag := g.nextTag + 1)
  }

  function Linked(g: Graph, doc: int, kind: string, name: string): Graph
    requires LinkSpec(kind).Some?
  {
    var spec := LinkSpec(kind).value;
    var r := Resolved(g, name, spec.subjectType);
    var id := r.subjects[name];
    Tagged(r.(edges := r.edges + {Edge(doc, spec.verb, id)}), doc, kind, name, id)
  }

  /** The primary after one subject of the document was unlinked by name. */
  function Repointed(g: Graph, doc: int, name: string): Graph {
    if name in g.subjects && doc in g.primary && g.primary[doc] == Some(g.subjects[name])
      then g.(primary := g.primary[doc := FirstOther(g.tags, doc, name)])
    else g
  }

  function Unlinked(g: Graph, doc: int, kind: string, name: string): Graph
    requires LinkSpec(kind).Some?
  {
    var g1 :=
      if name in g.subjects then g.(edges := g.edges - {Edge(doc, LinkSpec(kind).value.verb, g.subjects[name])}) else g;
    var g2 := Repointed(g1, doc, name);
    g2.(tags := Untagged(g2.tags, doc, kind, name))
  }

  /** A document without a primary adopts this one. */
  function Adopted(g: Graph, doc: int, first: Option<int>): Graph {
    if first.Some? && doc in g.primary && g.primary[doc].None? then g.(primary := g.primary[doc := first]) else g
  }

  /** `document_link_subject`: a blank name is no link at all, whatever the kind. */
  function Link(g: Graph, doc: int, kind: string, raw: string): Result<Graph> {
    var name := Strip(raw);
    if name == "" then Ok(g) else if LinkSpec(kind).None? then Err(ValidationFailed) else Ok(Linked(g, doc, kind, name))
  }

  function Unlink(g: Graph, doc: int, kind: string, raw: string): Result<Graph> {
    var name := Strip(raw);
    if name == "" then Ok(g)
    else if LinkSpec(kind).None? then Err(ValidationFailed) else Ok(Unlinked(g, doc, kind, name))
  }

  function LinkAll(g: Graph, doc: int, kind: string, names: seq<string>): Graph
    requires LinkSpec(kind).Some?
    decreases |names|
  {
    if names == [] then g else LinkAll(Linked(g, doc, kind, names[0]), doc, kind, names[1..])
  }

  function UnlinkAll(g: Graph, doc: int, kind: string, names: seq<string>): Graph
    requires LinkSpec(kind).Some?
    decreases |names|
  {
    if names == [] then g else UnlinkAll(Unlinked(g, doc, kind, names[0]), doc, kind, names[1..])
  }

  /** The first linked project: the one the loops remember for adoption. */
  function FirstId(g: Graph, doc: int, projects: seq<string>): Option<int> {
    if projects == [] then None
    else
      var r := Linked(g, doc, "project", projects[0]);
      if projects[0] in r.subjects then Some(r.subjects[projects[0]]) else None
  }

  /** What linking these names does, adoption included. */
  function LinkBoth(g: Graph, doc: int, projects: seq<string>, subjects: seq<string>): Graph {
    Adopted(LinkAll(LinkAll(g, doc, "project", projects), doc, "subject", subjects), doc, FirstId(g, doc, projects))
  }

  /** `_patch`: unlink, then link, then adopt. */
  function Patched(g: Graph, doc: int, ch: Changes): Graph {
    LinkBoth(UnlinkAll(UnlinkAll(g, doc, "project", ch.unlinkProjects), doc, "subject", ch.unlinkSubjects), doc,
             ch.linkProjects, ch.linkSubjects)
  }

  /** The four lists of a PATCH body, already trimmed, non-blank and without repeats. */
  datatype Changes = Changes(linkProjects: seq<string>, linkSubjects: seq<string>, unlinkProjects: seq<string>,
                             unlinkSubjects: seq<string>)

  /** Trimmed names, blanks dropped, each once at its first place. */
  predicate Names(names: seq<string>) {
    && (forall n :: n in names ==> n != "" && Strip(n) == n)
    && forall i, j :: 0 <= i < j < |names| ==> names[i] != names[j]
  }

  /** `_names` and `_parse_names`: the distinct trimmed names of a list, in order. */
  method UniqueNames(raw: seq<string>) returns (names: seq<string>)
    ensures forall n :: n in names <==> n != "" && exists x :: x in raw && Strip(x) == n
    ensures forall i, j :: 0 <= i < j < |names| ==> names[i] != names[j]
    ensures Names(names)
  {
    names := [];
    for i := 0 to |raw|
      invariant forall n :: n in names <==> n != "" && exists x :: x in raw[..i] && Strip(x) == n
      invariant forall a, b :: 0 <= a < b < |names| ==> names[a] != names[b]
    {
      hide Strip;
      var n := Strip(raw[i]);
      ghost var was := names;
      if n != "" && n !in names {
        names := names + [n];
      }
      assert raw[..i + 1] == raw[..i] + [raw[i]];
      assert forall x :: x in raw[..i + 1] <==> x in raw[..i] || x == raw[i];
      assert forall m :: m in names <==> m in was || (m == n && n != "");
    }
    assert raw[..|raw|] == raw;
    forall n | n in names ensures n != "" && Strip(n) == n {
      var x :| x in raw && Strip(x) == n;
      StripTwice(x);
    }
  }

  lemma StripTwice(x: string)
    ensures Strip(Strip(x)) == Strip(x)
  {
    var lead := StripForm(x);
    StripTrimmed(Strip(x));
  }

  class Store {
    var subjects: map<string, int>
    var types: map<int, string>
    var nextSubject: int
    var edges: set<Edge>
    var tags: seq<Tag>
    var nextTag: int
    var primary: map<int, Option<int>>
    var nextDoc: int

    constructor ()
      ensures Contents() == EMPTY
    {
      subjects, types, nextSubject, edges := map[], map[], 1, {};
      tags, nextTag, primary, nextDoc := [], 1, map[], 1;
    }

    ghost function Contents(): Graph
      reads this
    {
      Graph(subjects, types, nextSubject, edges, tags, nextTag, primary, nextDoc)
    }

    method LinkSubject(doc: int, kind: string, raw: string) returns (r: Result<Option<int>>)
      modifies this
      ensures r.Ok? <==> Link(old(Contents()), doc, kind, raw).Ok?
      ensures Contents() == if r.Ok? then Link(old(Contents()), doc, kind, raw).value else old(Contents())
      ensures r.Ok? ==>
        r.value == if Strip(raw) == "" then None
                   else if Strip(raw) in subjects then Some(subjects[Strip(raw)]) else None
      ensures r.Ok? && Strip(raw) != "" ==> r.value.Some?
    {
      hide Strip, HasTag, Retagged;
      var name := Strip(raw);
      if name == "" {
        return Ok(None);
      }
      var spec := LinkSpec(kind);
      if spec.None? {
        return Err(ValidationFailed);
      }
      if name !in subjects {
        subjects, types := subjects[name := nextSubject], types[nextSubject := spec.value.subjectType];
        nextSubject := nextSubject + 1;
      }
      var id := subjects[name];
      edges := edges + {Edge(doc, spec.value.verb, id)};
      if HasTag(tags, doc, kind, name) {
        tags := Retagged(tags, doc, kind, name, id);
      } else {
        tags := tags + [Tag(nextTag, doc, kind, name, Some(id))];
        nextTag := nextTag + 1;
      }
      return Ok(Some(id));
    }

    method UnlinkSubject(doc: int, kind: string, raw: string) returns (r: Result<()>)
      modifies this
      ensures r.Ok? <==> Unlink(old(Contents()), doc, kind, raw).Ok?
      ensures Contents() == if r.Ok? then Unlink(old(Contents()), doc, kind, raw).value else old(Contents())
    {
      hide Strip, FirstOther, Untagged;
      var name := Strip(raw);
      if name == "" {
        return Ok(());
      }
      var spec := LinkSpec(kind);
      if spec.None? {
        return Err(ValidationFailed);
      }
      if name in subjects {
        var id := subjects[name];
        edges := edges - {Edge(doc, spec.value.verb, id)};
        if doc in primary && primary[doc] == Some(id) {
          primary := primary[doc := FirstOther(tags, doc, name)];
        }
      }
      tags := Untagged(tags, doc, kind, name);
      return Ok(());
    }

    method LinkNames(doc: int, kind: string, names: seq<string>) returns (first: Option<int>)
      requires LinkSpec(kind).Some? && Names(names)
      modifies this
      ensures Contents() == LinkAll(old(Contents()), doc, kind, names)
      ensures kind == "project" ==> first == FirstId(old(Contents()), doc, names)
    {
      hide Strip, Linked;
      first := None;
      for i := 0 to |names|
        invariant LinkAll(Contents(), doc, kind, names[i..]) == LinkAll(old(Contents()), doc, kind, names)
        invariant i == 0 ==> Contents() == old(Contents()) && first == None
        invariant i > 0 && kind == "project" ==> first == FirstId(old(Contents()), doc, names) && first.Some?
      {
        assert names[i] in names && names[i..][0] == names[i] && names[i..][1..] == names[i + 1..];
        var id := LinkSubject(doc, kind, names[i]);
        if first.None? && id.Ok? && id.value.Some? {
          first := id.value;
        }
      }
    }

    method UnlinkNames(doc: int, kind: string, names: seq<string>)
      requires LinkSpec(kind).Some? && Names(names)
      modifies this
      ensures Contents() == UnlinkAll(old(Contents()), doc, kind, names)
    {
      hide Strip, Unlinked;
      for i := 0 to |names|
        invariant UnlinkAll(Contents(), doc, kind, names[i..]) == UnlinkAll(old(Contents()), doc, kind, names)
      {
        assert names[i] in names && names[i..][0] == names[i] && names[i..][1..] == names[i + 1..];
        var _ := UnlinkSubject(doc, kind, names[i]);
      }
    }

    /** `_wire_graph`, and the linking half of `_patch`. */
    method Wire(doc: int, projects: seq<string>, subs: seq<string>)
      requires Names(projects) && Names(subs)
      modifies this
      ensures Contents() == LinkBoth(old(Contents()), doc, projects, subs)
    {
      hide LinkAll, FirstId, Names;
      var first := LinkNames(doc, "project", projects);
      var _ := LinkNames(doc, "subject", subs);
      if first.Some? && doc in primary && primary[doc].None? {
        primary := primary[doc := first];
      }
    }

    method Patch(doc: int, ch: Changes) returns (r: Result<()>)
      requires Names(ch.linkProjects) && Names(ch.linkSubjects) && Names(ch.unlinkProjects) && Names(ch.unlinkSubjects)
      modifies this
      ensures r == PatchReply(old(Contents()), doc, ch)
      ensures Contents() == if r.Ok? then Patched(old(Contents()), doc, ch) else old(Contents())
    {
      hide LinkBoth, UnlinkAll, Names;
      if doc !in primary {
        return Err(NotFound);
      }
      if ch == Changes([], [], [], []) {
        return Err(BadRequest);
      }
      UnlinkNames(doc, "project", ch.unlinkProjects);
      UnlinkNames(doc, "subject", ch.unlinkSubjects);
      Wire(doc, ch.linkProjects, ch.linkSubjects);
      return Ok(());
    }
  }

  function PatchReply(g: Graph, doc: int, ch: Changes): Result<()> {
    if doc !in g.primary then Err(NotFound) else if ch == Changes([], [], [], []) then Err(BadRequest) else Ok(())
  }

  const EMPTY := Graph(map[], map[], 1, {}, [], 1, map[], 1)

  // ---------------------------------------------------------------------------
  // Neighbours
  // ---------------------------------------------------------------------------

  datatype Neighbor = Neighbor(id: int, title: string, rel: string)

  ghost predicate FirstOfDocument(rows: seq<Neighbor>, o: Neighbor) {
    exists i :: 0 <= i < |rows| && rows[i] == o && forall j :: 0 <= j < i ==> rows[j].id != o.id
  }

  /** `document_neighbors`: one row per document, the first one. */
  method Neighbors(rows: seq<Neighbor>) returns (out: seq<Neighbor>)
    ensures forall i, j :: 0 <= i < j < |out| ==> out[i].id != out[j].id
    ensures forall r :: r in rows ==> exists o :: o in out && o.id == r.id
    ensures forall o :: o in out ==> FirstOfDocument(rows, o)
  {
    out := [];
    var seen: set<int> := {};
    for k := 0 to |rows|
      invariant forall i, j :: 0 <= i < j < |out| ==> out[i].id != out[j].id
      invariant forall o :: o in out ==> o.id in seen && FirstOfDocument(rows, o)
      invariant forall n :: n in seen ==> exists o :: o in out && o.id == n
      invariant forall j :: 0 <= j < k ==> rows[j].id in seen
    {
      var r := rows[k];
      if r.id !in seen {
        assert FirstOfDocument(rows, r);
        hide FirstOfDocument;
        ghost var was := out;
        seen, out := seen + {r.id}, out + [r];
        assert forall o :: o in out <==> o in was || o == r;
      }
    }
  }
}
