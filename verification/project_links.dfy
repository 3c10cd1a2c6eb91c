/** Replacing the subjects or verbs of a project: the request lists what is wanted, what is no longer wanted is unlinked
    and what is new is linked, so that the links of the project become exactly the listed ones. */
module ProjectLinks {
  import opened Results
  import opened Sorting

  datatype TargetKind = SubjectTarget | VerbTarget

  datatype Link = Link(project: int, kind: TargetKind, target: int)

  /** One element of the request's array: an integer, or anything else. */
  datatype Element = Id(id: int) | NotAnInteger

  predicate Acceptable(project: int, kind: TargetKind, known: set<int>, e: Element) {
    e.Id? && e.id in known && !(kind.SubjectTarget? && e.id == project)
  }

  /** The element is the id of a known target, and no subject is linked to itself. */
  ghost predicate Linkable(project: int, kind: TargetKind, known: set<int>, e: Element) {
    match e
    case Id(id) => id in known && (kind == SubjectTarget ==> id != project)
    case NotAnInteger => false
  }

  /** The distinct listed ids; one element that cannot be linked refuses the whole list. */
  method Wanted(project: int, kind: TargetKind, known: set<int>, elements: seq<Element>) returns (r: Result<seq<int>>)
    ensures r.Ok? <==> forall e :: e in elements ==> Linkable(project, kind, known, e)
    ensures r.Err? ==> r.error == ValidationFailed
    ensures r.Ok? ==> forall w :: w in r.value <==> Id(w) in elements
    ensures r.Ok? ==> forall a, b :: 0 <= a < b < |r.value| ==> r.value[a] != r.value[b]
  {
    var want: seq<int> := [];
    for i := 0 to |elements|
      invariant forall e :: e in elements[..i] ==> Acceptable(project, kind, known, e)
      invariant forall w :: w in want <==> Id(w) in elements[..i]
      invariant forall a, b :: 0 <= a < b < |want| ==> want[a] != want[b]
    {
      var e := elements[i];
      assert e in elements && elements[..i + 1] == elements[..i] + [e];
      if !Acceptable(project, kind, known, e) {
        return Err(ValidationFailed);
      }
      if e.id !in want {
        want := want + [e.id];
      }
    }
    assert elements[..|elements|] == elements;
    return Ok(want);
  }

  type Order = (int, int) -> bool

  class Store {
    var links: set<Link>
    const projects: set<int>
    const known: TargetKind -> set<int>
    const byName: TargetKind -> Order  // the database's order of canonical names

    constructor (links: set<Link>, projects: set<int>, known: TargetKind -> set<int>, byName: TargetKind -> Order)
      ensures this.links == links && this.projects == projects && this.known == known && this.byName == byName
    {
      this.links, this.projects, this.known, this.byName := links, projects, known, byName;
    }

    /** `replace_subjects` and `replace_verbs`: a refused request changes nothing; otherwise the project's links of that
        kind become exactly the listed ones, no other link changes, and the reply lists each of them once, by name. The
        list is absent when the body has no such field or something other than an array in it. */
    method Replace(project: int, kind: TargetKind, elements: Option<seq<Element>>) returns (r: Result<seq<int>>)
      requires Preorder(byName(kind))
      modifies this
      ensures r.Err? <==> project !in projects || elements.None?
                          || exists e :: e in elements.value && !Linkable(project, kind, known(kind), e)
      ensures r.Err? ==> r.error == (if project !in projects then NotFound
                                     else if elements.None? then MissingField else ValidationFailed)
      ensures r.Err? ==> links == old(links)
      ensures r.Ok? ==> forall l :: l in links <==>
        if l.project == project && l.kind == kind then Id(l.target) in elements.value else l in old(links)
      ensures r.Ok? ==> forall id :: id in r.value <==> Id(id) in elements.value
      ensures r.Ok? ==> Sorted(byName(kind), r.value)
      ensures r.Ok? ==> forall i, j :: 0 <= i < j < |r.value| ==> r.value[i] != r.value[j]
    {
      if project !in projects {
        return Err(NotFound);
      }
      if elements.None? {
        return Err(MissingField);
      }
      var want :- Wanted(project, kind, known(kind), elements.value);
      var current := set l | l in links && l.project == project && l.kind == kind;
      DropUnwanted(current, want);
      AddWanted(project, kind, current, want);
      var listed := Listed(project, kind);
      return Ok(listed);
    }

    /** The project's targets of a kind, by name. */
    method Listed(project: int, kind: TargetKind) returns (ids: seq<int>)
      requires Preorder(byName(kind))
      ensures forall id :: id in ids <==> Link(project, kind, id) in links
      ensures Sorted(byName(kind), ids) && forall i, j :: 0 <= i < j < |ids| ==> ids[i] != ids[j]
    {
      var all := set l | l in links && l.project == project && l.kind == kind;
      var rest := all;
      ids := [];
      while rest != {}
        invariant rest <= all
        invariant forall id :: id in ids <==> Link(project, kind, id) in all - rest
        invariant forall i, j :: 0 <= i < j < |ids| ==> ids[i] != ids[j]
        decreases |rest|
      {
        var l :| l in rest;
        rest, ids := rest - {l}, ids + [l.target];
      }
      SortSorts(byName(kind), ids);
      SameDistinct(ids, Sort(byName(kind), ids));
      ids := Sort(byName(kind), ids);
    }

    method DropUnwanted(current: set<Link>, want: seq<int>)
      modifies this
      ensures links == old(links) - set l | l in current && l.target !in want
    {
      var rest := current;
      while rest != {}
        invariant rest <= current
        invariant links == old(links) - set l | l in current - rest && l.target !in want
        decreases |rest|
      {
        var c :| c in rest;
        rest := rest - {c};
        if c.target !in want {
          links := links - {c};
        }
      }
      assert current - rest == current;
    }

    method AddWanted(project: int, kind: TargetKind, current: set<Link>, want: seq<int>)
      requires forall a, b :: 0 <= a < b < |want| ==> want[a] != want[b]
      modifies this
      ensures forall l :: l in links <==>
        (l in old(links) || (l !in current && l.project == project && l.kind == kind && l.target in want))
    {
      for i := 0 to |want|
        invariant forall l :: l in links <==>
          (l in old(links) || (l !in current && l.project == project && l.kind == kind && l.target in want[..i]))
      {
        var l := Link(project, kind, want[i]);
        assert want[..i + 1] == want[..i] + [want[i]];
        if l !in current {
          links := links + {l};
        }
      }
      assert want[..|want|] == want;
    }
  }
}
