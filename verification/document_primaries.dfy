/** When a linked project still implies a primary one. */
module DocumentPrimaries {
  import opened Results
  import opened DocumentGraph
  import opened DocumentLinks

  /** The names of the projects a document is linked to. */
  ghost function Projects(g: Graph, doc: int): set<string> {
    set k | k in LinksOf(g.tags) && k.doc == doc && k.kind == "project" :: k.name
  }

  /** A document with a linked project has a primary one. */
  ghost predicate HasPrimary(g: Graph, doc: int)
    requires doc in g.primary
  {
    Projects(g, doc) != {} ==> g.primary[doc].Some?
  }

  lemma ProjectIs(g: Graph, doc: int, name: string)
    ensures name in Projects(g, doc) <==> LinkKey(doc, "project", name) in LinksOf(g.tags)
  {}

  lemma ProjectTagged(g: Graph, doc: int, name: string)
    ensures name in Projects(g, doc) <==>
            exists t :: t in g.tags && t.doc == doc && t.kind == "project" && t.value == name
  {
    ProjectIs(g, doc, name);
    if LinkKey(doc, "project", name) in LinksOf(g.tags) {
      var t :| t in g.tags && KeyOf(t) == LinkKey(doc, "project", name);
    }
    if t :| t in g.tags && t.doc == doc && t.kind == "project" && t.value == name {
      assert KeyOf(t) in LinksOf(g.tags);
    }
  }

  /** The name of the primary is that of a linked project, and of no other subject. */
  lemma PrimaryName(g: Graph, doc: int) returns (name: string)
    requires Sound(g) && doc in g.primary && g.primary[doc].Some?
    ensures name in Projects(g, doc) && name in g.subjects && g.subjects[name] == g.primary[doc].value
    ensures forall n :: n in g.subjects && g.subjects[n] == g.primary[doc].value ==> n == name
  {
    var t :| t in g.tags && ProjectTag(t, doc, g.primary[doc].value);
    hide LinkSpec, EdgesOk, Projects;
    assert TagOk(g.subjects, g.primary, t);
    name := t.value;
    ProjectTagged(g, doc, name);
  }

  /** Unlinking a name, under any kind, takes a document's primary away exactly when it names the only linked
      project. */
  lemma LostWithTheOnlyProject(g: Graph, doc: int, kind: string, name: string)
    requires Sound(g) && LinkSpec(kind).Some? && doc in g.primary
    ensures doc in Unlinked(g, doc, kind, name).primary
    ensures Unlinked(g, doc, kind, name).primary[doc].None? <==> g.primary[doc].None? || Projects(g, doc) == {name}
  {
    hide LinkSpec, Projects, Sound, Untagged, FirstOther;
    if g.primary[doc].Some? {
      PrimaryIsLostExactlyWhen(g, doc, kind, name);
      var p := PrimaryName(g, doc);
      forall n
        ensures n in Projects(g, doc) <==>
                exists t :: t in g.tags && t.doc == doc && t.kind == "project" && t.value == n
      {
        ProjectTagged(g, doc, n);
      }
      assert p in Projects(g, doc);
      if Projects(g, doc) == {name} {
        assert p == name;
        forall t | t in g.tags && t.doc == doc && t.kind == "project" ensures t.value == name {
          assert t.value in Projects(g, doc);
        }
      }
    }
  }

  /** Unlinking projects never breaks the implication. */
  lemma {:induction false} ProjectsGo(g: Graph, doc: int, names: seq<string>)
    requires Sound(g) && doc in g.primary && HasPrimary(g, doc)
    ensures var u := UnlinkAll(g, doc, "project", names);
            && Sound(u) && doc in u.primary && HasPrimary(u, doc)
            && Projects(u, doc) == Projects(g, doc) - (set n | n in names)
    decreases |names|
  {
    hide Sound, Unlinked, LinksOf;
    if names != [] {
      var u := Unlinked(g, doc, "project", names[0]);
      UnlinkedSound(g, doc, "project", names[0]);
      LostWithTheOnlyProject(g, doc, "project", names[0]);
      assert Projects(u, doc) == Projects(g, doc) - {names[0]};
      ProjectsGo(u, doc, names[1..]);
    }
  }

  /** Unlinking subjects takes the primary away exactly when one of them bears the name of the only linked project. */
  lemma {:induction false} SubjectsGo(g: Graph, doc: int, names: seq<string>)
    requires Sound(g) && doc in g.primary
    ensures var u := UnlinkAll(g, doc, "subject", names);
            && Sound(u) && doc in u.primary && Projects(u, doc) == Projects(g, doc)
            && (u.primary[doc].None? <==> g.primary[doc].None? || exists n :: n in names && Projects(g, doc) == {n})
    decreases |names|
  {
    hide Sound, Unlinked, LinksOf;
    if names != [] {
      var u := Unlinked(g, doc, "subject", names[0]);
      UnlinkedSound(g, doc, "subject", names[0]);
      LostWithTheOnlyProject(g, doc, "subject", names[0]);
      assert "subject" != "project" by { assert "subject"[0] == 's'; }
      assert Projects(u, doc) == Projects(g, doc);
      SubjectsGo(u, doc, names[1..]);
      assert forall n :: n in names <==> n == names[0] || n in names[1..];
    }
  }

  /** Linking a project gives a primary to a document without one; linking subjects changes neither. */
  lemma LinkedBoth(g: Graph, doc: int, projects: seq<string>, subjects: seq<string>)
    requires Sound(g) && doc in g.primary
    ensures var l := LinkBoth(g, doc, projects, subjects);
            && Sound(l) && doc in l.primary && Projects(l, doc) == Projects(g, doc) + (set n | n in projects)
            && (l.primary[doc].None? <==> g.primary[doc].None? && projects == [])
  {
    var p := LinkAll(g, doc, "project", projects);
    var s := LinkAll(p, doc, "subject", subjects);
    hide Sound, LinkAll, LinksOf, FirstId;
    LinkAllSound(g, doc, "project", projects);
    LinkAllSound(p, doc, "subject", subjects);
    FirstIsLinked(g, doc, projects);
    LinkBothSound(g, doc, projects, subjects);
    assert "subject" != "project" by { assert "subject"[0] == 's'; }
    ProjectsAfterLinks(g, LinkBoth(g, doc, projects, subjects), doc, projects, subjects);
  }

  lemma ProjectsAfterLinks(g: Graph, l: Graph, doc: int, projects: seq<string>, subjects: seq<string>)
    requires LinksOf(l.tags) == LinksOf(g.tags) + KeysFor(doc, "project", projects) + KeysFor(doc, "subject", subjects)
    ensures Projects(l, doc) == Projects(g, doc) + (set n | n in projects)
  {
    hide LinksOf, Projects;
    assert "subject" != "project" by { assert "subject"[0] == 's'; }
    forall n ensures n in Projects(l, doc) <==> n in Projects(g, doc) || n in projects {
      ProjectIs(l, doc, n);
      ProjectIs(g, doc, n);
    }
  }

  /** A whole change of links keeps "a linked project implies a primary one" exactly when it links a project, or no
      subject it unlinks bears the name of the one project left after its unlinks. */
  lemma ChangeKeepsPrimaryExactlyWhen(g: Graph, doc: int, ch: Changes)
    requires Sound(g) && doc in g.primary && HasPrimary(g, doc)
    ensures var h := Patched(g, doc, ch);
            var left := Projects(g, doc) - (set n | n in ch.unlinkProjects);
            && doc in h.primary
            && (HasPrimary(h, doc) <==> ch.linkProjects != [] || forall n :: n in ch.unlinkSubjects ==> left != {n})
  {
    hide Sound, UnlinkAll, LinkBoth, Projects;
    var u := UnlinkAll(g, doc, "project", ch.unlinkProjects);
    var v := UnlinkAll(u, doc, "subject", ch.unlinkSubjects);
    ProjectsGo(g, doc, ch.unlinkProjects);
    SubjectsGo(u, doc, ch.unlinkSubjects);
    LinkedBoth(v, doc, ch.linkProjects, ch.linkSubjects);
    var left := Projects(u, doc);
    var h := Patched(g, doc, ch);
    assert left == Projects(g, doc) - (set n | n in ch.unlinkProjects);
    forall n | left == {n} ensures left != {} {
      assert n in left;
    }
    if ch.linkProjects == [] {
      assert Projects(h, doc) == left;
      assert left != {} ==> u.primary[doc].Some?;
    }
  }
}
