/** The subject types an ingest may use: registering what can be registered, one declared type at a time. The loop
    looks at a catalogue that it is itself growing, and still answers as if it looked at the one it started from. */
module SubjectTypes {
  import opened Text
  import opened Literals

  predicate SlugChar(c: char) {
    'a' <= c <= 'z' || '0' <= c <= '9' || c == '_'
  }

  /** Lower-cased, and an underscore for anything outside the catalogue's alphabet; the dotted capital I lower-cases to
      two characters. */
  function SlugOne(c: char): string {
    if c == '\U{0130}' then "i_"
    else [if SlugChar(LowerChar(c)) then LowerChar(c) else '_']
  }

  function SlugAll(s: string): string {
    if s == "" then "" else SlugOne(s[0]) + SlugAll(s[1..])
  }

  function SlugOf(declared: string): string {
    SlugAll(Strip(declared))
  }

  /** `^[a-z][a-z0-9_]{0,59}$`, on a slug. */
  predicate Registrable(slug: string) {
    0 < |slug| <= 60 && 'a' <= slug[0] <= 'z' && forall c :: c in slug ==> SlugChar(c)
  }

  /** What a namespace falls back to. */
  function Fallback(catalog: set<string>, preferred: string): string {
    if preferred in catalog then preferred
    else if "other" in catalog then "other"
    else if "concept" in catalog then "concept"
    else preferred
  }

  /** The type one declared type is ingested under, looking at the catalogue as it was at the start. */
  function Resolved(catalog: set<string>, canRegister: bool, preferred: string, declared: string): string {
    var slug := SlugOf(declared);
    if declared in catalog then declared
    else if slug in catalog || (canRegister && Registrable(slug)) then slug
    else Fallback(catalog, preferred)
  }

  // ---------------------------------------------------------------------------
  // What a type resolves to
  // ---------------------------------------------------------------------------

  /** What stands for one character: itself or its small letter within the alphabet, else an underscore; the dotted
      capital I is a small i and a dot. */
  predicate Stands(c: char, p: string) {
    if 'a' <= c <= 'z' || '0' <= c <= '9' || c == '_' then p == [c]
    else if 'A' <= c <= 'Z' then |p| == 1 && p[0] as int - 'a' as int == c as int - 'A' as int
    else if c == '\U{212A}' then p == "k"
    else if c == '\U{0130}' then p == "i_"
    else p == "_"
  }

  function Concat(parts: seq<string>): string {
    if parts == [] then "" else parts[0] + Concat(parts[1..])
  }

  /** The slug of a type: what stands for its characters, one after the other, the blanks around it apart. */
  ghost predicate IsSlug(declared: string, slug: string) {
    exists core: string, parts: seq<string> ::
      && Around(declared, core) && Trimmed(core) && |parts| == |core| && slug == Concat(parts)
      && forall i :: 0 <= i < |core| ==> Stands(core[i], parts[i])
  }

  /** A name the catalogue takes. */
  predicate NameOk(slug: string) {
    1 <= |slug| <= 60 && 'a' <= slug[0] <= 'z'
    && forall c :: c in slug ==> c == '_' || 'a' <= c <= 'z' || '0' <= c <= '9'
  }

  lemma OneStands(c: char)
    ensures Stands(c, SlugOne(c))
  {}

  lemma {:induction false} SlugAllStands(s: string) returns (parts: seq<string>)
    ensures |parts| == |s| && SlugAll(s) == Concat(parts)
    ensures forall i :: 0 <= i < |s| ==> Stands(s[i], parts[i])
  {
    hide Stands, SlugOne;
    parts := [];
    if s != "" {
      OneStands(s[0]);
      var more := SlugAllStands(s[1..]);
      parts := [SlugOne(s[0])] + more;
      assert parts[1..] == more;
    }
  }

  lemma SlugOfIsSlug(declared: string)
    ensures IsSlug(declared, SlugOf(declared))
  {
    var lead := StripForm(declared);
    AroundStrip(declared);
    var parts := SlugAllStands(Strip(declared));
    hide Strip, Around, Trimmed, Stands;
  }

  /** A declared type stands for itself when the catalogue has it, or for its slug when the catalogue has that or can
      register it, and otherwise for the preferred type, or a generic one, when the catalogue has it. */
  lemma ResolvedIs(catalog: set<string>, canRegister: bool, preferred: string, declared: string)
    ensures var slug, r := SlugOf(declared), Resolved(catalog, canRegister, preferred, declared);
            && IsSlug(declared, slug)
            && if declared in catalog then r == declared
               else if slug in catalog || (canRegister && NameOk(slug)) then r == slug
               else if preferred !in catalog && "other" in catalog then r == "other"
               else if preferred !in catalog && "concept" in catalog then r == "concept"
               else r == preferred
  {
    SlugOfIsSlug(declared);
    hide SlugOf, IsSlug;
  }

  predicate Registers(catalog: set<string>, canRegister: bool, declared: string) {
    declared !in catalog && SlugOf(declared) !in catalog && canRegister && Registrable(SlugOf(declared))
  }

  class Catalogue {
    var types: set<string>
    const canRegister: bool

    constructor (types: set<string>, canRegister: bool)
      ensures this.types == types && this.canRegister == canRegister
    {
      this.types, this.canRegister := types, canRegister;
    }

    /** `resolve_subject_types`: although it looks at a catalogue that grows, every declared type is resolved as against
        the one it started from, and exactly the slugs that were missing and registrable are added. */
    method ResolveSubjectTypes(declared: seq<string>, preferred: string) returns (out: map<string, string>)
      modifies this
      ensures forall d :: d in out <==> d in declared
      ensures forall d :: d in declared ==> out[d] == Resolved(old(types), canRegister, preferred, d)
      ensures forall t :: t in types <==>
        t in old(types) || exists d :: d in declared && Registers(old(types), canRegister, d) && t == SlugOf(d)
    {
      var fallback := Fallback(types, preferred);
      out := map[];
      for i := 0 to |declared|
        invariant forall d :: d in out <==> d in declared[..i]
        invariant forall d :: d in out ==> out[d] == Resolved(old(types), canRegister, preferred, d)
        invariant Grown(old(types), canRegister, declared[..i], types)
      {
        var d := declared[i];
        hide Resolved, Registers, SlugOf, Registrable, Grown;
        assert forall x :: x in declared[..i + 1] <==> x in declared[..i] || x == d;
        assert d in declared[..i] ==> declared[..i + 1] != [];
        if d in out {
          GrownAgain(old(types), canRegister, declared, i, types);
        } else {
          ResolvedLater(old(types), canRegister, preferred, declared, i, types);
          var slug := SlugOf(d);
          if d in types {
            out := out[d := d];
          } else if slug in types {
            out := out[d := slug];
          } else if canRegister && Registrable(slug) {
            types := types + {slug};
            out := out[d := slug];
          } else {
            out := out[d := fallback];
          }
        }
      }
      assert declared[..|declared|] == declared;
    }
  }

  /** The catalogue after resolving `done`: the initial one and every slug registered so far. */
  ghost predicate Grown(start: set<string>, canRegister: bool, done: seq<string>, types: set<string>) {
    forall t ::
      t in types <==> t in start || exists d :: d in done && Registers(start, canRegister, d) && t == SlugOf(d)
  }

  lemma GrownAgain(start: set<string>, canRegister: bool, declared: seq<string>, i: nat, types: set<string>)
    requires i < |declared| && declared[i] in declared[..i] && Grown(start, canRegister, declared[..i], types)
    ensures Grown(start, canRegister, declared[..i + 1], types)
  {
    hide Registers, SlugOf;
    assert forall x :: x in declared[..i + 1] <==> x in declared[..i];
  }

  /** A slug is its own slug. */
  lemma {:induction false} SlugFixed(s: string)
    requires forall c :: c in s ==> SlugChar(c)
    ensures SlugAll(s) == s
  {
    if s != "" {
      assert s[0] in s && LowerChar(s[0]) == s[0];
      assert s == [s[0]] + s[1..];
      SlugFixed(s[1..]);
    }
  }

  lemma SlugOfSlug(s: string)
    requires forall c :: c in s ==> SlugChar(c)
    ensures SlugOf(s) == s
  {
    assert Trimmed(s) by {
      if s != "" {
        assert s[0] in s && s[|s| - 1] in s;
      }
    }
    StripTrimmed(s);
    SlugFixed(s);
  }

  /** Looking a declared type up in the grown catalogue answers as the initial one would. */
  lemma ResolvedLater(start: set<string>, canRegister: bool, preferred: string, declared: seq<string>, i: nat,
                      types: set<string>)
    requires i < |declared| && Grown(start, canRegister, declared[..i], types)
    ensures var d, slug := declared[i], SlugOf(declared[i]);
            var added := d !in types && slug !in types && canRegister && Registrable(slug);
            var next := if added then types + {slug} else types;
            && Resolved(start, canRegister, preferred, d)
               == (if d in types then d
                   else if slug in types || (canRegister && Registrable(slug)) then slug
                   else Fallback(start, preferred))
            && Grown(start, canRegister, declared[..i + 1], next)
  {
    var d, slug := declared[i], SlugOf(declared[i]);
    assert forall x :: x in declared[..i + 1] <==> x in declared[..i] || x == d;
    if d in types && d !in start {
      var x :| x in declared[..i] && Registers(start, canRegister, x) && d == SlugOf(x);
      SlugOfSlug(d);
    }
    hide SlugOf, Registrable, Fallback;
  }
}
