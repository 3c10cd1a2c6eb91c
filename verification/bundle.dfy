/** Skill bundles: the canonical text that is hashed, and the screens that compare a revision with its parent by
    frontmatter, files and text. */
module Bundle {
  import opened Results
  import opened Text
  import opened Values
  import opened Sorting
  import AnswerText
  import AnswerWords

  // ---------------------------------------------------------------------------
  // Sorting texts
  // ---------------------------------------------------------------------------

  /** Python's order on texts. */
  predicate Leq(a: string, b: string) {
    a == "" || (b != "" && (a[0] < b[0] || (a[0] == b[0] && Leq(a[1..], b[1..]))))
  }

  lemma {:induction false} LeqTotal(a: string, b: string)
    ensures Leq(a, b) || Leq(b, a)
    ensures Leq(a, b) && Leq(b, a) ==> a == b
  {
    if a != "" && b != "" {
      LeqTotal(a[1..], b[1..]);
      assert a == [a[0]] + a[1..] && b == [b[0]] + b[1..];
    }
  }

  lemma {:induction false} LeqTransitive(a: string, b: string, c: string)
    requires Leq(a, b) && Leq(b, c)
    ensures Leq(a, c)
  {
    if a != "" && a[0] == b[0] && b[0] == c[0] {
      LeqTransitive(a[1..], b[1..], c[1..]);
    }
  }

  lemma LeqOrders()
    ensures Preorder(Leq)
  {
    forall a, b ensures Leq(a, b) || Leq(b, a) {
      LeqTotal(a, b);
    }
    forall a, b, c | Leq(a, b) && Leq(b, c) ensures Leq(a, c) {
      LeqTransitive(a, b, c);
    }
  }

  /** Python's `sorted` on texts. */
  function SortTexts(s: seq<string>): seq<string> {
    Sort(Leq, s)
  }

  lemma SortTextsSorts(s: seq<string>)
    ensures Sorted(Leq, SortTexts(s)) && multiset(SortTexts(s)) == multiset(s)
    ensures forall x :: x in SortTexts(s) <==> x in s
  {
    LeqOrders();
    SortSorts(Leq, s);
  }

  lemma BagHead<T>(a: seq<T>)
    requires a != []
    ensures multiset(a) == multiset{a[0]} + multiset(a[1..]) && multiset(a[1..]) == multiset(a) - multiset{a[0]}
  {
    assert a == [a[0]] + a[1..];
  }

  lemma BagMiddle<T>(a: seq<T>, x: T, b: seq<T>)
    ensures multiset(a + ([x] + b)) == multiset(a + b) + multiset{x}
  {}

  lemma BagWithout<T>(b: seq<T>, k: nat)
    requires k < |b|
    ensures multiset(b[..k] + b[k + 1..]) == multiset(b) - multiset{b[k]}
  {
    assert b == b[..k] + ([b[k]] + b[k + 1..]);
    BagMiddle(b[..k], b[k], b[k + 1..]);
  }

  lemma SameSize<T>(a: seq<T>, b: seq<T>)
    requires multiset(a) == multiset(b)
    ensures |a| == |b|
  {
    assert |multiset(a)| == |multiset(b)|;
  }

  lemma FindIn<T>(b: seq<T>, x: T, bag: multiset<T>) returns (k: nat)
    requires multiset(b) == bag && x in bag
    ensures k < |b| && b[k] == x
  {
    assert x in multiset(b);
    k :| 0 <= k < |b| && b[k] == x;
  }

  lemma SameHead(a: seq<string>, b: seq<string>)
    requires Sorted(Leq, a) && Sorted(Leq, b) && multiset(a) == multiset(b) && a != [] && b != []
    ensures a[0] == b[0]
  {
    hide Leq, Sorted;
    var k := FindIn(b, a[0], multiset(a));
    var l := FindIn(a, b[0], multiset(b));
    HeadLeast(a, a[l]);
    HeadLeast(b, b[k]);
    LeqTotal(a[0], b[0]);
  }

  lemma TailSorted(a: seq<string>)
    requires Sorted(Leq, a) && a != []
    ensures Sorted(Leq, a[1..])
  {}

  /** There is one sorted list per multiset. */
  lemma {:induction false} SortedUnique(a: seq<string>, b: seq<string>)
    requires Sorted(Leq, a) && Sorted(Leq, b) && multiset(a) == multiset(b)
    ensures a == b
  {
    hide Leq, Sorted;
    SameSize(a, b);
    if a != [] {
      SameHead(a, b);
      BagHead(a);
      BagHead(b);
      TailSorted(a);
      TailSorted(b);
      SortedUnique(a[1..], b[1..]);
      assert a == [a[0]] + a[1..] && b == [b[0]] + b[1..];
    }
  }

  lemma HeadLeast(a: seq<string>, x: string)
    requires Sorted(Leq, a) && x in a
    ensures Leq(a[0], x)
  {
    var i :| 0 <= i < |a| && a[i] == x;
    hide Leq;
    LeqTotal(x, x);
  }

  lemma SortForgetsOrder(a: seq<string>, b: seq<string>)
    requires multiset(a) == multiset(b)
    ensures SortTexts(a) == SortTexts(b)
  {
    SortTextsSorts(a);
    SortTextsSorts(b);
    SortedUnique(SortTexts(a), SortTexts(b));
  }

  // ---------------------------------------------------------------------------
  // The canonical text
  // ---------------------------------------------------------------------------

  datatype File = File(path: string, hash: string)

  function Line(f: File): string {
    f.hash + "  " + f.path + "\n"
  }

  function Lines(files: seq<File>): seq<string> {
    if files == [] then [] else [Line(files[0])] + Lines(files[1..])
  }

  function Concat(lines: seq<string>): string {
    if lines == [] then "" else lines[0] + Concat(lines[1..])
  }

  /** What `bundle_hash` hashes: whole lines, hash first, sorted. */
  function Canonical(files: seq<File>): string {
    Concat(SortTexts(Lines(files)))
  }

  const HASH_CHARS := 64

  /** A SHA-256 in hexadecimal, and a path on one line. */
  predicate Plain(f: File) {
    |f.hash| == HASH_CHARS && '\n' !in f.hash && '\n' !in f.path
  }

  predicate AllPlain(files: seq<File>) {
    forall f :: f in files ==> Plain(f)
  }

  lemma LineInjective(f: File, g: File)
    requires Plain(f) && Plain(g) && Line(f) == Line(g)
    ensures f == g
  {
    var s := Line(f);
    assert s[..HASH_CHARS] == f.hash && s[..HASH_CHARS] == g.hash;
    assert s[HASH_CHARS + 2..|s| - 1] == f.path && s[HASH_CHARS + 2..|s| - 1] == g.path;
  }

  /** One newline, at the very end. */
  predicate OneLine(line: string) {
    line != "" && line[|line| - 1] == '\n' && '\n' !in line[..|line| - 1]
  }

  lemma LineIsOne(f: File)
    requires Plain(f)
    ensures OneLine(Line(f))
  {
    var s := Line(f);
    assert s[..|s| - 1] == f.hash + "  " + f.path;
  }

  lemma {:induction false} LinesAre(files: seq<File>)
    requires AllPlain(files)
    ensures forall l :: l in Lines(files) ==> OneLine(l)
  {
    hide OneLine, Plain, Line;
    if files != [] {
      assert files[0] in files;
      LineIsOne(files[0]);
      LinesAre(files[1..]);
    }
  }

  lemma FirstLine(line: string, rest: string)
    requires OneLine(line)
    ensures Find(line + rest, '\n') == |line| - 1
  {
    var init := line[..|line| - 1];
    assert line + rest == init + ['\n'] + rest;
    FindIs(init, '\n', rest);
  }

  lemma ConcatEmpty(lines: seq<string>)
    requires forall l :: l in lines ==> OneLine(l)
    ensures Concat(lines) == "" <==> lines == []
  {
    if lines != [] {
      assert OneLine(lines[0]);
    }
  }

  /** Lines can be read off their concatenation. */
  lemma {:induction false} ConcatInjective(a: seq<string>, b: seq<string>)
    requires (forall l :: l in a ==> OneLine(l)) && (forall l :: l in b ==> OneLine(l))
    requires Concat(a) == Concat(b)
    ensures a == b
  {
    hide OneLine, Find;
    ConcatEmpty(a);
    ConcatEmpty(b);
    if a != [] && b != [] {
      FirstLine(a[0], Concat(a[1..]));
      FirstLine(b[0], Concat(b[1..]));
      var s := Concat(a);
      assert s[..|a[0]|] == a[0] && s[..|b[0]|] == b[0];
      assert s[|a[0]|..] == Concat(a[1..]) && s[|b[0]|..] == Concat(b[1..]);
      ConcatInjective(a[1..], b[1..]);
      assert a == [a[0]] + a[1..] && b == [b[0]] + b[1..];
    }
  }

  /** A line occurs as often as its file. */
  lemma {:induction false} LineCount(files: seq<File>, f: File)
    requires AllPlain(files) && Plain(f)
    ensures multiset(Lines(files))[Line(f)] == multiset(files)[f]
  {
    hide Plain, Line;
    if files != [] {
      assert files[0] in files;
      LineCount(files[1..], f);
      assert files == [files[0]] + files[1..];
      if Line(files[0]) == Line(f) {
        LineInjective(files[0], f);
      }
    }
  }

  lemma LinesMiddle(p: seq<File>, x: File, q: seq<File>)
    ensures multiset(Lines(p + ([x] + q))) == multiset(Lines(p + q)) + multiset{Line(x)}
  {
    assert ([x] + q)[1..] == q;
    hide Line;
    LinesSplit(p, [x] + q);
    LinesSplit(p, q);
    BagMiddle(Lines(p), Line(x), Lines(q));
  }

  lemma LinesWithout(b: seq<File>, k: nat)
    requires k < |b|
    ensures multiset(Lines(b)) == multiset(Lines(b[..k] + b[k + 1..])) + multiset{Line(b[k])}
  {
    hide Lines, Line;
    assert b == b[..k] + ([b[k]] + b[k + 1..]);
    LinesMiddle(b[..k], b[k], b[k + 1..]);
  }

  lemma {:induction false} LinesForgetOrder(a: seq<File>, b: seq<File>)
    requires multiset(a) == multiset(b)
    ensures multiset(Lines(a)) == multiset(Lines(b))
    decreases |a|
  {
    SameSize(a, b);
    if a != [] {
      var k := FindIn(b, a[0], multiset(a));
      BagWithout(b, k);
      BagHead(a);
      LinesForgetOrder(a[1..], b[..k] + b[k + 1..]);
      LinesWithout(b, k);
      hide Line;
      BagHead(Lines(a));
    }
  }

  lemma {:induction false} LinesSplit(a: seq<File>, b: seq<File>)
    ensures Lines(a + b) == Lines(a) + Lines(b)
  {
    hide Line;
    if a == [] {
      assert a + b == b;
    } else {
      assert (a + b)[1..] == a[1..] + b;
      LinesSplit(a[1..], b);
    }
  }

  /** The canonical text does not depend on the order of the files. */
  lemma CanonicalForgetsOrder(a: seq<File>, b: seq<File>)
    requires multiset(a) == multiset(b)
    ensures Canonical(a) == Canonical(b)
  {
    LinesForgetOrder(a, b);
    SortForgetsOrder(Lines(a), Lines(b));
  }

  /** For one-line paths and full-length hashes, the text determines the files, repeats included. */
  lemma CanonicalDeterminesFiles(a: seq<File>, b: seq<File>)
    requires AllPlain(a) && AllPlain(b)
    ensures Canonical(a) == Canonical(b) <==> multiset(a) == multiset(b)
  {
    if Canonical(a) == Canonical(b) {
      var la, lb := Lines(a), Lines(b);
      SortTextsSorts(la);
      SortTextsSorts(lb);
      SortedLines(a);
      SortedLines(b);
      hide OneLine, Plain, Line, SortTexts, Concat, Lines, Sorted;
      ConcatInjective(SortTexts(la), SortTexts(lb));
      forall f ensures multiset(a)[f] == multiset(b)[f] {
        if Plain(f) {
          LineCount(a, f);
          LineCount(b, f);
        } else {
          assert f !in a && f !in b;
        }
      }
    } else if multiset(a) == multiset(b) {
      CanonicalForgetsOrder(a, b);
    }
  }

  lemma SortedLines(files: seq<File>)
    requires AllPlain(files)
    ensures forall l :: l in SortTexts(Lines(files)) ==> OneLine(l)
  {
    hide OneLine, Plain, Sorted;
    LinesAre(files);
    SortTextsSorts(Lines(files));
  }

  // ---------------------------------------------------------------------------
  // Materiality
  // ---------------------------------------------------------------------------

  const SKILL_MD := "SKILL.md"

  /** `{relative_path: file_hash}` without SKILL.md; a later file wins. */
  function FileMap(files: seq<File>): map<string, string> {
    if files == [] then map[]
    else
      var f, init := files[|files| - 1], FileMap(files[..|files| - 1]);
      if f.path == SKILL_MD then init else init[f.path := f.hash]
  }

  function Get(m: map<string, string>, path: string): Option<string> {
    if path in m then Some(m[path]) else None
  }

  /** Python's truth of a JSON value. */
  predicate Truthy(j: Json) {
    match j
    case JNull => false
    case JBool(b) => b
    case JNumber(n) => n != 0.0
    case JString(s) => s != ""
    case JList(elems) => elems != []
    case JObject(entries) => entries != map[]
  }

  /** `fm.get(key) or None`. */
  function Present(fm: map<string, Json>, key: string): Option<Json> {
    if key in fm && Truthy(fm[key]) then Some(fm[key]) else None
  }

  const MATERIAL_KEYS := ["description", "when_to_use", "allowed-tools", "disallowed-tools", "compatibility"]

  datatype Verdict = Material(reasons: seq<Reason>) | NonMaterial | Gray

  datatype Reason = Frontmatter(key: string) | FilePath(path: string)

  function NormalizeWs(text: string): string {
    Strip(AnswerText.Collapse(text))
  }

  /** The paths of two file maps, each once, in order. */
  method SortedPaths(older: seq<File>, newer: seq<File>) returns (paths: seq<string>)
    ensures forall p :: p in paths <==> p in FileMap(older) || p in FileMap(newer)
    ensures Sorted(Leq, paths)
    ensures forall i, j :: 0 <= i < j < |paths| ==> paths[i] != paths[j]
  {
    var before, after := FileMap(older), FileMap(newer);
    var todo := before.Keys + after.Keys;
    var distinct: seq<string> := [];
    while todo != {}
      invariant forall p :: p in before.Keys + after.Keys <==> p in todo || p in distinct
      invariant forall p :: p in distinct ==> p !in todo
      invariant forall i, j :: 0 <= i < j < |distinct| ==> distinct[i] != distinct[j]
      decreases |todo|
    {
      var p :| p in todo;
      distinct, todo := distinct + [p], todo - {p};
    }
    paths := SortTexts(distinct);
    SortTextsSorts(distinct);
    SameMembers(distinct, paths);
    SameDistinct(distinct, paths);
  }

  lemma SameMembers(a: seq<string>, b: seq<string>)
    requires multiset(a) == multiset(b)
    ensures forall x :: x in a <==> x in b
  {
    assert forall x :: x in a <==> x in multiset(a);
    assert forall x :: x in b <==> x in multiset(b);
  }

  /** Two JSON values are equal to Python when these are: `True` is 1 and `False` is 0, at any depth, and the order of
      an object's keys does not matter. */
  function Compared(j: Json): Json {
    match j
    case JBool(b) => JNumber(if b then 1.0 else 0.0)
    case JList(elems) => JList(seq(|elems|, i requires 0 <= i < |elems| => Compared(elems[i])))
    case JObject(entries) => JObject(map k | k in entries :: Compared(entries[k]))
    case _ => j
  }

  predicate KeyDiffers(oldFm: map<string, Json>, newFm: map<string, Json>, key: string) {
    var a, b := Present(oldFm, key), Present(newFm, key);
    a.Some? != b.Some? || (a.Some? && Compared(a.value) != Compared(b.value))
  }

  /** What Python takes for nothing: null, false, zero, and an empty text, list or object. */
  predicate Nothing(j: Json) {
    j == JNull || j == JBool(false) || j == JNumber(0.0) || j == JString("") || j == JList([]) || j == JObject(map[])
  }

  /** Equal to Python: truth values count as the numbers 1 and 0, at any depth. */
  ghost predicate Alike(a: Json, b: Json) {
    match a
    case JNull => b == JNull
    case JBool(x) => b == a || b == JNumber(if x then 1.0 else 0.0)
    case JNumber(n) => b == a || (n == 1.0 && b == JBool(true)) || (n == 0.0 && b == JBool(false))
    case JString(_) => b == a
    case JList(xs) => b.JList? && |b.elems| == |xs| && forall i :: 0 <= i < |xs| ==> Alike(xs[i], b.elems[i])
    case JObject(xs) => b.JObject? && b.entries.Keys == xs.Keys && forall k :: k in xs ==> Alike(xs[k], b.entries[k])
  }

  /** The key has something under it in one frontmatter only, or something else in the other. */
  ghost predicate KeyChanged(oldFm: map<string, Json>, newFm: map<string, Json>, key: string) {
    var before, after := key in oldFm && !Nothing(oldFm[key]), key in newFm && !Nothing(newFm[key]);
    before != after || (before && !Alike(oldFm[key], newFm[key]))
  }

  lemma {:induction false} ComparedIsAlike(a: Json, b: Json)
    ensures Compared(a) == Compared(b) <==> Alike(a, b)
    decreases a
  {
    match a
    case JNull =>
    case JBool(_) =>
    case JNumber(_) =>
    case JString(_) =>
    case JList(xs) =>
      if b.JList? && |b.elems| == |xs| {
        forall i | 0 <= i < |xs| ensures Compared(xs[i]) == Compared(b.elems[i]) <==> Alike(xs[i], b.elems[i]) {
          ComparedIsAlike(xs[i], b.elems[i]);
        }
        SameItems(xs, b.elems);
      } else if b.JList? {
        assert |Compared(a).elems| == |xs| && |Compared(b).elems| == |b.elems|;
      }
    case JObject(xs) =>
      if b.JObject? && b.entries.Keys == xs.Keys {
        forall k | k in xs ensures Compared(xs[k]) == Compared(b.entries[k]) <==> Alike(xs[k], b.entries[k]) {
          ComparedIsAlike(xs[k], b.entries[k]);
        }
        SameEntries(xs, b.entries);
      } else if b.JObject? {
        assert (map k | k in xs :: Compared(xs[k])).Keys == xs.Keys;
        assert (map k | k in b.entries :: Compared(b.entries[k])).Keys == b.entries.Keys;
      }
  }

  lemma SameItems(xs: seq<Json>, ys: seq<Json>)
    requires |xs| == |ys|
    ensures Compared(JList(xs)) == Compared(JList(ys)) <==>
            forall i :: 0 <= i < |xs| ==> Compared(xs[i]) == Compared(ys[i])
  {
    var a, b := Compared(JList(xs)).elems, Compared(JList(ys)).elems;
    assert forall i :: 0 <= i < |xs| ==> a[i] == Compared(xs[i]) && b[i] == Compared(ys[i]);
  }

  lemma SameEntries(xs: map<string, Json>, ys: map<string, Json>)
    requires xs.Keys == ys.Keys
    ensures Compared(JObject(xs)) == Compared(JObject(ys)) <==>
            forall k :: k in xs ==> Compared(xs[k]) == Compared(ys[k])
  {
    var a, b := Compared(JObject(xs)).entries, Compared(JObject(ys)).entries;
    assert forall k :: k in xs ==> a[k] == Compared(xs[k]) && k in ys && b[k] == Compared(ys[k]);
    assert a.Keys == xs.Keys && b.Keys == ys.Keys;
  }

  lemma KeyDiffersIs(oldFm: map<string, Json>, newFm: map<string, Json>, key: string)
    ensures KeyDiffers(oldFm, newFm, key) <==> KeyChanged(oldFm, newFm, key)
  {
    if key in oldFm && key in newFm {
      ComparedIsAlike(oldFm[key], newFm[key]);
    }
    hide Compared, Alike;
  }

  predicate PathDiffers(older: seq<File>, newer: seq<File>, path: string) {
    Get(FileMap(older), path) != Get(FileMap(newer), path)
  }

  predicate MaterialKey(k: string) {
    k == "description" || k == "when_to_use" || k == "allowed-tools" || k == "disallowed-tools" || k == "compatibility"
  }

  ghost predicate Justified(oldFm: map<string, Json>, newFm: map<string, Json>, older: seq<File>, newer: seq<File>,
                            r: Reason)
  {
    if r.Frontmatter? then MaterialKey(r.key) && KeyChanged(oldFm, newFm, r.key)
    else PathDiffers(older, newer, r.path)
  }

  /** The texts have the same words in the same order. */
  ghost predicate SameWords(a: string, b: string) {
    exists words :: AnswerWords.HasWords(a, words) && AnswerWords.HasWords(b, words)
  }

  lemma NormalIsWords(text: string, words: seq<string>)
    requires AnswerWords.HasWords(text, words)
    ensures NormalizeWs(text) == Join(" ", words)
    ensures forall w :: w in words ==> w != "" && ' ' !in w
  {
    AnswerWords.WordsAreWords(text, words);
    assert IsSpace(' ');
    hide IsSpace, AnswerWords.HasWords, AnswerText.Collapse, Strip;
    if words == [] {
      AnswerWords.OnlyBlanks(text, words);
      AnswerWords.BlankStrips();
    } else {
      var lead, trail := AnswerWords.CollapsedWords(text, words);
      AnswerWords.JoinedIsTrimmed(words);
      AnswerWords.SpacesStrip(lead, Join(" ", words), trail);
    }
  }

  lemma JoinedOnce(a: seq<string>, b: seq<string>)
    requires (forall w :: w in a ==> w != "" && ' ' !in w) && (forall w :: w in b ==> w != "" && ' ' !in w)
    requires Join(" ", a) == Join(" ", b)
    ensures a == b
  {
    assert a != [] ==> a[0] in a;
    assert b != [] ==> b[0] in b;
    if a != [] && b != [] {
      SplitOnJoined(' ', a);
      SplitOnJoined(' ', b);
    }
  }

  lemma SameNormalSameWords(a: string, b: string)
    ensures NormalizeWs(a) == NormalizeWs(b) <==> SameWords(a, b)
  {
    hide NormalizeWs, AnswerWords.HasWords;
    var u := AnswerWords.SomeWords(a);
    var v := AnswerWords.SomeWords(b);
    NormalIsWords(a, u);
    NormalIsWords(b, v);
    if NormalizeWs(a) == NormalizeWs(b) {
      JoinedOnce(u, v);
    }
    if w :| AnswerWords.HasWords(a, w) && AnswerWords.HasWords(b, w) {
      NormalIsWords(a, w);
      NormalIsWords(b, w);
    }
  }

  /** The order of reasons: frontmatter keys as they are listed, then paths in order. */
  predicate Before(a: Reason, b: Reason) {
    if a.Frontmatter? then
      b.FilePath?
      || exists i, j :: 0 <= i < j < |MATERIAL_KEYS| && MATERIAL_KEYS[i] == a.key && MATERIAL_KEYS[j] == b.key
    else b.FilePath? && a.path != b.path && Leq(a.path, b.path)
  }

  /** `materiality_screens`: which frontmatter keys and files changed, and failing that what became of the text. */
  method MaterialityScreens(oldFm: map<string, Json>, oldFiles: seq<File>, oldMarkdown: string,
                            newFm: map<string, Json>, newFiles: seq<File>, newMarkdown: string)
    returns (v: Verdict)
    ensures v.Material? <==> (exists k :: MaterialKey(k) && KeyChanged(oldFm, newFm, k))
                             || FileMap(oldFiles) != FileMap(newFiles)
    ensures v.Material? ==> forall r :: r in v.reasons <==> Justified(oldFm, newFm, oldFiles, newFiles, r)
    ensures v.Material? ==> forall i, j :: 0 <= i < j < |v.reasons| ==> Before(v.reasons[i], v.reasons[j])
    ensures v.NonMaterial? ==> SameWords(oldMarkdown, newMarkdown)
    ensures v.Gray? ==> !SameWords(oldMarkdown, newMarkdown)
  {
    var reasons: seq<Reason> := [];
    for i := 0 to |MATERIAL_KEYS|
      invariant forall r :: r in reasons <==>
        r.Frontmatter? && r.key in MATERIAL_KEYS[..i] && KeyDiffers(oldFm, newFm, r.key)
      invariant forall a, b :: 0 <= a < b < |reasons| ==> Before(reasons[a], reasons[b])
    {
      hide KeyDiffers, Leq;
      forall r | r in reasons ensures Before(r, Frontmatter(MATERIAL_KEYS[i])) {
        var j :| 0 <= j < i && MATERIAL_KEYS[j] == r.key;
      }
      var key := MATERIAL_KEYS[i];
      assert forall k :: k in MATERIAL_KEYS[..i + 1] <==> k in MATERIAL_KEYS[..i] || k == key;
      if KeyDiffers(oldFm, newFm, key) {
        reasons := reasons + [Frontmatter(key)];
      }
    }
    assert MATERIAL_KEYS[..|MATERIAL_KEYS|] == MATERIAL_KEYS;
    ghost var first := reasons;
    var paths := SortedPaths(oldFiles, newFiles);
    for i := 0 to |paths|
      invariant forall r :: r in reasons <==>
        r in first || (r.FilePath? && r.path in paths[..i] && PathDiffers(oldFiles, newFiles, r.path))
      invariant forall a, b :: 0 <= a < b < |reasons| ==> Before(reasons[a], reasons[b])
    {
      hide PathDiffers, KeyDiffers, Leq;
      forall r | r in reasons ensures Before(r, FilePath(paths[i])) {
        if r.FilePath? {
          var j :| 0 <= j < i && paths[j] == r.path;
        }
      }
      assert forall p :: p in paths[..i + 1] <==> p in paths[..i] || p == paths[i];
      if PathDiffers(oldFiles, newFiles, paths[i]) {
        reasons := reasons + [FilePath(paths[i])];
      }
    }
    assert paths[..|paths|] == paths;
    ReasonsAre(oldFm, newFm, oldFiles, newFiles, paths, reasons);
    SameNormalSameWords(oldMarkdown, newMarkdown);
    if reasons != [] {
      return Material(reasons);
    }
    if NormalizeWs(oldMarkdown) == NormalizeWs(newMarkdown) {
      return NonMaterial;
    }
    return Gray;
  }

  lemma ReasonsAre(oldFm: map<string, Json>, newFm: map<string, Json>, older: seq<File>, newer: seq<File>,
                   paths: seq<string>, reasons: seq<Reason>)
    requires forall p :: p in paths <==> p in FileMap(older) || p in FileMap(newer)
    requires forall r :: r in reasons <==>
      (r.Frontmatter? && r.key in MATERIAL_KEYS && KeyDiffers(oldFm, newFm, r.key))
      || (r.FilePath? && r.path in paths && PathDiffers(older, newer, r.path))
    ensures forall r :: r in reasons <==> Justified(oldFm, newFm, older, newer, r)
    ensures reasons == [] <==> (forall k :: MaterialKey(k) ==> !KeyChanged(oldFm, newFm, k))
                               && FileMap(older) == FileMap(newer)
  {
    forall k
      ensures k in MATERIAL_KEYS && KeyDiffers(oldFm, newFm, k) <==> MaterialKey(k) && KeyChanged(oldFm, newFm, k)
    {
      KeyDiffersIs(oldFm, newFm, k);
    }
    hide FileMap, KeyDiffers, KeyChanged;
    var a, b := FileMap(older), FileMap(newer);
    assert forall p :: PathDiffers(older, newer, p) ==> p in paths;
    if reasons == [] {
      forall k | k in MATERIAL_KEYS ensures !KeyDiffers(oldFm, newFm, k) {
        assert Frontmatter(k) !in reasons;
      }
      forall p ensures p in a <==> p in b {
        assert FilePath(p) !in reasons;
      }
      forall p | p in a ensures a[p] == b[p] {
        assert FilePath(p) !in reasons;
      }
      assert a == b;
    } else {
      var r := reasons[0];
      assert r in reasons;
    }
  }

  predicate DistinctPaths(files: seq<File>) {
    forall i, j :: 0 <= i < j < |files| ==> files[i].path != files[j].path
  }

  lemma {:induction false} FileMapIs(files: seq<File>, path: string)
    requires DistinctPaths(files)
    ensures path in FileMap(files) <==> path != SKILL_MD && exists f :: f in files && f.path == path
    ensures path in FileMap(files) ==> File(path, FileMap(files)[path]) in files
  {
    if files != [] {
      var init, last := files[..|files| - 1], files[|files| - 1];
      assert files == init + [last];
      FileMapIs(init, path);
      assert forall f :: f in files <==> f in init || f == last;
      if last.path == path {
        assert last in files;
      }
    }
  }

  lemma SamePathSameFile(files: seq<File>, f: File, g: File)
    requires DistinctPaths(files) && f in files && g in files && f.path == g.path
    ensures f == g
  {
    var i :| 0 <= i < |files| && files[i] == f;
    var j :| 0 <= j < |files| && files[j] == g;
  }

  /** Bundles with the same canonical text give the screens no file reason. */
  lemma EqualTextNoFileReason(a: seq<File>, b: seq<File>, path: string)
    requires AllPlain(a) && AllPlain(b) && DistinctPaths(a) && DistinctPaths(b)
    requires Canonical(a) == Canonical(b)
    ensures !PathDiffers(a, b, path)
  {
    CanonicalDeterminesFiles(a, b);
    hide Canonical, AllPlain;
    FileMapIs(a, path);
    FileMapIs(b, path);
    assert forall f :: f in a <==> f in multiset(a);
    assert forall f :: f in b <==> f in multiset(b);
    if path in FileMap(a) && path in FileMap(b) {
      SamePathSameFile(a, File(path, FileMap(a)[path]), File(path, FileMap(b)[path]));
    }
  }
}
