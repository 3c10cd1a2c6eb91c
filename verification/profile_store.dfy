/** Principal profiles: an append-only table read as a map, one supersede chain per key. */
module ProfileStore {
  import opened Results
  import opened Text
  import opened Values
  import opened Literals

  const MAX_VALUE_BYTES := 8000
  const MAX_KEYS := 200
  const HISTORY_LIMIT := 200

  /** A row of the shared memory table: a profile entry, or a row some other route keeps there. */
  datatype MemoryRow =
    | ProfileRow(id: int, principal: string, key: string, value: Json, note: Option<string>, deleted: bool,
                 supersedes: Option<int>)
    | OtherRow(id: int)

  /** The rows in insertion order, and the id the identity column will give next. */
  datatype Table = Table(rows: seq<MemoryRow>, next: int)

  datatype Entry = Entry(value: Json, note: Option<string>, id: int)

  /** A PUT body; `bytes` is the length of the value's JSON text. */
  datatype PutBody = NotAnObject | Body(value: Option<Json>, bytes: nat, note: Option<string>)

  datatype Written = Written(id: int, supersedes: Option<int>)

  predicate Is(row: MemoryRow, ref: string, key: string) {
    row.ProfileRow? && row.principal == ref && row.key == key
  }

  function Newest(rows: seq<MemoryRow>, ref: string, key: string): Option<MemoryRow> {
    if rows == [] then None
    else
      var last := rows[|rows| - 1];
      if Is(last, ref, key) then Some(last) else Newest(rows[..|rows| - 1], ref, key)
  }

  function IdOf(row: Option<MemoryRow>): Option<int> {
    if row.Some? then Some(row.value.id) else None
  }

  function KeysOf(rows: seq<MemoryRow>, ref: string): set<string> {
    set r | r in rows && r.ProfileRow? && r.principal == ref :: r.key
  }

  predicate IsLive(rows: seq<MemoryRow>, ref: string, key: string) {
    var n := Newest(rows, ref, key);
    n.Some? && n.value.ProfileRow? && !n.value.deleted
  }

  function EntryOf(rows: seq<MemoryRow>, ref: string, key: string): Entry
    requires IsLive(rows, ref, key)
  {
    var r := Newest(rows, ref, key).value;
    Entry(r.value, r.note, r.id)
  }

  /** `get_profile`: the newest row of every key, tombstones left out. */
  function Profile(rows: seq<MemoryRow>, ref: string): map<string, Entry> {
    map k | k in KeysOf(rows, ref) && IsLive(rows, ref, k) :: EntryOf(rows, ref, k)
  }

  // ---------------------------------------------------------------------------
  // The routes
  // ---------------------------------------------------------------------------

  predicate AlphaNum(c: char) {
    'A' <= c <= 'Z' || 'a' <= c <= 'z' || '0' <= c <= '9'
  }

  /** `^[A-Za-z0-9][extra]{0,max-1}$`; the dollar also matches before one final newline. */
  predicate LabelOk(s: string, extra: string, max: nat) {
    var t := if s != "" && s[|s| - 1] == '\n' then s[..|s| - 1] else s;
    0 < |t| <= max && AlphaNum(t[0]) && forall c :: c in t ==> AlphaNum(c) || c in extra
  }

  predicate RefOk(ref: string) { LabelOk(ref, ":_.-@", 120) }

  predicate KeyOk(key: string) { LabelOk(key, "_.-", 80) }

  function CleanNote(note: Option<string>): Option<string> {
    if note.Some? && Strip(note.value) != "" then Some(Strip(note.value)) else None
  }

  /** What a PUT of this body is refused for, when the profile holds `live`. */
  function PutRefusal(ref: string, key: string, body: PutBody, live: map<string, Entry>): Option<ApiError> {
    if !RefOk(ref) || !KeyOk(key) then Some(ValidationFailed)
    else if body.NotAnObject? || body.value.None? || body.value.value.JNull? then Some(MissingField)
    else if body.bytes > MAX_VALUE_BYTES then Some(ValidationFailed)
    else if key !in live && |live| >= MAX_KEYS then Some(ValidationFailed)
    else None
  }

  function DeleteRefusal(ref: string, key: string, live: map<string, Entry>): Option<ApiError> {
    if !RefOk(ref) || !KeyOk(key) then Some(ValidationFailed)
    else if key !in live then Some(NotFound)
    else None
  }

  // ---------------------------------------------------------------------------
  // What is refused and what is kept
  // ---------------------------------------------------------------------------

  /** One to `max` letters and figures, or after the first also `marks`. */
  predicate Lettered(t: string, marks: string, max: nat) {
    0 < |t| <= max && t[0] !in marks
    && forall c :: c in t ==> '0' <= c <= '9' || 'A' <= c <= 'Z' || 'a' <= c <= 'z' || c in marks
  }

  /** Such a text, after which one newline goes unnoticed. */
  ghost predicate Label(s: string, marks: string, max: nat) {
    exists t: string :: (s == t || s == t + "\n") && Lettered(t, marks, max)
  }

  /** A PUT that may be written: a label for the principal and one for the key, a value that is not null and takes at
      most 8000 bytes, and room among 200 entries or the key among them. */
  ghost predicate PutAllowed(ref: string, key: string, body: PutBody, live: map<string, Entry>) {
    && Label(ref, ":_.-@", 120) && Label(key, "_.-", 80)
    && body.Body? && body.value.Some? && body.value.value != JNull && body.bytes <= 8000
    && (key in live || |live| < 200)
  }

  ghost predicate DeleteAllowed(ref: string, key: string, live: map<string, Entry>) {
    Label(ref, ":_.-@", 120) && Label(key, "_.-", 80) && key in live
  }

  /** The note kept: the one sent without the blanks around it, or none when nothing else is in it. */
  ghost predicate NoteKept(sent: Option<string>, kept: Option<string>) {
    if kept.None? then sent.None? || forall c :: c in sent.value ==> IsSpace(c)
    else kept.value != "" && Trimmed(kept.value) && sent.Some? && Around(sent.value, kept.value)
  }

  function Unended(s: string): string {
    if s != "" && s[|s| - 1] == '\n' then s[..|s| - 1] else s
  }

  lemma OkIsLettered(s: string, marks: string, max: nat)
    requires forall c :: c in marks ==> !AlphaNum(c)
    ensures LabelOk(s, marks, max) <==> Lettered(Unended(s), marks, max)
  {
    var u := Unended(s);
    assert u != "" ==> u[0] in u;
  }

  lemma LabelIsLettered(s: string, marks: string, max: nat)
    requires '\n' !in marks
    ensures Label(s, marks, max) <==> Lettered(Unended(s), marks, max)
  {
    var u := Unended(s);
    assert s == u || s == u + "\n";
    if Label(s, marks, max) {
      var t: string :| (s == t || s == t + "\n") && Lettered(t, marks, max);
      assert t[|t| - 1] in t;
      assert s == t + "\n" ==> s[..|s| - 1] == t;
      assert u == t;
    }
  }

  lemma LabelIs(s: string, marks: string, max: nat)
    requires (forall c :: c in marks ==> !AlphaNum(c)) && '\n' !in marks
    ensures LabelOk(s, marks, max) <==> Label(s, marks, max)
  {
    OkIsLettered(s, marks, max);
    LabelIsLettered(s, marks, max);
    hide LabelOk, Label, Lettered, Unended;
  }

  lemma LabelsAre(ref: string, key: string)
    ensures RefOk(ref) <==> Label(ref, ":_.-@", 120)
    ensures KeyOk(key) <==> Label(key, "_.-", 80)
  {
    LabelIs(ref, ":_.-@", 120);
    LabelIs(key, "_.-", 80);
  }

  /** A PUT is refused exactly when it is not allowed; of a body without a value it is said that it is missing. */
  lemma PutRefusedExactlyWhen(ref: string, key: string, body: PutBody, live: map<string, Entry>)
    ensures var no := PutRefusal(ref, key, body, live);
            && (no.None? <==> PutAllowed(ref, key, body, live))
            && (no.Some? ==>
                  no.value == if Label(ref, ":_.-@", 120) && Label(key, "_.-", 80)
                                 && (body.NotAnObject? || body.value == None || body.value == Some(JNull))
                              then MissingField else ValidationFailed)
  {
    LabelsAre(ref, key);
    hide RefOk, KeyOk, Label;
  }

  lemma DeleteRefusedExactlyWhen(ref: string, key: string, live: map<string, Entry>)
    ensures var no := DeleteRefusal(ref, key, live);
            && (no.None? <==> DeleteAllowed(ref, key, live))
            && (no.Some? ==>
                  no.value == if Label(ref, ":_.-@", 120) && Label(key, "_.-", 80) then NotFound else ValidationFailed)
  {
    LabelsAre(ref, key);
    hide RefOk, KeyOk, Label;
  }

  lemma CleanNoteIsKept(note: Option<string>)
    ensures NoteKept(note, CleanNote(note))
  {
    if note.Some? {
      var lead := StripForm(note.value);
      AroundStrip(note.value);
      hide IsSpace, Strip, Around;
      forall c | c in note.value && Strip(note.value) == "" ensures IsSpace(c) {
        var i :| 0 <= i < |note.value| && note.value[i] == c;
      }
    }
  }

  /** `_write`: one more row, naming the row it supersedes. */
  function NewRow(t: Table, ref: string, key: string, value: Json, note: Option<string>, deleted: bool): MemoryRow {
    ProfileRow(t.next, ref, key, value, note, deleted, IdOf(Newest(t.rows, ref, key)))
  }

  function Append(t: Table, row: MemoryRow): Table {
    Table(t.rows + [row], t.next + 1)
  }

  datatype Command =
    | Put(ref: string, key: string, body: PutBody)
    | Delete(ref: string, key: string)
    | WriteOther  // any other route writing a row of another kind to the table

  /** The row a command appends, or why it is refused. */
  function Effect(t: Table, c: Command): Result<MemoryRow> {
    match c
    case Put(ref, key, body) =>
      (var no := PutRefusal(ref, key, body, Profile(t.rows, ref));
       if no.Some? then Err(no.value)
       else Ok(NewRow(t, ref, key, body.value.value, CleanNote(body.note), false)))
    case Delete(ref, key) =>
      (var no := DeleteRefusal(ref, key, Profile(t.rows, ref));
       if no.Some? then Err(no.value) else Ok(NewRow(t, ref, key, JNull, None, true)))
    case WriteOther => Ok(OtherRow(t.next))
  }

  function Step(t: Table, c: Command): Table {
    var e := Effect(t, c);
    if e.Ok? then Append(t, e.value) else t
  }

  function Run(t: Table, run: seq<Command>): Table
    decreases |run|
  {
    if run == [] then t else Run(Step(t, run[0]), run[1..])
  }

  /** What each command of a run is answered: the new row's id, or the error. */
  function Replies(t: Table, run: seq<Command>): seq<Result<int>>
    decreases |run|
  {
    if run == [] then []
    else
      var e := Effect(t, run[0]);
      [if e.Ok? then Ok(e.value.id) else Err(e.error)] + Replies(Step(t, run[0]), run[1..])
  }

  class Store {
    var rows: seq<MemoryRow>
    var next: int

    constructor ()
      ensures Contents() == Table([], 1)
    {
      rows, next := [], 1;
    }

    ghost function Contents(): Table
      reads this
    {
      Table(rows, next)
    }

    method Write(ref: string, key: string, value: Json, note: Option<string>, deleted: bool) returns (w: Written)
      modifies this
      ensures Contents() == Append(old(Contents()), NewRow(old(Contents()), ref, key, value, note, deleted))
      ensures w == Written(old(next), IdOf(Newest(old(rows), ref, key)))
    {
      var supersedes := IdOf(Newest(rows, ref, key));
      rows := rows + [ProfileRow(next, ref, key, value, note, deleted, supersedes)];
      w := Written(next, supersedes);
      next := next + 1;
    }

    method PutEntry(ref: string, key: string, body: PutBody) returns (r: Result<Written>)
      modifies this
      ensures Contents() == Step(old(Contents()), Put(ref, key, body))
      ensures r.Ok? <==> PutAllowed(ref, key, body, Profile(old(rows), ref))
      ensures r.Err? ==> PutRefusal(ref, key, body, Profile(old(rows), ref)) == Some(r.error) && rows == old(rows)
      ensures r.Ok? ==>
        && r.value == Written(old(next), IdOf(Newest(old(rows), ref, key)))
        && exists note ::
             NoteKept(body.note, note)
             && Profile(rows, ref) == Profile(old(rows), ref)[key := Entry(body.value.value, note, r.value.id)]
      ensures forall other :: other != ref ==> Profile(rows, other) == Profile(old(rows), other)
    {
      ghost var before := Contents();
      PutRefusedExactlyWhen(ref, key, body, Profile(rows, ref));
      if body.Body? {
        CleanNoteIsKept(body.note);
      }
      hide PutAllowed, RefOk, KeyOk, NoteKept, CleanNote, Newest;
      if !RefOk(ref) || !KeyOk(key) {
        return Err(ValidationFailed);
      }
      if body.NotAnObject? || body.value.None? || body.value.value.JNull? {
        return Err(MissingField);
      }
      if body.bytes > MAX_VALUE_BYTES {
        return Err(ValidationFailed);
      }
      var live := Profile(rows, ref);
      if key !in live && |live| >= MAX_KEYS {
        return Err(ValidationFailed);
      }
      var w := Write(ref, key, body.value.value, CleanNote(body.note), false);
      ProfilesAfter(before.rows, NewRow(before, ref, key, body.value.value, CleanNote(body.note), false));
      return Ok(w);
    }

    method DeleteEntry(ref: string, key: string) returns (r: Result<Written>)
      modifies this
      ensures Contents() == Step(old(Contents()), Delete(ref, key))
      ensures r.Ok? <==> DeleteAllowed(ref, key, Profile(old(rows), ref))
      ensures r.Err? ==> DeleteRefusal(ref, key, Profile(old(rows), ref)) == Some(r.error) && rows == old(rows)
      ensures r.Ok? ==>
        && r.value == Written(old(next), IdOf(Newest(old(rows), ref, key)))
        && Profile(rows, ref) == Profile(old(rows), ref) - {key}
      ensures forall other :: other != ref ==> Profile(rows, other) == Profile(old(rows), other)
    {
      ghost var before := Contents();
      DeleteRefusedExactlyWhen(ref, key, Profile(rows, ref));
      hide DeleteAllowed, RefOk, KeyOk;
      if !RefOk(ref) || !KeyOk(key) {
        return Err(ValidationFailed);
      }
      NewestKnown(rows, ref, key);
      if !IsLive(rows, ref, key) {
        return Err(NotFound);
      }
      var w := Write(ref, key, JNull, None, true);
      ProfilesAfter(before.rows, NewRow(before, ref, key, JNull, None, true));
      return Ok(w);
    }
  }

  // ---------------------------------------------------------------------------
  // One more row
  // ---------------------------------------------------------------------------

  lemma NewestSnoc(rows: seq<MemoryRow>, row: MemoryRow, ref: string, key: string)
    ensures Newest(rows + [row], ref, key) == if Is(row, ref, key) then Some(row) else Newest(rows, ref, key)
  {
    assert (rows + [row])[..|rows|] == rows;
  }

  /** The newest row is a row of that principal and key, and there is one exactly when the key was ever written. */
  lemma {:induction false} NewestKnown(rows: seq<MemoryRow>, ref: string, key: string)
    ensures Newest(rows, ref, key).Some? ==> Is(Newest(rows, ref, key).value, ref, key)
    ensures Newest(rows, ref, key).Some? <==> key in KeysOf(rows, ref)
  {
    if rows != [] {
      var init, last := rows[..|rows| - 1], rows[|rows| - 1];
      assert rows == init + [last];
      NewestKnown(init, ref, key);
      KeysSnoc(init, last, ref);
    }
  }

  lemma KeysSnoc(rows: seq<MemoryRow>, row: MemoryRow, ref: string)
    ensures KeysOf(rows + [row], ref)
         == KeysOf(rows, ref) + if row.ProfileRow? && row.principal == ref then {row.key} else {}
  {
    var all := rows + [row];
    assert forall r :: r in all <==> r in rows || r == row;
    assert row in all;
  }

  /** What one more row does to a plain map of live entries. */
  function With(live: map<string, Entry>, row: MemoryRow, ref: string): map<string, Entry> {
    if row.OtherRow? || row.principal != ref then live
    else if row.deleted then live - {row.key}
    else live[row.key := Entry(row.value, row.note, row.id)]
  }

  lemma ProfileAfter(rows: seq<MemoryRow>, row: MemoryRow, ref: string)
    ensures Profile(rows + [row], ref) == With(Profile(rows, ref), row, ref)
  {
    var after, want := Profile(rows + [row], ref), With(Profile(rows, ref), row, ref);
    KeysSnoc(rows, row, ref);
    forall k ensures k in after <==> k in want {
      NewestSnoc(rows, row, ref, k);
      NewestKnown(rows, ref, k);
    }
    forall k | k in want ensures after[k] == want[k] {
      NewestSnoc(rows, row, ref, k);
    }
  }

  lemma ProfilesAfter(rows: seq<MemoryRow>, row: MemoryRow)
    ensures forall ref :: Profile(rows + [row], ref) == With(Profile(rows, ref), row, ref)
  {
    forall ref ensures Profile(rows + [row], ref) == With(Profile(rows, ref), row, ref) {
      ProfileAfter(rows, row, ref);
    }
  }

  // ---------------------------------------------------------------------------
  // A profile is a plain map
  // ---------------------------------------------------------------------------

  /** The specification: per principal a map that PUT updates and DELETE shrinks, and a row counter. */
  datatype Plain = Plain(profiles: map<string, map<string, Entry>>, next: int)

  function Of(p: Plain, ref: string): map<string, Entry> {
    if ref in p.profiles then p.profiles[ref] else map[]
  }

  function PlainReply(p: Plain, c: Command): Result<int> {
    var no := match c
      case Put(ref, key, body) => PutRefusal(ref, key, body, Of(p, ref))
      case Delete(ref, key) => DeleteRefusal(ref, key, Of(p, ref))
      case WriteOther => None;
    if no.Some? then Err(no.value) else Ok(p.next)
  }

  function PlainStep(p: Plain, c: Command): Plain {
    if PlainReply(p, c).Err? then p
    else
      match c
      case Put(ref, key, body) =>
        assert PutRefusal(ref, key, body, Of(p, ref)).None?;
        Plain(p.profiles[ref := Of(p, ref)[key := Entry(body.value.value, CleanNote(body.note), p.next)]], p.next + 1)
      case Delete(ref, key) => Plain(p.profiles[ref := Of(p, ref) - {key}], p.next + 1)
      case WriteOther => p.(next := p.next + 1)
  }

  function PlainRun(p: Plain, run: seq<Command>): Plain
    decreases |run|
  {
    if run == [] then p else PlainRun(PlainStep(p, run[0]), run[1..])
  }

  function PlainReplies(p: Plain, run: seq<Command>): seq<Result<int>>
    decreases |run|
  {
    if run == [] then [] else [PlainReply(p, run[0])] + PlainReplies(PlainStep(p, run[0]), run[1..])
  }

  ghost predicate Agrees(t: Table, p: Plain) {
    t.next == p.next && forall ref :: Profile(t.rows, ref) == Of(p, ref)
  }

  lemma StepAgrees(t: Table, p: Plain, c: Command)
    requires Agrees(t, p)
    ensures Agrees(Step(t, c), PlainStep(p, c))
    ensures PlainReply(p, c) == var e := Effect(t, c); if e.Ok? then Ok(e.value.id) else Err(e.error)
  {
    hide Profile, PutRefusal, DeleteRefusal;
    var e := Effect(t, c);
    if e.Ok? {
      ProfilesAfter(t.rows, e.value);
    }
  }

  /** Through every serial run, reads and replies are those of a plain map per principal. */
  lemma {:induction false} ProfileIsAPlainMap(t: Table, p: Plain, run: seq<Command>)
    requires Agrees(t, p)
    ensures Agrees(Run(t, run), PlainRun(p, run))
    ensures Replies(t, run) == PlainReplies(p, run)
    decreases |run|
  {
    if run != [] {
      hide Agrees, Step, PlainStep, PlainReply;
      StepAgrees(t, p, run[0]);
      ProfileIsAPlainMap(Step(t, run[0]), PlainStep(p, run[0]), run[1..]);
    }
  }

  // ---------------------------------------------------------------------------
  // What every run keeps
  // ---------------------------------------------------------------------------

  ghost predicate Capped(p: Plain) {
    forall ref :: |Of(p, ref)| <= MAX_KEYS
  }

  lemma PlainStepCapped(p: Plain, c: Command)
    requires Capped(p)
    ensures Capped(PlainStep(p, c))
  {
    hide RefOk, KeyOk, CleanNote, DeleteRefusal;
    var q := PlainStep(p, c);
    forall ref ensures |Of(q, ref)| <= MAX_KEYS {
      if c.Put? && PlainReply(p, c).Ok? && ref == c.ref {
        var live := Of(p, ref);
        var e := Entry(c.body.value.value, CleanNote(c.body.note), p.next);
        assert Of(q, ref) == live[c.key := e];
        MapSize(live, c.key, e);
      } else if c.Delete? && PlainReply(p, c).Ok? && ref == c.ref {
        MapSizeLess(Of(p, ref), c.key);
      } else {
        assert Of(q, ref) == Of(p, ref);
      }
    }
  }

  lemma MapSize(live: map<string, Entry>, key: string, e: Entry)
    ensures |live[key := e]| == if key in live then |live| else |live| + 1
  {
    assert live[key := e].Keys == live.Keys + {key};
    assert key in live ==> live.Keys + {key} == live.Keys;
  }

  lemma MapSizeLess(live: map<string, Entry>, key: string)
    ensures |live - {key}| <= |live|
  {
    assert (live - {key}).Keys == live.Keys - {key};
  }

  /** No principal ever has more live entries than the cap. */
  lemma {:induction false} LiveEntriesAreCapped(t: Table, p: Plain, run: seq<Command>)
    requires Agrees(t, p) && Capped(p)
    ensures forall ref :: |Profile(Run(t, run).rows, ref)| <= 200
    decreases |run|
  {
    if run != [] {
      hide Profile, PlainStep, Step;
      StepAgrees(t, p, run[0]);
      PlainStepCapped(p, run[0]);
      LiveEntriesAreCapped(Step(t, run[0]), PlainStep(p, run[0]), run[1..]);
    }
  }

  /** Ids rise, and every profile row supersedes the newest earlier row of its principal and key. */
  ghost predicate Chained(t: Table) {
    && (forall i, j :: 0 <= i < j < |t.rows| ==> t.rows[i].id < t.rows[j].id)
    && (forall i :: 0 <= i < |t.rows| ==> t.rows[i].id < t.next)
    && forall i :: 0 <= i < |t.rows| && t.rows[i].ProfileRow? ==>
         t.rows[i].supersedes == IdOf(Newest(t.rows[..i], t.rows[i].principal, t.rows[i].key))
  }

  lemma StepChained(t: Table, c: Command)
    requires Chained(t)
    ensures Chained(Step(t, c))
    ensures t.rows <= Step(t, c).rows
  {
    hide Profile, PutRefusal, DeleteRefusal, Newest;
    var e := Effect(t, c);
    if e.Ok? {
      var u := Append(t, e.value);
      assert e.value.id == t.next;
      forall i | 0 <= i < |t.rows| ensures u.rows[..i] == t.rows[..i] {}
      assert u.rows[..|t.rows|] == t.rows;
    }
  }

  /** No row is ever changed or removed, and the chains stay linked. */
  lemma {:induction false} RowsNeverChange(t: Table, run: seq<Command>)
    requires Chained(t)
    ensures Chained(Run(t, run))
    ensures t.rows <= Run(t, run).rows
    decreases |run|
  {
    if run != [] {
      hide Chained, Step;
      StepChained(t, run[0]);
      RowsNeverChange(Step(t, run[0]), run[1..]);
    }
  }

  // ---------------------------------------------------------------------------
  // Following `supersedes`
  // ---------------------------------------------------------------------------

  /** Every row of a key, newest first. */
  function Lineage(rows: seq<MemoryRow>, ref: string, key: string): seq<MemoryRow> {
    if rows == [] then []
    else
      var last := rows[|rows| - 1];
      (if Is(last, ref, key) then [last] else []) + Lineage(rows[..|rows| - 1], ref, key)
  }

  /** `profile_entry_history`: `ORDER BY memory_id DESC LIMIT 200`. */
  function History(rows: seq<MemoryRow>, ref: string, key: string): seq<MemoryRow> {
    var all := Lineage(rows, ref, key);
    if |all| <= HISTORY_LIMIT then all else all[..HISTORY_LIMIT]
  }

  function RowOf(rows: seq<MemoryRow>, id: int): Option<MemoryRow> {
    if rows == [] then None else if rows[0].id == id then Some(rows[0]) else RowOf(rows[1..], id)
  }

  /** Looking up `from`, then the row that one supersedes, and so on, meets exactly these rows and ends at null. */
  ghost predicate Follows(rows: seq<MemoryRow>, from: Option<int>, met: seq<MemoryRow>)
    decreases |met|
  {
    if from.None? then met == []
    else
      && met != []
      && RowOf(rows, from.value) == Some(met[0])
      && met[0].ProfileRow?
      && Follows(rows, met[0].supersedes, met[1..])
  }

  lemma {:induction false} RowOfUnique(rows: seq<MemoryRow>, i: nat)
    requires i < |rows|
    requires forall a, b :: 0 <= a < b < |rows| ==> rows[a].id < rows[b].id
    ensures RowOf(rows, rows[i].id) == Some(rows[i])
  {
    if i > 0 {
      RowOfUnique(rows[1..], i - 1);
    }
  }

  lemma {:induction false} PrefixFollows(t: Table, p: nat, ref: string, key: string)
    requires Chained(t) && p <= |t.rows|
    ensures Follows(t.rows, IdOf(Newest(t.rows[..p], ref, key)), Lineage(t.rows[..p], ref, key))
  {
    if p > 0 {
      var last := t.rows[p - 1];
      assert t.rows[..p][..p - 1] == t.rows[..p - 1] && t.rows[..p][p - 1] == last;
      PrefixFollows(t, p - 1, ref, key);
      if Is(last, ref, key) {
        RowOfUnique(t.rows, p - 1);
        var rest := Lineage(t.rows[..p - 1], ref, key);
        assert ([last] + rest)[1..] == rest;
      } else {
        assert [] + Lineage(t.rows[..p - 1], ref, key) == Lineage(t.rows[..p - 1], ref, key);
      }
    }
  }

  /** Following can meet only one list of rows. */
  lemma {:induction false} FollowsOnce(rows: seq<MemoryRow>, from: Option<int>, a: seq<MemoryRow>, b: seq<MemoryRow>)
    requires Follows(rows, from, a) && Follows(rows, from, b)
    ensures a == b
    decreases |a|
  {
    if from.Some? {
      FollowsOnce(rows, a[0].supersedes, a[1..], b[1..]);
      assert a == [a[0]] + a[1..] && b == [b[0]] + b[1..];
    }
  }

  ghost predicate Ascending(rows: seq<MemoryRow>) {
    forall i, j :: 0 <= i < j < |rows| ==> rows[i].id < rows[j].id
  }

  ghost predicate Falling(rows: seq<MemoryRow>) {
    forall i, j :: 0 <= i < j < |rows| ==> rows[i].id > rows[j].id
  }

  lemma {:induction false} LineageMembers(rows: seq<MemoryRow>, ref: string, key: string)
    ensures forall r :: r in Lineage(rows, ref, key) <==> r in rows && Is(r, ref, key)
  {
    if rows != [] {
      hide Is;
      var init, last := rows[..|rows| - 1], rows[|rows| - 1];
      LineageMembers(init, ref, key);
      assert rows == init + [last];
      assert forall r :: r in rows <==> r in init || r == last;
    }
  }

  lemma {:induction false} LineageFalls(rows: seq<MemoryRow>, ref: string, key: string)
    requires Ascending(rows)
    ensures Falling(Lineage(rows, ref, key))
  {
    if rows != [] {
      hide Is;
      var init, last := rows[..|rows| - 1], rows[|rows| - 1];
      var rest := Lineage(init, ref, key);
      LineageFalls(init, ref, key);
      LineageMembers(init, ref, key);
      forall i | 0 <= i < |rest| ensures rest[i].id < last.id {
        assert rest[i] in rest;
        var k :| 0 <= k < |init| && init[k] == rest[i];
        assert rows[k] == init[k];
      }
    }
  }

  /** From a key's newest row, `supersedes` leads through every row of that key exactly once and ends at null;
      the history read is the start of that walk. */
  lemma SupersedesVisitsEveryRow(t: Table, ref: string, key: string, met: seq<MemoryRow>)
    requires Chained(t)
    requires Follows(t.rows, IdOf(Newest(t.rows, ref, key)), met)
    ensures forall r :: r in met <==> r in t.rows && Is(r, ref, key)
    ensures forall i, j :: 0 <= i < j < |met| ==> met[i].id > met[j].id
    ensures History(t.rows, ref, key) == if |met| <= 200 then met else met[..200]
  {
    assert t.rows[..|t.rows|] == t.rows;
    PrefixFollows(t, |t.rows|, ref, key);
    FollowsOnce(t.rows, IdOf(Newest(t.rows, ref, key)), met, Lineage(t.rows, ref, key));
    LineageMembers(t.rows, ref, key);
    LineageFalls(t.rows, ref, key);
  }

  /** The walk always ends: the newest row's chain does reach null. */
  lemma SupersedesEnds(t: Table, ref: string, key: string)
    requires Chained(t)
    ensures Follows(t.rows, IdOf(Newest(t.rows, ref, key)), Lineage(t.rows, ref, key))
  {
    assert t.rows[..|t.rows|] == t.rows;
    PrefixFollows(t, |t.rows|, ref, key);
  }

  const NO_ROWS := Table([], 1)
  const NO_PROFILES := Plain(map[], 1)

  /** Every run from an empty table: reads and replies of a plain map, capped, linked, and the walk of every key
      complete. */
  lemma EveryRun(run: seq<Command>, ref: string, key: string)
    ensures var t := Run(NO_ROWS, run);
            && Profile(t.rows, ref) == Of(PlainRun(NO_PROFILES, run), ref)
            && Replies(NO_ROWS, run) == PlainReplies(NO_PROFILES, run)
            && |Profile(t.rows, ref)| <= 200
            && Chained(t)
            && Follows(t.rows, IdOf(Newest(t.rows, ref, key)), Lineage(t.rows, ref, key))
  {
    assert forall r :: Profile([], r) == map[];
    ProfileIsAPlainMap(NO_ROWS, NO_PROFILES, run);
    LiveEntriesAreCapped(NO_ROWS, NO_PROFILES, run);
    RowsNeverChange(NO_ROWS, run);
    SupersedesEnds(Run(NO_ROWS, run), ref, key);
  }
}
