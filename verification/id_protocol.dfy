/** Ids by MAX + 1 under an advisory lock, as interleaved steps of concurrent batches. */
module IdProtocol {
  import opened Results

  datatype Kind = Subject | Project

  datatype Phase = Waiting | Holding

  /** One batch in its transaction: how many rows it will insert, and the ids of those it has inserted so far,
      visible to itself only. */
  datatype Txn = Txn(kind: Kind, size: nat, phase: Phase, pending: seq<int>)

  /** `committed` holds the ids of the rows every transaction sees (a shared id would show as multiplicity two),
      `locks` which transaction holds which named lock, `done` the ids each committed batch was answered, and
      `deleted` the ids of rows since removed. */
  datatype State = State(committed: multiset<int>, active: map<nat, Txn>, locks: map<string, nat>,
                         done: seq<seq<int>>, deleted: multiset<int>)

  /** The lock name each endpoint uses. */
  type LockNames = Kind -> string

  datatype Action =
    | Begin(t: nat, kind: Kind, size: nat)
    | Lock(t: nat)
    | Insert(t: nat, id: int)
    | Commit(t: nat)
    | Abort(t: nat)
    | Delete(id: int)

  /** `COALESCE(MAX(id), 0) + 1` over the rows a statement sees. */
  ghost predicate IsNext(id: int, visible: multiset<int>) {
    if visible == multiset{} then id == 1
    else id - 1 in visible && forall x :: x in visible ==> x <= id - 1
  }

  /** READ COMMITTED: what is committed when the statement runs, and the transaction's own rows. */
  function Visible(s: State, txn: Txn): multiset<int> {
    s.committed + multiset(txn.pending)
  }

  ghost predicate Enabled(names: LockNames, s: State, a: Action) {
    match a
    case Begin(t, _, _) => t !in s.active
    case Lock(t) => t in s.active && s.active[t].phase == Waiting && names(s.active[t].kind) !in s.locks
    case Insert(t, id) =>
      t in s.active && s.active[t].phase == Holding && |s.active[t].pending| < s.active[t].size
      && IsNext(id, Visible(s, s.active[t]))
    case Commit(t) => t in s.active && s.active[t].phase == Holding && |s.active[t].pending| == s.active[t].size
    case Abort(t) => t in s.active
    case Delete(id) => id in s.committed
  }

  /** The locks a transaction leaves when it ends. */
  function Released(locks: map<string, nat>, t: nat): map<string, nat> {
    map name | name in locks && locks[name] != t :: locks[name]
  }

  ghost function Apply(names: LockNames, s: State, a: Action): State
    requires Enabled(names, s, a)
  {
    match a
    case Begin(t, kind, size) => s.(active := s.active[t := Txn(kind, size, Waiting, [])])
    case Lock(t) =>
      s.(active := s.active[t := s.active[t].(phase := Holding)], locks := s.locks[names(s.active[t].kind) := t])
    case Insert(t, id) => s.(active := s.active[t := s.active[t].(pending := s.active[t].pending + [id])])
    case Commit(t) =>
      s.(committed := s.committed + multiset(s.active[t].pending), active := s.active - {t},
         locks := Released(s.locks, t), done := s.done + [s.active[t].pending])
    case Abort(t) => s.(active := s.active - {t}, locks := Released(s.locks, t))
    case Delete(id) => s.(committed := s.committed - multiset{id}, deleted := s.deleted + multiset{id})
  }

  /** The state after a run, if every action of it was possible. */
  ghost function Exec(names: LockNames, s: State, run: seq<Action>): Option<State>
    decreases |run|
  {
    if run == [] then Some(s)
    else if !Enabled(names, s, run[0]) then None
    else Exec(names, Apply(names, s, run[0]), run[1..])
  }

  ghost function Start(rows: multiset<int>): State {
    State(rows, map[], map[], [], multiset{})
  }

  // ---------------------------------------------------------------------------
  // Safety
  // ---------------------------------------------------------------------------

  ghost predicate Unique(ids: multiset<int>) {
    forall id :: ids[id] <= 1
  }

  predicate Consecutive(ids: seq<int>) {
    forall i, j :: 0 <= i < j < |ids| ==> ids[j] == ids[i] + (j - i)
  }

  function SumDone(done: seq<seq<int>>): multiset<int> {
    if done == [] then multiset{} else SumDone(done[..|done| - 1]) + multiset(done[|done| - 1])
  }

  /** No two rows share an id, every answered batch has consecutive ids, and the rows are exactly the initial ones
      and those of committed batches, less the deleted: an aborted batch leaves nothing. */
  ghost predicate Safe(rows: multiset<int>, s: State) {
    && Unique(s.committed)
    && (forall i :: 0 <= i < |s.done| ==> Consecutive(s.done[i]))
    && s.committed + s.deleted == rows + SumDone(s.done)
  }

  /** A holder owns its lock; only a holder has pending ids, consecutive and above everything committed. */
  ghost predicate TxnOk(names: LockNames, s: State, t: nat)
    requires t in s.active
  {
    var txn := s.active[t];
    if txn.phase == Waiting then txn.pending == []
    else
      names(txn.kind) in s.locks && s.locks[names(txn.kind)] == t && Consecutive(txn.pending)
      && forall p, c :: p in txn.pending && c in s.committed ==> p > c
  }

  /** The invariant of every interleaving. */
  ghost predicate Inv(names: LockNames, rows: multiset<int>, s: State) {
    && Safe(rows, s)
    && (forall t :: t in s.active ==> TxnOk(names, s, t))
    && forall name :: name in s.locks ==> s.locks[name] in s.active && s.active[s.locks[name]].phase == Holding
  }

  /** Both endpoints name the same lock. */
  ghost predicate SharedName(names: LockNames) {
    forall a, b :: names(a) == names(b)
  }

  lemma NextExtends(pending: seq<int>, committed: multiset<int>, id: int)
    requires Consecutive(pending) && (forall p, c :: p in pending && c in committed ==> p > c)
    requires IsNext(id, committed + multiset(pending))
    ensures Consecutive(pending + [id]) && forall p, c :: p in pending + [id] && c in committed ==> p > c
  {
    var visible := committed + multiset(pending);
    assert forall x :: x in visible <==> x in committed || x in pending;
    if pending != [] {
      var last := pending[|pending| - 1];
      assert last in pending && last in visible;
      assert forall x :: x in pending ==> x <= last;
      assert id == last + 1;
      ConsecutiveSnoc(pending, id);
    }
  }

  lemma ConsecutiveSnoc(ids: seq<int>, id: int)
    requires Consecutive(ids) && ids != [] && id == ids[|ids| - 1] + 1
    ensures Consecutive(ids + [id])
  {}

  lemma {:induction false} ConsecutiveUnique(ids: seq<int>)
    requires Consecutive(ids)
    ensures Unique(multiset(ids))
  {
    if ids != [] {
      var init, x := ids[..|ids| - 1], ids[|ids| - 1];
      assert ids == init + [x];
      ConsecutiveUnique(init);
      assert x !in init;
      assert multiset(ids) == multiset(init) + multiset{x};
    }
  }

  lemma CommitKeepsUnique(committed: multiset<int>, pending: seq<int>)
    requires Unique(committed) && Consecutive(pending) && (forall p, c :: p in pending && c in committed ==> p > c)
    ensures Unique(committed + multiset(pending))
  {
    ConsecutiveUnique(pending);
    forall id ensures (committed + multiset(pending))[id] <= 1 {
      assert id in committed <==> committed[id] > 0;
      assert id in pending <==> multiset(pending)[id] > 0;
    }
  }

  /** While a batch holds the shared lock, no other batch holds it. */
  lemma OneHolder(names: LockNames, rows: multiset<int>, s: State, t: nat, u: nat)
    requires SharedName(names) && Inv(names, rows, s)
    requires t in s.active && u in s.active && s.active[t].phase == Holding && s.active[u].phase == Holding
    ensures t == u
  {
    assert TxnOk(names, s, t) && TxnOk(names, s, u);
    assert names(s.active[t].kind) == names(s.active[u].kind);
  }

  lemma InsertKeeps(names: LockNames, rows: multiset<int>, s: State, t: nat, id: int)
    requires Inv(names, rows, s) && Enabled(names, s, Insert(t, id))
    ensures Inv(names, rows, Apply(names, s, Insert(t, id)))
  {
    var s' := Apply(names, s, Insert(t, id));
    assert TxnOk(names, s, t);
    NextExtends(s.active[t].pending, s.committed, id);
    forall u | u in s'.active ensures TxnOk(names, s', u) {
      assert TxnOk(names, s, u);
    }
  }

  lemma CommitKeeps(names: LockNames, rows: multiset<int>, s: State, t: nat)
    requires SharedName(names) && Inv(names, rows, s) && Enabled(names, s, Commit(t))
    ensures Inv(names, rows, Apply(names, s, Commit(t)))
  {
    var s' := Apply(names, s, Commit(t));
    var ids := s.active[t].pending;
    assert TxnOk(names, s, t);
    CommitKeepsUnique(s.committed, ids);
    assert s'.done[..|s'.done| - 1] == s.done;
    assert SumDone(s'.done) == SumDone(s.done) + multiset(ids);
    assert s'.committed + s'.deleted == (s.committed + s.deleted) + multiset(ids);
    forall u | u in s'.active ensures TxnOk(names, s', u) {
      assert TxnOk(names, s, u);
      if s.active[u].phase == Holding {
        OneHolder(names, rows, s, t, u);
      }
    }
  }

  lemma BeginKeeps(names: LockNames, rows: multiset<int>, s: State, t: nat, kind: Kind, size: nat)
    requires Inv(names, rows, s) && Enabled(names, s, Begin(t, kind, size))
    ensures Inv(names, rows, Apply(names, s, Begin(t, kind, size)))
  {
    hide Safe;
    var s' := Apply(names, s, Begin(t, kind, size));
    assert Safe(rows, s') by { SameRows(rows, s, s'); }
    forall u | u in s'.active ensures TxnOk(names, s', u) {
      assert u in s.active && u != t ==> TxnOk(names, s, u);
    }
  }

  lemma LockKeeps(names: LockNames, rows: multiset<int>, s: State, t: nat)
    requires Inv(names, rows, s) && Enabled(names, s, Lock(t))
    ensures Inv(names, rows, Apply(names, s, Lock(t)))
  {
    hide Safe;
    var s' := Apply(names, s, Lock(t));
    assert Safe(rows, s') by { SameRows(rows, s, s'); }
    forall u | u in s'.active ensures TxnOk(names, s', u) {
      assert TxnOk(names, s, u);
    }
  }

  lemma AbortKeeps(names: LockNames, rows: multiset<int>, s: State, t: nat)
    requires Inv(names, rows, s) && Enabled(names, s, Abort(t))
    ensures Inv(names, rows, Apply(names, s, Abort(t)))
  {
    hide Safe;
    var s' := Apply(names, s, Abort(t));
    assert Safe(rows, s') by { SameRows(rows, s, s'); }
    forall u | u in s'.active ensures TxnOk(names, s', u) {
      assert TxnOk(names, s, u);
    }
  }

  lemma SameRows(rows: multiset<int>, s: State, s': State)
    requires Safe(rows, s) && s'.committed == s.committed && s'.deleted == s.deleted && s'.done == s.done
    ensures Safe(rows, s')
  {}

  lemma DeleteKeeps(names: LockNames, rows: multiset<int>, s: State, id: int)
    requires Inv(names, rows, s) && Enabled(names, s, Delete(id))
    ensures Inv(names, rows, Apply(names, s, Delete(id)))
  {
    var s' := Apply(names, s, Delete(id));
    assert forall x :: x in s'.committed ==> x in s.committed;
    forall u | u in s'.active ensures TxnOk(names, s', u) {
      assert TxnOk(names, s, u);
    }
  }

  lemma StepKeeps(names: LockNames, rows: multiset<int>, s: State, a: Action)
    requires SharedName(names) && Inv(names, rows, s) && Enabled(names, s, a)
    ensures Inv(names, rows, Apply(names, s, a))
  {
    hide Inv, Enabled, Apply;
    match a
    case Insert(t, id) => InsertKeeps(names, rows, s, t, id);
    case Commit(t) => CommitKeeps(names, rows, s, t);
    case Begin(t, kind, size) => BeginKeeps(names, rows, s, t, kind, size);
    case Lock(t) => LockKeeps(names, rows, s, t);
    case Abort(t) => AbortKeeps(names, rows, s, t);
    case Delete(id) => DeleteKeeps(names, rows, s, id);
  }

  lemma {:induction false} RunKeeps(names: LockNames, rows: multiset<int>, s: State, run: seq<Action>)
    requires SharedName(names) && Inv(names, rows, s)
    ensures var e := Exec(names, s, run); e.Some? ==> Inv(names, rows, e.value)
    decreases |run|
  {
    hide Inv, Enabled, Apply;
    if run != [] && Enabled(names, s, run[0]) {
      StepKeeps(names, rows, s, run[0]);
      RunKeeps(names, rows, Apply(names, s, run[0]), run[1..]);
    }
  }

  /** Every interleaving of any number of batches and deletions is safe when the endpoints share the lock's name. */
  lemma EveryRunIsSafe(names: LockNames, rows: multiset<int>, run: seq<Action>)
    requires SharedName(names) && Unique(rows)
    ensures var e := Exec(names, Start(rows), run); e.Some? ==> Safe(rows, e.value)
  {
    RunKeeps(names, rows, Start(rows), run);
  }

  /** Once no batch is running, no lock is held. */
  lemma LocksAreReleased(names: LockNames, rows: multiset<int>, run: seq<Action>)
    requires SharedName(names) && Unique(rows)
    ensures var e := Exec(names, Start(rows), run); e.Some? && e.value.active == map[] ==> e.value.locks == map[]
  {
    RunKeeps(names, rows, Start(rows), run);
  }

  /** A holder is never stuck: the next id always exists, so it can insert, or commit when it has inserted all. */
  lemma HolderCanProceed(names: LockNames, s: State, t: nat)
    requires t in s.active && s.active[t].phase == Holding && |s.active[t].pending| <= s.active[t].size
    ensures Enabled(names, s, Commit(t)) || exists id :: Enabled(names, s, Insert(t, id))
  {
    if |s.active[t].pending| < s.active[t].size {
      var id := NextExists(Visible(s, s.active[t]));
      assert Enabled(names, s, Insert(t, id));
    }
  }

  lemma {:induction false} NextExists(visible: multiset<int>) returns (id: int)
    ensures IsNext(id, visible)
    decreases |visible|
  {
    if x :| x in visible {
      var rest := visible - multiset{x};
      assert visible == rest + multiset{x};
      var m := NextExists(rest);
      id := if rest == multiset{} || x + 1 > m then x + 1 else m;
      assert forall y :: y in visible <==> y == x || y in rest;
    } else {
      forall x ensures visible[x] == multiset{}[x] {
        assert x !in visible;
      }
      assert visible == multiset{};
      id := 1;
    }
  }

  /** Two batches under two lock names insert the same id. */
  function Collision(): seq<Action> {
    [Begin(1, Subject, 1), Begin(2, Project, 1), Lock(1), Lock(2), Insert(1, 1), Insert(2, 1), Commit(1), Commit(2)]
  }

  lemma ExecStep(names: LockNames, s: State, a: Action, run: seq<Action>)
    requires Enabled(names, s, a)
    ensures Exec(names, s, [a] + run) == Exec(names, Apply(names, s, a), run)
  {
    assert ([a] + run)[1..] == run;
  }

  /** Both batches in their critical section, holding the ids `p` and `q`, with `rows` committed. */
  function Both(names: LockNames, p: seq<int>, q: seq<int>): State {
    State(multiset{}, map[1 := Txn(Subject, 1, Holding, p), 2 := Txn(Project, 1, Holding, q)],
          map[names(Subject) := 1, names(Project) := 2], [], multiset{})
  }

  lemma BothEnter(names: LockNames, run: seq<Action>)
    requires names(Subject) != names(Project)
    ensures Exec(names, Start(multiset{}), [Begin(1, Subject, 1), Begin(2, Project, 1), Lock(1), Lock(2)] + run)
         == Exec(names, Both(names, [], []), run)
  {
    var s0 := Start(multiset{});
    var s1 := Apply(names, s0, Begin(1, Subject, 1));
    var s2 := Apply(names, s1, Begin(2, Project, 1));
    var s3 := Apply(names, s2, Lock(1));
    var s4 := Apply(names, s3, Lock(2));
    assert s4 == Both(names, [], []) by {
      assert s4.active == Both(names, [], []).active;
      assert s4.locks == Both(names, [], []).locks;
    }
    ExecStep(names, s3, Lock(2), run);
    ExecStep(names, s2, Lock(1), [Lock(2)] + run);
    ExecStep(names, s1, Begin(2, Project, 1), [Lock(1)] + ([Lock(2)] + run));
    ExecStep(names, s0, Begin(1, Subject, 1), [Begin(2, Project, 1)] + ([Lock(1)] + ([Lock(2)] + run)));
    assert [Begin(1, Subject, 1), Begin(2, Project, 1), Lock(1), Lock(2)] + run
        == [Begin(1, Subject, 1)] + ([Begin(2, Project, 1)] + ([Lock(1)] + ([Lock(2)] + run)));
  }

  lemma BothInsertOne(names: LockNames, run: seq<Action>)
    requires names(Subject) != names(Project)
    ensures Exec(names, Both(names, [], []), [Insert(1, 1), Insert(2, 1)] + run)
            == Exec(names, Both(names, [1], [1]), run)
  {
    var s := Both(names, [], []);
    var none: seq<int> := [];
    assert none + [1] == [1];
    var t := Apply(names, s, Insert(1, 1));
    assert t == Both(names, [1], []) by {
      assert t.active == Both(names, [1], []).active;
    }
    var u := Apply(names, t, Insert(2, 1));
    assert u == Both(names, [1], [1]) by {
      assert u.active == Both(names, [1], [1]).active;
    }
    ExecStep(names, t, Insert(2, 1), run);
    ExecStep(names, s, Insert(1, 1), [Insert(2, 1)] + run);
    assert [Insert(1, 1), Insert(2, 1)] + run == [Insert(1, 1)] + ([Insert(2, 1)] + run);
  }

  lemma BothCommit(names: LockNames)
    requires names(Subject) != names(Project)
    ensures var e := Exec(names, Both(names, [1], [1]), [Commit(1), Commit(2)]); e.Some? && e.value.committed[1] == 2
  {
    var s := Both(names, [1], [1]);
    var t := Apply(names, s, Commit(1));
    var u := Apply(names, t, Commit(2));
    assert t.active[2] == Txn(Project, 1, Holding, [1]) && t.committed == multiset{1};
    assert u.committed[1] == 2;
    ExecStep(names, t, Commit(2), []);
    ExecStep(names, s, Commit(1), [Commit(2)]);
    assert [Commit(2)] + [] == [Commit(2)] && [Commit(1)] + [Commit(2)] == [Commit(1), Commit(2)];
  }

  lemma DifferentNamesCollide(names: LockNames)
    requires names(Subject) != names(Project)
    ensures var e := Exec(names, Start(multiset{}), Collision()); e.Some? && !Unique(e.value.committed)
  {
    hide Exec;
    BothEnter(names, [Insert(1, 1), Insert(2, 1)] + [Commit(1), Commit(2)]);
    BothInsertOne(names, [Commit(1), Commit(2)]);
    BothCommit(names);
    assert Collision() == [Begin(1, Subject, 1), Begin(2, Project, 1), Lock(1), Lock(2)]
                          + ([Insert(1, 1), Insert(2, 1)] + [Commit(1), Commit(2)]);
  }

  ghost predicate AlwaysUnique(names: LockNames) {
    forall rows, run :: Unique(rows) ==>
      var e := Exec(names, Start(rows), run); e.Some? ==> Unique(e.value.committed)
  }

  /** Sharing the table's lock name is exactly what keeps ids apart: over all runs, ids stay unique if and only if
      the two endpoints name the same lock. */
  lemma SharedNameIsNeeded(names: LockNames)
    ensures AlwaysUnique(names) <==> SharedName(names)
  {
    hide Exec;
    if SharedName(names) {
      forall rows, run | Unique(rows)
        ensures var e := Exec(names, Start(rows), run); e.Some? ==> Unique(e.value.committed)
      {
        EveryRunIsSafe(names, rows, run);
      }
    } else {
      assert names(Subject) != names(Project) by {
        var a, b :| names(a) != names(b);
        assert a != b;
      }
      DifferentNamesCollide(names);
      assert Unique(multiset{});
    }
  }
}
