/** Secrets at rest: sealing, opening, re-sealing a whole store, and the provider keys kept that way. */
module SealedStore {
  import opened Results
  import opened Text

  const PREFIX := "enc:v1:"

  datatype StoreError = StoreKeyError | SecretFormatError

  datatype Outcome<+T> = Done(value: T) | Failed(error: StoreError) {
    predicate IsFailure() { Failed? }

    function PropagateFailure<U>(): Outcome<U>
      requires Failed?
    {
      Failed(error)
    }

    function Extract(): T
      requires Done?
    {
      value
    }
  }

  /** The cipher library: encryption draws a nonce; `valid` says which texts are well-formed keys. */
  datatype Cipher = Cipher(enc: (string, string, nat) -> string, dec: (string, string) -> Option<string>,
                           valid: string -> bool)

  /** What the library promises: a token opens with the key that made it, and with no other. A key is named by its text
      in normal form; several texts can decode to one key. */
  ghost predicate Sound(c: Cipher) {
    && (forall k, v, n :: c.dec(k, c.enc(k, v, n)) == Some(v))
    && forall k, other, v, n :: other != k ==> c.dec(other, c.enc(k, v, n)) == None
  }

  type KeyRing = ks: seq<string> | ks != [] witness [""]

  datatype Config = NotSet | Malformed | Keys(ring: KeyRing)

  /** `_configured` on the environment's text. */
  function Configured(c: Cipher, env: string): Config {
    var raw := Strip(env);
    var ks := StrippedNonEmpty(SplitOn(raw, ','));
    if raw == "" then NotSet
    else if ks == [] || exists k :: k in ks && !c.valid(k) then Malformed
    else Keys(ks)
  }

  /** A key as the variable can hold it: trimmed, without commas, well formed. */
  ghost predicate PlainKey(c: Cipher, k: string) {
    k != "" && Trimmed(k) && ',' !in k && c.valid(k)
  }

  lemma {:induction false} StrippedAlready(ks: seq<string>)
    requires forall k :: k in ks ==> k != "" && Trimmed(k)
    ensures StrippedNonEmpty(ks) == ks
  {
    hide IsSpace;
    if ks != [] {
      assert ks[0] in ks && forall k :: k in ks[1..] ==> k in ks;
      StripTrimmed(ks[0]);
      StrippedAlready(ks[1..]);
      assert ks == [ks[0]] + ks[1..];
    }
  }

  lemma {:induction false} JoinedTrimmed(ks: seq<string>)
    requires ks != [] && forall k :: k in ks ==> k != "" && Trimmed(k)
    ensures Join(",", ks) != "" && Trimmed(Join(",", ks))
  {
    hide IsSpace;
    assert ks[0] in ks;
    if |ks| > 1 {
      assert forall k :: k in ks[1..] ==> k in ks;
      JoinedTrimmed(ks[1..]);
      var rest := Join(",", ks[1..]);
      var s := ks[0] + "," + rest;
      assert s[0] == ks[0][0] && s[|s| - 1] == rest[|rest| - 1];
    }
  }

  /** Keys joined by commas configure exactly that ring, the first one in front. */
  lemma JoinedKeysConfigure(c: Cipher, ks: KeyRing)
    requires forall k :: k in ks ==> PlainKey(c, k)
    ensures Configured(c, Join(",", ks)) == Keys(ks)
  {
    hide IsSpace, Strip, SplitOn, StrippedNonEmpty;
    JoinedTrimmed(ks);
    StripTrimmed(Join(",", ks));
    SplitOnJoined(',', ks);
    StrippedAlready(ks);
  }

  /** One key that is not well formed makes the whole variable malformed; a blank variable sets nothing. */
  lemma BadKeysConfigure(c: Cipher, ks: KeyRing)
    requires forall k :: k in ks ==> k != "" && Trimmed(k) && ',' !in k
    ensures Configured(c, Join(",", ks)) == Malformed <==> exists k :: k in ks && !c.valid(k)
    ensures Configured(c, "") == NotSet
  {
    assert Strip("") == "";
    hide IsSpace, Strip, SplitOn, StrippedNonEmpty;
    JoinedTrimmed(ks);
    StripTrimmed(Join(",", ks));
    SplitOnJoined(',', ks);
    StrippedAlready(ks);
  }

  predicate IsSealed(stored: Option<string>) {
    stored.Some? && PREFIX <= stored.value
  }

  predicate Blank(stored: Option<string>) {
    stored.None? || stored.value == ""
  }

  function Seal(c: Cipher, conf: Config, secret: Option<string>, nonce: nat): Outcome<Option<string>> {
    if Blank(secret) then Done(secret)
    else
      match conf
      case Malformed => Failed(StoreKeyError)
      case NotSet => if IsSealed(secret) then Failed(SecretFormatError) else Done(secret)
      case Keys(ring) => Done(Some(PREFIX + c.enc(ring[0], secret.value, nonce)))
  }

  /** The first key of the ring that opens the token. */
  function Opened(c: Cipher, ring: seq<string>, token: string): Option<string> {
    if ring == [] then None
    else
      var p := c.dec(ring[0], token);
      if p.Some? then p else Opened(c, ring[1..], token)
  }

  function Unseal(c: Cipher, conf: Config, stored: Option<string>): Outcome<Option<string>> {
    if !IsSealed(stored) then Done(stored)
    else if !conf.Keys? then Failed(StoreKeyError)
    else
      var p := Opened(c, conf.ring, stored.value[|PREFIX|..]);
      if p.Some? then Done(p) else Failed(StoreKeyError)
  }

  /** Whatever is stored for a secret reads back as that secret, also under the sealing key alone. */
  lemma SealOpens(c: Cipher, conf: Config, secret: Option<string>, nonce: nat)
    requires Sound(c)
    ensures var s := Seal(c, conf, secret, nonce);
            s.Done? ==>
              && Unseal(c, conf, s.value) == Done(secret)
              && (conf.Keys? ==> Unseal(c, Keys([conf.ring[0]]), s.value) == Done(secret))
              && (conf.Keys? ==> Blank(s.value) || IsSealed(s.value))
  {
    if !Blank(secret) && conf.Keys? {
      var token := c.enc(conf.ring[0], secret.value, nonce);
      assert (PREFIX + token)[|PREFIX|..] == token;
      assert c.dec(conf.ring[0], token) == Some(secret.value);
    }
  }

  /** Sealing is refused in two cases only: a key that cannot be used, or no key and a secret that looks sealed. */
  lemma SealRefuses(c: Cipher, conf: Config, secret: Option<string>, nonce: nat)
    ensures Seal(c, conf, secret, nonce).Failed? <==>
            !Blank(secret) && (conf.Malformed? || (conf.NotSet? && IsSealed(secret)))
  {}

  /** A stored value some key of the library made. */
  ghost predicate Genuine(c: Cipher, stored: Option<string>) {
    IsSealed(stored) ==> exists k, v, n :: stored.value == PREFIX + c.enc(k, v, n)
  }

  lemma {:induction false} OpenedIf(c: Cipher, ring: seq<string>, k: string, v: string, n: nat)
    requires Sound(c)
    ensures Opened(c, ring, c.enc(k, v, n)) == if k in ring then Some(v) else None
  {
    if ring != [] {
      OpenedIf(c, ring[1..], k, v, n);
      if ring[0] == k {
        assert c.dec(k, c.enc(k, v, n)) == Some(v);
      } else {
        assert c.dec(ring[0], c.enc(k, v, n)) == None;
      }
      assert k in ring <==> k == ring[0] || k in ring[1..];
    }
  }

  /** A genuine sealed value opens exactly when its key is in the ring, wherever it stands in it. */
  lemma OpensWithItsKey(c: Cipher, ring: KeyRing, k: string, v: string, n: nat)
    requires Sound(c)
    ensures Unseal(c, Keys(ring), Some(PREFIX + c.enc(k, v, n)))
         == if k in ring then Done(Some(v)) else Failed(StoreKeyError)
  {
    var token := c.enc(k, v, n);
    assert (PREFIX + token)[|PREFIX|..] == token;
    OpenedIf(c, ring, k, v, n);
  }

  /** Adding a key in front changes nothing a ring could already read. */
  lemma NewKeyInFront(c: Cipher, ring: KeyRing, key: string, stored: Option<string>)
    requires Sound(c) && Genuine(c, stored) && Unseal(c, Keys(ring), stored).Done?
    ensures Unseal(c, Keys([key] + ring), stored) == Unseal(c, Keys(ring), stored)
  {
    if IsSealed(stored) {
      var k, v, n :| stored.value == PREFIX + c.enc(k, v, n);
      assert stored == Some(PREFIX + c.enc(k, v, n));
      OpensWithItsKey(c, ring, k, v, n);
      OpensWithItsKey(c, [key] + ring, k, v, n);
    }
  }

  // ---------------------------------------------------------------------------
  // The store
  // ---------------------------------------------------------------------------

  /** Whose secret it is: one constructor per secret column. */
  datatype Holder = User(id: int) | ProviderKey(user: int, provider: string) | ModelPrompt(id: int)

  datatype SecretRow = SecretRow(holder: Holder, secret: Option<string>, baseUrl: Option<string>)

  datatype Sweep<T> = Sweep(data: T, changed: nat, nonce: nat)

  /** The rows `seal_all` rewrites. */
  predicate Selected(row: SecretRow, reseal: bool) {
    !Blank(row.secret) && (reseal || !IsSealed(row.secret))
  }

  function SealRow(c: Cipher, conf: Config, row: SecretRow, nonce: nat): Outcome<SecretRow> {
    var secret :- Unseal(c, conf, row.secret);
    var sealed :- Seal(c, conf, secret, nonce);
    var again :- Unseal(c, conf, sealed);
    if again != secret then Failed(StoreKeyError) else Done(row.(secret := sealed))
  }

  function SealRows(c: Cipher, conf: Config, reseal: bool, rows: seq<SecretRow>, nonce: nat)
    : (r: Outcome<Sweep<seq<SecretRow>>>)
    ensures r.Done? ==> |r.value.data| == |rows|
  {
    if rows == [] then Done(Sweep([], 0, nonce))
    else
      var last := rows[|rows| - 1];
      var s :- SealRows(c, conf, reseal, rows[..|rows| - 1], nonce);
      if !Selected(last, reseal) then Done(Sweep(s.data + [last], s.changed, s.nonce))
      else
        var sealed :- SealRow(c, conf, last, s.nonce);
        Done(Sweep(s.data + [sealed], s.changed + 1, s.nonce + 1))
  }

  type Tables = seq<seq<SecretRow>>

  function SealTables(c: Cipher, conf: Config, reseal: bool, tables: Tables, nonce: nat): (r: Outcome<Sweep<Tables>>)
    ensures r.Done? ==> |r.value.data| == |tables|
  {
    if tables == [] then Done(Sweep([], 0, nonce))
    else
      var s :- SealTables(c, conf, reseal, tables[..|tables| - 1], nonce);
      var t :- SealRows(c, conf, reseal, tables[|tables| - 1], s.nonce);
      Done(Sweep(s.data + [t.data], s.changed + t.changed, t.nonce))
  }

  function SealStore(c: Cipher, conf: Config, reseal: bool, tables: Tables, nonce: nat): Outcome<Sweep<Tables>> {
    if conf.Keys? then SealTables(c, conf, reseal, tables, nonce) else Failed(StoreKeyError)
  }

  function Lookup(rows: seq<SecretRow>, holder: Holder): Option<SecretRow> {
    if rows == [] then None else if rows[0].holder == holder then Some(rows[0]) else Lookup(rows[1..], holder)
  }

  /** `INSERT ... ON CONFLICT DO UPDATE` on the holder. */
  function Upserted(rows: seq<SecretRow>, row: SecretRow): seq<SecretRow> {
    if rows == [] then [row]
    else if rows[0].holder == row.holder then [row] + rows[1..]
    else [rows[0]] + Upserted(rows[1..], row)
  }

  /** The secret an upsert stores: the given one, or the one already there. */
  function KeptSecret(c: Cipher, conf: Config, rows: seq<SecretRow>, holder: Holder, key: Option<string>)
    : Outcome<Option<string>>
  {
    var existing := Lookup(rows, holder);
    if key.Some? then Done(key) else if existing.None? then Done(None) else Unseal(c, conf, existing.value.secret)
  }

  function UpsertKey(c: Cipher, conf: Config, rows: seq<SecretRow>, holder: Holder, key: Option<string>,
                     baseUrl: Option<string>, nonce: nat): Outcome<seq<SecretRow>>
  {
    var secret :- KeptSecret(c, conf, rows, holder, key);
    var stored :- Seal(c, conf, secret, nonce);
    Done(Upserted(rows, SecretRow(holder, stored, baseUrl)))
  }

  const PROVIDER_KEYS := 1  // after the users, before the model prompts

  datatype KeyRow = KeyRow(provider: string, apiKey: Option<string>, baseUrl: Option<string>)

  class AuthStore {
    const cipher: Cipher
    var tables: Tables
    var nonce: nat

    constructor (cipher: Cipher, tables: Tables)
      requires |tables| == 3
      ensures Valid() && this.cipher == cipher && this.tables == tables
    {
      this.cipher, this.tables, nonce := cipher, tables, 0;
    }

    ghost predicate Valid()
      reads this
    {
      |tables| == 3
    }

    /** `seal_all`: every row of every secret column, or none. */
    method SealAll(env: string, reseal: bool) returns (r: Outcome<nat>)
      requires Valid()
      modifies this
      ensures Valid()
      ensures r.Failed? ==> tables == old(tables)
      ensures var s := SealStore(cipher, Configured(cipher, env), reseal, old(tables), old(nonce));
              if s.Done? then r == Done(s.value.changed) && tables == s.value.data && nonce == s.value.nonce
              else r == Failed(s.error)
    {
      hide SealRows, SealTables, Configured;
      var conf := Configured(cipher, env);
      if !conf.Keys? {
        return Failed(StoreKeyError);
      }
      var draft, started := [], nonce;  // the transaction's view; `tables` changes at the commit only
      var changed: nat := 0;
      var k := 0;
      SealNoTable(cipher, conf, reseal, tables[..0], started);
      while k < |tables|
        invariant k <= |tables| && tables == old(tables)
        invariant SealTables(cipher, conf, reseal, tables[..k], started) == Done(Sweep(draft, changed, nonce))
      {
        SealTablesNext(cipher, conf, reseal, tables, started, k);
        var t := SealTable(conf, reseal, tables[k]);
        if t.Failed? {
          SealTablesStops(cipher, conf, reseal, tables, started, k + 1);
          return Failed(t.error);
        }
        draft := draft + [t.value.data];
        changed := changed + t.value.changed;
        k := k + 1;
      }
      assert tables[..k] == tables;
      tables := draft;
      return Done(changed);
    }

    /** One secret column: open, seal, open again, update. */
    method SealTable(conf: Config, reseal: bool, rows: seq<SecretRow>) returns (r: Outcome<Sweep<seq<SecretRow>>>)
      modifies this`nonce
      ensures r == SealRows(cipher, conf, reseal, rows, old(nonce))
      ensures r.Done? ==> nonce == r.value.nonce
    {
      hide Selected, SealRow, SealRows;
      var updated, started := [], nonce;
      var changed: nat := 0;
      var i := 0;
      SealNothing(cipher, conf, reseal, rows[..0], started);
      while i < |rows|
        invariant i <= |rows|
        invariant SealRows(cipher, conf, reseal, rows[..i], started) == Done(Sweep(updated, changed, nonce))
      {
        SealRowsNext(cipher, conf, reseal, rows, started, i);
        if Selected(rows[i], reseal) {
          var sealed := SealRow(cipher, conf, rows[i], nonce);
          if sealed.Failed? {
            SealRowsStops(cipher, conf, reseal, rows, started, i + 1);
            return Failed(sealed.error);
          }
          updated := updated + [sealed.value];
          changed, nonce := changed + 1, nonce + 1;
        } else {
          updated := updated + [rows[i]];
        }
        i := i + 1;
      }
      assert rows[..i] == rows;
      return Done(Sweep(updated, changed, nonce));
    }

    /** `survey`: sealed and plain secrets per column. */
    method Survey() returns (counts: seq<(nat, nat)>)
      requires Valid()
      ensures |counts| == 3
      ensures forall k :: 0 <= k < 3 ==>
        counts[k].0 == CountIf(tables[k], false) && counts[k].0 + counts[k].1 == CountIf(tables[k], true)
    {
      counts := [];
      for k := 0 to 3
        invariant |counts| == k
        invariant forall j :: 0 <= j < k ==>
          counts[j].0 == CountIf(tables[j], false) && counts[j].0 + counts[j].1 == CountIf(tables[j], true)
      {
        CountsBound(tables[k]);
        counts := counts + [(CountIf(tables[k], false), CountIf(tables[k], true) - CountIf(tables[k], false))];
      }
    }

    method UserProviderKey(env: string, user: int, provider: string) returns (r: Outcome<Option<KeyRow>>)
      requires Valid()
      ensures var row := Lookup(tables[PROVIDER_KEYS], ProviderKey(user, provider));
              if row.None? then r == Done(None)
              else
                var secret := Unseal(cipher, Configured(cipher, env), row.value.secret);
                if secret.Failed? then r == Failed(StoreKeyError)
                else r == Done(Some(KeyRow(provider, secret.value, row.value.baseUrl)))
    {
      var row := Lookup(tables[PROVIDER_KEYS], ProviderKey(user, provider));
      if row.None? {
        return Done(None);
      }
      var secret :- Unseal(cipher, Configured(cipher, env), row.value.secret);
      return Done(Some(KeyRow(provider, secret, row.value.baseUrl)));
    }

    method UpsertUserProviderKey(env: string, user: int, provider: string, apiKey: Option<string>,
                                 baseUrl: Option<string>) returns (r: Outcome<()>)
      requires Valid()
      modifies this
      ensures Valid()
      ensures var s := UpsertKey(cipher, Configured(cipher, env), old(tables)[PROVIDER_KEYS],
                                 ProviderKey(user, provider), apiKey, baseUrl, old(nonce));
              if s.Done? then r == Done(()) && tables == old(tables)[PROVIDER_KEYS := s.value]
              else r == Failed(s.error) && tables == old(tables)
    {
      var key := apiKey;
      if key.None? {
        var existing :- UserProviderKey(env, user, provider);
        key := if existing.Some? then existing.value.apiKey else None;
      }
      var stored :- Seal(cipher, Configured(cipher, env), key, nonce);
      nonce := nonce + 1;
      var row := SecretRow(ProviderKey(user, provider), stored, baseUrl);
      tables := tables[PROVIDER_KEYS := Upserted(tables[PROVIDER_KEYS], row)];
      return Done(());
    }
  }

  lemma SealNothing(c: Cipher, conf: Config, reseal: bool, rows: seq<SecretRow>, nonce: nat)
    requires rows == []
    ensures SealRows(c, conf, reseal, rows, nonce) == Done(Sweep([], 0, nonce))
  {}

  lemma SealNoTable(c: Cipher, conf: Config, reseal: bool, tables: Tables, nonce: nat)
    requires tables == []
    ensures SealTables(c, conf, reseal, tables, nonce) == Done(Sweep([], 0, nonce))
  {}

  lemma SealTablesNext(c: Cipher, conf: Config, reseal: bool, tables: Tables, nonce: nat, k: nat)
    requires k < |tables|
    ensures var s, n := SealTables(c, conf, reseal, tables[..k], nonce),
                        SealTables(c, conf, reseal, tables[..k + 1], nonce);
            s.Done? ==>
              var t := SealRows(c, conf, reseal, tables[k], s.value.nonce);
              if t.Failed? then n == Failed(t.error)
              else n == Done(Sweep(s.value.data + [t.value.data], s.value.changed + t.value.changed, t.value.nonce))
  {
    hide SealRows;
    assert tables[..k + 1][..k] == tables[..k];
  }

  /** One more row of a sweep that went well so far. */
  lemma SealRowsNext(c: Cipher, conf: Config, reseal: bool, rows: seq<SecretRow>, nonce: nat, i: nat)
    requires i < |rows|
    ensures var s, n := SealRows(c, conf, reseal, rows[..i], nonce), SealRows(c, conf, reseal, rows[..i + 1], nonce);
            s.Done? ==>
              if !Selected(rows[i], reseal) then n == Done(s.value.(data := s.value.data + [rows[i]]))
              else
                var sealed := SealRow(c, conf, rows[i], s.value.nonce);
                if sealed.Failed? then n == Failed(sealed.error)
                else n == Done(Sweep(s.value.data + [sealed.value], s.value.changed + 1, s.value.nonce + 1))
  {
    hide Selected, SealRow;
    assert rows[..i + 1][..i] == rows[..i];
  }

  /** A failure inside a sweep fails the whole sweep. */
  lemma {:induction false} SealRowsStops(c: Cipher, conf: Config, reseal: bool, rows: seq<SecretRow>, nonce: nat,
                                           n: nat)
    requires n <= |rows| && SealRows(c, conf, reseal, rows[..n], nonce).Failed?
    ensures SealRows(c, conf, reseal, rows, nonce) == SealRows(c, conf, reseal, rows[..n], nonce)
  {
    if n == |rows| {
      assert rows[..n] == rows;
    } else {
      var init := rows[..|rows| - 1];
      assert init[..n] == rows[..n];
      SealRowsStops(c, conf, reseal, init, nonce, n);
    }
  }

  lemma {:induction false} SealTablesStops(c: Cipher, conf: Config, reseal: bool, tables: Tables, nonce: nat, n: nat)
    requires n <= |tables| && SealTables(c, conf, reseal, tables[..n], nonce).Failed?
    ensures SealTables(c, conf, reseal, tables, nonce) == SealTables(c, conf, reseal, tables[..n], nonce)
  {
    if n == |tables| {
      assert tables[..n] == tables;
    } else {
      var init := tables[..|tables| - 1];
      assert init[..n] == tables[..n];
      SealTablesStops(c, conf, reseal, init, nonce, n);
    }
  }

  /** How many secrets a column holds, all or only the sealed ones. */
  function CountIf(rows: seq<SecretRow>, all: bool): nat {
    if rows == [] then 0
    else (if !Blank(rows[0].secret) && (all || IsSealed(rows[0].secret)) then 1 else 0) + CountIf(rows[1..], all)
  }

  lemma {:induction false} CountsBound(rows: seq<SecretRow>)
    ensures CountIf(rows, false) <= CountIf(rows, true)
    ensures CountIf(rows, false) == CountIf(rows, true) <==> forall r :: r in rows ==> !Selected(r, false)
  {
    if rows != [] {
      CountsBound(rows[1..]);
      assert rows[0] in rows;
      assert forall r :: r in rows <==> r == rows[0] || r in rows[1..];
    }
  }

  // ---------------------------------------------------------------------------
  // Sealing everything
  // ---------------------------------------------------------------------------

  predicate Readable(c: Cipher, conf: Config, row: SecretRow) {
    Unseal(c, conf, row.secret).Done?
  }

  /** What a sweep does to one row. */
  predicate Resealed(c: Cipher, ring: KeyRing, reseal: bool, before: SecretRow, after: SecretRow) {
    && after.holder == before.holder && after.baseUrl == before.baseUrl
    && (!Selected(before, reseal) ==> after == before)
    && (Selected(before, reseal) ==>
          && Unseal(c, Keys(ring), after.secret) == Unseal(c, Keys(ring), before.secret)
          && Unseal(c, Keys([ring[0]]), after.secret) == Unseal(c, Keys(ring), before.secret))
    && !Selected(after, false)
  }

  lemma SealRowMeans(c: Cipher, ring: KeyRing, reseal: bool, row: SecretRow, nonce: nat)
    requires Sound(c) && Selected(row, reseal)
    ensures SealRow(c, Keys(ring), row, nonce).Done? <==> Readable(c, Keys(ring), row)
    ensures var s := SealRow(c, Keys(ring), row, nonce); s.Done? ==> Resealed(c, ring, reseal, row, s.value)
  {
    var secret := Unseal(c, Keys(ring), row.secret);
    if secret.Done? {
      SealOpens(c, Keys(ring), secret.value, nonce);
      SealRefuses(c, Keys(ring), secret.value, nonce);
      hide Seal, Unseal;
    }
  }

  ghost predicate AllResealed(c: Cipher, ring: KeyRing, reseal: bool, before: seq<SecretRow>, after: seq<SecretRow>) {
    |after| == |before| && forall i :: 0 <= i < |before| ==> Resealed(c, ring, reseal, before[i], after[i])
  }

  ghost predicate AllReadable(c: Cipher, conf: Config, reseal: bool, rows: seq<SecretRow>) {
    forall r :: r in rows && Selected(r, reseal) ==> Readable(c, conf, r)
  }

  lemma {:induction false} SealRowsMeans(c: Cipher, ring: KeyRing, reseal: bool, rows: seq<SecretRow>, nonce: nat)
    requires Sound(c)
    ensures var s := SealRows(c, Keys(ring), reseal, rows, nonce);
            && (s.Done? <==> AllReadable(c, Keys(ring), reseal, rows))
            && (s.Done? ==> AllResealed(c, ring, reseal, rows, s.value.data))
  {
    if rows != [] {
      hide Sound, SealRow, Readable, Resealed, Selected;
      var init, last := rows[..|rows| - 1], rows[|rows| - 1];
      assert rows == init + [last];
      assert forall r :: r in rows <==> r in init || r == last;
      SealRowsMeans(c, ring, reseal, init, nonce);
      var s := SealRows(c, Keys(ring), reseal, init, nonce);
      if Selected(last, reseal) {
        if s.Done? {
          SealRowMeans(c, ring, reseal, last, s.value.nonce);
        }
      } else {
        UntouchedRow(c, ring, reseal, last);
      }
    }
  }

  lemma UntouchedRow(c: Cipher, ring: KeyRing, reseal: bool, row: SecretRow)
    requires !Selected(row, reseal)
    ensures Resealed(c, ring, reseal, row, row)
  {}

  /** A sweep goes through exactly when every row it has to open can be opened; then each row keeps its secret, opens
      with the first key alone if it was rewritten, and no plain secret is left. */
  lemma {:induction false} SealTablesMeans(c: Cipher, ring: KeyRing, reseal: bool, tables: Tables, nonce: nat)
    requires Sound(c)
    ensures var s := SealTables(c, Keys(ring), reseal, tables, nonce);
            && (s.Done? <==> forall t :: t in tables ==> AllReadable(c, Keys(ring), reseal, t))
            && (s.Done? ==> forall k :: 0 <= k < |tables| ==> AllResealed(c, ring, reseal, tables[k], s.value.data[k]))
  {
    if tables != [] {
      hide Sound, AllReadable, AllResealed;
      var init, last := tables[..|tables| - 1], tables[|tables| - 1];
      assert tables == init + [last];
      assert forall t :: t in tables <==> t in init || t == last;
      SealTablesMeans(c, ring, reseal, init, nonce);
      var s := SealTables(c, Keys(ring), reseal, init, nonce);
      if s.Done? {
        SealRowsMeans(c, ring, reseal, last, s.value.nonce);
      }
    }
  }

  lemma {:induction false} NothingToSeal(c: Cipher, conf: Config, rows: seq<SecretRow>, nonce: nat)
    requires forall r :: r in rows ==> !Selected(r, false)
    ensures SealRows(c, conf, false, rows, nonce) == Done(Sweep(rows, 0, nonce))
  {
    if rows != [] {
      var init, last := rows[..|rows| - 1], rows[|rows| - 1];
      assert rows == init + [last];
      NothingToSeal(c, conf, init, nonce);
      assert last in rows;
    }
  }

  lemma {:induction false} NoTableToSeal(c: Cipher, conf: Config, tables: Tables, nonce: nat)
    requires forall t, r :: t in tables && r in t ==> !Selected(r, false)
    ensures SealTables(c, conf, false, tables, nonce) == Done(Sweep(tables, 0, nonce))
  {
    if tables != [] {
      hide Selected;
      var init, last := tables[..|tables| - 1], tables[|tables| - 1];
      assert tables == init + [last];
      NoTableToSeal(c, conf, init, nonce);
      assert last in tables;
      NothingToSeal(c, conf, last, nonce);
    }
  }

  /** Key rotation: re-sealing a store that can be read under a ring succeeds, leaves every secret as it was, readable
      under the first key alone, and leaves nothing for a plain sweep to change. */
  lemma RotationKeepsSecrets(c: Cipher, ring: KeyRing, tables: Tables, nonce: nat, later: nat)
    requires Sound(c)
    requires forall t, r :: t in tables && r in t ==> Readable(c, Keys(ring), r)
    ensures var s := SealStore(c, Keys(ring), true, tables, nonce);
            && s.Done?
            && |s.value.data| == |tables|
            && (forall k :: 0 <= k < |tables| ==> |s.value.data[k]| == |tables[k]|)
            && (forall k, i :: 0 <= k < |tables| && 0 <= i < |tables[k]| ==>
                  && s.value.data[k][i].holder == tables[k][i].holder
                  && Unseal(c, Keys(ring), s.value.data[k][i].secret) == Unseal(c, Keys(ring), tables[k][i].secret)
                  && Unseal(c, Keys([ring[0]]), s.value.data[k][i].secret)
                     == Unseal(c, Keys(ring), tables[k][i].secret))
            && SealStore(c, Keys(ring), false, s.value.data, later) == Done(Sweep(s.value.data, 0, later))
  {
    hide Sound, Unseal, Selected, SealTables;
    SealTablesMeans(c, ring, true, tables, nonce);
    var s := SealTables(c, Keys(ring), true, tables, nonce);
    forall k, i | 0 <= k < |tables| && 0 <= i < |tables[k]|
      ensures && Resealed(c, ring, true, tables[k][i], s.value.data[k][i])
              && (!Selected(tables[k][i], true) ==>
                    Unseal(c, Keys([ring[0]]), tables[k][i].secret) == Unseal(c, Keys(ring), tables[k][i].secret))
    {
      BlankReads(c, ring, tables[k][i]);
    }
    forall t, r | t in s.value.data && r in t ensures !Selected(r, false) {
      var k :| 0 <= k < |s.value.data| && s.value.data[k] == t;
      var i :| 0 <= i < |t| && t[i] == r;
      assert Resealed(c, ring, true, tables[k][i], s.value.data[k][i]);
    }
    NoTableToSeal(c, Keys(ring), s.value.data, later);
  }

  /** The whole rotation: put a new key in front, re-seal, drop the old keys. Every secret the old ring could read is
      readable, unchanged, with the new key alone. */
  lemma NewKeyAloneReadsAll(c: Cipher, ring: KeyRing, key: string, tables: Tables, nonce: nat)
    requires Sound(c)
    requires forall t, r :: t in tables && r in t ==> Genuine(c, r.secret) && Readable(c, Keys(ring), r)
    ensures var s := SealStore(c, Keys([key] + ring), true, tables, nonce);
            && s.Done?
            && |s.value.data| == |tables|
            && forall k, i :: 0 <= k < |tables| && 0 <= i < |tables[k]| ==>
                 && |s.value.data[k]| == |tables[k]|
                 && s.value.data[k][i].holder == tables[k][i].holder
                 && Unseal(c, Keys([key]), s.value.data[k][i].secret) == Unseal(c, Keys(ring), tables[k][i].secret)
  {
    var both: KeyRing := [key] + ring;
    hide Sound, Unseal, SealStore, Genuine;
    forall t, r | t in tables && r in t
      ensures Readable(c, Keys(both), r) && Unseal(c, Keys(both), r.secret) == Unseal(c, Keys(ring), r.secret)
    {
      NewKeyInFront(c, ring, key, r.secret);
    }
    RotationKeepsSecrets(c, both, tables, nonce, nonce);
    assert [both[0]] == [key];
    forall k, i | 0 <= k < |tables| && 0 <= i < |tables[k]|
      ensures Unseal(c, Keys(both), tables[k][i].secret) == Unseal(c, Keys(ring), tables[k][i].secret)
    {
      assert tables[k] in tables && tables[k][i] in tables[k];
    }
  }

  lemma BlankReads(c: Cipher, ring: KeyRing, row: SecretRow)
    ensures !Selected(row, true) ==> Unseal(c, Keys([ring[0]]), row.secret) == Unseal(c, Keys(ring), row.secret)
  {}

  /** After a sweep `survey` finds no plain secret. */
  lemma NoPlainSecretLeft(c: Cipher, ring: KeyRing, reseal: bool, tables: Tables, nonce: nat, k: nat)
    requires Sound(c) && k < |tables|
    ensures var s := SealStore(c, Keys(ring), reseal, tables, nonce);
            s.Done? ==> CountIf(s.value.data[k], true) == CountIf(s.value.data[k], false)
  {
    hide Sound, Unseal, Selected, SealTables;
    SealTablesMeans(c, ring, reseal, tables, nonce);
    var s := SealTables(c, Keys(ring), reseal, tables, nonce);
    if s.Done? {
      var after := s.value.data[k];
      assert AllResealed(c, ring, reseal, tables[k], after);
      forall r | r in after ensures !Selected(r, false) {
        var i :| 0 <= i < |after| && after[i] == r;
        assert Resealed(c, ring, reseal, tables[k][i], after[i]);
      }
      CountsBound(after);
    }
  }

  // ---------------------------------------------------------------------------
  // Secrets through every run
  // ---------------------------------------------------------------------------

  lemma {:induction false} LookupUpserted(rows: seq<SecretRow>, row: SecretRow, h: Holder)
    ensures Lookup(Upserted(rows, row), h) == if h == row.holder then Some(row) else Lookup(rows, h)
  {
    if rows != [] && rows[0].holder != row.holder {
      LookupUpserted(rows[1..], row, h);
    }
  }

  lemma {:induction false} LookupSwept(c: Cipher, ring: KeyRing, reseal: bool, before: seq<SecretRow>,
                                       after: seq<SecretRow>, h: Holder)
    requires AllResealed(c, ring, reseal, before, after)
    ensures Lookup(before, h).None? <==> Lookup(after, h).None?
    ensures Lookup(before, h).Some? ==> Resealed(c, ring, reseal, Lookup(before, h).value, Lookup(after, h).value)
  {
    if before != [] {
      hide Resealed;
      assert Resealed(c, ring, reseal, before[0], after[0]);
      assert before[0].holder == after[0].holder by { HolderKept(c, ring, reseal, before[0], after[0]); }
      LookupSwept(c, ring, reseal, before[1..], after[1..], h);
    }
  }

  lemma HolderKept(c: Cipher, ring: KeyRing, reseal: bool, before: SecretRow, after: SecretRow)
    requires Resealed(c, ring, reseal, before, after)
    ensures after.holder == before.holder
  {}

  /** The secret a holder's row of a column reads as. */
  function SecretOf(c: Cipher, conf: Config, rows: seq<SecretRow>, h: Holder): Outcome<Option<string>> {
    var row := Lookup(rows, h);
    if row.None? then Done(None) else Unseal(c, conf, row.value.secret)
  }

  datatype Command =
    | SealEverything(reseal: bool)
    | Upsert(user: int, provider: string, key: Option<string>, baseUrl: Option<string>)

  /** The tables after a command; a command that fails leaves them alone. `nonce` is whatever the library draws. */
  function After(c: Cipher, conf: Config, tables: Tables, cmd: Command, nonce: nat): (r: Tables)
    requires |tables| == 3
    ensures |r| == 3
  {
    match cmd
    case SealEverything(reseal) =>
      (var s := SealStore(c, conf, reseal, tables, nonce); if s.Done? then s.value.data else tables)
    case Upsert(user, provider, key, url) =>
      (var s := UpsertKey(c, conf, tables[PROVIDER_KEYS], ProviderKey(user, provider), key, url, nonce);
       if s.Done? then tables[PROVIDER_KEYS := s.value] else tables)
  }

  function AfterAll(c: Cipher, conf: Config, tables: Tables, run: seq<(Command, nat)>): Tables
    requires |tables| == 3
    decreases |run|
  {
    if run == [] then tables else AfterAll(c, conf, After(c, conf, tables, run[0].0, run[0].1), run[1..])
  }

  /** A command that gives this holder a new key. */
  predicate Rekeys(cmd: Command, k: nat, h: Holder) {
    cmd.Upsert? && cmd.key.Some? && k == PROVIDER_KEYS && h == ProviderKey(cmd.user, cmd.provider)
  }

  /** An upsert without a key keeps the stored secret and sets the address; with a key it stores that key. */
  lemma UpsertKeepsSecret(c: Cipher, conf: Config, rows: seq<SecretRow>, h: Holder, key: Option<string>,
                          url: Option<string>, nonce: nat, other: Holder)
    requires Sound(c)
    ensures var s := UpsertKey(c, conf, rows, h, key, url, nonce);
            s.Done? ==>
              && SecretOf(c, conf, s.value, h) == (if key.Some? then Done(key) else SecretOf(c, conf, rows, h))
              && Lookup(s.value, h).Some? && Lookup(s.value, h).value.baseUrl == url
              && (other != h ==> Lookup(s.value, other) == Lookup(rows, other))
  {
    var secret := KeptSecret(c, conf, rows, h, key);
    if secret.Done? {
      SealOpens(c, conf, secret.value, nonce);
      var stored := Seal(c, conf, secret.value, nonce);
      if stored.Done? {
        LookupUpserted(rows, SecretRow(h, stored.value, url), h);
        LookupUpserted(rows, SecretRow(h, stored.value, url), other);
      }
    }
  }

  lemma StepKeepsSecret(c: Cipher, conf: Config, tables: Tables, cmd: Command, nonce: nat, k: nat, h: Holder)
    requires Sound(c) && |tables| == 3 && k < 3
    requires !Rekeys(cmd, k, h) && SecretOf(c, conf, tables[k], h).Done?
    ensures SecretOf(c, conf, After(c, conf, tables, cmd, nonce)[k], h) == SecretOf(c, conf, tables[k], h)
  {
    hide Sound, Unseal, Seal, SealTables, Selected, UpsertKey;
    match cmd
    case SealEverything(reseal) =>
      if conf.Keys? {
        SealTablesMeans(c, conf.ring, reseal, tables, nonce);
        var s := SealTables(c, conf, reseal, tables, nonce);
        if s.Done? {
          assert AllResealed(c, conf.ring, reseal, tables[k], s.value.data[k]);
          LookupSwept(c, conf.ring, reseal, tables[k], s.value.data[k], h);
        }
      }
    case Upsert(user, provider, key, url) =>
      if k == PROVIDER_KEYS {
        UpsertKeepsSecret(c, conf, tables[k], ProviderKey(user, provider), key, url, nonce, h);
      }
  }

  /** Through every run of sweeps and upserts, failed ones included, a readable secret that no command replaces stays
      readable and the same. */
  lemma {:induction false} SecretsSurviveEveryRun(c: Cipher, conf: Config, tables: Tables, run: seq<(Command, nat)>,
                                                  k: nat, h: Holder)
    requires Sound(c) && |tables| == 3 && k < 3
    requires forall x :: x in run ==> !Rekeys(x.0, k, h)
    requires SecretOf(c, conf, tables[k], h).Done?
    ensures |AfterAll(c, conf, tables, run)| == 3
    ensures SecretOf(c, conf, AfterAll(c, conf, tables, run)[k], h) == SecretOf(c, conf, tables[k], h)
    decreases |run|
  {
    if run != [] {
      hide Sound, SecretOf, Rekeys, After;
      assert run[0] in run;
      StepKeepsSecret(c, conf, tables, run[0].0, run[0].1, k, h);
      SecretsSurviveEveryRun(c, conf, After(c, conf, tables, run[0].0, run[0].1), run[1..], k, h);
    }
  }
}
