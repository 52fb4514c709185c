/**
 The SQL-backed store with its hooks and transactions (pkg/sqlcache/store/store.go, indexer.go and
 listoption_indexer.go of pkg/sqlcache/informer). Statements, encodings and commits may fail at any
 point; a failure rolls the transaction back. Each such call has a number, and the store is given which
 numbers fail.
 */
module Store {
  import opened Prelude
  import opened StoreTables

  datatype Hook = IndexHook | FieldsHook | LabelsHook | NotifyAdded | NotifyModified | NotifyDeleted

  const AFTER_ADD := [IndexHook, FieldsHook, LabelsHook, NotifyAdded]
  const AFTER_UPDATE := [IndexHook, FieldsHook, LabelsHook, NotifyModified]
  const AFTER_DELETE := [NotifyDeleted]

  /** What a hook makes of the transaction's tables when it succeeds. Events are notified with the
      object committed before, which must exist for changes and deletions. */
  ghost function HookEffect(cfg: Config, committed: map<string, Obj>, hook: Hook, key: string, obj: Obj, tx: Tables)
    : Option<Tables>
  {
    match hook
    case IndexHook => Some(tx.(indices := OtherRows(tx, key) + IndexRows(cfg, key, obj)))
    case FieldsHook => Some(tx.(fields := tx.fields[key := NewFieldRow(cfg, tx, key, obj)]))
    case LabelsHook => Some(tx.(labels := WithLabels(tx, key, obj)))
    case NotifyAdded => Some(tx)
    case NotifyModified | NotifyDeleted => if key in committed then Some(tx) else None
  }

  ghost function HooksEffect(cfg: Config, committed: map<string, Obj>, hooks: seq<Hook>, key: string, obj: Obj, tx: Tables)
    : Option<Tables>
  {
    if hooks == [] then Some(tx)
    else
      var before := HooksEffect(cfg, committed, hooks[..|hooks| - 1], key, obj, tx);
      if before.None? then None else HookEffect(cfg, committed, hooks[|hooks| - 1], key, obj, before.value)
  }

  /** The object's index values can be computed and make different rows. */
  ghost predicate Indexable(cfg: Config, obj: Obj) {
    forall n :: n in cfg.indexers ==> cfg.indexers[n](obj).Ok? && Distinct(cfg.indexers[n](obj).value)
  }

  /** The object's columns can be computed. */
  ghost predicate Columnable(cfg: Config, obj: Obj) { forall c :: c in cfg.columns ==> cfg.fieldOf(obj, c).Ok? }

  /** The hook has no objection of its own. */
  ghost predicate HookAccepts(cfg: Config, committed: map<string, Obj>, hook: Hook, key: string, obj: Obj) {
    match hook
    case IndexHook => Indexable(cfg, obj)
    case FieldsHook => Columnable(cfg, obj)
    case LabelsHook | NotifyAdded => true
    case NotifyModified | NotifyDeleted => key in committed
  }

  ghost predicate HooksAccept(cfg: Config, committed: map<string, Obj>, hooks: seq<Hook>, key: string, obj: Obj) {
    forall i :: 0 <= i < |hooks| ==> HookAccepts(cfg, committed, hooks[i], key, obj)
  }

  /** An object that can be stored. */
  ghost predicate Storable(cfg: Config, obj: Obj) { cfg.keyOf(obj).Ok? && Indexable(cfg, obj) && Columnable(cfg, obj) }

  lemma AcceptedHooks(cfg: Config, committed: map<string, Obj>, key: string, obj: Obj)
    ensures HooksAccept(cfg, committed, AFTER_ADD, key, obj) <==> Indexable(cfg, obj) && Columnable(cfg, obj)
    ensures HooksAccept(cfg, committed, AFTER_UPDATE, key, obj) <==>
            Indexable(cfg, obj) && Columnable(cfg, obj) && key in committed
    ensures HooksAccept(cfg, committed, AFTER_DELETE, key, obj) <==> key in committed
  {
    hide Indexable, Columnable;
    if HooksAccept(cfg, committed, AFTER_ADD, key, obj) {
      assert HookAccepts(cfg, committed, AFTER_ADD[0], key, obj) && HookAccepts(cfg, committed, AFTER_ADD[1], key, obj);
    }
    if HooksAccept(cfg, committed, AFTER_UPDATE, key, obj) {
      assert HookAccepts(cfg, committed, AFTER_UPDATE[0], key, obj) && HookAccepts(cfg, committed, AFTER_UPDATE[1], key, obj)
        && HookAccepts(cfg, committed, AFTER_UPDATE[3], key, obj);
    }
    if HooksAccept(cfg, committed, AFTER_DELETE, key, obj) {
      assert HookAccepts(cfg, committed, AFTER_DELETE[0], key, obj);
    }
  }

  lemma UpsertHooks(cfg: Config, committed: map<string, Obj>, last: Hook, key: string, obj: Obj, t: Tables)
    requires last == NotifyAdded || last == NotifyModified
    ensures var effect := HooksEffect(cfg, committed, [IndexHook, FieldsHook, LabelsHook, last], key, obj,
                                      t.(objects := t.objects[key := obj]));
            && (effect.Some? ==> effect.value == Stored(cfg, t, key, obj))
            && (effect.Some? <==> last == NotifyAdded || key in committed)
  {
    hide IndexRows, NewFieldRow, WithLabels, OtherRows;
    var hooks := [IndexHook, FieldsHook, LabelsHook, last];
    var t0 := t.(objects := t.objects[key := obj]);
    assert hooks[..3][..2] == hooks[..2] && hooks[..2][..1] == hooks[..1] && hooks[..1][..0] == [];
    var t1 := t0.(indices := OtherRows(t0, key) + IndexRows(cfg, key, obj));
    assert HooksEffect(cfg, committed, hooks[..1], key, obj, t0) == Some(t1);
    var t2 := t1.(fields := t1.fields[key := NewFieldRow(cfg, t1, key, obj)]);
    assert HooksEffect(cfg, committed, hooks[..2], key, obj, t0) == Some(t2);
    var t3 := t2.(labels := WithLabels(t2, key, obj));
    assert HooksEffect(cfg, committed, hooks[..3], key, obj, t0) == Some(t3);
    SameParts(cfg, t, t0, t1, t2, key, obj);
  }

  lemma SameParts(cfg: Config, t: Tables, t0: Tables, t1: Tables, t2: Tables, key: string, obj: Obj)
    requires t0.indices == t.indices && t1.fields == t.fields && t2.labels == t.labels
    ensures OtherRows(t0, key) == OtherRows(t, key)
    ensures NewFieldRow(cfg, t1, key, obj) == NewFieldRow(cfg, t, key, obj)
    ensures WithLabels(t2, key, obj) == WithLabels(t, key, obj)
  {
  }

  lemma DeleteHooks(cfg: Config, committed: map<string, Obj>, key: string, obj: Obj, t: Tables)
    ensures HooksEffect(cfg, committed, AFTER_DELETE, key, obj, t) == if key in committed then Some(t) else None
  {
    assert AFTER_DELETE[..0] == [];
    assert HooksEffect(cfg, committed, AFTER_DELETE[..0], key, obj, t) == Some(t);
  }

  ghost predicate Distinct<T(!new)>(xs: seq<T>) { forall i, j :: 0 <= i < j < |xs| ==> xs[i] != xs[j] }

  lemma DistinctMore<T(!new)>(xs: seq<T>, x: T)
    ensures Distinct(xs + [x]) <==> Distinct(xs) && x !in xs
  {
    var more := xs + [x];
    if Distinct(more) {
      forall i, j | 0 <= i < j < |xs| ensures xs[i] != xs[j] {
        assert more[i] == xs[i] && more[j] == xs[j];
      }
      forall i | 0 <= i < |xs| ensures xs[i] != x {
        assert more[i] == xs[i] && more[|xs|] == x;
      }
    }
  }

  lemma DistinctNext<T(!new)>(xs: seq<T>, i: nat)
    requires i < |xs|
    ensures Distinct(xs[..i + 1]) <==> Distinct(xs[..i]) && xs[i] !in xs[..i]
  {
    assert xs[..i + 1] == xs[..i] + [xs[i]];
    DistinctMore(xs[..i], xs[i]);
  }

  /** A multiple insert; the primary key refuses a row that is already there. */
  method InsertAll(rows: seq<IndexRow>) returns (inserted: Option<set<IndexRow>>)
    ensures inserted.Some? <==> Distinct(rows)
    ensures inserted.Some? ==> forall row :: row in inserted.value <==> row in rows
  {
    var done: set<IndexRow> := {};
    for i := 0 to |rows|
      invariant Distinct(rows[..i]) && forall row :: row in done <==> row in rows[..i]
    {
      DistinctNext(rows, i);
      if rows[i] in done {
        assert !Distinct(rows) by {
          var j :| 0 <= j < i && rows[..i][j] == rows[i];
          assert rows[j] == rows[i];
        }
        return None;
      }
      done := done + {rows[i]};
    }
    assert rows[..|rows|] == rows;
    return Some(done);
  }

  class Store {
    const cfg: Config
    /** Which calls fail for reasons outside the model. */
    const fails: nat -> bool
    /** The number of the next call. */
    var calls: nat
    /** The committed tables. */
    var db: Tables
    ghost var history: History

    ghost predicate Valid()
      reads this
    {
      Agrees(cfg, db, history)
    }

    constructor (cfg: Config, fails: nat -> bool)
      ensures this.cfg == cfg && this.fails == fails && Valid() && db == EMPTY && history == map[]
    {
      this.cfg := cfg;
      this.fails := fails;
      calls := 0;
      db := EMPTY;
      history := map[];
      EmptyAgrees(cfg);
    }

    /** Some call of these numbers fails. */
    ghost predicate Faulty(a: nat, b: nat) { exists i :: a <= i < b && fails(i) }

    // ----- Hooks -----

    /** Rebuilds the object's index rows, in one insert that fails on a repeated row. */
    method AfterUpsert(key: string, obj: Obj, tx: Tables, at: nat) returns (r: Result<Tables, Error>, next: nat)
      ensures r.Ok? ==> HookEffect(cfg, db.objects, IndexHook, key, obj, tx) == Some(r.value)
      ensures at <= next && (r.Ok? <==> Indexable(cfg, obj) && !Faulty(at, next))
    {
      next := at + 1;
      if fails(at) {
        return Err(Fault), next;
      }
      var kept := OtherRows(tx, key);
      var names := Listed(cfg.indexers.Keys);
      var rows: seq<IndexRow> := [];
      for i := 0 to |names|
        invariant forall row :: row in rows <==>
                    row.key == key && row.name in names[..i] && row.value in Values(cfg, row.name, obj)
        invariant forall n :: n in names[..i] ==> cfg.indexers[n](obj).Ok?
        invariant Distinct(rows) <==> forall n :: n in names[..i] ==> Distinct(Values(cfg, n, obj))
      {
        assert names[i] in names && names[i] !in names[..i];
        var values := cfg.indexers[names[i]](obj);
        if values.Err? {
          return Err(values.error), next;
        }
        ghost var before := rows;
        for j := 0 to |values.value|
          invariant forall row :: row in rows <==>
                      row in before || (row.key == key && row.name == names[i] && row.value in values.value[..j])
          invariant Distinct(rows) <==> Distinct(before) && Distinct(values.value[..j])
        {
          DistinctNext(values.value, j);
          DistinctMore(rows, IndexRow(names[i], values.value[j], key));
          rows := rows + [IndexRow(names[i], values.value[j], key)];
        }
        assert values.value[..|values.value|] == values.value == Values(cfg, names[i], obj);
        assert names[..i + 1] == names[..i] + [names[i]];
      }
      assert names[..|names|] == names;
      var inserted := InsertAll(rows);
      assert Distinct(rows) <==> Indexable(cfg, obj) by {
        IndexableIff(obj, names);
      }
      if inserted.None? {
        return Err(DuplicateRow), next;
      }
      next := at + 2;
      if fails(at + 1) {
        return Err(Fault), next;
      }
      RowsComplete(key, obj, inserted.value);
      return Ok(tx.(indices := kept + inserted.value)), next;
    }

    lemma IndexableIff(obj: Obj, names: seq<string>)
      requires forall n :: n in names <==> n in cfg.indexers
      requires forall n :: n in names ==> cfg.indexers[n](obj).Ok?
      ensures Indexable(cfg, obj) <==> forall n :: n in names ==> Distinct(Values(cfg, n, obj))
    {
      hide Distinct;
      forall n | n in names ensures Values(cfg, n, obj) == cfg.indexers[n](obj).value {
      }
    }

    lemma RowsComplete(key: string, obj: Obj, rows: set<IndexRow>)
      requires forall row :: row in rows <==>
                 row.key == key && row.name in cfg.indexers && row.value in Values(cfg, row.name, obj)
      ensures rows == IndexRows(cfg, key, obj)
    {
      hide Values;
      forall row | row in rows ensures row in IndexRows(cfg, key, obj) {
        assert row == IndexRow(row.name, row.value, key);
      }
    }

    /** Inserts the object's columns; on conflict only those that can change are set. */
    method AddIndexFields(key: string, obj: Obj, tx: Tables, at: nat) returns (r: Result<Tables, Error>, next: nat)
      ensures r.Ok? ==> HookEffect(cfg, db.objects, FieldsHook, key, obj, tx) == Some(r.value)
      ensures at <= next && (r.Ok? <==> Columnable(cfg, obj) && !Faulty(at, next))
    {
      var args: map<string, string> := map[];
      for i := 0 to |cfg.columns|
        invariant forall c :: c in args <==> c in cfg.columns[..i]
        invariant forall c :: c in args ==> cfg.fieldOf(obj, c).Ok? && args[c] == FieldValue(cfg, obj, c)
      {
        var value := cfg.fieldOf(obj, cfg.columns[i]);
        if value.Err? {
          return Err(value.error), at;
        }
        args := args[cfg.columns[i] := value.value];
        assert cfg.columns[..i + 1] == cfg.columns[..i] + [cfg.columns[i]];
      }
      assert cfg.columns[..|cfg.columns|] == cfg.columns;
      next := at + 1;
      if fails(at) {
        return Err(Fault), next;
      }
      var row := map c | c in args ::
        if key in tx.fields && c in tx.fields[key] && c in IMMUTABLE then tx.fields[key][c] else args[c];
      assert row == NewFieldRow(cfg, tx, key, obj);
      return Ok(tx.(fields := tx.fields[key := row])), next;
    }

    /** Upserts the object's labels, one by one; none is ever removed. */
    method AddLabels(key: string, obj: Obj, tx: Tables, at: nat) returns (r: Result<Tables, Error>, next: nat)
      ensures r.Ok? ==> HookEffect(cfg, db.objects, LabelsHook, key, obj, tx) == Some(r.value)
      ensures at <= next && (r.Ok? <==> !Faulty(at, next))
    {
      hide WithLabels;
      var names := Listed(obj.labels.Keys);
      var t := tx;
      LabelsBounds(tx, key, obj, names);
      for i := 0 to |names|
        invariant t == tx.(labels := WithLabels(tx, key, obj.(labels := Picked(obj.labels, names[..i]))))
        invariant !Faulty(at, at + i)
      {
        next := at + i + 1;
        if fails(at + i) {
          return Err(Fault), next;
        }
        assert names[i] in names;
        LabelsNext(tx, key, obj, names, i);
        t := t.(labels := t.labels[key := LabelsAt(t, key)[names[i] := obj.labels[names[i]]]]);
      }
      return Ok(t), at + |names|;
    }

    method RunHook(hook: Hook, key: string, obj: Obj, tx: Tables, at: nat) returns (r: Result<Tables, Error>, next: nat)
      ensures r.Ok? ==> HookEffect(cfg, db.objects, hook, key, obj, tx) == Some(r.value)
      ensures at <= next && (r.Ok? <==> HookAccepts(cfg, db.objects, hook, key, obj) && !Faulty(at, next))
    {
      match hook
      case IndexHook => r, next := AfterUpsert(key, obj, tx, at);
      case FieldsHook => r, next := AddIndexFields(key, obj, tx, at);
      case LabelsHook => r, next := AddLabels(key, obj, tx, at);
      case NotifyAdded => r, next := NotifyEvent(tx, at);
      case NotifyModified | NotifyDeleted =>
        if key !in db.objects {
          return Err(Missing), at;
        }
        r, next := NotifyEvent(tx, at);
    }

    /** Records the event; the event log is modelled elsewhere. */
    method NotifyEvent(tx: Tables, at: nat) returns (r: Result<Tables, Error>, next: nat)
      ensures r.Ok? ==> r.value == tx
      ensures at <= next && (r.Ok? <==> !Faulty(at, next))
    {
      return if fails(at) then Err(Fault) else Ok(tx), at + 1;
    }

    /** Runs hooks in order until one fails. */
    method RunHooks(hooks: seq<Hook>, key: string, obj: Obj, tx: Tables, at: nat) returns (r: Result<Tables, Error>, next: nat)
      ensures r.Ok? ==> HooksEffect(cfg, db.objects, hooks, key, obj, tx) == Some(r.value)
      ensures at <= next && (r.Ok? <==> HooksAccept(cfg, db.objects, hooks, key, obj) && !Faulty(at, next))
    {
      hide HookEffect, HookAccepts;
      r, next := Ok(tx), at;
      for i := 0 to |hooks|
        invariant r.Ok? && HooksEffect(cfg, db.objects, hooks[..i], key, obj, tx) == Some(r.value)
        invariant at <= next && !Faulty(at, next)
        invariant forall j :: 0 <= j < i ==> HookAccepts(cfg, db.objects, hooks[j], key, obj)
      {
        assert hooks[..i + 1][..i] == hooks[..i];
        ghost var from := next;
        r, next := RunHook(hooks[i], key, obj, r.value, next);
        FaultyJoin(at, from, next);
        if r.Err? {
          return;
        }
      }
      assert hooks[..|hooks|] == hooks;
    }

    lemma FaultyJoin(a: nat, b: nat, c: nat)
      requires a <= b <= c
      ensures Faulty(a, c) <==> Faulty(a, b) || Faulty(b, c)
    {
    }

    // ----- Operations -----

    /** Upserts within a transaction. */
    method Upsert(hooks: seq<Hook>, key: string, obj: Obj, tx: Tables, at: nat) returns (r: Result<Tables, Error>, next: nat)
      requires hooks == AFTER_ADD || hooks == AFTER_UPDATE
      ensures r.Ok? ==> r.value == Stored(cfg, tx, key, obj)
      ensures at <= next
      ensures r.Ok? <==>
              && Indexable(cfg, obj) && Columnable(cfg, obj) && (hooks == AFTER_UPDATE ==> key in db.objects)
              && !Faulty(at, next)
    {
      hide HooksEffect, Stored, HooksAccept, Indexable, Columnable;
      AcceptedHooks(cfg, db.objects, key, obj);
      assert AFTER_UPDATE[3] != AFTER_ADD[3];
      if fails(at) {
        return Err(Fault), at + 1;
      }
      UpsertHooks(cfg, db.objects, hooks[3], key, obj, tx);
      r, next := RunHooks(hooks, key, obj, tx.(objects := tx.objects[key := obj]), at + 1);
      FaultyJoin(at, at + 1, next);
    }

    /** Commits, unless that fails. */
    method Commit(tx: Tables, ghost h: History) returns (r: Result<(), Error>)
      requires Valid() && Agrees(cfg, tx, h)
      modifies this
      ensures Valid() && calls == old(calls) + 1 && (r.Ok? <==> !fails(old(calls)))
      ensures if r.Ok? then db == tx && history == h else db == old(db) && history == old(history)
    {
      calls := calls + 1;
      if fails(calls - 1) {
        return Err(Fault);
      }
      db, history := tx, h;
      return Ok(());
    }

    method Save(hooks: seq<Hook>, obj: Obj) returns (r: Result<(), Error>)
      requires Valid() && (hooks == AFTER_ADD || hooks == AFTER_UPDATE)
      modifies this
      ensures Valid() && old(calls) <= calls
      ensures r.Ok? <==>
              && Storable(cfg, obj) && (hooks == AFTER_UPDATE ==> cfg.keyOf(obj).value in old(db).objects)
              && !Faulty(old(calls), calls)
      ensures if r.Ok?
              then var k := cfg.keyOf(obj).value;
                   && db == Stored(cfg, old(db), k, obj)
                   && history == old(history)[k := VersionsAt(old(history), k) + [obj]]
              else db == old(db) && history == old(history)
    {
      hide Agrees, Stored, Indexable, Columnable;
      var key := cfg.keyOf(obj);
      if key.Err? {
        return Err(key.error);
      }
      calls := calls + 1;
      if fails(calls - 1) {
        return Err(Fault);
      }
      var tx, next := Upsert(hooks, key.value, obj, db, calls);
      FaultyJoin(old(calls), old(calls) + 1, next);
      calls := next;
      if tx.Err? {
        return Err(tx.error);
      }
      StoredAgrees(cfg, db, history, key.value, obj);
      r := Commit(tx.value, history[key.value := VersionsAt(history, key.value) + [obj]]);
      FaultyJoin(old(calls), next, calls);
    }

    /** Stores an object, new or not; it fails only if the object cannot be stored or something outside fails. */
    method Add(obj: Obj) returns (r: Result<(), Error>)
      requires Valid()
      modifies this
      ensures Valid() && old(calls) <= calls
      ensures r.Ok? <==> Storable(cfg, obj) && !Faulty(old(calls), calls)
      ensures if r.Ok?
              then var k := cfg.keyOf(obj).value;
                   && db == Stored(cfg, old(db), k, obj)
                   && history == old(history)[k := VersionsAt(old(history), k) + [obj]]
              else db == old(db) && history == old(history)
    {
      assert AFTER_UPDATE[3] != AFTER_ADD[3];
      r := Save(AFTER_ADD, obj);
    }

    /** Replaces a stored object; it fails as well when there is none. */
    method Update(obj: Obj) returns (r: Result<(), Error>)
      requires Valid()
      modifies this
      ensures Valid() && old(calls) <= calls
      ensures r.Ok? <==>
              Storable(cfg, obj) && cfg.keyOf(obj).value in old(db).objects && !Faulty(old(calls), calls)
      ensures if r.Ok?
              then var k := cfg.keyOf(obj).value;
                   && db == Stored(cfg, old(db), k, obj)
                   && history == old(history)[k := VersionsAt(old(history), k) + [obj]]
              else db == old(db) && history == old(history)
    {
      r := Save(AFTER_UPDATE, obj);
    }

    /** Deletes a stored object; it fails when there is none, or something outside fails. */
    method Delete(obj: Obj) returns (r: Result<(), Error>)
      requires Valid()
      modifies this
      ensures Valid() && old(calls) <= calls
      ensures r.Ok? <==>
              cfg.keyOf(obj).Ok? && cfg.keyOf(obj).value in old(db).objects && !Faulty(old(calls), calls)
      ensures if r.Ok?
              then var k := cfg.keyOf(obj).value;
                   db == Without(old(db), k) && history == old(history) - {k}
              else db == old(db) && history == old(history)
    {
      hide Agrees, Without, HooksEffect, HooksAccept;
      var key := cfg.keyOf(obj);
      if key.Err? {
        return Err(key.error);
      }
      calls := calls + 1;
      if fails(calls - 1) {
        return Err(Fault);
      }
      DeleteHooks(cfg, db.objects, key.value, obj, Without(db, key.value));
      AcceptedHooks(cfg, db.objects, key.value, obj);
      var tx, next := RunHooks(AFTER_DELETE, key.value, obj, Without(db, key.value), calls);
      FaultyJoin(old(calls), old(calls) + 1, next);
      calls := next;
      if tx.Err? {
        return Err(tx.error);
      }
      WithoutAgrees(cfg, db, history, key.value);
      r := Commit(tx.value, history - {key.value});
      FaultyJoin(old(calls), next, calls);
    }

    /** The given objects by key; of several with the same key the last. */
    ghost function ByKey(objects: seq<Obj>): map<string, Obj> {
      if objects == [] then map[]
      else
        var o := objects[|objects| - 1];
        var before := ByKey(objects[..|objects| - 1]);
        if cfg.keyOf(o).Ok? then before[cfg.keyOf(o).value := o] else before
    }

    /** The last object of each key that occurs. */
    lemma {:induction false} ByKeyIsLast(objects: seq<Obj>, k: string)
      requires forall o :: o in objects ==> cfg.keyOf(o).Ok?
      ensures k in ByKey(objects) <==> exists i :: 0 <= i < |objects| && cfg.keyOf(objects[i]).value == k
      ensures k in ByKey(objects) ==>
                exists i :: && 0 <= i < |objects| && objects[i] == ByKey(objects)[k] && cfg.keyOf(objects[i]).value == k
                            && forall j :: i < j < |objects| ==> cfg.keyOf(objects[j]).value != k
    {
      if objects != [] {
        var n := |objects| - 1;
        ByKeyIsLast(objects[..n], k);
        if cfg.keyOf(objects[n]).value != k && k in ByKey(objects) {
          var i :| && 0 <= i < n && objects[..n][i] == ByKey(objects[..n])[k] && cfg.keyOf(objects[..n][i]).value == k
                   && forall j :: i < j < n ==> cfg.keyOf(objects[..n][j]).value != k;
          assert forall j :: i < j < n ==> objects[..n][j] == objects[j];
          assert objects[i] == ByKey(objects)[k];
        }
      }
    }

    /** Deletes everything and stores the given objects, in one transaction. */
    method Replace(objects: seq<Obj>) returns (r: Result<(), Error>)
      requires Valid()
      modifies this
      ensures Valid() && old(calls) <= calls
      ensures r.Ok? <==>
              && (forall o :: o in objects ==> cfg.keyOf(o).Ok?)
              && (forall k :: k in ByKey(objects) ==> Indexable(cfg, ByKey(objects)[k]) && Columnable(cfg, ByKey(objects)[k]))
              && !Faulty(old(calls), calls)
      ensures if r.Ok?
              then db.objects == ByKey(objects) && history == map k | k in ByKey(objects) :: [ByKey(objects)[k]]
              else db == old(db) && history == old(history)
    {
      hide Agrees, Stored, Indexable, Columnable;
      var byKey: map<string, Obj> := map[];
      for i := 0 to |objects|
        invariant byKey == ByKey(objects[..i]) && Valid() && db == old(db) && history == old(history) && calls == old(calls)
        invariant forall o :: o in objects[..i] ==> cfg.keyOf(o).Ok?
      {
        assert objects[..i + 1][..i] == objects[..i] && objects[i] in objects;
        var key := cfg.keyOf(objects[i]);
        if key.Err? {
          return Err(key.error);
        }
        byKey := byKey[key.value := objects[i]];
      }
      assert objects[..|objects|] == objects;
      r := ReplaceByKey(byKey);
    }

    method ReplaceByKey(objects: map<string, Obj>) returns (r: Result<(), Error>)
      requires Valid()
      modifies this
      ensures Valid() && old(calls) <= calls
      ensures r.Ok? <==>
              && (forall k :: k in objects ==> Indexable(cfg, objects[k]) && Columnable(cfg, objects[k]))
              && !Faulty(old(calls), calls)
      ensures if r.Ok?
              then db.objects == objects && history == map k | k in objects :: [objects[k]]
              else db == old(db) && history == old(history)
    {
      hide Agrees, Indexable, Columnable, Faulty;
      calls := calls + 2;
      FirstFault(old(calls));
      if fails(calls - 2) || fails(calls - 1) {
        return Err(Fault);
      }
      // DELETE cascades to the other tables; then the hooks clear fields and labels.
      var tx := Tables(map[], {}, map[], map[]);
      tx := tx.(fields := map[]);
      tx := tx.(labels := map[]);
      var stored, next := UpsertAll(objects, tx, calls);
      FaultyJoin(old(calls), calls, next);
      calls := next;
      if stored.Err? {
        return Err(stored.error);
      }
      r := Commit(stored.value, map k | k in objects :: [objects[k]]);
      FaultyJoin(old(calls), next, calls);
      OneFault(next);
    }

    /** Upserts objects into empty tables, in any order. */
    method UpsertAll(objects: map<string, Obj>, empty: Tables, at: nat) returns (r: Result<Tables, Error>, next: nat)
      requires empty == EMPTY
      ensures r.Ok? ==> r.value.objects == objects && Agrees(cfg, r.value, map k | k in objects :: [objects[k]])
      ensures at <= next
      ensures r.Ok? <==>
              && (forall k :: k in objects ==> Indexable(cfg, objects[k]) && Columnable(cfg, objects[k]))
              && !Faulty(at, next)
    {
      hide Agrees, Stored, Indexable, Columnable;
      var tx := empty;
      next := at;
      var keys := Listed(objects.Keys);
      EmptyAgrees(cfg);
      ghost var h: History := map[];
      for i := 0 to |keys|
        invariant at <= next && !Faulty(at, next)
        invariant forall k :: k in keys[..i] ==> k in objects && Indexable(cfg, objects[k]) && Columnable(cfg, objects[k])
        invariant Agrees(cfg, tx, h)
        invariant FirstOnes(objects, keys[..i], tx.objects, h)
      {
        var k := keys[i];
        assert k in keys && k !in keys[..i];
        assert AFTER_UPDATE[3] != AFTER_ADD[3];
        ghost var from := next;
        r, next := Upsert(AFTER_ADD, k, objects[k], tx, next);
        FaultyJoin(at, from, next);
        if r.Err? {
          return;
        }
        StoredAgrees(cfg, tx, h, k, objects[k]);
        StoredObjects(cfg, tx, k, objects[k]);
        NextOne(objects, keys, i, tx.objects, h);
        tx, h := r.value, h[k := VersionsAt(h, k) + [objects[k]]];
      }
      assert keys[..|keys|] == keys;
      assert tx.objects == objects && h == map k | k in objects :: [objects[k]];
      return Ok(tx), next;
    }

    /** The listed objects are stored, each for the first time. */
    ghost predicate FirstOnes(objects: map<string, Obj>, keys: seq<string>, stored: map<string, Obj>, h: History) {
      && (forall k :: k in stored <==> k in keys)
      && (forall k :: k in stored ==> k in objects && stored[k] == objects[k])
      && h.Keys == stored.Keys && forall k :: k in h ==> k in objects && h[k] == [objects[k]]
    }

    lemma NextOne(objects: map<string, Obj>, keys: seq<string>, i: nat, stored: map<string, Obj>, h: History)
      requires i < |keys| && keys[i] !in keys[..i] && keys[i] in objects && FirstOnes(objects, keys[..i], stored, h)
      ensures var k := keys[i];
              FirstOnes(objects, keys[..i + 1], stored[k := objects[k]], h[k := VersionsAt(h, k) + [objects[k]]])
    {
      assert keys[..i + 1] == keys[..i] + [keys[i]];
    }

    lemma FirstFault(a: nat)
      ensures Faulty(a, a + 2) <==> fails(a) || fails(a + 1)
    {
    }

    lemma OneFault(a: nat)
      ensures Faulty(a, a + 1) <==> fails(a)
    {
    }

    // ----- Lookups -----

    /** The objects whose values for the index include the value, as a full scan finds them. */
    method ByIndex(name: string, value: string) returns (keys: seq<string>, result: seq<Obj>)
      requires Valid()
      ensures forall i, j :: 0 <= i < j < |keys| ==> keys[i] != keys[j]
      ensures forall k :: k in keys <==> k in ScanKeys(cfg, db.objects, name, value)
      ensures |result| == |keys| && forall i :: 0 <= i < |keys| ==> keys[i] in db.objects && result[i] == db.objects[keys[i]]
    {
      hide Agrees;
      LookupIsScan(cfg, db, history, name, value);
      keys := Listed(set r | r in db.indices && r.name == name && r.value == value :: r.key);
      result := ReadObjects(keys);
    }

    /** The same keys, for an index that exists. */
    method IndexKeys(name: string, value: string) returns (r: Result<seq<string>, Error>)
      requires Valid()
      ensures r.Ok? <==> name in cfg.indexers
      ensures r.Ok? ==> forall k :: k in r.value <==> k in ScanKeys(cfg, db.objects, name, value)
    {
      if name !in cfg.indexers {
        return Err(UnknownIndex);
      }
      var keys, _ := ByIndex(name, value);
      return Ok(keys);
    }

    /** The objects that share an indexed value with the given object, with their keys. */
    method Index(name: string, obj: Obj) returns (r: Result<(seq<string>, seq<Obj>), Error>)
      requires Valid()
      ensures r.Ok? <==> name in cfg.indexers && cfg.indexers[name](obj).Ok?
      ensures r.Ok? ==>
                var (keys, result) := r.value;
                && Distinct(keys) && |result| == |keys|
                && (forall k :: k in keys <==>
                      k in db.objects && exists v :: v in Values(cfg, name, obj) && v in Values(cfg, name, db.objects[k]))
                && (forall i :: 0 <= i < |keys| ==> keys[i] in db.objects && result[i] == db.objects[keys[i]])
    {
      hide Agrees, Values;
      if name !in cfg.indexers {
        return Err(UnknownIndex);
      }
      var values := cfg.indexers[name](obj);
      if values.Err? {
        return Err(values.error);
      }
      ValuesOk(cfg, name, obj);
      var keys := Listed(set row | row in db.indices && row.name == name && row.value in values.value :: row.key);
      forall k ensures k in keys <==>
                       k in db.objects && exists v :: v in values.value && v in Values(cfg, name, db.objects[k])
      {
        SharesValue(name, values.value, k);
      }
      var result := ReadObjects(keys);
      return Ok((keys, result));
    }

    method ReadObjects(keys: seq<string>) returns (result: seq<Obj>)
      requires forall k :: k in keys ==> k in db.objects
      ensures |result| == |keys| && forall i :: 0 <= i < |keys| ==> keys[i] in db.objects && result[i] == db.objects[keys[i]]
    {
      result := [];
      for i := 0 to |keys|
        invariant |result| == i
        invariant forall j :: 0 <= j < i ==> keys[j] in db.objects && result[j] == db.objects[keys[j]]
      {
        assert keys[i] in keys;
        result := result + [db.objects[keys[i]]];
      }
    }

    lemma SharesValue(name: string, values: seq<string>, k: string)
      requires Valid() && name in cfg.indexers
      ensures (exists row :: row in db.indices && row.name == name && row.value in values && row.key == k) <==>
              k in db.objects && exists v :: v in values && v in Values(cfg, name, db.objects[k])
    {
      hide FieldsOf, Values, LabelsEver;
      assert KeyAgrees(cfg, db, history, k);
      if row :| row in db.indices && row.name == name && row.value in values && row.key == k {
        assert row == IndexRow(name, row.value, k);
      }
      if k in db.objects {
        if v :| v in values && v in Values(cfg, name, db.objects[k]) {
          assert IndexRow(name, v, k) in db.indices;
        }
      }
    }
  }

  /** The listed ones of some labels. */
  function Picked(labels: map<string, string>, names: seq<string>): map<string, string> {
    map l | l in labels && l in names :: labels[l]
  }

  lemma LabelsBounds(t: Tables, key: string, obj: Obj, names: seq<string>)
    requires forall l :: l in names <==> l in obj.labels
    ensures t == t.(labels := WithLabels(t, key, obj.(labels := Picked(obj.labels, names[..0]))))
    ensures obj.(labels := Picked(obj.labels, names[..|names|])) == obj
  {
    assert names[..|names|] == names;
    assert Picked(obj.labels, names[..0]) == map[];
    assert Picked(obj.labels, names) == obj.labels;
  }

  lemma LabelsNext(t: Tables, key: string, obj: Obj, names: seq<string>, i: nat)
    requires i < |names| && names[i] in obj.labels
    ensures var t' := t.(labels := WithLabels(t, key, obj.(labels := Picked(obj.labels, names[..i]))));
            t'.labels[key := LabelsAt(t', key)[names[i] := obj.labels[names[i]]]] ==
            WithLabels(t, key, obj.(labels := Picked(obj.labels, names[..i + 1])))
  {
    var l := names[i];
    var some, more := Picked(obj.labels, names[..i]), Picked(obj.labels, names[..i + 1]);
    assert names[..i + 1] == names[..i] + [l];
    assert l in more;
    assert more == some[l := obj.labels[l]];
    var t' := t.(labels := WithLabels(t, key, obj.(labels := some)));
    assert LabelsAt(t', key) == LabelsAt(t, key) + some;
    assert (LabelsAt(t, key) + some)[l := obj.labels[l]] == LabelsAt(t, key) + more;
  }

  lemma ValuesOk(cfg: Config, name: string, obj: Obj)
    requires name in cfg.indexers && cfg.indexers[name](obj).Ok?
    ensures Values(cfg, name, obj) == cfg.indexers[name](obj).value
  {
  }

  lemma StoredObjects(cfg: Config, t: Tables, key: string, obj: Obj)
    ensures Stored(cfg, t, key, obj).objects == t.objects[key := obj]
  {
  }
}
