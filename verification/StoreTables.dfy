/**
 The tables of a cached kind and how they follow from the objects stored over time
 (pkg/sqlcache/store/store.go, pkg/sqlcache/informer/indexer.go and listoption_indexer.go).
 */
module StoreTables {
  import opened Prelude

  datatype Obj = Obj(id: string, labels: map<string, string>, content: string)

  datatype Error = KeyError | FieldError | IndexError | DuplicateRow | Missing | UnknownIndex | Fault

  datatype IndexRow = IndexRow(name: string, value: string, key: string)

  type FieldRow = map<string, string>

  /** A base table and the tables that refer to it. */
  datatype Tables = Tables(
    objects: map<string, Obj>,
    indices: set<IndexRow>,
    fields: map<string, FieldRow>,
    labels: map<string, map<string, string>>)

  const EMPTY := Tables(map[], {}, map[], map[])

  const IMMUTABLE := {"metadata.creationTimestamp", "metadata.namespace", "metadata.name", "id", "metadata.state.name"}

  /** The key, index and field functions of a kind, and its indexed columns. */
  datatype Config = Config(
    keyOf: Obj -> Result<string, Error>,
    indexers: map<string, Obj -> Result<seq<string>, Error>>,
    columns: seq<string>,
    fieldOf: (Obj, string) -> Result<string, Error>)

  function Values(cfg: Config, name: string, obj: Obj): seq<string> {
    if name !in cfg.indexers then []
    else match cfg.indexers[name](obj) case Ok(vs) => vs case Err(_) => []
  }

  function FieldValue(cfg: Config, obj: Obj, c: string): string {
    match cfg.fieldOf(obj, c) case Ok(v) => v case Err(_) => ""
  }

  function LabelsAt(t: Tables, key: string): map<string, string> { if key in t.labels then t.labels[key] else map[] }

  // ----- Effects of statements -----

  function OtherRows(t: Tables, key: string): set<IndexRow> { set r | r in t.indices && r.key != key }

  /** Foreign keys cascade. */
  function Without(t: Tables, key: string): Tables {
    Tables(t.objects - {key}, OtherRows(t, key), t.fields - {key}, t.labels - {key})
  }

  ghost function IndexRows(cfg: Config, key: string, obj: Obj): set<IndexRow> {
    set n, v | n in cfg.indexers && v in Values(cfg, n, obj) :: IndexRow(n, v, key)
  }

  function NewFieldRow(cfg: Config, t: Tables, key: string, obj: Obj): FieldRow {
    map c | c in cfg.columns ::
      if key in t.fields && c in t.fields[key] && c in IMMUTABLE then t.fields[key][c] else FieldValue(cfg, obj, c)
  }

  function WithLabels(t: Tables, key: string, obj: Obj): map<string, map<string, string>> {
    if obj.labels == map[] then t.labels else t.labels[key := LabelsAt(t, key) + obj.labels]
  }

  /** Storing an object and running the index, fields and labels hooks. */
  ghost function Stored(cfg: Config, t: Tables, key: string, obj: Obj): Tables {
    Tables(
      t.objects[key := obj],
      OtherRows(t, key) + IndexRows(cfg, key, obj),
      t.fields[key := NewFieldRow(cfg, t, key, obj)],
      WithLabels(t, key, obj))
  }

  // ----- What was stored over time -----

  /** By key, the objects stored since the key was last absent, in order. */
  type History = map<string, seq<Obj>>

  function VersionsAt(h: History, key: string): seq<Obj> { if key in h then h[key] else [] }

  /** Each label with the value it had last. */
  function LabelsEver(versions: seq<Obj>): map<string, string> {
    if versions == [] then map[] else LabelsEver(versions[..|versions| - 1]) + versions[|versions| - 1].labels
  }

  /** Immutable columns keep the first object's value; the others have the last one's. */
  function FieldsOf(cfg: Config, versions: seq<Obj>): FieldRow
    requires versions != []
  {
    map c | c in cfg.columns ::
      FieldValue(cfg, if c in IMMUTABLE then versions[0] else versions[|versions| - 1], c)
  }

  /** Everything the tables hold about a key is recomputed from what was stored under it. */
  ghost predicate KeyAgrees(cfg: Config, t: Tables, h: History, k: string) {
    && (k in h ==> h[k] != [])
    && (k in t.objects <==> k in h)
    && (k in h ==> t.objects[k] == h[k][|h[k]| - 1])
    && (k in t.fields <==> k in h)
    && (k in h ==> t.fields[k] == FieldsOf(cfg, h[k]))
    && LabelsAt(t, k) == LabelsEver(VersionsAt(h, k))
    && (forall n, v :: IndexRow(n, v, k) in t.indices <==>
          k in h && n in cfg.indexers && v in Values(cfg, n, h[k][|h[k]| - 1]))
  }

  ghost predicate Agrees(cfg: Config, t: Tables, h: History) { forall k :: KeyAgrees(cfg, t, h, k) }

  lemma EmptyAgrees(cfg: Config)
    ensures Agrees(cfg, EMPTY, map[])
  {
    assert forall k :: KeyAgrees(cfg, EMPTY, map[], k);
  }

  /** The tables agree on a key if nothing about it has changed. */
  lemma KeyFrame(cfg: Config, t: Tables, t': Tables, h: History, h': History, k: string)
    requires KeyAgrees(cfg, t, h, k)
    requires (k in t.objects <==> k in t'.objects) && (k in t.objects ==> t.objects[k] == t'.objects[k])
    requires (k in t.fields <==> k in t'.fields) && (k in t.fields ==> t.fields[k] == t'.fields[k])
    requires LabelsAt(t, k) == LabelsAt(t', k)
    requires (k in h <==> k in h') && (k in h ==> h[k] == h'[k])
    requires forall n, v :: IndexRow(n, v, k) in t.indices <==> IndexRow(n, v, k) in t'.indices
    ensures KeyAgrees(cfg, t', h', k)
  {
    hide FieldsOf, Values;
  }

  lemma LastVersion(versions: seq<Obj>, obj: Obj)
    ensures LabelsEver(versions + [obj]) == LabelsEver(versions) + obj.labels
    ensures (versions + [obj])[|versions + [obj]| - 1] == obj
    ensures versions != [] ==> (versions + [obj])[0] == versions[0]
  {
    assert (versions + [obj])[..|versions|] == versions;
  }

  lemma FieldsNext(cfg: Config, t: Tables, key: string, versions: seq<Obj>, obj: Obj)
    requires key in t.fields <==> versions != []
    requires versions != [] ==> t.fields[key] == FieldsOf(cfg, versions)
    ensures NewFieldRow(cfg, t, key, obj) == FieldsOf(cfg, versions + [obj])
  {
    hide FieldValue;
  }

  lemma StoredRows(cfg: Config, t: Tables, key: string, obj: Obj)
    ensures forall n, v :: IndexRow(n, v, key) in Stored(cfg, t, key, obj).indices <==>
                           n in cfg.indexers && v in Values(cfg, n, obj)
    ensures forall n, v, k :: k != key ==>
              (IndexRow(n, v, k) in Stored(cfg, t, key, obj).indices <==> IndexRow(n, v, k) in t.indices)
  {
    hide Values, NewFieldRow;
    forall n, v | n in cfg.indexers && v in Values(cfg, n, obj)
      ensures IndexRow(n, v, key) in Stored(cfg, t, key, obj).indices
    {
      assert IndexRow(n, v, key) in IndexRows(cfg, key, obj);
    }
  }

  lemma StoredKey(cfg: Config, t: Tables, h: History, key: string, obj: Obj)
    requires KeyAgrees(cfg, t, h, key)
    ensures KeyAgrees(cfg, Stored(cfg, t, key, obj), h[key := VersionsAt(h, key) + [obj]], key)
  {
    hide Values, FieldsOf, NewFieldRow, IndexRows, LabelsEver;
    var t', versions := Stored(cfg, t, key, obj), VersionsAt(h, key);
    StoredRows(cfg, t, key, obj);
    LastVersion(versions, obj);
    FieldsNext(cfg, t, key, versions, obj);
    assert LabelsAt(t, key) + obj.labels == LabelsAt(t', key);
  }

  lemma StoredOther(cfg: Config, t: Tables, h: History, key: string, obj: Obj, k: string)
    requires KeyAgrees(cfg, t, h, k) && k != key
    ensures KeyAgrees(cfg, Stored(cfg, t, key, obj), h[key := VersionsAt(h, key) + [obj]], k)
  {
    hide KeyAgrees, Values, FieldsOf, NewFieldRow, IndexRows, LabelsEver;
    StoredRows(cfg, t, key, obj);
    KeyFrame(cfg, t, Stored(cfg, t, key, obj), h, h[key := VersionsAt(h, key) + [obj]], k);
  }

  /** Storing an object appends a version. */
  lemma StoredAgrees(cfg: Config, t: Tables, h: History, key: string, obj: Obj)
    requires Agrees(cfg, t, h)
    ensures Agrees(cfg, Stored(cfg, t, key, obj), h[key := VersionsAt(h, key) + [obj]])
  {
    hide KeyAgrees, Stored;
    var t', h' := Stored(cfg, t, key, obj), h[key := VersionsAt(h, key) + [obj]];
    forall k ensures KeyAgrees(cfg, t', h', k) {
      assert KeyAgrees(cfg, t, h, k);
      if k == key {
        StoredKey(cfg, t, h, key, obj);
      } else {
        StoredOther(cfg, t, h, key, obj, k);
      }
    }
  }

  /** Deleting a key forgets its versions. */
  lemma WithoutAgrees(cfg: Config, t: Tables, h: History, key: string)
    requires Agrees(cfg, t, h)
    ensures Agrees(cfg, Without(t, key), h - {key})
  {
    hide Values, FieldsOf;
    var t', h' := Without(t, key), h - {key};
    forall k ensures KeyAgrees(cfg, t', h', k) {
      assert KeyAgrees(cfg, t, h, k);
      if k != key {
        KeyFrame(cfg, t, t', h, h', k);
      }
    }
  }

  // ----- What follows -----

  /** The index table holds exactly the rows of the stored objects. */
  lemma IndexExact(cfg: Config, t: Tables, h: History)
    requires Agrees(cfg, t, h)
    ensures t.indices ==
            set k, n, v | k in t.objects && n in cfg.indexers && v in Values(cfg, n, t.objects[k]) :: IndexRow(n, v, k)
  {
    hide Values, FieldsOf, LabelsEver;
    forall r | r in t.indices
      ensures r.key in t.objects && r.name in cfg.indexers && r.value in Values(cfg, r.name, t.objects[r.key])
    {
      assert KeyAgrees(cfg, t, h, r.key);
      assert r == IndexRow(r.name, r.value, r.key);
    }
    forall k, n, v | k in t.objects && n in cfg.indexers && v in Values(cfg, n, t.objects[k])
      ensures IndexRow(n, v, k) in t.indices
    {
      assert KeyAgrees(cfg, t, h, k);
    }
  }

  /** Every object has a fields row, whose mutable columns are the object's fields. */
  lemma MutableColumns(cfg: Config, t: Tables, h: History, k: string, c: string)
    requires Agrees(cfg, t, h) && k in t.objects && c in cfg.columns
    requires c !in {"id", "metadata.name", "metadata.namespace", "metadata.creationTimestamp", "metadata.state.name"}
    ensures k in t.fields && c in t.fields[k] && t.fields[k][c] == FieldValue(cfg, t.objects[k], c)
  {
    assert KeyAgrees(cfg, t, h, k);
  }

  /** An immutable column is the stored object's field exactly when that field never changed. */
  lemma ImmutableColumns(cfg: Config, t: Tables, h: History, k: string, c: string)
    requires Agrees(cfg, t, h) && k in t.objects && c in cfg.columns
    requires c in {"id", "metadata.name", "metadata.namespace", "metadata.creationTimestamp", "metadata.state.name"}
    ensures k in h && h[k] != [] && k in t.fields && c in t.fields[k]
    ensures t.fields[k][c] == FieldValue(cfg, t.objects[k], c) <==>
            FieldValue(cfg, h[k][0], c) == FieldValue(cfg, t.objects[k], c)
  {
    assert KeyAgrees(cfg, t, h, k);
  }

  /** No version had a label that the last one lacks. */
  ghost predicate NothingDropped(versions: seq<Obj>)
    requires versions != []
  {
    forall i, l :: 0 <= i < |versions| && l in versions[i].labels ==> l in versions[|versions| - 1].labels
  }

  lemma {:induction false} LabelsEverKeys(versions: seq<Obj>, l: string)
    ensures l in LabelsEver(versions) <==> exists i :: 0 <= i < |versions| && l in versions[i].labels
  {
    if versions != [] {
      LabelsEverKeys(versions[..|versions| - 1], l);
    }
  }

  lemma LabelsEverLast(versions: seq<Obj>, l: string)
    requires versions != []
    ensures var last := versions[|versions| - 1].labels;
            l in last ==> l in LabelsEver(versions) && LabelsEver(versions)[l] == last[l]
  {
  }

  lemma LabelsEverExact(versions: seq<Obj>)
    requires versions != []
    ensures LabelsEver(versions) == versions[|versions| - 1].labels <==> NothingDropped(versions)
  {
    hide LabelsEver;
    var last := versions[|versions| - 1].labels;
    if LabelsEver(versions) == last {
      forall i, l | 0 <= i < |versions| && l in versions[i].labels ensures l in last {
        LabelsEverKeys(versions, l);
      }
    }
    if NothingDropped(versions) {
      forall l ensures (l in LabelsEver(versions) <==> l in last) && (l in last ==> LabelsEver(versions)[l] == last[l]) {
        LabelsEverKeys(versions, l);
        LabelsEverLast(versions, l);
      }
      assert LabelsEver(versions) == last;
    }
  }

  /** The label table has every current label with its current value; and it has exactly those
      if and only if no version dropped a label. */
  lemma LabelsExactIff(cfg: Config, t: Tables, h: History, k: string)
    requires Agrees(cfg, t, h) && k in t.objects
    ensures k in h && h[k] != []
    ensures forall l :: l in t.objects[k].labels ==> l in LabelsAt(t, k) && LabelsAt(t, k)[l] == t.objects[k].labels[l]
    ensures LabelsAt(t, k) == t.objects[k].labels <==> NothingDropped(h[k])
  {
    hide FieldsOf, Values, LabelsEver, NothingDropped;
    assert KeyAgrees(cfg, t, h, k);
    LabelsEverExact(h[k]);
    forall l | l in t.objects[k].labels ensures l in LabelsAt(t, k) && LabelsAt(t, k)[l] == t.objects[k].labels[l] {
      LabelsEverLast(h[k], l);
    }
  }

  /** An update that drops a label leaves its row behind. */
  lemma LabelDropped(cfg: Config)
    ensures var o, o' := Obj("o", map["l" := "v"], ""), Obj("o", map[], "");
            var t := Stored(cfg, Stored(cfg, EMPTY, "k", o), "k", o');
            && Agrees(cfg, t, map["k" := [o, o']])
            && t.objects["k"].labels == map[] && LabelsAt(t, "k") == map["l" := "v"]
  {
    hide IndexRows, NewFieldRow, OtherRows;
    var o, o' := Obj("o", map["l" := "v"], ""), Obj("o", map[], "");
    TwiceStored(cfg, "k", o, o');
    var t := Stored(cfg, EMPTY, "k", o);
    assert LabelsAt(t, "k") == map[] + o.labels == o.labels;
  }

  lemma TwiceStored(cfg: Config, k: string, o: Obj, o': Obj)
    ensures Agrees(cfg, Stored(cfg, Stored(cfg, EMPTY, k, o), k, o'), map[k := [o, o']])
  {
    hide Agrees, Stored;
    EmptyAgrees(cfg);
    StoredAgrees(cfg, EMPTY, map[], k, o);
    var h: History := map[];
    assert VersionsAt(h, k) + [o] == [o];
    assert h[k := [o]] == map[k := [o]];
    StoredAgrees(cfg, Stored(cfg, EMPTY, k, o), map[k := [o]], k, o');
    var h': History := map[k := [o]];
    assert VersionsAt(h', k) + [o'] == [o, o'];
    assert h'[k := [o, o']] == map[k := [o, o']];
  }

  /** An update that changes the state's name leaves the old name in its column. */
  lemma StateNameStale(cfg: Config, o: Obj, o': Obj)
    requires "metadata.state.name" in cfg.columns
    requires FieldValue(cfg, o, "metadata.state.name") != FieldValue(cfg, o', "metadata.state.name")
    ensures var t := Stored(cfg, Stored(cfg, EMPTY, "k", o), "k", o');
            && Agrees(cfg, t, map["k" := [o, o']]) && t.objects["k"] == o'
            && "metadata.state.name" in t.fields["k"]
            && t.fields["k"]["metadata.state.name"] != FieldValue(cfg, o', "metadata.state.name")
  {
    TwiceStored(cfg, "k", o, o');
    ImmutableColumns(cfg, Stored(cfg, Stored(cfg, EMPTY, "k", o), "k", o'), map["k" := [o, o']], "k", "metadata.state.name");
  }

  /** The keys whose indexed values include the value: a full scan of the objects. */
  ghost function ScanKeys(cfg: Config, objects: map<string, Obj>, name: string, value: string): set<string> {
    set k | k in objects && name in cfg.indexers && value in Values(cfg, name, objects[k])
  }

  /** Looking a value up in the index table finds exactly what a full scan does. */
  lemma LookupIsScan(cfg: Config, t: Tables, h: History, name: string, value: string)
    requires Agrees(cfg, t, h)
    ensures (set r | r in t.indices && r.name == name && r.value == value :: r.key) ==
            ScanKeys(cfg, t.objects, name, value)
  {
    hide FieldsOf, Values, LabelsEver;
    forall k ensures IndexRow(name, value, k) in t.indices <==> k in ScanKeys(cfg, t.objects, name, value) {
      assert KeyAgrees(cfg, t, h, k);
    }
    forall r | r in t.indices && r.name == name && r.value == value ensures r.key in ScanKeys(cfg, t.objects, name, value) {
      assert r == IndexRow(name, value, r.key);
    }
  }
}
