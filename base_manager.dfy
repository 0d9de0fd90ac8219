/**
 * The per-type entity store: a dict from id string to live entity, its
 * reconciliation after a pull, its cache file, the lookups `get` and `find`,
 * and the `add`/`delete`/`update` operations that enqueue commands.
 */
module Stores {
  import opened Wrappers
  import opened OrderedDict
  import opened Decimal
  import opened Models
  import opened Commands

  /** What the store operations raise. */
  datatype StoreError =
    | GetNeedsSync(kind: Kind)   // `get` of an unknown id on a model without `api_get`
    | NoMatch                    // `find` with `return_all=False` and nothing matched
    | NotSearchable(field: string) // `find` reached an entity whose `field` is missing or not a string
    | UnsupportedArgument        // `_extract_params` of something that is not a model, an int or a str
    | MissingArgument            // a section or reminder `delete` given neither an id nor an object

  /** An `int | str | None` id argument. */
  datatype IdArg = NoId | IntArg(n: int) | StrArg(s: string)

  /** `str(item_id)`. */
  function ArgText(a: IdArg): string {
    match a
    case NoId => "None"
    case IntArg(n) => IntToString(n)
    case StrArg(s) => s
  }

  /** Python's truth value of the argument: `None`, `0` and `''` are false. */
  predicate ArgTruthy(a: IdArg) {
    match a
    case NoId => false
    case IntArg(n) => n != 0
    case StrArg(s) => s != ""
  }

  /** The argument after an `int` has been turned into its string form. */
  function ArgValue(a: IdArg): Value {
    match a
    case NoId => Null
    case IntArg(n) => Str(IntToString(n))
    case StrArg(s) => Str(s)
  }

  /** The `item` argument of `delete`/`update`: a model object, an int, a str, or anything else. */
  datatype ItemRef = ByEntity(e: Entity) | ByInt(n: int) | ByStr(s: string) | ByOther

  /** The `item`/`is_update_command` keyword arguments `_extract_params` hands on to `add_command`. */
  datatype Linkage = Unlinked | LinkedTo(item: Entity)

  /**
   * `_extract_params` for a manager of kind `kind`: an entity of that kind is
   * addressed by `str(id)`, or by its temp id while its id is falsy, and is
   * linked as an update target; an int gives its decimal string; a str gives
   * itself; anything else raises.
   */
  function ExtractParams(kind: Kind, ref: ItemRef): (r: Result<(Linkage, Value), StoreError>)
    reads if ref.ByEntity? then {ref.e} else {}
    ensures r.Failure? <==> ref.ByOther? || (ref.ByEntity? && ref.e.kind != kind)
    ensures r.Failure? ==> r.error == UnsupportedArgument
    ensures r.Success? && ref.ByEntity? ==> r.value.0 == LinkedTo(ref.e)
    ensures r.Success? && !ref.ByEntity? ==> r.value.0 == Unlinked
    ensures r.Success? && ref.ByEntity? && IdTruthy(ref.e.id) ==> r.value.1 == Str(IdText(ref.e.id.value))
    ensures r.Success? && ref.ByEntity? && !IdTruthy(ref.e.id) ==>
      r.value.1 == (if ref.e.tempId.Some? then Str(ref.e.tempId.value) else Null)
    ensures ref.ByInt? ==> r == Success((Unlinked, Str(IntToString(ref.n))))
    ensures ref.ByStr? ==> r == Success((Unlinked, Str(ref.s)))
  {
    match ref
    case ByEntity(e) => if e.kind == kind then Success((LinkedTo(e), Address(e.Snapshot()))) else Failure(UnsupportedArgument)
    case ByInt(n) => Success((Unlinked, Str(IntToString(n))))
    case ByStr(s) => Success((Unlinked, Str(s)))
    case ByOther => Failure(UnsupportedArgument)
  }

  /** An int id and its decimal string address the same item, and the address reads back as the int. */
  lemma ExtractIntAsStr(kind: Kind, n: int)
    ensures ExtractParams(kind, ByInt(n)) == ExtractParams(kind, ByStr(IntToString(n)))
    ensures ExtractParams(kind, ByInt(n)).value.1.Str?
    ensures ParseInt(ExtractParams(kind, ByInt(n)).value.1.s) == Some(n)
  {
    IntToStringRoundTrip(n);
  }

  /**
   * The id resolution of the section and reminder managers' `delete`: raise
   * when neither a truthy id nor an object is given; an object of the
   * manager's kind wins over the id and is addressed like `_extract_params`
   * does; an int id becomes its string.
   */
  function ResolveDeleteTarget(kind: Kind, id: IdArg, obj: Option<Entity>): (r: Result<Value, StoreError>)
    reads if obj.Some? then {obj.value} else {}
    ensures r.Failure? <==> !ArgTruthy(id) && obj.None?
    ensures r.Failure? ==> r.error == MissingArgument
    ensures r.Success? && obj.Some? && obj.value.kind == kind ==>
      r.value == ExtractParams(kind, ByEntity(obj.value)).value.1
    ensures r.Success? && !(obj.Some? && obj.value.kind == kind) ==> r.value == ArgValue(id)
  {
    if !ArgTruthy(id) && obj.None? then Failure(MissingArgument)
    else if obj.Some? && obj.value.kind == kind then Success(Address(obj.value.Snapshot()))
    else Success(ArgValue(id))
  }

  /** The object wins over the id whenever both are given. */
  lemma DeleteTargetPrefersObject(kind: Kind, id1: IdArg, id2: IdArg, obj: Entity)
    requires obj.kind == kind
    ensures ResolveDeleteTarget(kind, id1, Some(obj)) == ResolveDeleteTarget(kind, id2, Some(obj))
  {
  }

  // ----- Reconciliation after a pull, on entity snapshots -----

  /** `{x['id'] for x in received}`. */
  function ReceivedIds(recs: seq<ServerRecord>): (ids: set<string>)
    ensures forall j :: 0 <= j < |recs| ==> recs[j].id in ids
    ensures forall k :: k in ids ==> exists j :: 0 <= j < |recs| && recs[j].id == k
  {
    set x | x in recs :: x.id
  }

  /** The last record with id `k`: the one a dict built from `recs` keeps. */
  function Latest(recs: seq<ServerRecord>, k: string): (r: Option<ServerRecord>)
    ensures r.None? <==> k !in ReceivedIds(recs)
    ensures r.Some? ==> r.value in recs && r.value.id == k
    decreases |recs|
  {
    if recs == [] then None
    else if recs[|recs| - 1].id == k then Some(recs[|recs| - 1])
    else
      assert forall x :: x in recs[..|recs| - 1] ==> x in recs;
      assert ReceivedIds(recs) == ReceivedIds(recs[..|recs| - 1]) + {recs[|recs| - 1].id} by {
        assert recs == recs[..|recs| - 1] + [recs[|recs| - 1]];
      }
      Latest(recs[..|recs| - 1], k)
  }

  /** `Latest` is the last record carrying `k`: the one at index `i`, after which no record carries `k`. */
  lemma {:induction false} LatestIsLast(recs: seq<ServerRecord>, k: string) returns (i: nat)
    requires k in ReceivedIds(recs)
    ensures i < |recs| && recs[i] == Latest(recs, k).value
    ensures forall j :: i < j < |recs| ==> recs[j].id != k
    decreases |recs|
  {
    var n := |recs| - 1;
    if recs[n].id == k {
      i := n;
    } else {
      assert k in ReceivedIds(recs[..n]) by {
        var j :| 0 <= j < |recs| && recs[j].id == k;
        assert recs[..n][j] == recs[j];
      }
      i := LatestIsLast(recs[..n], k);
      assert recs[..n][i] == recs[i];
      forall j | i < j < |recs|
        ensures recs[j].id != k
      {
        if j < n {
          assert recs[..n][j] == recs[j];
        }
      }
    }
  }

  /** `_items.update({x['id']: model(**x) for x in received})`, on snapshots. */
  function Merge(d: Dict<EntityRecord>, recs: seq<ServerRecord>): (r: Dict<EntityRecord>)
    requires OrderedDict.Valid(d)
    ensures OrderedDict.Valid(r)
    decreases |recs|
  {
    if recs == [] then d
    else
      var x := recs[|recs| - 1];
      Put(Merge(d, recs[..|recs| - 1]), x.id, FromServer(x))
  }

  /** The merge of the first `n` received records. */
  function MergePrefix(d: Dict<EntityRecord>, recs: seq<ServerRecord>, n: nat): (r: Dict<EntityRecord>)
    requires OrderedDict.Valid(d) && n <= |recs|
    ensures OrderedDict.Valid(r)
  {
    if n == 0 then d else Put(MergePrefix(d, recs, n - 1), recs[n - 1].id, FromServer(recs[n - 1]))
  }

  lemma {:induction false} MergePrefixIsMerge(d: Dict<EntityRecord>, recs: seq<ServerRecord>, n: nat)
    requires OrderedDict.Valid(d) && n <= |recs|
    ensures MergePrefix(d, recs, n) == Merge(d, recs[..n])
  {
    if n > 0 {
      var p := recs[..n];
      assert p[..|p| - 1] == recs[..n - 1] && p[|p| - 1] == recs[n - 1];
      MergePrefixIsMerge(d, recs, n - 1);
      assert Merge(d, p) == Put(Merge(d, recs[..n - 1]), recs[n - 1].id, FromServer(recs[n - 1]));
    }
  }

  lemma MergePrefixAll(d: Dict<EntityRecord>, recs: seq<ServerRecord>)
    requires OrderedDict.Valid(d)
    ensures MergePrefix(d, recs, |recs|) == Merge(d, recs)
  {
    MergePrefixIsMerge(d, recs, |recs|);
    assert recs[..|recs|] == recs;
  }

  /** After the merge, a received id holds its last record and any other id what it held before. */
  lemma {:induction false} MergeContents(d: Dict<EntityRecord>, recs: seq<ServerRecord>)
    requires OrderedDict.Valid(d)
    ensures forall k :: k in Merge(d, recs).entries <==> k in d.entries || k in ReceivedIds(recs)
    ensures forall k :: k in ReceivedIds(recs) ==> Merge(d, recs).entries[k] == FromServer(Latest(recs, k).value)
    ensures forall k :: k in d.entries && k !in ReceivedIds(recs) ==> Merge(d, recs).entries[k] == d.entries[k]
    decreases |recs|
  {
    if recs != [] {
      var init := recs[..|recs| - 1];
      assert recs == init + [recs[|recs| - 1]];
      assert ReceivedIds(recs) == ReceivedIds(init) + {recs[|recs| - 1].id};
      MergeContents(d, init);
    }
  }

  /** The keys whose entity is not a tombstone. */
  function Live(d: Dict<EntityRecord>): (s: set<string>)
    ensures forall k :: k in s <==> k in d.entries && !d.entries[k].isDeleted
  {
    set k | k in d.entries && !d.entries[k].isDeleted
  }

  /**
   * `_remove_deleted`: after a full sync keep only the received ids, after an
   * incremental one drop the tombstones; in both cases the order is kept.
   */
  function Reconcile(d: Dict<EntityRecord>, recs: seq<ServerRecord>, fullSync: bool): (r: Dict<EntityRecord>)
    requires OrderedDict.Valid(d)
    ensures OrderedDict.Valid(r)
  {
    Restrict(d, InSet(if fullSync then ReceivedIds(recs) else Live(d)))
  }

  /** Reconciliation only removes: fewer keys, in the same order, with the same values. */
  lemma ReconcileOnlyRemoves(d: Dict<EntityRecord>, recs: seq<ServerRecord>, fullSync: bool)
    requires OrderedDict.Valid(d)
    ensures Reconcile(d, recs, fullSync).entries.Keys <= d.entries.Keys
    ensures forall k :: k in Reconcile(d, recs, fullSync).entries ==> Reconcile(d, recs, fullSync).entries[k] == d.entries[k]
    ensures forall x :: x in Reconcile(d, recs, fullSync).keys ==> x in d.keys
    ensures |Reconcile(d, recs, fullSync).keys| <= |d.keys|
  {
  }

  /** A full-sync reconciliation keeps exactly the stored keys that were received. */
  lemma FullReconcileKeys(d: Dict<EntityRecord>, recs: seq<ServerRecord>)
    requires OrderedDict.Valid(d)
    ensures Reconcile(d, recs, true).entries.Keys == d.entries.Keys * ReceivedIds(recs)
  {
  }

  /** An incremental reconciliation keeps exactly the stored keys whose entity is not deleted. */
  lemma IncrementalReconcileKeys(d: Dict<EntityRecord>, recs: seq<ServerRecord>)
    requires OrderedDict.Valid(d)
    ensures forall k :: k in Reconcile(d, recs, false).entries <==> k in d.entries && !d.entries[k].isDeleted
  {
  }

  /** A store after one pull: merge the received records, then reconcile. */
  function SyncedStore(d: Dict<EntityRecord>, recs: seq<ServerRecord>, fullSync: bool): Dict<EntityRecord>
    requires OrderedDict.Valid(d)
  {
    Reconcile(Merge(d, recs), recs, fullSync)
  }

  /** After a full sync the store holds exactly the received ids, each with its last received record. */
  lemma FullSyncExact(d: Dict<EntityRecord>, recs: seq<ServerRecord>)
    requires OrderedDict.Valid(d)
    ensures SyncedStore(d, recs, true).entries.Keys == ReceivedIds(recs)
    ensures forall k :: k in ReceivedIds(recs) ==> SyncedStore(d, recs, true).entries[k] == FromServer(Latest(recs, k).value)
  {
    MergeContents(d, recs);
  }

  /**
   * After an incremental sync the store is the old one overridden by the
   * received records, minus what is flagged deleted: an id that was simply not
   * received survives unless it was already a tombstone.
   */
  lemma IncrementalSyncContents(d: Dict<EntityRecord>, recs: seq<ServerRecord>)
    requires OrderedDict.Valid(d)
    ensures forall k :: k in ReceivedIds(recs) ==>
      (k in SyncedStore(d, recs, false).entries <==> !Latest(recs, k).value.isDeleted)
    ensures forall k :: k in ReceivedIds(recs) && k in SyncedStore(d, recs, false).entries ==>
      SyncedStore(d, recs, false).entries[k] == FromServer(Latest(recs, k).value)
    ensures forall k :: k !in ReceivedIds(recs) ==>
      (k in SyncedStore(d, recs, false).entries <==> k in d.entries && !d.entries[k].isDeleted)
    ensures forall k :: k !in ReceivedIds(recs) && k in SyncedStore(d, recs, false).entries ==>
      SyncedStore(d, recs, false).entries[k] == d.entries[k]
  {
    MergeContents(d, recs);
  }

  // ----- Snapshots of live stores, and cache files -----

  /** The records a store's entities currently hold. */
  function Snapshots(d: Dict<Entity>): (r: Dict<EntityRecord>)
    reads d.entries.Values
    ensures r.keys == d.keys && r.entries.Keys == d.entries.Keys
    ensures forall k :: k in d.entries ==> r.entries[k] == d.entries[k].Snapshot()
    ensures OrderedDict.Valid(d) ==> OrderedDict.Valid(r)
  {
    Dict(d.keys, map k | k in d.entries :: d.entries[k].Snapshot())
  }

  lemma SnapshotsPut(d: Dict<Entity>, k: string, e: Entity)
    requires OrderedDict.Valid(d)
    ensures Snapshots(Put(d, k, e)) == Put(Snapshots(d), k, e.Snapshot())
  {
  }

  lemma SnapshotsRestrict(d: Dict<Entity>, keep: string -> bool)
    requires OrderedDict.Valid(d)
    ensures Snapshots(Restrict(d, keep)) == Restrict(Snapshots(d), keep)
  {
  }

  /** The keys whose live entity is not a tombstone. */
  function LiveKeys(d: Dict<Entity>): (s: set<string>)
    reads d.entries.Values
    ensures s == Live(Snapshots(d))
  {
    set k | k in d.entries && !d.entries[k].isDeleted
  }

  /** Reconciling the entities' records is keeping the reconciled keys of the live store. */
  lemma ReconcileSnapshots(d: Dict<Entity>, recs: seq<ServerRecord>, fullSync: bool)
    requires OrderedDict.Valid(d)
    ensures Snapshots(Restrict(d, InSet(if fullSync then ReceivedIds(recs) else LiveKeys(d))))
      == Reconcile(Snapshots(d), recs, fullSync)
  {
    SnapshotsRestrict(d, InSet(if fullSync then ReceivedIds(recs) else LiveKeys(d)));
  }

  /** A step that changed none of a store's entities left their records as they were. */
  twostate lemma SnapshotsKept(d: Dict<Entity>)
    requires forall e :: e in d.entries.Values ==> unchanged(e)
    ensures Snapshots(d) == old(Snapshots(d))
  {
  }

  /** A cache file `todoist_<label>.json`: `{"name": label, "data": {key: record}}`. */
  datatype CacheFile = CacheFile(name: string, data: Dict<EntityRecord>)

  /** `value.dict(exclude_none=True)`: fields holding `None` are not written. */
  function Stored(r: EntityRecord): (s: EntityRecord)
    ensures s.id == r.id && s.tempId == r.tempId && s.isDeleted == r.isDeleted
    ensures forall f :: f in s.fields <==> f in r.fields && r.fields[f] != Null
    ensures forall f :: f in s.fields ==> s.fields[f] == r.fields[f]
  {
    r.(fields := map f | f in r.fields && r.fields[f] != Null :: r.fields[f])
  }

  /** The `data` part of a cache file written from a store. */
  function StoredAll(d: Dict<EntityRecord>): (r: Dict<EntityRecord>)
    ensures r.keys == d.keys && r.entries.Keys == d.entries.Keys
    ensures forall k :: k in r.entries ==> r.entries[k] == Stored(d.entries[k])
    ensures OrderedDict.Valid(d) ==> OrderedDict.Valid(r)
  {
    Dict(d.keys, map k | k in d.entries :: Stored(d.entries[k]))
  }

  /** Writing what was read back from a cache writes the same file again. */
  lemma StoredAllIdempotent(d: Dict<EntityRecord>)
    ensures StoredAll(StoredAll(d)) == StoredAll(d)
  {
    assert forall k :: k in d.entries ==> Stored(Stored(d.entries[k])) == Stored(d.entries[k]);
  }

  /** The result of `find`: the first match, or the list of all matches. */
  datatype Found = One(item: Entity) | All(items: seq<Entity>)

  /**
   * `getattr(item, field)` when it is a string, the only value `findall` accepts;
   * `None` where the source raises instead: the attribute is missing
   * (`AttributeError`) or holds `None`, a number or a flag (`TypeError`).
   */
  function FieldText(e: Entity, field: string): Option<string>
    reads e
  {
    if field == "id" then (if e.id.Some? && e.id.value.StrId? then Some(e.id.value.s) else None)
    else if field == "temp_id" then e.tempId
    else if field == "is_deleted" then None
    else if field in e.fields && e.fields[field].Str? then Some(e.fields[field].s)
    else None
  }

  /** `find` can look at `e` without raising. */
  predicate Searchable(e: Entity, field: string)
    reads e
  {
    FieldText(e, field).Some?
  }

  /** `compiled_pattern.findall(getattr(item, field))` is non-empty; `isMatch` stands for the regex. */
  predicate Matches(e: Entity, isMatch: string -> bool, field: string)
    reads e
  {
    Searchable(e, field) && isMatch(FieldText(e, field).value)
  }

  /**
   * Where the walk of `find` without `return_all` stops, looking from index
   * `from`: the first entity that raises or matches, or `|es|` when none does.
   */
  function FirstStop(es: seq<Entity>, isMatch: string -> bool, field: string, from: nat): (n: nat)
    requires from <= |es|
    reads set e | e in es
    ensures from <= n <= |es|
    ensures forall j :: from <= j < n ==> Searchable(es[j], field) && !Matches(es[j], isMatch, field)
    ensures n < |es| ==> !Searchable(es[n], field) || Matches(es[n], isMatch, field)
    decreases |es| - from
  {
    if from == |es| || !Searchable(es[from], field) || Matches(es[from], isMatch, field) then from
    else FirstStop(es, isMatch, field, from + 1)
  }

  /** An index before which nothing stops and at which the walk stops is `FirstStop`. */
  lemma FirstStopAt(es: seq<Entity>, isMatch: string -> bool, field: string, j: nat)
    requires j <= |es|
    requires forall i :: 0 <= i < j ==> Searchable(es[i], field) && !Matches(es[i], isMatch, field)
    requires j < |es| ==> !Searchable(es[j], field) || Matches(es[j], isMatch, field)
    ensures FirstStop(es, isMatch, field, 0) == j
  {
  }

  /** The matching entities of `es`, in order. */
  function Matching(es: seq<Entity>, isMatch: string -> bool, field: string): (r: seq<Entity>)
    reads set e | e in es
    ensures forall x :: x in r ==> x in es && Matches(x, isMatch, field)
    ensures forall x :: x in es && Matches(x, isMatch, field) ==> x in r
    ensures |r| <= |es|
    decreases |es|
  {
    if es == [] then []
    else
      var init := es[..|es| - 1];
      var last := es[|es| - 1];
      assert forall x :: x in init ==> x in es;
      assert es == init + [last];
      if Matches(last, isMatch, field) then Matching(init, isMatch, field) + [last] else Matching(init, isMatch, field)
  }

  lemma {:induction false} MatchingAppend(a: seq<Entity>, b: seq<Entity>, isMatch: string -> bool, field: string)
    ensures Matching(a + b, isMatch, field) == Matching(a, isMatch, field) + Matching(b, isMatch, field)
    decreases |b|
  {
    if b == [] {
      assert a + b == a;
    } else {
      var bInit := b[..|b| - 1];
      assert (a + b)[..|a + b| - 1] == a + bInit;
      MatchingAppend(a, bInit, isMatch, field);
    }
  }

  /** Looking at one more entity appends it to the matches when it matches. */
  lemma MatchingNext(es: seq<Entity>, j: nat, isMatch: string -> bool, field: string)
    requires j < |es|
    ensures Matching(es[..j + 1], isMatch, field)
      == Matching(es[..j], isMatch, field) + (if Matches(es[j], isMatch, field) then [es[j]] else [])
  {
    assert es[..j + 1][..j] == es[..j];
  }

  /** The first entity that matches after no earlier one did is the first of all the matches. */
  lemma MatchingFirst(es: seq<Entity>, j: nat, isMatch: string -> bool, field: string)
    requires j < |es| && Matching(es[..j], isMatch, field) == [] && Matches(es[j], isMatch, field)
    ensures Matching(es, isMatch, field) != [] && Matching(es, isMatch, field)[0] == es[j]
  {
    MatchingNext(es, j, isMatch, field);
    assert es == es[..j + 1] + es[j + 1..];
    MatchingAppend(es[..j + 1], es[j + 1..], isMatch, field);
  }

  /** What the walk of `find` knows after looking at `values[..j]` without raising or returning. */
  predicate FindWalked(values: seq<Entity>, isMatch: string -> bool, field: string, returnAll: bool, j: nat, found: seq<Entity>)
    reads set e | e in values
  {
    && j <= |values|
    && found == Matching(values[..j], isMatch, field)
    && (forall i :: 0 <= i < j ==> Searchable(values[i], field))
    && (!returnAll ==> found == [] && forall i :: 0 <= i < j ==> !Matches(values[i], isMatch, field))
  }

  /** One more entity that neither raises nor ends the walk keeps `FindWalked`. */
  lemma FindWalkedNext(values: seq<Entity>, isMatch: string -> bool, field: string, returnAll: bool, j: nat, found: seq<Entity>)
    requires j < |values| && FindWalked(values, isMatch, field, returnAll, j, found)
    requires Searchable(values[j], field) && (Matches(values[j], isMatch, field) ==> returnAll)
    ensures FindWalked(values, isMatch, field, returnAll, j + 1,
      found + (if Matches(values[j], isMatch, field) then [values[j]] else []))
  {
    MatchingNext(values, j, isMatch, field);
  }

  /** The loop of `find` over the store's values, in order. */
  method FindIn(values: seq<Entity>, isMatch: string -> bool, field: string, returnAll: bool) returns (r: Result<Found, StoreError>)
    ensures returnAll && (forall e :: e in values ==> Searchable(e, field)) ==>
      r == Success(All(Matching(values, isMatch, field)))
    ensures returnAll && (exists e :: e in values && !Searchable(e, field)) ==>
      r == Failure(NotSearchable(field))
    ensures !returnAll ==>
      var n := FirstStop(values, isMatch, field, 0);
      r == if n == |values| then Failure(NoMatch)
           else if Searchable(values[n], field) then Success(One(values[n]))
           else Failure(NotSearchable(field))
    ensures !returnAll && r.Success? ==>
      Matching(values, isMatch, field) != [] && r.value.item == Matching(values, isMatch, field)[0]
    ensures r == Failure(NoMatch) ==> Matching(values, isMatch, field) == []
  {
    var found: seq<Entity> := [];
    var j := 0;
    while j < |values|
      invariant FindWalked(values, isMatch, field, returnAll, j, found)
    {
      var item := values[j];
      if !Searchable(item, field) {
        if !returnAll {
          FirstStopAt(values, isMatch, field, j);
        }
        return Failure(NotSearchable(field));
      }
      var matched := Matches(item, isMatch, field);
      if matched && !returnAll {
        FirstStopAt(values, isMatch, field, j);
        MatchingFirst(values, j, isMatch, field);
        return Success(One(item));
      }
      FindWalkedNext(values, isMatch, field, returnAll, j, found);
      found := found + (if matched then [item] else []);
      j := j + 1;
    }
    assert values[..j] == values;
    if !returnAll {
      FirstStopAt(values, isMatch, field, j);
      return Failure(NoMatch);
    }
    return Success(All(found));
  }

  /** The full-sync loop of `_remove_deleted`: copy the accepted entries into a new dict, in order. */
  method KeepInOrder<V>(d: Dict<V>, keep: string -> bool) returns (result: Dict<V>)
    requires OrderedDict.Valid(d)
    ensures result == Restrict(d, keep)
  {
    result := Empty();
    var j := 0;
    while j < |d.keys|
      invariant 0 <= j <= |d.keys|
      invariant Copied(d, keep, d.keys[..j], result)
    {
      var key := d.keys[j];
      KeepStep(d, keep, j, result);
      if keep(key) {
        result := Put(result, key, d.entries[key]);
      }
      j := j + 1;
    }
    assert d.keys[..j] == d.keys;
    KeepDone(d, keep, result);
  }

  /**
   * The dict `_remove_deleted` builds from `d`: after a full sync the entries
   * whose key was received, copied in order; after an incremental one the
   * entries whose entity is not flagged deleted.
   */
  method KeepReconciled(d: Dict<Entity>, received: seq<ServerRecord>, fullSync: bool) returns (result: Dict<Entity>)
    requires OrderedDict.Valid(d)
    ensures result == Restrict(d, InSet(if fullSync then ReceivedIds(received) else old(LiveKeys(d))))
    ensures Snapshots(result) == Reconcile(old(Snapshots(d)), received, fullSync)
  {
    ReconcileSnapshots(d, received, fullSync);
    if fullSync {
      result := KeepInOrder(d, InSet(ReceivedIds(received)));
    } else {
      result := Restrict(d, InSet(LiveKeys(d)));
    }
  }

  /**
   * `d.update({x['id']: model(**x) for x in received})`: each received record,
   * made into a fresh entity, stored under its id in turn.
   */
  method PutAllFresh(kind: Kind, d: Dict<Entity>, received: seq<ServerRecord>) returns (r: Dict<Entity>)
    requires OrderedDict.Valid(d)
    ensures OrderedDict.Valid(r)
    ensures Snapshots(r) == Merge(old(Snapshots(d)), received)
  {
    ghost var v0 := Snapshots(d);
    r := d;
    var j := 0;
    while j < |received|
      invariant 0 <= j <= |received|
      invariant OrderedDict.Valid(r)
      invariant Snapshots(r) == MergePrefix(v0, received, j)
    {
      r := PutFresh(kind, r, received, j, v0);
      j := j + 1;
    }
    MergePrefixAll(v0, received);
  }

  /** One pass of `PutAllFresh`: the `j`-th record, made into a fresh entity, extends the merge of those before it. */
  method PutFresh(kind: Kind, d: Dict<Entity>, received: seq<ServerRecord>, j: nat, ghost v0: Dict<EntityRecord>)
    returns (r: Dict<Entity>)
    requires OrderedDict.Valid(d) && OrderedDict.Valid(v0) && j < |received|
    requires Snapshots(d) == MergePrefix(v0, received, j)
    ensures OrderedDict.Valid(r)
    ensures Snapshots(r) == MergePrefix(v0, received, j + 1)
  {
    var x := received[j];
    ghost var before := Snapshots(d);
    var e := new Entity(kind, FromServer(x));
    assert Snapshots(d) == before;
    SnapshotsPut(d, x.id, e);
    r := Put(d, x.id, e);
  }

  /** One manager: the store of one resource kind, sharing the process-wide command queue. */
  class BaseManager {
    const kind: Kind
    const queue: CommandManager
    var items: Dict<Entity>
    /** The manager's cache file on disk, if any. */
    var cache: Option<CacheFile>

    ghost predicate Valid()
      reads this
    {
      && OrderedDict.Valid(items)
      && (cache.Some? ==> OrderedDict.Valid(cache.value.data))
    }

    /** The store as records. */
    function View(): Dict<EntityRecord>
      reads this, items.entries.Values
    {
      Snapshots(items)
    }

    /** The store `_read_cache` leaves: the cache file's records when there is one, the current store otherwise. */
    function Loaded(): (d: Dict<EntityRecord>)
      reads this, items.entries.Values
      ensures Valid() ==> OrderedDict.Valid(d)
    {
      if cache.Some? then cache.value.data else View()
    }

    /** A step that touched neither the store nor its entities left everything read from it as it was. */
    twostate lemma Untouched()
      requires unchanged(this)
      requires forall e :: e in items.entries.Values ==> unchanged(e)
      ensures View() == old(View()) && Loaded() == old(Loaded()) && Valid() == old(Valid())
    {
    }

    /** A new manager: an empty store, and whatever cache file is on disk. */
    constructor (kind: Kind, queue: CommandManager, persisted: Option<CacheFile>)
      requires persisted.Some? ==> OrderedDict.Valid(persisted.value.data)
      ensures Valid()
      ensures this.kind == kind && this.queue == queue && items == Empty() && cache == persisted
    {
      this.kind := kind;
      this.queue := queue;
      items := Empty();
      cache := persisted;
    }

    /** `_dict_update` with the records of a sync reply, each made into a fresh entity. */
    method DictUpdate(received: seq<ServerRecord>)
      requires Valid()
      modifies this
      ensures Valid()
      ensures View() == Merge(old(View()), received)
      ensures cache == old(cache)
    {
      items := PutAllFresh(kind, items, received);
    }

    /**
     * `_remove_deleted`: after a full sync keep the stored entries whose key was
     * received, walking the store in order; after an incremental one keep those
     * not flagged deleted.
     */
    method RemoveDeleted(received: seq<ServerRecord>, fullSync: bool)
      requires Valid()
      modifies this
      ensures Valid()
      ensures items == Restrict(old(items), InSet(if fullSync then ReceivedIds(received) else old(LiveKeys(items))))
      ensures View() == Reconcile(old(View()), received, fullSync)
      ensures cache == old(cache)
    {
      var result := KeepReconciled(items, received, fullSync);
      label before:
      items := result;
      SnapshotsKept@before(result);
    }

    /** `_read_cache`: no file leaves the store as it is; a file replaces it wholesale with fresh entities. */
    method ReadCache()
      requires Valid()
      modifies this
      ensures Valid()
      ensures old(cache).None? ==> items == old(items)
      ensures old(cache).Some? ==> View() == old(cache).value.data
      ensures old(cache).Some? ==> forall k :: k in items.entries ==> fresh(items.entries[k])
      ensures View() == old(Loaded())
      ensures cache == old(cache)
    {
      if cache.None? {
        return;
      }
      var data := cache.value.data;
      var result: Dict<Entity> := Empty();
      var j := 0;
      while j < |data.keys|
        invariant 0 <= j <= |data.keys|
        invariant OrderedDict.Valid(result)
        invariant Snapshots(result) == Take(data, j)
        invariant forall k :: k in result.entries ==> fresh(result.entries[k])
        invariant items == old(items) && cache == old(cache)
      {
        var key := data.keys[j];
        var e := new Entity(kind, data.entries[key]);
        TakeNext(data, j);
        SnapshotsPut(result, key, e);
        result := Put(result, key, e);
        j := j + 1;
      }
      TakeAll(data);
      items := result;
    }

    /** `_write_cache`: every entry under its key, without its `None` fields. */
    method WriteCache()
      requires Valid()
      modifies this
      ensures Valid()
      ensures cache == Some(CacheFile(CacheLabel(kind), StoredAll(View())))
      ensures items == old(items)
    {
      cache := Some(CacheFile(CacheLabel(kind), StoredAll(Snapshots(items))));
    }

    /** `get`: the stored entity for `str(item_id)`; a miss is `None` with a remote fallback and an error without. */
    function Get(itemId: IdArg): (r: Result<Option<Entity>, StoreError>)
      reads this
      ensures r.Success? && r.value.Some? <==> ArgText(itemId) in items.entries
      ensures r.Success? && r.value.Some? ==> r.value.value == items.entries[ArgText(itemId)]
      ensures r.Failure? <==> ArgText(itemId) !in items.entries && !HasApiGet(kind)
      ensures r.Failure? ==> r.error == GetNeedsSync(kind)
    {
      var key := ArgText(itemId);
      if key in items.entries then Success(Some(items.entries[key]))
      else if HasApiGet(kind) then Success(None)
      else Failure(GetNeedsSync(kind))
    }

    /**
     * `find`: walk the store in order; without `returnAll` return the first
     * match or raise, with it return every match. Either way the walk raises
     * at the first entity whose `field` is not a string.
     */
    method Find(isMatch: string -> bool, field: string, returnAll: bool) returns (r: Result<Found, StoreError>)
      requires Valid()
      ensures returnAll && (forall e :: e in Values(items) ==> Searchable(e, field)) ==>
        r == Success(All(Matching(Values(items), isMatch, field)))
      ensures returnAll && (exists e :: e in Values(items) && !Searchable(e, field)) ==>
        r == Failure(NotSearchable(field))
      ensures !returnAll ==>
        var n := FirstStop(Values(items), isMatch, field, 0);
        r == if n == |Values(items)| then Failure(NoMatch)
             else if Searchable(Values(items)[n], field) then Success(One(Values(items)[n]))
             else Failure(NotSearchable(field))
      ensures !returnAll && r.Success? ==>
        Matching(Values(items), isMatch, field) != [] && r.value.item == Matching(Values(items), isMatch, field)[0]
      ensures r == Failure(NoMatch) ==> Matching(Values(items), isMatch, field) == []
    {
      r := FindIn(Values(items), isMatch, field, returnAll);
    }

    /** `add`: enqueue the entity's payload as an add command linked to the entity. */
    method Add(item: Entity, freshUuid: string, freshTempId: string)
      requires queue.Valid()
      requires freshUuid !in queue.commands.entries
      modifies queue
      ensures queue.Valid()
      ensures queue.commands == Put(old(queue.commands), freshUuid,
        NewCommand(Payload(item.kind, item.Snapshot()), CommandAdd(kind), Some(item), false, freshUuid, freshTempId))
      ensures queue.tempItems == Registered(old(queue.tempItems), Some(item), TempKey(Some(item)))
      ensures queue.syncToken == old(queue.syncToken) && queue.tokenFile == old(queue.tokenFile)
    {
      queue.AddCommand(Payload(item.kind, item.Snapshot()), CommandAdd(kind), Some(item), false, freshUuid, freshTempId);
    }

    /** `delete`: enqueue `{"id": item_id}` with no linkage; an unusable argument raises and enqueues nothing. */
    method Delete(ref: ItemRef, freshUuid: string, freshTempId: string) returns (o: Outcome<StoreError>)
      requires queue.Valid()
      requires freshUuid !in queue.commands.entries
      modifies queue
      ensures queue.Valid()
      ensures o.Fail? <==> ExtractParams(kind, ref).Failure?
      ensures o.Fail? ==> o.error == ExtractParams(kind, ref).error
      ensures o.Fail? ==> queue.commands == old(queue.commands) && queue.tempItems == old(queue.tempItems)
      ensures o.Pass? ==> queue.commands == Put(old(queue.commands), freshUuid,
        NewCommand(map["id" := ExtractParams(kind, ref).value.1], CommandDelete(kind), None, false, freshUuid, freshTempId))
      ensures o.Pass? ==> queue.tempItems == old(queue.tempItems)
      ensures queue.syncToken == old(queue.syncToken) && queue.tokenFile == old(queue.tokenFile)
    {
      var params := ExtractParams(kind, ref);
      if params.Failure? {
        return Fail(params.error);
      }
      queue.AddCommand(map["id" := params.value.1], CommandDelete(kind), None, false, freshUuid, freshTempId);
      return Pass;
    }

    /**
     * `update`: enqueue `{"id": item_id}` plus the new payload without its id,
     * linked to the target entity when one was given.
     */
    method Update(ref: ItemRef, updated: Entity, freshUuid: string, freshTempId: string) returns (o: Outcome<StoreError>)
      requires queue.Valid()
      requires freshUuid !in queue.commands.entries
      modifies queue
      ensures queue.Valid()
      ensures o.Fail? <==> ExtractParams(kind, ref).Failure?
      ensures o.Fail? ==> o.error == ExtractParams(kind, ref).error
      ensures o.Fail? ==> queue.commands == old(queue.commands) && queue.tempItems == old(queue.tempItems)
      ensures o.Pass? ==> var target := if ref.ByEntity? then Some(ref.e) else None;
        && queue.commands == Put(old(queue.commands), freshUuid,
          NewCommand(UpdateArgs(ExtractParams(kind, ref).value.1, updated.kind, updated.Snapshot()), CommandUpdate(kind), target, true, freshUuid, freshTempId))
        && queue.tempItems == Registered(old(queue.tempItems), target, TempKey(target))
      ensures queue.syncToken == old(queue.syncToken) && queue.tokenFile == old(queue.tokenFile)
    {
      var params := ExtractParams(kind, ref);
      if params.Failure? {
        return Fail(params.error);
      }
      var target := if params.value.0.LinkedTo? then Some(params.value.0.item) else None;
      queue.AddCommand(UpdateArgs(params.value.1, updated.kind, updated.Snapshot()), CommandUpdate(kind), target, true, freshUuid, freshTempId);
      return Pass;
    }
  }

  /**
   * `{'id': item_id, **updated_item.dict(exclude={'id'}, exclude_none=True, exclude_defaults=True)}`
   * for an updated entity of kind `k`.
   */
  function UpdateArgs(itemId: Value, k: Kind, updated: EntityRecord): (data: map<string, Value>)
    ensures "id" in data && data["id"] == itemId
    ensures forall f :: f in data && f != "id" ==> f in Payload(k, updated) && data[f] == Payload(k, updated)[f]
    ensures forall f :: f in Payload(k, updated) ==> f in data
    ensures forall f :: f in data && f != "id" ==> data[f] != Null
  {
    (Payload(k, updated) - {"id"})["id" := itemId]
  }
}
