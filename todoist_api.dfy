/**
 * The client object: one store per resource kind, all sharing the
 * process-wide command queue; `sync` pulls every resource type, reconciles
 * each store and persists the caches and the token; `add` hands an item to
 * the store of its kind; `commit` pushes the queue and then pulls.
 */
module Api {
  import opened Wrappers
  import opened OrderedDict
  import opened Models
  import opened Commands
  import opened Stores

  /** The JSON object a pull gets back: the token, `full_sync`, and one record array per resource type; each key may be missing. */
  datatype SyncReply = SyncReply(
    syncToken: Option<string>,
    fullSync: Option<bool>,
    resources: map<string, seq<ServerRecord>>)

  /** The position of a kind in the order `sync` visits the stores. */
  function KindIndex(k: Kind): (i: nat)
    ensures i < |AllKinds| && AllKinds[i] == k
  {
    match k
    case Label => 0
    case Project => 1
    case Reminder => 2
    case Section => 3
    case Task => 4
  }

  lemma KindAt(i: nat)
    requires i < |AllKinds|
    ensures KindIndex(AllKinds[i]) == i
  {
  }

  /** The position of the first kind, from `from` on, whose record array the reply lacks; `|AllKinds|` when none is missing. */
  function FirstMissing(resources: map<string, seq<ServerRecord>>, from: nat): (n: nat)
    requires from <= |AllKinds|
    ensures from <= n <= |AllKinds|
    ensures forall j :: from <= j < n ==> ResourceType(AllKinds[j]) in resources
    ensures n < |AllKinds| ==> ResourceType(AllKinds[n]) !in resources
    decreases |AllKinds| - from
  {
    if from == |AllKinds| || ResourceType(AllKinds[from]) !in resources then from
    else FirstMissing(resources, from + 1)
  }

  /**
   * What `sync` returns or raises: the transport's error, the `KeyError` of
   * the first missing record array or of a missing `full_sync` (looked up
   * after the first store has been merged), or the server's `full_sync`.
   */
  function PullResult(exchange: Exchange<SyncReply>): Result<bool, CommitError> {
    match exchange
    case TransportFailure => Failure(TransportError)
    case Answered(reply) =>
      var stop := FirstMissing(reply.resources, 0);
      if stop == 0 then Failure(MissingKey(ResourceType(AllKinds[0])))
      else if reply.fullSync.None? then Failure(MissingKey("full_sync"))
      else if stop < |AllKinds| then Failure(MissingKey(ResourceType(AllKinds[stop])))
      else Success(reply.fullSync.value)
  }

  /**
   * The store of kind `k` after `sync`, given the store `base` it held once
   * the caches were read: reconciled when the loop got past it, merged but
   * not reconciled when `full_sync` was missing, and untouched otherwise.
   */
  function PulledStore(k: Kind, base: Dict<EntityRecord>, exchange: Exchange<SyncReply>): Dict<EntityRecord>
    requires OrderedDict.Valid(base)
  {
    match exchange
    case TransportFailure => base
    case Answered(reply) =>
      var i := KindIndex(k);
      if FirstMissing(reply.resources, 0) <= i then base
      else
        var recs := reply.resources[ResourceType(k)];
        if reply.fullSync.None? then (if i == 0 then Merge(base, recs) else base)
        else SyncedStore(base, recs, reply.fullSync.value)
  }

  /** `sync` succeeds exactly when the server answered with `full_sync` and every record array, and then returns the server's flag, not the caller's. */
  lemma PullSucceeds(exchange: Exchange<SyncReply>)
    ensures PullResult(exchange).Success? <==>
      exchange.Answered? && exchange.reply.fullSync.Some? && forall k :: ResourceType(k) in exchange.reply.resources
    ensures PullResult(exchange).Success? ==> PullResult(exchange).value == exchange.reply.fullSync.value
  {
  }

  /** After a successful pull every store is its loaded contents merged with, then reconciled against, its own record array. */
  lemma PullSyncsEveryStore(k: Kind, base: Dict<EntityRecord>, exchange: Exchange<SyncReply>)
    requires OrderedDict.Valid(base) && PullResult(exchange).Success?
    ensures var reply := exchange.reply;
      PulledStore(k, base, exchange) == SyncedStore(base, reply.resources[ResourceType(k)], reply.fullSync.value)
  {
    assert FirstMissing(exchange.reply.resources, 0) == |AllKinds|;
  }

  /** After a successful full pull each store holds exactly the ids the server sent for its kind, each with its last record. */
  lemma FullPullExact(k: Kind, base: Dict<EntityRecord>, exchange: Exchange<SyncReply>)
    requires OrderedDict.Valid(base) && PullResult(exchange) == Success(true)
    ensures var recs := exchange.reply.resources[ResourceType(k)];
      && PulledStore(k, base, exchange).entries.Keys == ReceivedIds(recs)
      && forall id :: id in ReceivedIds(recs) ==> PulledStore(k, base, exchange).entries[id] == FromServer(Latest(recs, id).value)
  {
    PullSyncsEveryStore(k, base, exchange);
    FullSyncExact(base, exchange.reply.resources[ResourceType(k)]);
  }

  /** A failed pull leaves the store where it failed, and every later one, as it was loaded; only the first store can be left merged. */
  lemma FailedPullStops(k: Kind, base: Dict<EntityRecord>, exchange: Exchange<SyncReply>)
    requires OrderedDict.Valid(base) && PullResult(exchange).Failure?
    ensures exchange.TransportFailure? ==> PulledStore(k, base, exchange) == base
    ensures exchange.Answered? && KindIndex(k) >= FirstMissing(exchange.reply.resources, 0) ==> PulledStore(k, base, exchange) == base
    ensures exchange.Answered? && exchange.reply.fullSync.None? && k != AllKinds[0] ==> PulledStore(k, base, exchange) == base
  {
  }

  /** The store of kind `k` once the loop in `sync` has handled the first `i` kinds without raising. */
  function Progress(k: Kind, base: Dict<EntityRecord>, reply: SyncReply, i: nat): Dict<EntityRecord>
    requires OrderedDict.Valid(base)
  {
    if KindIndex(k) < i && ResourceType(k) in reply.resources && reply.fullSync.Some?
    then SyncedStore(base, reply.resources[ResourceType(k)], reply.fullSync.value)
    else base
  }

  /** A loop that got through every kind has pulled successfully and left each store as `PulledStore` says. */
  lemma CompletedPull(reply: SyncReply, base: map<Kind, Dict<EntityRecord>>)
    requires forall k :: k in base && OrderedDict.Valid(base[k])
    requires FirstMissing(reply.resources, 0) == |AllKinds| && reply.fullSync.Some?
    ensures PullResult(Answered(reply)) == Success(reply.fullSync.value)
    ensures forall k :: PulledStore(k, base[k], Answered(reply)) == Progress(k, base[k], reply, |AllKinds|)
  {
  }

  /**
   * A loop that raised at position `i` raised what `PullResult` says, and
   * left each store as `PulledStore` says: the stores before `i` reconciled,
   * the one at `i` merged when only `full_sync` was missing.
   */
  lemma StoppedPull(reply: SyncReply, i: nat, base: map<Kind, Dict<EntityRecord>>)
    requires forall k :: k in base && OrderedDict.Valid(base[k])
    requires i < |AllKinds| && i <= FirstMissing(reply.resources, 0)
    requires i > 0 ==> reply.fullSync.Some?
    ensures ResourceType(AllKinds[i]) !in reply.resources ==>
      && PullResult(Answered(reply)) == Failure(MissingKey(ResourceType(AllKinds[i])))
      && forall k :: PulledStore(k, base[k], Answered(reply)) == Progress(k, base[k], reply, i)
    ensures ResourceType(AllKinds[i]) in reply.resources && reply.fullSync.None? ==>
      && PullResult(Answered(reply)) == Failure(MissingKey("full_sync"))
      && forall k :: PulledStore(k, base[k], Answered(reply)) ==
           if k == AllKinds[i] then Merge(base[k], reply.resources[ResourceType(k)]) else base[k]
  {
  }

  /** One pass of the loop in `sync`: `_dict_update` with the kind's records, then `_remove_deleted` with `full_sync`; a missing key raises. */
  method PullKind(m: BaseManager, reply: SyncReply) returns (raised: Option<CommitError>)
    requires m.Valid()
    modifies m
    ensures m.Valid() && m.cache == old(m.cache)
    ensures ResourceType(m.kind) !in reply.resources ==>
      raised == Some(MissingKey(ResourceType(m.kind))) && m.View() == old(m.View())
    ensures ResourceType(m.kind) in reply.resources && reply.fullSync.None? ==>
      raised == Some(MissingKey("full_sync")) && m.View() == Merge(old(m.View()), reply.resources[ResourceType(m.kind)])
    ensures ResourceType(m.kind) in reply.resources && reply.fullSync.Some? ==>
      raised.None? && m.View() == SyncedStore(old(m.View()), reply.resources[ResourceType(m.kind)], reply.fullSync.value)
  {
    var key := ResourceType(m.kind);
    if key !in reply.resources {
      return Some(MissingKey(key));
    }
    var received := reply.resources[key];
    m.DictUpdate(received);
    if reply.fullSync.None? {
      return Some(MissingKey("full_sync"));
    }
    m.RemoveDeleted(received, reply.fullSync.value);
    return None;
  }

  /** Nothing about `o` changed between the two states. */
  twostate predicate Kept(o: object)
    reads o
  {
    unchanged(o)
  }

  /** The cache file on disk for the store of kind `k`, if any. */
  function CacheOf(persisted: map<Kind, CacheFile>, k: Kind): (c: Option<CacheFile>)
    ensures c.Some? <==> k in persisted
    ensures c.Some? ==> c.value == persisted[k]
  {
    if k in persisted then Some(persisted[k]) else None
  }

  class TodoistAPI {
    /** The command manager's module state, shared by every store. */
    const queue: CommandManager
    const labels: BaseManager
    const projects: BaseManager
    const reminders: BaseManager
    const sections: BaseManager
    const tasks: BaseManager
    var synced: bool

    /** `getattr(self, cache_label)`: the store of kind `k`. */
    function Manager(k: Kind): BaseManager {
      match k
      case Label => labels
      case Project => projects
      case Reminder => reminders
      case Section => sections
      case Task => tasks
    }

    function Managers(): (ms: set<BaseManager>)
      ensures forall k :: Manager(k) in ms
    {
      {labels, projects, reminders, sections, tasks}
    }

    /** Each store holds its own kind, shares the one queue, and is well formed. */
    ghost predicate Valid()
      reads queue, Managers()
    {
      && queue.Valid()
      && (forall k :: Manager(k).kind == k && Manager(k).queue == queue && Manager(k).Valid())
    }

    /** A new client: empty stores over whatever cache files are on disk. */
    constructor (queue: CommandManager, persisted: map<Kind, CacheFile>)
      requires queue.Valid()
      requires forall k :: k in persisted ==> OrderedDict.Valid(persisted[k].data)
      ensures Valid() && this.queue == queue && !synced
      ensures forall k :: Manager(k).items == Empty()
      ensures forall k :: Manager(k).cache == CacheOf(persisted, k)
    {
      var l := new BaseManager(Label, queue, CacheOf(persisted, Label));
      var p := new BaseManager(Project, queue, CacheOf(persisted, Project));
      var r := new BaseManager(Reminder, queue, CacheOf(persisted, Reminder));
      var s := new BaseManager(Section, queue, CacheOf(persisted, Section));
      var t := new BaseManager(Task, queue, CacheOf(persisted, Task));
      this.queue := queue;
      labels, projects, reminders, sections, tasks := l, p, r, s, t;
      synced := false;
      new;
      forall k ensures Manager(k).kind == k && Manager(k).queue == queue && Manager(k).Valid()
        && Manager(k).items == Empty() && Manager(k).cache == CacheOf(persisted, k)
      {
        match k
        case Label =>
        case Project =>
        case Reminder =>
        case Section =>
        case Task =>
      }
    }

    /** `_read_all_caches`: every store becomes what its `_read_cache` leaves. */
    method ReadAllCaches()
      requires Valid()
      modifies Managers()
      ensures Valid()
      ensures forall k :: Manager(k).View() == old(Manager(k).Loaded())
      ensures forall k :: Manager(k).cache == old(Manager(k).cache)
    {
      ghost var loaded := map k | k in AllKinds :: Manager(k).Loaded();
      var i := 0;
      while i < |AllKinds|
        invariant 0 <= i <= |AllKinds|
        invariant Valid()
        invariant forall k :: KindIndex(k) < i ==> k in loaded && Manager(k).View() == loaded[k]
        invariant forall k :: KindIndex(k) >= i ==> k in loaded && Manager(k).Loaded() == loaded[k]
        invariant forall k :: Manager(k).cache == old(Manager(k).cache)
      {
        KindAt(i);
        ReadStep(AllKinds[i], loaded);
        i := i + 1;
      }
    }

    /** One pass of `_read_all_caches`: `read_cache` on the store of kind `k0`; the others are untouched. */
    method ReadStep(k0: Kind, ghost loaded: map<Kind, Dict<EntityRecord>>)
      requires Valid()
      requires forall k :: KindIndex(k) < KindIndex(k0) ==> k in loaded && Manager(k).View() == loaded[k]
      requires forall k :: KindIndex(k) >= KindIndex(k0) ==> k in loaded && Manager(k).Loaded() == loaded[k]
      modifies Manager(k0)
      ensures Valid()
      ensures forall k :: KindIndex(k) <= KindIndex(k0) ==> k in loaded && Manager(k).View() == loaded[k]
      ensures forall k :: KindIndex(k) > KindIndex(k0) ==> k in loaded && Manager(k).Loaded() == loaded[k]
      ensures forall k :: Manager(k).cache == old(Manager(k).cache)
    {
      var m := Manager(k0);
      m.ReadCache();
      OnlyChanged(k0);
      forall k | KindIndex(k) <= KindIndex(k0) ensures k in loaded && Manager(k).View() == loaded[k] {
      }
      forall k | KindIndex(k) > KindIndex(k0) ensures k in loaded && Manager(k).Loaded() == loaded[k] {
      }
    }

    /** A step that changed only the store of kind `k0` among the objects that existed before left the other stores as they were. */
    twostate lemma OnlyChanged(k0: Kind)
      requires old(Valid()) && Manager(k0).Valid()
      requires forall o: object :: o != Manager(k0) && old(allocated(o)) ==> Kept(o)
      ensures Valid()
      ensures forall k | k != k0 :: Manager(k).View() == old(Manager(k).View())
      ensures forall k | k != k0 :: Manager(k).Loaded() == old(Manager(k).Loaded())
      ensures forall k | k != k0 :: Manager(k).cache == old(Manager(k).cache)
    {
      forall k | k != k0
        ensures Manager(k).View() == old(Manager(k).View())
        ensures Manager(k).Loaded() == old(Manager(k).Loaded())
        ensures Manager(k).cache == old(Manager(k).cache)
        ensures Manager(k).Valid()
      {
        assert Manager(k).kind != Manager(k0).kind;
        assert Kept(Manager(k));
        forall e | e in Manager(k).items.entries.Values ensures unchanged(e) {
          assert Kept(e);
        }
        Manager(k).Untouched();
      }
      assert Kept(queue);
    }

    /** A step that changed neither the stores nor their entities left every store as it was. */
    twostate lemma StoresKept(changed: object)
      requires old(Valid()) && queue.Valid()
      requires changed == queue || changed == this
      requires forall o: object :: o != changed && old(allocated(o)) ==> Kept(o)
      ensures Valid()
      ensures forall k :: Manager(k).View() == old(Manager(k).View())
      ensures forall k :: Manager(k).Loaded() == old(Manager(k).Loaded())
      ensures forall k :: Manager(k).cache == old(Manager(k).cache)
    {
      forall k
        ensures Manager(k).View() == old(Manager(k).View())
        ensures Manager(k).Loaded() == old(Manager(k).Loaded())
        ensures Manager(k).cache == old(Manager(k).cache)
        ensures Manager(k).Valid()
      {
        assert Kept(Manager(k));
        forall e | e in Manager(k).items.entries.Values ensures unchanged(e) {
          assert Kept(e);
        }
        Manager(k).Untouched();
      }
    }

    /** `_write_all_caches`: every store's cache file holds its records without their `None` fields. */
    method WriteAllCaches()
      requires Valid()
      modifies Managers()
      ensures Valid()
      ensures forall k :: Manager(k).cache == Some(CacheFile(CacheLabel(k), StoredAll(Manager(k).View())))
      ensures forall k :: Manager(k).View() == old(Manager(k).View())
    {
      var i := 0;
      while i < |AllKinds|
        invariant 0 <= i <= |AllKinds|
        invariant Valid()
        invariant forall k :: KindIndex(k) < i ==> Manager(k).cache == Some(CacheFile(CacheLabel(k), StoredAll(Manager(k).View())))
        invariant forall k :: Manager(k).View() == old(Manager(k).View())
      {
        KindAt(i);
        WriteStep(AllKinds[i]);
        i := i + 1;
      }
    }

    /** One pass of `_write_all_caches`: `write_cache` on the store of kind `k0`; the others are untouched. */
    method WriteStep(k0: Kind)
      requires Valid()
      requires forall k :: KindIndex(k) < KindIndex(k0) ==>
        Manager(k).cache == Some(CacheFile(CacheLabel(k), StoredAll(Manager(k).View())))
      modifies Manager(k0)
      ensures Valid()
      ensures forall k :: KindIndex(k) <= KindIndex(k0) ==>
        Manager(k).cache == Some(CacheFile(CacheLabel(k), StoredAll(Manager(k).View())))
      ensures forall k :: Manager(k).View() == old(Manager(k).View())
    {
      var m := Manager(k0);
      m.WriteCache();
      OnlyChanged(k0);
    }

    /** One pass of the loop in `sync`, on the store of kind `k0`; the others are untouched. */
    method PullStep(k0: Kind, reply: SyncReply, ghost base: map<Kind, Dict<EntityRecord>>) returns (raised: Option<CommitError>)
      requires Valid()
      requires KindIndex(k0) <= FirstMissing(reply.resources, 0)
      requires KindIndex(k0) > 0 ==> reply.fullSync.Some?
      requires forall k :: k in base && OrderedDict.Valid(base[k])
      requires forall k :: Manager(k).View() == Progress(k, base[k], reply, KindIndex(k0))
      modifies Manager(k0)
      ensures Valid()
      ensures forall k :: Manager(k).cache == old(Manager(k).cache)
      ensures raised == if ResourceType(k0) !in reply.resources then Some(MissingKey(ResourceType(k0)))
        else if reply.fullSync.None? then Some(MissingKey("full_sync")) else None
      ensures raised.None? ==> KindIndex(k0) < FirstMissing(reply.resources, 0)
      ensures raised.None? ==> forall k :: Manager(k).View() == Progress(k, base[k], reply, KindIndex(k0) + 1)
      ensures ResourceType(k0) !in reply.resources ==>
        forall k :: Manager(k).View() == Progress(k, base[k], reply, KindIndex(k0))
      ensures ResourceType(k0) in reply.resources && reply.fullSync.None? ==>
        forall k :: Manager(k).View() == if k == k0 then Merge(base[k], reply.resources[ResourceType(k)]) else base[k]
    {
      var m := Manager(k0);
      raised := PullKind(m, reply);
      OnlyChanged(k0);
      if raised.None? {
        Advanced(k0, reply, base);
      }
    }

    /** After a pass of the loop in `sync` that did not raise, the store of kind `k0` counts as handled. */
    lemma Advanced(k0: Kind, reply: SyncReply, base: map<Kind, Dict<EntityRecord>>)
      requires forall k :: k in base && OrderedDict.Valid(base[k])
      requires ResourceType(k0) in reply.resources && reply.fullSync.Some?
      requires Manager(k0).View() == SyncedStore(base[k0], reply.resources[ResourceType(k0)], reply.fullSync.value)
      requires forall k | k != k0 :: Manager(k).View() == Progress(k, base[k], reply, KindIndex(k0))
      ensures forall k :: Manager(k).View() == Progress(k, base[k], reply, KindIndex(k0) + 1)
    {
    }

    /** Where a pass of the loop in `sync` raised, every store is as `PulledStore` says and `sync` raises what `PullResult` says. */
    lemma Stopped(k0: Kind, reply: SyncReply, base: map<Kind, Dict<EntityRecord>>)
      requires forall k :: k in base && OrderedDict.Valid(base[k])
      requires KindIndex(k0) <= FirstMissing(reply.resources, 0)
      requires KindIndex(k0) > 0 ==> reply.fullSync.Some?
      requires ResourceType(k0) !in reply.resources ==>
        forall k :: Manager(k).View() == Progress(k, base[k], reply, KindIndex(k0))
      requires ResourceType(k0) in reply.resources && reply.fullSync.None? ==>
        forall k :: Manager(k).View() == if k == k0 then Merge(base[k], reply.resources[ResourceType(k)]) else base[k]
      requires ResourceType(k0) !in reply.resources || reply.fullSync.None?
      ensures forall k :: Manager(k).View() == PulledStore(k, base[k], Answered(reply))
      ensures PullResult(Answered(reply)) == Failure(
        if ResourceType(k0) !in reply.resources then MissingKey(ResourceType(k0)) else MissingKey("full_sync"))
    {
      StoppedPull(reply, KindIndex(k0), base);
    }

    /**
     * `sync`: read the token file unless a full sync is asked for, read the
     * caches, pull, then merge and reconcile each store in turn; only a pull
     * that gets through every store writes the caches and the token file and
     * marks the client synced.
     */
    method Sync(fullSync: bool, exchange: Exchange<SyncReply>) returns (r: Result<bool, CommitError>, sentToken: string)
      requires Valid()
      modifies this, queue, Managers()
      ensures Valid()
      ensures r == PullResult(exchange)
      ensures sentToken == if fullSync then old(queue.syncToken) else StoredToken(old(queue.tokenFile))
      ensures forall k :: Manager(k).View() == PulledStore(k, old(Manager(k).Loaded()), exchange)
      ensures r.Success? ==> forall k :: Manager(k).cache == Some(CacheFile(CacheLabel(k), StoredAll(Manager(k).View())))
      ensures r.Failure? ==> forall k :: Manager(k).cache == old(Manager(k).cache)
      ensures queue.syncToken == if exchange.Answered? then exchange.reply.syncToken.GetOr(sentToken) else sentToken
      ensures queue.tokenFile == if r.Success? then Some(TokenFile(Some(queue.syncToken))) else old(queue.tokenFile)
      ensures queue.commands == old(queue.commands) && queue.tempItems == old(queue.tempItems)
      ensures synced == (old(synced) || r.Success?)
    {
      ghost var base := LoadStores(fullSync);
      sentToken := queue.syncToken;
      if exchange.TransportFailure? {
        return Failure(TransportError), sentToken;
      }
      var reply := exchange.reply;
      label accepted:
      queue.AcceptToken(reply.syncToken);
      StoresKept@accepted(queue);
      var raised := PullAll(reply, base);
      if raised.Some? {
        return Failure(raised.value), sentToken;
      }
      Persist();
      label persisted:
      synced := true;
      StoresKept@persisted(this);
      return Success(reply.fullSync.value), sentToken;
    }

    /** The start of `sync`: the token file is read unless a full sync is asked for, then every store reads its cache. */
    method LoadStores(fullSync: bool) returns (ghost base: map<Kind, Dict<EntityRecord>>)
      requires Valid()
      modifies queue, Managers()
      ensures Valid()
      ensures forall k :: k in base && OrderedDict.Valid(base[k]) && base[k] == old(Manager(k).Loaded())
      ensures forall k :: Manager(k).View() == base[k]
      ensures forall k :: Manager(k).cache == old(Manager(k).cache)
      ensures queue.syncToken == if fullSync then old(queue.syncToken) else StoredToken(old(queue.tokenFile))
      ensures queue.tokenFile == old(queue.tokenFile)
      ensures queue.commands == old(queue.commands) && queue.tempItems == old(queue.tempItems)
    {
      if !fullSync {
        queue.ReadSyncToken();
        StoresKept(queue);
      }
      ReadAllCaches();
      base := map k | k in AllKinds :: Manager(k).View();
      forall k ensures k in base && base[k] == old(Manager(k).Loaded()) && OrderedDict.Valid(base[k]) {
        assert old(Manager(k).Valid());
      }
    }

    /** The end of a successful `sync`: every store writes its cache, then the token is written. */
    method Persist()
      requires Valid()
      modifies queue, Managers()
      ensures Valid()
      ensures forall k :: Manager(k).cache == Some(CacheFile(CacheLabel(k), StoredAll(Manager(k).View())))
      ensures forall k :: Manager(k).View() == old(Manager(k).View())
      ensures queue.tokenFile == Some(TokenFile(Some(queue.syncToken)))
      ensures queue.syncToken == old(queue.syncToken)
      ensures queue.commands == old(queue.commands) && queue.tempItems == old(queue.tempItems)
    {
      WriteAllCaches();
      label written:
      queue.WriteSyncToken();
      StoresKept@written(queue);
    }

    /** The loop in `sync` over the stores, from the stores `base` the caches left; the first missing key raises. */
    method PullAll(reply: SyncReply, ghost base: map<Kind, Dict<EntityRecord>>) returns (raised: Option<CommitError>)
      requires Valid()
      requires forall k :: k in base && OrderedDict.Valid(base[k])
      requires forall k :: Manager(k).View() == base[k]
      modifies Managers()
      ensures Valid()
      ensures raised.Some? ==> PullResult(Answered(reply)) == Failure(raised.value)
      ensures raised.None? ==> reply.fullSync.Some? && PullResult(Answered(reply)) == Success(reply.fullSync.value)
      ensures forall k :: Manager(k).View() == PulledStore(k, base[k], Answered(reply))
      ensures forall k :: Manager(k).cache == old(Manager(k).cache)
    {
      var i := 0;
      while i < |AllKinds|
        invariant 0 <= i <= FirstMissing(reply.resources, 0)
        invariant i > 0 ==> reply.fullSync.Some?
        invariant Valid()
        invariant forall k :: Manager(k).View() == Progress(k, base[k], reply, i)
        invariant forall k :: Manager(k).cache == old(Manager(k).cache)
      {
        KindAt(i);
        raised := PullStep(AllKinds[i], reply, base);
        if raised.Some? {
          Stopped(AllKinds[i], reply, base);
          return;
        }
        i := i + 1;
      }
      CompletedPull(reply, base);
      forall k ensures Manager(k).View() == PulledStore(k, base[k], Answered(reply)) {
      }
      return None;
    }

    /** `add`: the item goes to the store named by its kind's cache label. */
    method Add(item: Entity, freshUuid: string, freshTempId: string)
      requires Valid()
      requires freshUuid !in queue.commands.entries
      modifies queue
      ensures Valid()
      ensures queue.commands == Put(old(queue.commands), freshUuid,
        NewCommand(Payload(item.kind, item.Snapshot()), CommandAdd(item.kind), Some(item), false, freshUuid, freshTempId))
      ensures queue.tempItems == Registered(old(queue.tempItems), Some(item), TempKey(Some(item)))
      ensures queue.syncToken == old(queue.syncToken) && queue.tokenFile == old(queue.tokenFile)
    {
      CacheLabelDispatch(item.kind);
      var target := KindOfLabel(CacheLabel(item.kind)).value;
      label before:
      Manager(target).Add(item, freshUuid, freshTempId);
      StoresKept@before(queue);
    }

    /**
     * `commit`: push the queue; only when that returns does the client pull,
     * an incremental pull from the token file, whose failure replaces the
     * commit's result.
     */
    method Commit(commitExchange: Exchange<CommitReply>, syncExchange: Exchange<SyncReply>)
      returns (r: Result<CommitReply, CommitError>)
      requires Valid()
      modifies this, queue, Managers(), queue.Linked()`fields, queue.Linked()`id
      ensures Valid()
      ensures var run := RunCommit(old(queue.commands), old(queue.tempItems), commitExchange);
        && queue.commands == run.remaining
        && queue.tempItems == run.tempItems
        && r == (if run.result.Failure? then run.result
                 else if PullResult(syncExchange).Failure? then Failure(PullResult(syncExchange).error)
                 else run.result)
        && synced == (old(synced) || (run.result.Success? && PullResult(syncExchange).Success?))
      ensures forall e :: e in old(queue.Linked()) ==>
        e.fields == FieldsAfterCommit(e, old(e.fields), old(queue.commands), commitExchange)
      ensures forall e :: e in old(queue.Linked()) ==>
        e.id == IdAfterCommit(e, old(e.id), old(queue.commands), old(queue.tempItems), commitExchange)
      ensures RunCommit(old(queue.commands), old(queue.tempItems), commitExchange).result.Success? ==>
        queue.syncToken == if syncExchange.Answered? then syncExchange.reply.syncToken.GetOr(StoredToken(old(queue.tokenFile)))
                           else StoredToken(old(queue.tokenFile))
      ensures RunCommit(old(queue.commands), old(queue.tempItems), commitExchange).result.Failure? ==>
        && queue.syncToken == (if commitExchange.Answered? then commitExchange.reply.syncToken.GetOr(old(queue.syncToken))
                               else old(queue.syncToken))
        && queue.tokenFile == old(queue.tokenFile)
        && forall k :: Manager(k).items == old(Manager(k).items) && Manager(k).cache == old(Manager(k).cache)
    {
      r := queue.Commit(commitExchange);
      if r.Failure? {
        return r;
      }
      var pulled := PullAfterCommit(syncExchange, old(queue.Linked()));
      if pulled.Failure? {
        r := Failure(pulled.error);
      }
    }

    /** The `sync` that ends a successful `commit`: an incremental pull that leaves the entities already linked to commands alone. */
    method PullAfterCommit(syncExchange: Exchange<SyncReply>, ghost linked: set<Entity>) returns (r: Result<bool, CommitError>)
      requires Valid()
      modifies this, queue, Managers()
      ensures Valid()
      ensures r == PullResult(syncExchange)
      ensures queue.commands == old(queue.commands) && queue.tempItems == old(queue.tempItems)
      ensures synced == (old(synced) || r.Success?)
      ensures queue.syncToken == if syncExchange.Answered? then syncExchange.reply.syncToken.GetOr(StoredToken(old(queue.tokenFile)))
                                 else StoredToken(old(queue.tokenFile))
      ensures forall e :: e in linked ==> e.fields == old(e.fields) && e.id == old(e.id)
    {
      label before:
      var sent;
      r, sent := Sync(false, syncExchange);
      EntitiesKept@before(linked);
    }

    /** A `sync` changes no entity that existed before it: it only gives the stores fresh ones. */
    twostate lemma EntitiesKept(s: set<Entity>)
      requires forall o: object :: o != this && o != queue && o !in Managers() && old(allocated(o)) ==> Kept(o)
      requires forall e :: e in s ==> old(allocated(e))
      ensures forall e :: e in s ==> e.fields == old(e.fields) && e.id == old(e.id)
    {
      forall e | e in s ensures e.fields == old(e.fields) && e.id == old(e.id) {
        assert Kept(e);
      }
    }
  }
}
