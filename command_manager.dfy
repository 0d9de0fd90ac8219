/**
 * The command queue, the temp-id table and the sync token, which the client
 * keeps as module-level state, and `commit`, which pushes the queue and
 * interprets the server's per-command acknowledgement.
 */
module Commands {
  import opened Wrappers
  import opened OrderedDict
  import opened Models

  /** A queued mutation; `item` and `isUpdateCommand` are local linkage that is never sent. */
  datatype Command = Command(
    commandType: string,
    uuid: string,
    tempId: Value,
    args: map<string, Value>,
    item: Option<Entity>,
    isUpdateCommand: bool)

  /** A `sync_status` entry: `"ok"`, an object with an `error` key, or anything else. */
  datatype Status = Ok | Error(detail: string) | Unrecognised

  /** The JSON object a commit request gets back; each key may be missing. */
  datatype CommitReply = CommitReply(
    syncToken: Option<string>,
    fullSync: Option<bool>,
    syncStatus: Option<seq<(string, Status)>>,
    tempIdMapping: Option<seq<(string, string)>>)

  /** The network exchange: the transport raised, or the server answered. */
  datatype Exchange<R> = TransportFailure | Answered(reply: R)

  /** What `commit` can raise. The `Missing...`/`Unknown...` cases are the `KeyError`s of the loops. */
  datatype CommitError =
    | TransportError
    | MissingKey(key: string)
    | UnknownCommand(uuid: string)
    | MissingIdArg(uuid: string)
    | SyncErrors(failures: seq<(string, Status)>)
    | UnknownTempId(tempId: string)

  /** The persisted token file `{"sync_token": ...}`. */
  datatype TokenFile = TokenFile(syncToken: Option<string>)

  /** The token that asks the server for a full sync. */
  const FullSyncToken: string := "*"

  /** The token `read_sync_token` loads: the file's value, or the full-sync token when there is none. */
  function StoredToken(file: Option<TokenFile>): (t: string)
    ensures file.None? ==> t == FullSyncToken
    ensures file.Some? ==> t == file.value.syncToken.GetOr(FullSyncToken)
  {
    match file
    case None => FullSyncToken
    case Some(TokenFile(token)) => token.GetOr(FullSyncToken)
  }

  /** The command `add_command` builds. */
  function NewCommand(
    data: map<string, Value>, commandType: string, item: Option<Entity>, isUpdateCommand: bool,
    uuid: string, freshTempId: string): (c: Command)
    ensures c.commandType == commandType && c.uuid == uuid
    ensures "temp_id" in data ==> c.tempId == data["temp_id"]
    ensures "temp_id" !in data ==> c.tempId == Str(freshTempId)
    ensures c.args.Keys == data.Keys - {"temp_id"}
    ensures forall k :: k in c.args ==> c.args[k] == data[k]
    ensures c.item == item
    ensures c.isUpdateCommand <==> item.Some? && isUpdateCommand
  {
    var tempId := if "temp_id" in data then data["temp_id"] else Str(freshTempId);
    Command(commandType, uuid, tempId, data - {"temp_id"}, item, item.Some? && isUpdateCommand)
  }

  /** The key under which `add_command` registers a linked item: its temp id, when that is set and non-empty. */
  function TempKey(item: Option<Entity>): (key: Option<string>)
    ensures key.Some? <==> item.Some? && item.value.tempId.Some? && item.value.tempId.value != ""
    ensures key.Some? ==> key.value == item.value.tempId.value
  {
    if item.Some? && item.value.tempId.Some? && item.value.tempId.value != "" then item.value.tempId else None
  }

  /** `temp_items` after `add_command`: the item is registered under its key, if it has one. */
  function Registered(temp: map<string, Entity>, item: Option<Entity>, key: Option<string>): map<string, Entity>
    requires key.Some? ==> item.Some?
  {
    if key.Some? then temp[key.value := item.value] else temp
  }

  /** An acknowledged command whose args are copied onto its linked item. */
  predicate Applies(c: Command, st: Status) {
    st == Ok && c.item.Some? && c.isUpdateCommand
  }

  /** The queue left by the loop over `sync_status`, and the collected error statuses or the error raised mid-loop. */
  datatype StatusRun = StatusRun(remaining: Dict<Command>, outcome: Result<seq<(string, Status)>, CommitError>)

  /**
   * The loop over `sync_status` from position `from` on, given the queue `cmds`
   * and the errors collected so far: pop each acknowledged command, collect
   * error statuses, and stop with a `KeyError` at an unknown uuid or at an
   * update command without an `id` arg.
   */
  function RunStatuses(cmds: Dict<Command>, statuses: seq<(string, Status)>, from: nat, failures: seq<(string, Status)>): StatusRun
    requires Valid(cmds) && from <= |statuses|
    decreases |statuses| - from
  {
    if from == |statuses| then StatusRun(cmds, Success(failures))
    else
      var u := statuses[from].0;
      var st := statuses[from].1;
      if u !in cmds.entries then StatusRun(cmds, Failure(UnknownCommand(u)))
      else
        var c := cmds.entries[u];
        if Applies(c, st) && "id" !in c.args then StatusRun(Pop(cmds, u), Failure(MissingIdArg(u)))
        else RunStatuses(Pop(cmds, u), statuses, from + 1, if st.Error? then failures + [(u, st)] else failures)
  }

  /** The fields of entity `e`, starting from `f`, after the same loop: each applying command linked to `e` refreshes them. */
  function FieldsAfter(e: Entity, f: map<string, Value>, cmds: Dict<Command>, statuses: seq<(string, Status)>, from: nat): map<string, Value>
    requires Valid(cmds) && from <= |statuses|
    decreases |statuses| - from
  {
    if from == |statuses| then f
    else
      var u := statuses[from].0;
      var st := statuses[from].1;
      if u !in cmds.entries then f
      else
        var c := cmds.entries[u];
        if Applies(c, st) && "id" !in c.args then f
        else FieldsAfter(e, Refreshed(e, f, c, st), Pop(cmds, u), statuses, from + 1)
  }

  /** The fields of `e` after one acknowledgement: refreshed when the command applies and is linked to `e`. */
  function Refreshed(e: Entity, f: map<string, Value>, c: Command, st: Status): map<string, Value> {
    if Applies(c, st) && c.item.value == e then f + (c.args - {"id"}) else f
  }

  /** The loop over `temp_id_mapping` from position `from` on: the table left, and the first temp id it lacks (a `KeyError`), if any. */
  function ResolveTempIds(temp: map<string, Entity>, mapping: seq<(string, string)>, from: nat): (map<string, Entity>, Option<string>)
    requires from <= |mapping|
    decreases |mapping| - from
  {
    if from == |mapping| then (temp, None)
    else if mapping[from].0 !in temp then (temp, Some(mapping[from].0))
    else ResolveTempIds(temp - {mapping[from].0}, mapping, from + 1)
  }

  /** The id of entity `e`, starting from `id0`, after the same loop. */
  function IdAfter(e: Entity, id0: Option<Id>, temp: map<string, Entity>, mapping: seq<(string, string)>, from: nat): Option<Id>
    requires from <= |mapping|
    decreases |mapping| - from
  {
    if from == |mapping| || mapping[from].0 !in temp then id0
    else
      var t := mapping[from].0;
      IdAfter(e, if temp[t] == e then Some(StrId(mapping[from].1)) else id0, temp - {t}, mapping, from + 1)
  }

  /** Everything `commit` decides from the queue, the temp-id table and the reply. */
  datatype CommitRun = CommitRun(result: Result<CommitReply, CommitError>, remaining: Dict<Command>, tempItems: map<string, Entity>)

  function RunCommit(cmds: Dict<Command>, temp: map<string, Entity>, exchange: Exchange<CommitReply>): CommitRun
    requires Valid(cmds)
  {
    match exchange
    case TransportFailure => CommitRun(Failure(TransportError), cmds, temp)
    case Answered(reply) =>
      if reply.syncStatus.None? then CommitRun(Failure(MissingKey("sync_status")), cmds, temp)
      else
        var run := RunStatuses(cmds, reply.syncStatus.value, 0, []);
        if run.outcome.Failure? then CommitRun(Failure(run.outcome.error), run.remaining, temp)
        else if run.outcome.value != [] then CommitRun(Failure(SyncErrors(run.outcome.value)), run.remaining, temp)
        else if reply.tempIdMapping.None? then CommitRun(Failure(MissingKey("temp_id_mapping")), run.remaining, temp)
        else
          var resolved := ResolveTempIds(temp, reply.tempIdMapping.value, 0);
          var result := if resolved.1.Some? then Failure(UnknownTempId(resolved.1.value)) else Success(reply.(syncToken := None));
          CommitRun(result, run.remaining, resolved.0)
  }

  /** Whether `commit` reaches the loop over `temp_id_mapping`. */
  predicate ReachesMapping(cmds: Dict<Command>, exchange: Exchange<CommitReply>)
    requires Valid(cmds)
  {
    && exchange.Answered?
    && exchange.reply.syncStatus.Some?
    && RunStatuses(cmds, exchange.reply.syncStatus.value, 0, []).outcome == Success([])
    && exchange.reply.tempIdMapping.Some?
  }

  function FieldsAfterCommit(e: Entity, f: map<string, Value>, cmds: Dict<Command>, exchange: Exchange<CommitReply>): map<string, Value>
    requires Valid(cmds)
  {
    if exchange.Answered? && exchange.reply.syncStatus.Some?
    then FieldsAfter(e, f, cmds, exchange.reply.syncStatus.value, 0)
    else f
  }

  function IdAfterCommit(
    e: Entity, id0: Option<Id>, cmds: Dict<Command>, temp: map<string, Entity>, exchange: Exchange<CommitReply>): Option<Id>
    requires Valid(cmds)
  {
    if ReachesMapping(cmds, exchange) then IdAfter(e, id0, temp, exchange.reply.tempIdMapping.value, 0) else id0
  }

  /** Where the loop stops at position `from`, the remaining statuses refresh nothing. */
  lemma FieldsStop(cmds: Dict<Command>, statuses: seq<(string, Status)>, from: nat)
    requires Valid(cmds) && from < |statuses|
    requires var u := statuses[from].0;
      u !in cmds.entries || (Applies(cmds.entries[u], statuses[from].1) && "id" !in cmds.entries[u].args)
    ensures forall e: Entity, f :: FieldsAfter(e, f, cmds, statuses, from) == f
  {
  }

  /** One acknowledgement that does not raise: pop the command, refresh its item. */
  lemma FieldsStep(cmds: Dict<Command>, statuses: seq<(string, Status)>, from: nat)
    requires Valid(cmds) && from < |statuses|
    requires var u := statuses[from].0;
      u in cmds.entries && !(Applies(cmds.entries[u], statuses[from].1) && "id" !in cmds.entries[u].args)
    ensures var u := statuses[from].0;
      forall e: Entity, f :: FieldsAfter(e, f, cmds, statuses, from)
        == FieldsAfter(e, Refreshed(e, f, cmds.entries[u], statuses[from].1), Pop(cmds, u), statuses, from + 1)
  {
  }

  /** One acknowledgement that does not raise, for the queue and the collected errors. */
  lemma RunStep(cmds: Dict<Command>, statuses: seq<(string, Status)>, from: nat, failures: seq<(string, Status)>)
    requires Valid(cmds) && from < |statuses|
    requires var u := statuses[from].0;
      u in cmds.entries && !(Applies(cmds.entries[u], statuses[from].1) && "id" !in cmds.entries[u].args)
    ensures var u := statuses[from].0; var st := statuses[from].1;
      RunStatuses(cmds, statuses, from, failures)
        == RunStatuses(Pop(cmds, u), statuses, from + 1, if st.Error? then failures + [(u, st)] else failures)
  {
  }

  /** The fields of every entity in `fm` after one acknowledgement. */
  function RefreshAll(fm: map<Entity, map<string, Value>>, c: Command, st: Status): (r: map<Entity, map<string, Value>>)
    ensures r.Keys == fm.Keys
    ensures forall e :: e in fm ==> r[e] == Refreshed(e, fm[e], c, st)
  {
    map e | e in fm :: Refreshed(e, fm[e], c, st)
  }

  /**
   * The loop's bookkeeping for the linked entities: for each, running the rest
   * of the loop on its current fields `fm` ends with its `final` fields.
   */
  ghost predicate Tracks(
    linked: set<Entity>, final: map<Entity, map<string, Value>>,
    fm: map<Entity, map<string, Value>>, cmds: Dict<Command>, statuses: seq<(string, Status)>, from: nat)
    requires Valid(cmds) && from <= |statuses|
  {
    forall e :: e in linked ==> e in final && e in fm && final[e] == FieldsAfter(e, fm[e], cmds, statuses, from)
  }

  /** The fields each of `linked` ends with once the loop has run from the start on `start`. */
  lemma FinalFields(linked: set<Entity>, start: map<Entity, map<string, Value>>, cmds: Dict<Command>, statuses: seq<(string, Status)>)
    returns (final: map<Entity, map<string, Value>>)
    requires Valid(cmds) && linked <= start.Keys
    ensures forall e :: e in linked ==> e in final && final[e] == FieldsAfter(e, start[e], cmds, statuses, 0)
  {
    final := map e | e in linked :: FieldsAfter(e, start[e], cmds, statuses, 0);
  }

  lemma TrackStep(
    linked: set<Entity>, final: map<Entity, map<string, Value>>,
    fm: map<Entity, map<string, Value>>, cmds: Dict<Command>, statuses: seq<(string, Status)>, from: nat)
    requires Valid(cmds) && from < |statuses|
    requires var u := statuses[from].0;
      u in cmds.entries && !(Applies(cmds.entries[u], statuses[from].1) && "id" !in cmds.entries[u].args)
    requires Tracks(linked, final, fm, cmds, statuses, from)
    ensures var u := statuses[from].0;
      Tracks(linked, final, RefreshAll(fm, cmds.entries[u], statuses[from].1), Pop(cmds, u), statuses, from + 1)
  {
    FieldsStep(cmds, statuses, from);
  }

  /** Where the loop ends or raises at position `from`, the tracked fields are final. */
  lemma TrackStop(
    linked: set<Entity>, final: map<Entity, map<string, Value>>,
    fm: map<Entity, map<string, Value>>, cmds: Dict<Command>, statuses: seq<(string, Status)>, from: nat)
    requires Valid(cmds) && from <= |statuses|
    requires from < |statuses| ==> var u := statuses[from].0;
      u !in cmds.entries || (Applies(cmds.entries[u], statuses[from].1) && "id" !in cmds.entries[u].args)
    requires Tracks(linked, final, fm, cmds, statuses, from)
    ensures forall e :: e in linked ==> e in final && e in fm && final[e] == fm[e]
  {
    if from < |statuses| {
      FieldsStop(cmds, statuses, from);
    }
  }

  /** An entity not waiting in the temp-id table keeps its id through the loop over `temp_id_mapping`. */
  lemma {:induction false} IdAfterUntouched(e: Entity, id0: Option<Id>, temp: map<string, Entity>, mapping: seq<(string, string)>, from: nat)
    requires from <= |mapping| && e !in temp.Values
    ensures IdAfter(e, id0, temp, mapping, from) == id0
    decreases |mapping| - from
  {
    if from < |mapping| && mapping[from].0 in temp {
      var t := mapping[from].0;
      assert (temp - {t}).Values <= temp.Values;
      IdAfterUntouched(e, id0, temp - {t}, mapping, from + 1);
    }
  }

  /** `_update_item`: copy the command's args, minus `id`, onto its item. */
  method UpdateItem(c: Command) returns (o: Outcome<CommitError>)
    requires c.item.Some?
    modifies c.item.value`fields
    ensures "id" in c.args ==> o == Pass && c.item.value.fields == old(c.item.value.fields) + (c.args - {"id"})
    ensures "id" !in c.args ==> o == Fail(MissingIdArg(c.uuid)) && c.item.value.fields == old(c.item.value.fields)
  {
    if "id" !in c.args {
      return Fail(MissingIdArg(c.uuid));
    }
    var values := c.args - {"id"};
    c.item.value.fields := c.item.value.fields + values;
    return Pass;
  }

  /** Every command is queued under its own uuid. */
  ghost predicate KeyedByUuid(cmds: Dict<Command>) {
    forall u :: u in cmds.entries ==> cmds.entries[u].uuid == u
  }

  /** Every waiting entity is registered under its own temp id, so no entity waits under two keys. */
  ghost predicate KeyedByTempId(temp: map<string, Entity>) {
    forall t :: t in temp ==> temp[t].tempId == Some(t)
  }

  /** Registering an item under its own temp id keeps every entity under its own temp id. */
  lemma RegisterKeyed(temp: map<string, Entity>, item: Option<Entity>)
    requires KeyedByTempId(temp)
    ensures KeyedByTempId(Registered(temp, item, TempKey(item)))
  {
  }

  /** Queuing a command under its uuid keeps every command under its own uuid. */
  lemma EnqueueKeyed(cmds: Dict<Command>, c: Command)
    requires OrderedDict.Valid(cmds) && KeyedByUuid(cmds)
    ensures KeyedByUuid(Put(cmds, c.uuid, c))
  {
  }

  /** Every command left in `cmds` was queued in `cmds0`, unchanged. */
  ghost predicate SubQueue(cmds: Dict<Command>, cmds0: Dict<Command>) {
    forall u :: u in cmds.entries ==> u in cmds0.entries && cmds.entries[u] == cmds0.entries[u]
  }

  lemma PopSubQueue(cmds: Dict<Command>, u: string, cmds0: Dict<Command>)
    requires OrderedDict.Valid(cmds) && SubQueue(cmds, cmds0)
    ensures SubQueue(Pop(cmds, u), cmds0)
  {
  }

  /** The module state of the command manager. */
  class CommandManager {
    var commands: Dict<Command>
    var tempItems: map<string, Entity>
    var syncToken: string
    var tokenFile: Option<TokenFile>

    /** The queue is a well-formed dict, and every command is queued under its own uuid. */
    ghost predicate Valid()
      reads this
    {
      && OrderedDict.Valid(commands)
      && KeyedByUuid(commands)
      && KeyedByTempId(tempItems)
    }

    /** The entities a commit may change: those linked to queued commands and those awaiting an id. */
    function Linked(): set<Entity>
      reads this
    {
      (set u | u in commands.entries && commands.entries[u].item.Some? :: commands.entries[u].item.value)
        + tempItems.Values
    }

    /** A fresh process: empty queue and table, the full-sync token, and whatever token file is on disk. */
    constructor (persisted: Option<TokenFile>)
      ensures Valid()
      ensures commands == Empty() && tempItems == map[] && syncToken == FullSyncToken && tokenFile == persisted
    {
      commands := Empty();
      tempItems := map[];
      syncToken := FullSyncToken;
      tokenFile := persisted;
    }

    /** `add_command`; `freshUuid` and `freshTempId` stand for the two `uuid4()` values it may draw. */
    method AddCommand(
      data: map<string, Value>, commandType: string, item: Option<Entity>, isUpdateCommand: bool,
      freshUuid: string, freshTempId: string)
      requires Valid()
      requires freshUuid !in commands.entries
      modifies this
      ensures Valid()
      ensures commands == Put(old(commands), freshUuid, NewCommand(data, commandType, item, isUpdateCommand, freshUuid, freshTempId))
      ensures commands.keys == old(commands.keys) + [freshUuid]
      ensures forall u :: u in old(commands.entries) ==> commands.entries[u] == old(commands.entries[u])
      ensures tempItems == Registered(old(tempItems), item, TempKey(item))
      ensures syncToken == old(syncToken) && tokenFile == old(tokenFile)
    {
      var registered := tempItems;
      if item.Some? && item.value.tempId.Some? && item.value.tempId.value != "" {
        registered := registered[item.value.tempId.value := item.value];
      }
      RegisterKeyed(tempItems, item);
      var command := NewCommand(data, commandType, item, isUpdateCommand, freshUuid, freshTempId);
      EnqueueKeyed(commands, command);
      commands, tempItems := Put(commands, command.uuid, command), registered;
    }

    /** The token part of `post`: a reply that carries a token replaces the current one. */
    method AcceptToken(replyToken: Option<string>)
      modifies this
      ensures syncToken == replyToken.GetOr(old(syncToken))
      ensures commands == old(commands) && tempItems == old(tempItems) && tokenFile == old(tokenFile)
    {
      if replyToken.Some? {
        syncToken := replyToken.value;
      }
    }

    /** `read_sync_token`. */
    method ReadSyncToken()
      modifies this
      ensures syncToken == StoredToken(tokenFile)
      ensures commands == old(commands) && tempItems == old(tempItems) && tokenFile == old(tokenFile)
    {
      match tokenFile
      case None =>
        syncToken := FullSyncToken;
      case Some(file) =>
        syncToken := file.syncToken.GetOr(FullSyncToken);
    }

    /** `write_sync_token`: reading the file back yields the current token. */
    method WriteSyncToken()
      modifies this
      ensures tokenFile == Some(TokenFile(Some(syncToken)))
      ensures StoredToken(tokenFile) == syncToken
      ensures commands == old(commands) && tempItems == old(tempItems) && syncToken == old(syncToken)
    {
      tokenFile := Some(TokenFile(Some(syncToken)));
    }

    /** The item linked to the command queued under `u`, if any: the one entity acknowledging `u` may change. */
    function ItemOf(u: string): set<Entity>
      reads this
    {
      if u in commands.entries && commands.entries[u].item.Some? then {commands.entries[u].item.value} else {}
    }

    /**
     * One pass of the loop over `sync_status`: pop the command acknowledged
     * under `u` (a `KeyError` if there is none) and, when it applies, copy its
     * args onto its item (a `KeyError` if it has no `id` arg).
     */
    method Acknowledge(u: string, st: Status, ghost linked: set<Entity>, ghost now: map<Entity, map<string, Value>>)
      returns (raised: Option<CommitError>)
      requires Valid()
      requires ItemOf(u) <= linked && now.Keys == linked && forall e :: e in linked ==> e.fields == now[e]
      modifies this, ItemOf(u)`fields
      ensures Valid()
      ensures raised.None? ==> u in old(commands.entries)
      ensures raised.None? ==> forall e :: e in linked ==> e.fields == RefreshAll(now, old(commands.entries[u]), st)[e]
      ensures raised.Some? ==> forall e :: e in linked ==> e.fields == now[e]
      ensures u !in old(commands.entries) ==> raised == Some(UnknownCommand(u)) && commands == old(commands)
      ensures u in old(commands.entries) ==> commands == Pop(old(commands), u)
      ensures u in old(commands.entries) ==> var c := old(commands.entries[u]);
        && raised == (if Applies(c, st) && "id" !in c.args then Some(MissingIdArg(u)) else None)
        && (c.item.Some? ==> c.item.value.fields == if raised.None? then Refreshed(c.item.value, old(c.item.value.fields), c, st) else old(c.item.value.fields))
      ensures tempItems == old(tempItems) && syncToken == old(syncToken) && tokenFile == old(tokenFile)
    {
      if u !in commands.entries {
        return Some(UnknownCommand(u));
      }
      var command := commands.entries[u];
      commands := Pop(commands, u);
      raised := None;
      if st == Ok && command.item.Some? && command.isUpdateCommand {
        var o := UpdateItem(command);
        if o.Fail? {
          raised := Some(o.error);
        }
      }
    }

    /** A command still queued from `cmds0` is linked, if at all, to an entity linked in `cmds0`. */
    lemma LinkedOfSubQueue(u: string, cmds0: Dict<Command>, linked: set<Entity>)
      requires SubQueue(commands, cmds0)
      requires forall v :: v in cmds0.entries && cmds0.entries[v].item.Some? ==> cmds0.entries[v].item.value in linked
      ensures ItemOf(u) <= linked
    {
    }

    /**
     * One pass of the loop over `sync_status` at position `i`, carrying the
     * loop's bookkeeping forward: the rest of the loop from here ends where
     * it ended from position `i`.
     */
    method DrainStep(
      statuses: seq<(string, Status)>, i: nat, failures: seq<(string, Status)>,
      ghost linked: set<Entity>, ghost final: map<Entity, map<string, Value>>, ghost cmds0: Dict<Command>, ghost run: StatusRun)
      returns (raised: Option<CommitError>, collected: seq<(string, Status)>)
      requires Valid() && OrderedDict.Valid(cmds0) && i < |statuses|
      requires run == RunStatuses(commands, statuses, i, failures)
      requires SubQueue(commands, cmds0)
      requires forall v :: v in cmds0.entries && cmds0.entries[v].item.Some? ==> cmds0.entries[v].item.value in linked
      requires forall e :: e in linked ==> e in final && final[e] == FieldsAfter(e, e.fields, commands, statuses, i)
      modifies this, linked`fields
      ensures Valid() && SubQueue(commands, cmds0)
      ensures raised.Some? ==> run == StatusRun(commands, Failure(raised.value))
      ensures raised.Some? ==> forall e :: e in linked ==> e.fields == final[e]
      ensures raised.None? ==> run == RunStatuses(commands, statuses, i + 1, collected)
      ensures raised.None? ==> forall e :: e in linked ==> e in final && final[e] == FieldsAfter(e, e.fields, commands, statuses, i + 1)
      ensures tempItems == old(tempItems) && syncToken == old(syncToken) && tokenFile == old(tokenFile)
    {
      var u := statuses[i].0;
      var st := statuses[i].1;
      ghost var before := commands;
      ghost var now := map e: Entity | e in linked :: e.fields;
      LinkedOfSubQueue(u, cmds0, linked);
      raised := Acknowledge(u, st, linked, now);
      collected := failures;
      if raised.Some? {
        TrackStop(linked, final, now, before, statuses, i);
        return;
      }
      if st.Error? {
        collected := failures + [(u, st)];
      }
      TrackStep(linked, final, now, before, statuses, i);
      RunStep(before, statuses, i, failures);
      PopSubQueue(before, u, cmds0);
    }

    /** The loop of `commit` over `sync_status`. */
    method DrainStatuses(statuses: seq<(string, Status)>) returns (outcome: Result<seq<(string, Status)>, CommitError>)
      requires Valid()
      modifies this, Linked()`fields
      ensures Valid()
      ensures commands == RunStatuses(old(commands), statuses, 0, []).remaining
      ensures outcome == RunStatuses(old(commands), statuses, 0, []).outcome
      ensures forall e :: e in old(Linked()) ==> e.fields == FieldsAfter(e, old(e.fields), old(commands), statuses, 0)
      ensures tempItems == old(tempItems) && syncToken == old(syncToken) && tokenFile == old(tokenFile)
    {
      ghost var linked := Linked();
      ghost var cmds0 := commands;
      assert forall v :: v in cmds0.entries && cmds0.entries[v].item.Some? ==> cmds0.entries[v].item.value in linked;
      ghost var run := RunStatuses(commands, statuses, 0, []);
      // The fields each linked entity ends the loop with.
      ghost var final := FinalFields(linked, map e: Entity | e in linked :: e.fields, commands, statuses);
      var failures: seq<(string, Status)> := [];
      var i := 0;
      while i < |statuses|
        invariant 0 <= i <= |statuses|
        invariant Valid() && SubQueue(commands, cmds0)
        invariant run == RunStatuses(commands, statuses, i, failures)
        invariant forall e :: e in linked ==> e in final && final[e] == FieldsAfter(e, e.fields, commands, statuses, i)
        invariant tempItems == old(tempItems) && syncToken == old(syncToken) && tokenFile == old(tokenFile)
      {
        var raised;
        raised, failures := DrainStep(statuses, i, failures, linked, final, cmds0, run);
        if raised.Some? {
          return Failure(raised.value);
        }
        i := i + 1;
      }
      return Success(failures);
    }

    /** The loop of `commit` over `temp_id_mapping`. */
    method ResolveTemps(mapping: seq<(string, string)>) returns (missing: Option<string>)
      requires Valid()
      modifies this, tempItems.Values`id
      ensures Valid()
      ensures (tempItems, missing) == ResolveTempIds(old(tempItems), mapping, 0)
      ensures forall e :: e in old(tempItems.Values) ==> e.id == IdAfter(e, old(e.id), old(tempItems), mapping, 0)
      ensures commands == old(commands) && syncToken == old(syncToken) && tokenFile == old(tokenFile)
    {
      ghost var waiting := tempItems.Values;
      var j := 0;
      while j < |mapping|
        invariant 0 <= j <= |mapping|
        invariant tempItems.Values <= waiting
        invariant Valid()
        invariant ResolveTempIds(old(tempItems), mapping, 0) == ResolveTempIds(tempItems, mapping, j)
        invariant forall e :: e in waiting ==> IdAfter(e, old(e.id), old(tempItems), mapping, 0) == IdAfter(e, e.id, tempItems, mapping, j)
        invariant commands == old(commands) && syncToken == old(syncToken) && tokenFile == old(tokenFile)
      {
        var t := mapping[j].0;
        if t !in tempItems {
          return Some(t);
        }
        var item := tempItems[t];
        item.id := Some(StrId(mapping[j].1));
        tempItems := tempItems - {t};
        j := j + 1;
      }
      return None;
    }

    /**
     * `commit`: the queue, the table and the linked entities end up as `RunCommit`,
     * `FieldsAfterCommit` and `IdAfterCommit` say, and the token advances as soon
     * as the server has answered, even when the commit then raises.
     */
    method Commit(exchange: Exchange<CommitReply>) returns (r: Result<CommitReply, CommitError>)
      requires Valid()
      modifies this, Linked()`fields, Linked()`id
      ensures Valid()
      ensures r == RunCommit(old(commands), old(tempItems), exchange).result
      ensures commands == RunCommit(old(commands), old(tempItems), exchange).remaining
      ensures tempItems == RunCommit(old(commands), old(tempItems), exchange).tempItems
      ensures forall e :: e in old(Linked()) ==> e.fields == FieldsAfterCommit(e, old(e.fields), old(commands), exchange)
      ensures forall e :: e in old(Linked()) ==> e.id == IdAfterCommit(e, old(e.id), old(commands), old(tempItems), exchange)
      ensures syncToken == (if exchange.Answered? then exchange.reply.syncToken.GetOr(old(syncToken)) else old(syncToken))
      ensures tokenFile == old(tokenFile)
    {
      if exchange.TransportFailure? {
        return Failure(TransportError);
      }
      var reply := exchange.reply;
      AcceptToken(reply.syncToken);
      if reply.syncStatus.None? {
        return Failure(MissingKey("sync_status"));
      }
      var outcome := DrainStatuses(reply.syncStatus.value);
      if outcome.Failure? {
        return Failure(outcome.error);
      }
      if outcome.value != [] {
        return Failure(SyncErrors(outcome.value));
      }
      if reply.tempIdMapping.None? {
        return Failure(MissingKey("temp_id_mapping"));
      }
      var missing := ResolveTemps(reply.tempIdMapping.value);
      forall e | e in old(Linked()) && e !in old(tempItems.Values)
        ensures e.id == IdAfter(e, old(e.id), old(tempItems), reply.tempIdMapping.value, 0)
      {
        IdAfterUntouched(e, old(e.id), old(tempItems), reply.tempIdMapping.value, 0);
      }
      if missing.Some? {
        return Failure(UnknownTempId(missing.value));
      }
      return Success(reply.(syncToken := None));
    }
  }
}
