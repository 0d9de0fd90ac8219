# synctodoist core, modelled in Dafny

This project models the synchronisation engine of `synctodoist`, a client for
Todoist's Sync v9 API. The engine has three parts:

- **Command manager.** Module state holding the command queue (`commands`), the temp-id table (`temp_items`) and `SYNC_TOKEN`. It provides `add_command`, the token handling of `post`, `read_sync_token` and `write_sync_token`, and `commit`. `commit` pushes the queue and interprets the server's `sync_status` and `temp_id_mapping`.
- **Per-type stores (`BaseManager`).** A dict from id string to a live entity. Each store has:
  - its reconciliation after a pull (`_dict_update`, then `_remove_deleted`);
  - its cache file (`_read_cache`, `_write_cache`);
  - the lookups `get` and `find`;
  - the operations `add`, `delete` and `update`, which enqueue commands.

  The section and reminder stores override `delete`.
- **The client object (`TodoistAPI`).** It has one store per resource kind, all sharing the one queue. `sync` loads the token and the caches, pulls, merges and reconciles every store in turn, and then persists the caches and the token. `add` dispatches by the item's kind. `commit` pushes and then pulls.

How the source is represented:

- **Entities.** Entities are objects (`Models.Entity`) whose `id` and `fields` are updated in place. This matters because the queue, the temp-id table and the stores all hold references to the same objects.
- **Dicts.** Python dicts are `OrderedDict.Dict` values: a key sequence plus a map, so insertion order is kept. The order affects `find`, the order in which commands are queued, and the full-sync copy in `_remove_deleted`.
- **Network replies.** A network reply is an `Exchange` parameter: either the transport failed, or the server answered with a reply. The reply's keys may be missing, and each `KeyError` the source would raise is modelled as an error result.
- **Model configuration.** In this revision, only `label.py` and `project.py` declare a `Config` class with command names (and, for projects, `api_get` at `project.py:26`). `task.py`, `section.py` and `reminder.py` declare `cache_label` and `todoist_name` as plain attributes. The managers nevertheless read `Config.command_add`, `command_update` and `command_delete` for every kind (`base_manager.py:147`), and `Config.api_get` for tasks (`task_manager.py:24`). The model follows the managers: every kind uses the commands `<todoist_name>_add`, `_update` and `_delete`, and tasks have an `api_get` fallback as projects do. Labels, sections and reminders have none.
- **Wiring between files.** The client calls the stores' `update`, `remove_deleted`, `read_cache` and `write_cache`, but `BaseManager` names these `_dict_update`, `_remove_deleted`, `_read_cache` and `_write_cache`. The model wires the client to those `BaseManager` operations. Likewise, `post` and `commit` are modelled with the signatures `command_manager.py` gives them; the client passes them an extra API-key argument.

The modules are:

- `Wrappers`: `Option` and `Result`.
- `OrderedDict`: insertion-ordered dicts.
- `Decimal`: `str(int)` and `int(str)`.
- `Models`: entities, records and kinds.
- `Commands`: the command manager.
- `CommitProperties`: what a commit promises.
- `Stores`: `BaseManager`.
- `Api`: `TodoistAPI`.
- `SectionManager` and `ReminderManager`: the two overridden `delete` operations.

## Model

| member | source | states |
|---|---|---|
| Commands.StoredToken | synctodoist/managers/command_manager.py:132-141 | no token file, or a file without a token, gives the full-sync token `*`; otherwise the file's token |
| Commands.NewCommand | synctodoist/managers/command_manager.py:37-42 | the command's temp id is `data["temp_id"]` when present, else the fresh one; `temp_id` is removed from the args and every other key is kept; `item` is kept and `is_update_command` holds only when an item was given and the flag was set |
| Commands.TempKey | synctodoist/managers/command_manager.py:34 | an item is registered exactly when one is given and its temp id is set and non-empty, and under that temp id |
| Commands.RegisterKeyed | synctodoist/managers/command_manager.py:34-35 | registering keeps every waiting entity under its own temp id |
| Commands.EnqueueKeyed | synctodoist/managers/command_manager.py:44 | queuing a command under its uuid keeps every command under its own uuid |
| Commands.CommandManager.constructor | synctodoist/managers/command_manager.py:17-19 | an empty queue and table, the token `*`, and the token file as found on disk |
| Commands.CommandManager.AddCommand | synctodoist/managers/command_manager.py:25-44 | exactly one new command at the end of the queue under the fresh uuid; every earlier command unchanged; the linked item registered under its temp id; the token untouched |
| Commands.CommandManager.AcceptToken | synctodoist/managers/command_manager.py:68-69 | a reply carrying `sync_token` replaces the token; otherwise it is kept; the queue and table are untouched |
| Commands.CommandManager.ReadSyncToken | synctodoist/managers/command_manager.py:132-141 | the token becomes what the token file stores (`*` when there is no file or no key) |
| Commands.CommandManager.WriteSyncToken | synctodoist/managers/command_manager.py:123-129 | the file holds the current token, and reading it back yields that token |
| Commands.UpdateItem | synctodoist/managers/command_manager.py:83-86 | the item's fields become the old fields overridden by the args minus `id`; a command without an `id` arg raises and changes nothing |
| Commands.CommandManager.Acknowledge | synctodoist/managers/command_manager.py:104-110 | one status: an unknown uuid raises and leaves the queue; otherwise the command is popped whatever its status, and only an `ok` update command with an item refreshes that item |
| Commands.FieldsStep | synctodoist/managers/command_manager.py:104-110 | one acknowledgement that does not raise pops the command and refreshes only the entity that command links |
| Commands.RunStep | synctodoist/managers/command_manager.py:104-107 | one acknowledgement that does not raise pops the command and appends an error status to the collected errors |
| Commands.CommandManager.DrainStep | synctodoist/managers/command_manager.py:104-110 | one pass of the status loop carries the queue, the collected errors and every linked entity's fields forward to the rest of the loop |
| Commands.CommandManager.DrainStatuses | synctodoist/managers/command_manager.py:103-110 | the queue, the collected errors or the raised `KeyError`, and each linked entity's fields end as `RunStatuses`/`FieldsAfter` specify; the table and token untouched |
| Commands.IdAfterUntouched | synctodoist/managers/command_manager.py:115-118 | an entity that is not waiting in the temp-id table keeps its id through the mapping loop |
| Commands.CommandManager.ResolveTemps | synctodoist/managers/command_manager.py:115-118 | the table and each waiting entity's id end as `ResolveTempIds`/`IdAfter` specify; the first temp id missing from the table is reported |
| Commands.CommandManager.Commit | synctodoist/managers/command_manager.py:89-120 | the queue, the table, the result and every linked entity's fields and id are what `RunCommit`, `FieldsAfterCommit` and `IdAfterCommit` give; the token advances once the server has answered, even if the commit then raises |
| CommitProperties.ErrorsOfSound | synctodoist/managers/command_manager.py:106-107 | every collected error is an error status of the reply |
| CommitProperties.ErrorsOfEmpty | synctodoist/managers/command_manager.py:106-112 | nothing is collected exactly when no status is an error |
| CommitProperties.AckedQueued | synctodoist/managers/command_manager.py:104-105 | in a loop that runs to the end, every acknowledged uuid was queued |
| CommitProperties.DrainsRemaining | synctodoist/managers/command_manager.py:104-105 | in a loop that runs to the end, the queue loses exactly the acknowledged uuids, ok or error, and commands not mentioned stay |
| CommitProperties.DrainsErrors | synctodoist/managers/command_manager.py:103-107 | the collected errors are the reply's error statuses, in reply order |
| CommitProperties.DrainsExactly | synctodoist/managers/command_manager.py:103-107 | the three facts above together: acknowledged uuids were queued, exactly they leave, and the errors are collected in order |
| CommitProperties.FieldsUntouched | synctodoist/managers/command_manager.py:108-110 | an entity that no acknowledged `ok` update targets keeps its fields, whatever else is acknowledged |
| CommitProperties.FieldsOneUpdate | synctodoist/managers/command_manager.py:104-110 | an entity targeted by exactly one `ok` update ends with that command's args minus `id` over its fields, even when other commands failed |
| CommitProperties.ResolveComplete | synctodoist/managers/command_manager.py:115-118 | when every temp id is found, each named entity gets the server id and exactly the mapped temp ids leave the table |
| CommitProperties.CommitDrainsBeforeRaising | synctodoist/managers/command_manager.py:103-113 | when statuses carry errors, the commit raises them only after the queue has lost every acknowledged uuid, and the temp-id table is untouched |
| CommitProperties.CommitSucceeds | synctodoist/managers/command_manager.py:103-120 | a successful commit had no error status, drained exactly the acknowledged uuids, found every mapped temp id, gave each its server id and removed it from the table |
| Stores.ExtractParams | synctodoist/managers/base_manager.py:46-63 | an entity of the store's kind is linked and addressed by `str(id)`, or by its temp id while the id is falsy; an int gives its decimal string and a str itself, both unlinked; anything else raises |
| Stores.ExtractIntAsStr | synctodoist/managers/base_manager.py:57-60 | an int and its decimal string address the same item, and the address parses back to the int |
| Decimal.IntToStringRoundTrip | synctodoist/managers/base_manager.py:57-58 | `int(str(n)) == n` |
| Decimal.IntToStringInjective | synctodoist/managers/base_manager.py:57-58 | distinct int ids give distinct address strings |
| Stores.ResolveDeleteTarget | synctodoist/managers/section_manager.py:21-31 | neither a truthy id nor an object raises; an object of the kind wins and is addressed as `_extract_params` does; otherwise the id, with an int made a string |
| Stores.DeleteTargetPrefersObject | synctodoist/managers/section_manager.py:24-28 | with an object given, the id argument makes no difference |
| Stores.ReceivedIds | synctodoist/managers/base_manager.py:66 | exactly the ids of the received records |
| Stores.Latest | synctodoist/todoist_api.py:58 | a received record carrying the given id, and none exactly when that id was not received |
| Stores.LatestIsLast | synctodoist/todoist_api.py:58 | the record a dict built from the received list keeps for an id is the last one carrying it: no later record carries that id |
| Stores.MergeContents | synctodoist/todoist_api.py:58 | after the merge, a received id holds its last record and every other stored id what it held |
| Stores.ReconcileOnlyRemoves | synctodoist/managers/base_manager.py:65-76 | reconciliation only removes: its keys are a subset, in the same order, and no value changes |
| Stores.FullReconcileKeys | synctodoist/managers/base_manager.py:69-72 | a full-sync reconciliation keeps exactly the stored keys that were received |
| Stores.IncrementalReconcileKeys | synctodoist/managers/base_manager.py:73-74 | an incremental reconciliation keeps exactly the entries not flagged deleted |
| Stores.FullSyncExact | synctodoist/todoist_api.py:58-60 | after a full sync the store holds exactly the received ids, each with its last received record |
| Stores.IncrementalSyncContents | synctodoist/todoist_api.py:58-60 | after an incremental sync the store is the old one overridden by the received records, minus the tombstones; an id not received survives unless it already was one |
| Stores.LiveKeys | synctodoist/managers/base_manager.py:74 | the keys whose live entity is not flagged deleted are the live keys of the store's records |
| Stores.ReconcileSnapshots | synctodoist/managers/base_manager.py:65-76 | reconciling the live entities and then taking their records is reconciling the records |
| Stores.KeepInOrder | synctodoist/managers/base_manager.py:69-72 | the copying loop builds exactly the restriction of the store to the accepted keys, in store order |
| Stores.KeepReconciled | synctodoist/managers/base_manager.py:65-76 | the new dict is the store restricted to the received ids (full) or to the live keys (incremental), and its records are `Reconcile` of the old ones |
| Stores.PutAllFresh | synctodoist/todoist_api.py:58 | storing each received record as a fresh entity under its id leaves records equal to `Merge` of the old ones |
| Stores.Stored | synctodoist/managers/base_manager.py:92 | a written record keeps id, temp id and deletion flag, and drops exactly the fields holding `None` |
| Stores.StoredAll | synctodoist/managers/base_manager.py:90-93 | every entry is written under its key, in order, without its `None` fields |
| Stores.StoredAllIdempotent | synctodoist/managers/base_manager.py:78-96 | writing back what was read from a cache writes the same data again |
| Stores.Matching | synctodoist/managers/base_manager.py:131-143 | the matches are exactly the entities whose field is a string the pattern matches, and never more than the store holds |
| Stores.FirstStop | synctodoist/managers/base_manager.py:133-136 | the walk without `return_all` stops at the first entity whose field is not a string (the source raises there) or matches; every entity before it is a string that does not match |
| Stores.MatchingFirst | synctodoist/managers/base_manager.py:133-136 | the first entity that matches when no earlier one did is the first of all matches |
| Stores.BaseManager.constructor | synctodoist/managers/base_manager.py:23-25 | an empty store of the given kind over the cache file found on disk |
| Stores.BaseManager.DictUpdate | synctodoist/managers/base_manager.py:31-32 | the store's records become `Merge` of the old ones with the received records; the cache file is untouched |
| Stores.BaseManager.RemoveDeleted | synctodoist/managers/base_manager.py:65-76 | the store becomes its restriction to the received ids (full) or to its live keys (incremental), and its records are `Reconcile` of the old ones |
| Stores.BaseManager.ReadCache | synctodoist/managers/base_manager.py:78-86 | no cache file leaves the store as it is; a file replaces it wholesale with fresh entities holding the file's records |
| Stores.BaseManager.WriteCache | synctodoist/managers/base_manager.py:88-96 | the file is named by the kind's cache label and holds every entry without its `None` fields; the store is untouched |
| Stores.BaseManager.Get | synctodoist/managers/base_manager.py:101-116 | a stored `str(item_id)` gives its entity; a miss gives `None` when the kind has `api_get` and raises otherwise |
| Stores.FindIn | synctodoist/managers/base_manager.py:131-143 | the loop of `find` over the store's values: the outcomes that `Find` states, for any sequence of entities |
| Stores.BaseManager.Find | synctodoist/managers/base_manager.py:118-143 | with `return_all`: all matches in store order, possibly none, when every entity's field is a string, and an error when some entity's field is missing or not a string. Without it: the outcome at the walk's first stop, which is the match there, or the error for a field that is not a string, or the not-found error when the walk reaches the end. A returned match is the first of all matches, and not-found means nothing matches |
| Stores.BaseManager.Add | synctodoist/managers/base_manager.py:145-147 | one `<kind>_add` command whose args are the entity's payload, linked to the entity but not as an update, and the entity registered under its temp id |
| Stores.BaseManager.Delete | synctodoist/managers/base_manager.py:149-160 | an unusable argument raises and enqueues nothing; otherwise exactly one `<kind>_delete` command with args `{"id": item_id}` and no linkage, the table untouched |
| Stores.UpdateArgs | synctodoist/managers/base_manager.py:172 | `id` is the resolved item id; every other key is the updated entity's payload without its id, so no other key carries `None` |
| Stores.BaseManager.Update | synctodoist/managers/base_manager.py:162-173 | an unusable argument raises and enqueues nothing; otherwise exactly one `<kind>_update` command with `{"id": item_id}` plus the new payload, linked as an update to the target entity when one was given |
| Models.Payload | synctodoist/managers/base_manager.py:147 | the payload holds exactly the schema fields that are neither `None` nor their kind's declared default, with their values; `id` and `temp_id` exactly when set; `is_deleted` exactly when true; no value is `None` |
| Models.KindOfLabel | synctodoist/todoist_api.py:188-189 | a manager name leads to the kind whose cache label it is, and no name outside the five leads anywhere |
| Models.CacheLabelDispatch | synctodoist/todoist_api.py:187-190 | every kind's cache label leads back to that kind and to no other |
| Api.FirstMissing | synctodoist/todoist_api.py:54-60 | the position of the first kind whose record array the reply lacks; every earlier kind's array is present |
| Api.PullSucceeds | synctodoist/todoist_api.py:52-66 | `sync` succeeds exactly when the server answered with `full_sync` and every record array, and then returns the server's `full_sync`, not the caller's |
| Api.PullSyncsEveryStore | synctodoist/todoist_api.py:54-60 | after a successful pull every store is its loaded contents merged with, then reconciled against, its own record array using the reply's `full_sync` |
| Api.FullPullExact | synctodoist/todoist_api.py:58-60 | after a successful full pull every store holds exactly the ids received for its kind, each with its last record |
| Api.FailedPullStops | synctodoist/todoist_api.py:54-60 | a failed pull leaves the store where it failed, and every later store, as loaded; only the first store can be left merged and not reconciled |
| Api.CompletedPull | synctodoist/todoist_api.py:54-66 | a loop that got through every kind returns the server's `full_sync` and leaves each store as `PulledStore` says |
| Api.StoppedPull | synctodoist/todoist_api.py:54-60 | a loop that raised at a kind raised the `KeyError` of the missing key, with the earlier stores reconciled |
| Api.PullKind | synctodoist/todoist_api.py:58-60 | a missing record array raises before the store changes; a missing `full_sync` raises after the merge; otherwise the store is merged and reconciled |
| Api.TodoistAPI.constructor | synctodoist/todoist_api.py:15-25 | one empty store per kind, each of its own kind and over its own cache file, all sharing the queue; not yet synced |
| Api.TodoistAPI.ReadStep | synctodoist/todoist_api.py:36-37 | one store reads its cache; every other store is unchanged |
| Api.TodoistAPI.ReadAllCaches | synctodoist/todoist_api.py:34-37 | every store becomes what its own `_read_cache` leaves |
| Api.TodoistAPI.WriteStep | synctodoist/todoist_api.py:31-32 | one store writes its cache; every store's contents unchanged |
| Api.TodoistAPI.WriteAllCaches | synctodoist/todoist_api.py:29-32 | every store's cache file holds its records without `None` fields; no store's contents change |
| Api.TodoistAPI.LoadStores | synctodoist/todoist_api.py:46-49 | an incremental sync reloads the token from its file and a full sync keeps the in-memory token; then every store holds what its cache gives |
| Api.TodoistAPI.PullStep | synctodoist/todoist_api.py:55-60 | one pass of the pull loop handles one store, or raises the key it misses, leaving the others alone |
| Api.TodoistAPI.Advanced | synctodoist/todoist_api.py:54-60 | a pass that did not raise moves the loop's progress by one store |
| Api.TodoistAPI.Stopped | synctodoist/todoist_api.py:54-60 | where a pass raised, the stores and the error are those `PulledStore` and `PullResult` give |
| Api.TodoistAPI.PullAll | synctodoist/todoist_api.py:54-60 | the loop leaves every store as `PulledStore` says, and raises exactly what `PullResult` says |
| Api.TodoistAPI.Persist | synctodoist/todoist_api.py:62-63 | every cache file, then the token file, is written; the stores and the token are unchanged |
| Api.TodoistAPI.Sync | synctodoist/todoist_api.py:40-66 | stores as `PulledStore` of what the caches loaded; the token sent is the file's (incremental) or the current one (full); the reply's token is adopted once the server answers; caches, token file and `synced` change only when every store was handled; the result is the server's `full_sync` |
| Api.TodoistAPI.Add | synctodoist/todoist_api.py:180-190 | the item is added by the store of its own kind, as `BaseManager.add` does |
| Api.TodoistAPI.PullAfterCommit | synctodoist/todoist_api.py:268 | the incremental pull after a push sends the token in the token file and keeps it unless the server answers with a new one; it changes no entity linked to the queue, and leaves the queue and table alone |
| Api.TodoistAPI.Commit | synctodoist/todoist_api.py:264-269 | the push runs as `CommandManager.Commit` says. A raising push skips the pull: the stores' contents, caches and token file are untouched, and the token is the push reply's new token, if any, else the old one. Otherwise the pull runs: the token is the pull reply's token, else the one in the token file, even when the pull's transport fails; the pull's failure replaces the push's result |
| SectionManager.Delete | synctodoist/managers/section_manager.py:11-33 | neither an id nor an object raises and enqueues nothing; otherwise exactly one `section_delete` command with args `{"id": target}` and no linkage; the table untouched |
| ReminderManager.Delete | synctodoist/managers/reminder_manager.py:11-33 | neither an id nor an object raises and enqueues nothing; otherwise exactly one `reminder_delete` command with args `{"id": target}` and no linkage; the table untouched |
| OrderedDict.Put | synctodoist/managers/command_manager.py:44 | `d[k] = v`: a new key goes to the end, an existing key keeps its place |
| OrderedDict.Pop | synctodoist/managers/command_manager.py:105 | `d.pop(k)` on a present key removes exactly that entry |
| OrderedDict.Restrict | synctodoist/managers/base_manager.py:74 | a filtering comprehension keeps exactly the accepted keys, in order, with their values |

## Left out

- HTTP transport (`post`, `get`, headers, `raise_for_status`) and the JSON encoding of requests. A reply, or a transport failure, is a parameter of `commit` and `sync`. The request body is not modelled beyond the token it sends.
- File I/O for the caches and the token file. Each file is a value held by its owner (`BaseManager.cache`, `CommandManager.tokenFile`). `mkdir`, the `cache_dir` setting and the API key are not modelled.
- `uuid4()`: the fresh uuid and fresh temp id are parameters. Callers must pass a uuid not already queued.
- The `full_sync_count` and `partial_sync_count` counters, which are telemetry only.
- The remote fallbacks of `get_by_id` in the task and project stores, `get_stats`, and the convenience wrappers of `TodoistAPI`. `get` reports whether a remote fallback exists (`api_get`); it does not call one.
- Regex matching in `find`: the compiled pattern is an abstract predicate on the field's text.
- Stores.BaseManager.Find: `getattr` also finds the class-level attributes of a model (`cache_label`, `todoist_name`, `todoist_field_name`); the model treats a search on one of those as a search on a missing field.
- Pydantic validation and serialisation details. `refresh` is modelled as overriding the entity's fields with the given values. A record read from the server or from a cache gets no fresh temp id here, although the model's default factory would mint one.
- Models.Payload: a nested value (`Value.Json`, such as a task's `due`) is written whole; the defaults inside it (`is_recurring=False`) are not dropped.
- Nested JSON values inside fields are opaque (`Value.Json`). `sync_status` and `temp_id_mapping` are sequences of pairs in reply order; a JSON object with repeated keys is not distinguished from one without.
- `Stores.PutAllFresh`: the dict comprehension and `dict.update` are modelled as storing the records one at a time, which gives the same final dict.
- `SectionManager.Delete` and `ReminderManager.Delete` act on a `BaseManager` of their kind; subclassing is not modelled.
- Api.TodoistAPI.Commit: after a successful push, the contract does not state the stores' contents after the pull. `Sync` states them, but the push may change the fields of stored entities, so relating them to the stores before the commit is not attempted.
