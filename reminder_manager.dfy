/**
 * The reminder store's own `delete`, which replaces the shared one: it takes
 * either an id or a Reminder object, and enqueues `reminder_delete` with the
 * object's address or the id, never linking the command to an entity.
 */
module ReminderManager {
  import opened Wrappers
  import opened OrderedDict
  import opened Models
  import opened Commands
  import opened Stores

  /**
   * `delete` on the reminder store `m`: neither an id nor an object raises and
   * enqueues nothing; otherwise `{"id": target}` is enqueued as a
   * `reminder_delete` command carrying no item, so the temp-id table is
   * untouched.
   */
  method Delete(m: BaseManager, id: IdArg, obj: Option<Entity>, freshUuid: string, freshTempId: string)
    returns (o: Outcome<StoreError>)
    requires m.kind == Reminder
    requires m.queue.Valid()
    requires freshUuid !in m.queue.commands.entries
    modifies m.queue
    ensures m.queue.Valid()
    ensures o.Fail? <==> !ArgTruthy(id) && obj.None?
    ensures o.Fail? ==> o.error == MissingArgument && m.queue.commands == old(m.queue.commands)
    ensures o.Pass? ==> m.queue.commands == Put(old(m.queue.commands), freshUuid,
      NewCommand(map["id" := old(ResolveDeleteTarget(Reminder, id, obj)).value], CommandDelete(Reminder), None, false, freshUuid, freshTempId))
    ensures m.queue.tempItems == old(m.queue.tempItems)
    ensures m.queue.syncToken == old(m.queue.syncToken) && m.queue.tokenFile == old(m.queue.tokenFile)
  {
    var target := ResolveDeleteTarget(Reminder, id, obj);
    if target.Failure? {
      return Fail(target.error);
    }
    assert CommandDelete(Reminder) == "reminder_delete";
    m.queue.AddCommand(map["id" := target.value], "reminder_delete", None, false, freshUuid, freshTempId);
    return Pass;
  }
}
