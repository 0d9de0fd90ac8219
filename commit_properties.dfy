/**
 * What a commit promises, stated on the functions that specify
 * `CommandManager.Commit`: every acknowledged command leaves the queue and no
 * other does, errors are raised only after the whole acknowledgement loop,
 * an `"ok"` update reaches its entity and nothing else does, and on success
 * every temp id in the reply is resolved and leaves the table.
 */
module CommitProperties {
  import opened Wrappers
  import opened OrderedDict
  import opened Models
  import opened Commands

  /** The uuids acknowledged from position `from` on. */
  function Acked(statuses: seq<(string, Status)>, from: nat): set<string> {
    set j | from <= j < |statuses| :: statuses[j].0
  }

  /** The error statuses from position `from` on, in reply order. */
  function ErrorsOf(statuses: seq<(string, Status)>, from: nat): seq<(string, Status)>
    requires from <= |statuses|
    decreases |statuses| - from
  {
    if from == |statuses| then []
    else if statuses[from].1.Error? then [statuses[from]] + ErrorsOf(statuses, from + 1)
    else ErrorsOf(statuses, from + 1)
  }

  /** Every collected error is an error status of the reply. */
  lemma {:induction false} ErrorsOfSound(statuses: seq<(string, Status)>, from: nat)
    requires from <= |statuses|
    ensures forall x :: x in ErrorsOf(statuses, from) ==> x.1.Error? && x in statuses[from..]
    decreases |statuses| - from
  {
    if from < |statuses| {
      ErrorsOfSound(statuses, from + 1);
      assert statuses[from..] == [statuses[from]] + statuses[from + 1..];
    }
  }

  /** Some status from position `from` on is an error exactly when errors are collected. */
  lemma {:induction false} ErrorsOfEmpty(statuses: seq<(string, Status)>, from: nat)
    requires from <= |statuses|
    ensures ErrorsOf(statuses, from) == [] <==> forall j :: from <= j < |statuses| ==> !statuses[j].1.Error?
    decreases |statuses| - from
  {
    if from < |statuses| {
      ErrorsOfEmpty(statuses, from + 1);
    }
  }

  /** One acknowledgement of a loop that runs to the end: the uuid was queued, its command does not raise, and the rest runs to the end. */
  lemma AckStep(cmds: Dict<Command>, statuses: seq<(string, Status)>, from: nat, failures: seq<(string, Status)>)
    requires OrderedDict.Valid(cmds) && from < |statuses|
    requires RunStatuses(cmds, statuses, from, failures).outcome.Success?
    ensures var u := statuses[from].0; var st := statuses[from].1;
      && u in cmds.entries && !(Applies(cmds.entries[u], st) && "id" !in cmds.entries[u].args)
      && RunStatuses(cmds, statuses, from, failures)
         == RunStatuses(Pop(cmds, u), statuses, from + 1, if st.Error? then failures + [(u, st)] else failures)
  {
  }

  lemma AckedStep(statuses: seq<(string, Status)>, from: nat)
    requires from < |statuses|
    ensures Acked(statuses, from) == {statuses[from].0} + Acked(statuses, from + 1)
  {
  }

  /** Removing one key and then a set of keys removes their union. */
  lemma RemoveStep<V>(m: map<string, V>, u: string, rest: set<string>)
    ensures (m - {u}) - rest == m - ({u} + rest)
  {
  }

  /** In a loop that runs to the end, every acknowledged uuid is queued when the loop reaches it. */
  lemma {:induction false} AckedQueued(
    cmds: Dict<Command>, statuses: seq<(string, Status)>, from: nat, failures: seq<(string, Status)>, j: nat)
    requires OrderedDict.Valid(cmds) && from <= j < |statuses|
    requires RunStatuses(cmds, statuses, from, failures).outcome.Success?
    ensures statuses[j].0 in cmds.entries
    decreases |statuses| - from
  {
    AckStep(cmds, statuses, from, failures);
    if from < j {
      var st := statuses[from].1;
      AckedQueued(Pop(cmds, statuses[from].0), statuses, from + 1,
        if st.Error? then failures + [(statuses[from].0, st)] else failures, j);
    }
  }

  /** In a loop that runs to the end, exactly the acknowledged commands leave the queue. */
  lemma {:induction false} DrainsRemaining(
    cmds: Dict<Command>, statuses: seq<(string, Status)>, from: nat, failures: seq<(string, Status)>)
    requires OrderedDict.Valid(cmds) && from <= |statuses|
    requires RunStatuses(cmds, statuses, from, failures).outcome.Success?
    ensures RunStatuses(cmds, statuses, from, failures).remaining.entries == cmds.entries - Acked(statuses, from)
    decreases |statuses| - from
  {
    if from == |statuses| {
      assert Acked(statuses, from) == {};
    } else {
      var u := statuses[from].0;
      var st := statuses[from].1;
      AckStep(cmds, statuses, from, failures);
      DrainsRemaining(Pop(cmds, u), statuses, from + 1, if st.Error? then failures + [(u, st)] else failures);
      AckedStep(statuses, from);
      RemoveStep(cmds.entries, u, Acked(statuses, from + 1));
    }
  }

  lemma Associative<T>(a: seq<T>, b: seq<T>, c: seq<T>)
    ensures a + b + c == a + (b + c)
  {
  }

  /** In a loop that runs to the end, the collected errors are the error statuses in reply order. */
  lemma {:induction false} DrainsErrors(
    cmds: Dict<Command>, statuses: seq<(string, Status)>, from: nat, failures: seq<(string, Status)>)
    requires OrderedDict.Valid(cmds) && from <= |statuses|
    requires RunStatuses(cmds, statuses, from, failures).outcome.Success?
    ensures RunStatuses(cmds, statuses, from, failures).outcome.value == failures + ErrorsOf(statuses, from)
    decreases |statuses| - from
  {
    if from < |statuses| {
      var u := statuses[from].0;
      var st := statuses[from].1;
      var collected := if st.Error? then failures + [(u, st)] else failures;
      var rest := ErrorsOf(statuses, from + 1);
      AckStep(cmds, statuses, from, failures);
      DrainsErrors(Pop(cmds, u), statuses, from + 1, collected);
      assert RunStatuses(cmds, statuses, from, failures).outcome.value == collected + rest;
      if st.Error? {
        assert ErrorsOf(statuses, from) == [(u, st)] + rest;
        Associative(failures, [(u, st)], rest);
      }
    }
  }

  /**
   * When the loop over `sync_status` runs to the end, exactly the acknowledged
   * commands have left the queue, whatever their status, every acknowledged
   * uuid was queued, and the collected errors are the error statuses in order.
   */
  lemma DrainsExactly(
    cmds: Dict<Command>, statuses: seq<(string, Status)>, from: nat, failures: seq<(string, Status)>)
    requires OrderedDict.Valid(cmds) && from <= |statuses|
    requires RunStatuses(cmds, statuses, from, failures).outcome.Success?
    ensures Acked(statuses, from) <= cmds.entries.Keys
    ensures RunStatuses(cmds, statuses, from, failures).remaining.entries == cmds.entries - Acked(statuses, from)
    ensures RunStatuses(cmds, statuses, from, failures).outcome.value == failures + ErrorsOf(statuses, from)
  {
    forall u | u in Acked(statuses, from) ensures u in cmds.entries {
      var j :| from <= j < |statuses| && statuses[j].0 == u;
      AckedQueued(cmds, statuses, from, failures, j);
    }
    DrainsRemaining(cmds, statuses, from, failures);
    DrainsErrors(cmds, statuses, from, failures);
  }

  /** No command acknowledged in positions `lo` to `hi` is an update that applies to `e`. */
  ghost predicate NoUpdateFor(e: Entity, cmds: Dict<Command>, statuses: seq<(string, Status)>, lo: nat, hi: nat) {
    forall j :: lo <= j < hi && j < |statuses| && statuses[j].0 in cmds.entries ==>
      !(Applies(cmds.entries[statuses[j].0], statuses[j].1) && cmds.entries[statuses[j].0].item.value == e)
  }

  /** Popping a command keeps the remaining acknowledgements from applying to `e`. */
  lemma NoUpdatePop(e: Entity, cmds: Dict<Command>, u: string, statuses: seq<(string, Status)>, lo: nat, hi: nat)
    requires OrderedDict.Valid(cmds) && NoUpdateFor(e, cmds, statuses, lo, hi)
    ensures NoUpdateFor(e, Pop(cmds, u), statuses, lo, hi)
  {
  }

  /** An entity that no acknowledged `"ok"` update targets keeps its fields, whatever else is acknowledged. */
  lemma {:induction false} FieldsUntouched(
    e: Entity, f: map<string, Value>, cmds: Dict<Command>, statuses: seq<(string, Status)>, from: nat)
    requires OrderedDict.Valid(cmds) && from <= |statuses|
    requires NoUpdateFor(e, cmds, statuses, from, |statuses|)
    ensures FieldsAfter(e, f, cmds, statuses, from) == f
    decreases |statuses| - from
  {
    if from < |statuses| {
      var u := statuses[from].0;
      if u in cmds.entries {
        assert Refreshed(e, f, cmds.entries[u], statuses[from].1) == f;
        FieldsUntouched(e, f, Pop(cmds, u), statuses, from + 1);
      }
    }
  }

  /**
   * An entity targeted by exactly one acknowledged `"ok"` update, at position
   * `k`, ends with that command's args minus `id` copied over its fields,
   * even when other commands in the same reply failed.
   */
  lemma {:induction false} FieldsOneUpdate(
    e: Entity, f: map<string, Value>, cmds: Dict<Command>, statuses: seq<(string, Status)>, from: nat, k: nat,
    failures: seq<(string, Status)>)
    requires OrderedDict.Valid(cmds) && from <= k < |statuses|
    requires RunStatuses(cmds, statuses, from, failures).outcome.Success?
    requires statuses[k].1 == Ok && statuses[k].0 in cmds.entries
    requires var c := cmds.entries[statuses[k].0]; c.item == Some(e) && c.isUpdateCommand
    requires NoUpdateFor(e, cmds, statuses, from, k) && NoUpdateFor(e, cmds, statuses, k + 1, |statuses|)
    ensures FieldsAfter(e, f, cmds, statuses, from) == f + (cmds.entries[statuses[k].0].args - {"id"})
    decreases |statuses| - from
  {
    var u := statuses[from].0;
    var st := statuses[from].1;
    var popped := Pop(cmds, u);
    AckedQueued(cmds, statuses, from, failures, from);
    var g := Refreshed(e, f, cmds.entries[u], st);
    var target := f + (cmds.entries[statuses[k].0].args - {"id"});
    assert FieldsAfter(e, g, popped, statuses, from + 1) == target by {
      AckStep(cmds, statuses, from, failures);
      NoUpdatePop(e, cmds, u, statuses, k + 1, |statuses|);
      if from == k {
        FieldsUntouched(e, g, popped, statuses, from + 1);
      } else {
        var collected := if st.Error? then failures + [(u, st)] else failures;
        AckedQueued(popped, statuses, from + 1, collected, k);
        NoUpdatePop(e, cmds, u, statuses, from + 1, k);
        FieldsOneUpdate(e, f, popped, statuses, from + 1, k, collected);
      }
    }
    assert FieldsAfter(e, f, cmds, statuses, from) == FieldsAfter(e, g, popped, statuses, from + 1) by {
      AckStep(cmds, statuses, from, failures);
      FieldsStep(cmds, statuses, from);
    }
  }

  /** The temp ids named in the mapping from position `from` on. */
  function MappedKeys(mapping: seq<(string, string)>, from: nat): set<string> {
    set j | from <= j < |mapping| :: mapping[j].0
  }

  /**
   * When the loop over `temp_id_mapping` finds every temp id, each waiting
   * entity named by the mapping ends with the server's id, and exactly the
   * mapped temp ids leave the table.
   */
  lemma {:induction false} ResolveComplete(temp: map<string, Entity>, mapping: seq<(string, string)>, from: nat)
    requires from <= |mapping| && KeyedByTempId(temp)
    requires ResolveTempIds(temp, mapping, from).1.None?
    ensures forall j :: from <= j < |mapping| ==> mapping[j].0 in temp
    ensures ResolveTempIds(temp, mapping, from).0 == temp - MappedKeys(mapping, from)
    ensures forall j, id0 :: from <= j < |mapping| ==>
      IdAfter(temp[mapping[j].0], id0, temp, mapping, from) == Some(StrId(mapping[j].1))
    decreases |mapping| - from
  {
    if from < |mapping| {
      var t := mapping[from].0;
      var rest := temp - {t};
      ResolveComplete(rest, mapping, from + 1);
      assert MappedKeys(mapping, from) == {t} + MappedKeys(mapping, from + 1);
      assert temp[t] !in rest.Values by {
        forall k | k in rest ensures rest[k] != temp[t] {
          assert rest[k].tempId == Some(k);
        }
      }
      forall j, id0 | from <= j < |mapping|
        ensures IdAfter(temp[mapping[j].0], id0, temp, mapping, from) == Some(StrId(mapping[j].1))
      {
        if j == from {
          IdAfterUntouched(temp[t], Some(StrId(mapping[from].1)), rest, mapping, from + 1);
        } else {
          assert mapping[j].0 in rest;
          assert temp[mapping[j].0].tempId == Some(mapping[j].0);
        }
      }
    }
  }

  /**
   * A reply whose acknowledgement loop runs to the end: the queue is drained
   * of exactly the acknowledged uuids and, when any status is an error, the
   * commit raises those errors with the temp-id table untouched.
   */
  lemma CommitDrainsBeforeRaising(cmds: Dict<Command>, temp: map<string, Entity>, reply: CommitReply)
    requires OrderedDict.Valid(cmds) && reply.syncStatus.Some?
    requires RunStatuses(cmds, reply.syncStatus.value, 0, []).outcome.Success?
    ensures var run := RunCommit(cmds, temp, Answered(reply));
      run.remaining.entries == cmds.entries - Acked(reply.syncStatus.value, 0)
    ensures var run := RunCommit(cmds, temp, Answered(reply)); var errs := ErrorsOf(reply.syncStatus.value, 0);
      errs != [] ==> run.result == Failure(SyncErrors(errs)) && run.tempItems == temp
  {
    var statuses := reply.syncStatus.value;
    DrainsExactly(cmds, statuses, 0, []);
    assert [] + ErrorsOf(statuses, 0) == ErrorsOf(statuses, 0);
  }

  /**
   * A commit that succeeds: no status was an error, the queue lost exactly the
   * acknowledged uuids, and every temp id in the mapping was waiting, now maps
   * its entity to the server's id, and has left the table.
   */
  lemma CommitSucceeds(cmds: Dict<Command>, temp: map<string, Entity>, reply: CommitReply)
    requires OrderedDict.Valid(cmds) && KeyedByTempId(temp)
    requires RunCommit(cmds, temp, Answered(reply)).result.Success?
    ensures ReachesMapping(cmds, Answered(reply))
    ensures forall j :: 0 <= j < |reply.syncStatus.value| ==> !reply.syncStatus.value[j].1.Error?
    ensures RunCommit(cmds, temp, Answered(reply)).remaining.entries == cmds.entries - Acked(reply.syncStatus.value, 0)
    ensures var m := reply.tempIdMapping.value;
      && (forall j :: 0 <= j < |m| ==> m[j].0 in temp)
      && RunCommit(cmds, temp, Answered(reply)).tempItems == temp - MappedKeys(m, 0)
      && forall j, id0 :: 0 <= j < |m| ==>
        IdAfterCommit(temp[m[j].0], id0, cmds, temp, Answered(reply)) == Some(StrId(m[j].1))
  {
    var statuses := reply.syncStatus.value;
    DrainsExactly(cmds, statuses, 0, []);
    assert [] + ErrorsOf(statuses, 0) == ErrorsOf(statuses, 0);
    ErrorsOfEmpty(statuses, 0);
    ResolveComplete(temp, reply.tempIdMapping.value, 0);
  }
}
