/**
 * The broker server as the object it is: three shared maps and a lease, updated one
 * assignment at a time between awaits. Every method meets the step of BrokerLeases it
 * stands for, so the lease theorems hold of every sequence of calls.
 */
module BrokerServer {
  import opened Prelude
  import opened BrokerLeases

  ghost function CloseAll(records: map<Id, Record>, ids: set<Id>): map<Id, Record> {
    map id | id in records ::
      if id in ids then records[id].(phase := Closing, epoch := records[id].epoch + 1) else records[id]
  }

  lemma CloseOneMore(records: map<Id, Record>, ids: set<Id>, id: Id)
    requires id in records && id !in ids
    ensures var before := CloseAll(records, ids);
            && before[id] == records[id]
            && CloseAll(records, ids + {id}) == before[id := before[id].(phase := Closing, epoch := before[id].epoch + 1)]
  {
  }

  // The forwarders of the given sessions are retired.
  ghost function RetireAll(records: map<Id, Record>, ids: set<Id>): map<Id, Record> {
    map id | id in records :: if id in ids then records[id].(epoch := records[id].epoch + 1) else records[id]
  }

  lemma RetireOneMore(records: map<Id, Record>, ids: set<Id>, id: Id)
    requires id in records && id !in ids
    ensures var before := RetireAll(records, ids);
            && before[id] == records[id]
            && RetireAll(records, ids + {id}) == before[id := before[id].(epoch := before[id].epoch + 1)]
  {
  }

  class HarnessBroker {
    const harness: nat
    var closed: bool
    var lost: set<Conn>
    var nextId: Id
    var opens: map<Id, Opening>
    var records: map<Id, Record>
    var reopening: set<Id>
    var executions: map<Id, Execution>
    var invocations: map<Id, Invocation>
    var nativeWriters: map<Key, Id>
    var provisionalNativeWriter: Option<Id>

    ghost function View(): Broker
      reads this
    {
      Broker(harness, closed, lost, nextId, opens, records, reopening, executions, invocations, nativeWriters, provisionalNativeWriter)
    }

    constructor (harness: nat)
      ensures View() == Empty(harness)
    {
      this.harness := harness;
      closed, lost, nextId, opens, records, reopening := false, {}, 0, map[], map[], {};
      executions, invocations := map[], map[];
      nativeWriters, provisionalNativeWriter := map[], None;
    }

    method BeginOpen(conn: Conn, input: OpenInput) returns (admission: Admission)
      modifies this
      ensures (View(), admission) == BrokerLeases.BeginOpen(old(View()), conn, input)
    {
      if closed || conn in lost {
        return Disconnected;
      }
      if !input.Create? {
        if input.ref.harness != harness {
          return ForeignSource;
        }
        if input.ref.session in nativeWriters {
          return WriterBusy;
        }
      }
      if provisionalNativeWriter.Some? {
        return IdentityPending;
      }
      var reservation := nextId;
      nextId := nextId + 1;
      if !input.Create? {
        nativeWriters := nativeWriters[input.ref.session := reservation];
      } else {
        provisionalNativeWriter := Some(reservation);
      }
      opens := opens[reservation := Opening(conn, input)];
      return Admitted(reservation);
    }

    method ReleaseOpenReservations(id: Id)
      requires id in opens
      modifies this
      ensures View() == ReleaseOpen(old(View()), id)
    {
      var key := SourceKey(opens[id].input);
      if key.Some? && key.value in nativeWriters && nativeWriters[key.value] == id {
        nativeWriters := Without(nativeWriters, key.value);
      }
      if opens[id].input.Create? && provisionalNativeWriter == Some(id) {
        provisionalNativeWriter := None;
      }
      opens := Without(opens, id);
    }

    method FinishOpen(id: Id, reply: OpenReply) returns (registered: bool)
      requires id in opens
      modifies this
      ensures (View(), registered) == BrokerLeases.FinishOpen(old(View()), id, reply)
    {
      var open := opens[id];
      if reply.OpenFailed? || closed || open.conn in lost {
        ReleaseOpenReservations(id);
        return false;
      }
      if !IdentityAcceptable(Empty(harness), open.input, reply.ref) {
        ReleaseOpenReservations(id);
        return false;
      }
      var nativeKey := KeyOf(reply.ref);
      if nativeKey.Some? && nativeKey.value in nativeWriters && nativeWriters[nativeKey.value] != id {
        ReleaseOpenReservations(id);
        return false;
      }
      var delayed := open.input.Create? && nativeKey.None?;
      var record := Record(open.conn, Registered, 1, 1, reply.handle, reply.ref, nativeKey, delayed, delayed, None, false);
      records := records[id := record];
      opens := Without(opens, id);
      if nativeKey.Some? {
        nativeWriters := nativeWriters[nativeKey.value := id];
      }
      var sourceKey := SourceKey(open.input);
      if sourceKey.Some? && sourceKey != nativeKey && sourceKey.value in nativeWriters && nativeWriters[sourceKey.value] == id {
        nativeWriters := Without(nativeWriters, sourceKey.value);
      }
      if !record.lease && open.input.Create? && provisionalNativeWriter == Some(id) {
        provisionalNativeWriter := None;
      }
      ghost var s := BrokerLeases.FinishOpen(old(View()), id, reply);
      assert records == s.0.records && opens == s.0.opens;
      assert nativeWriters == s.0.writers && provisionalNativeWriter == s.0.provisional;
      return true;
    }

    method ReleaseProvisionalWriter(id: Id)
      requires id in records
      modifies this`provisionalNativeWriter, this`records
      ensures View() == ReleaseProvisional(old(View()), id)
    {
      if records[id].lease && provisionalNativeWriter == Some(id) {
        provisionalNativeWriter := None;
      }
      records := records[id := records[id].(lease := false, awaiting := false)];
    }

    method FaultRecord(id: Id)
      requires id in records
      modifies this`provisionalNativeWriter, this`records
      ensures View() == Fault(old(View()), id)
    {
      records := records[id := records[id].(faulted := true)];
      ReleaseProvisionalWriter(id);
    }

    /** One output through `forwardOutputs`, up to the await that sends it on. */
    method ForwardOutput(f: Forwarder, output: Output)
      modifies this
      ensures View() == Forward(old(View()), f, output)
    {
      if f.record !in records {
        return;
      }
      var r := records[f.record];
      if !(r.phase.Registered? && r.session == f.session && r.generation == f.generation && r.epoch == f.epoch) {
        return;
      }
      if output.StateChanged? {
        if output.ref.Some? {
          var ref := output.ref.value;
          if ref.harness != harness || (r.nativeRef.Some? && r.nativeRef.value != ref) {
            FaultRecord(f.record);
            return;
          }
          if r.writerKey.None? {
            if ref.session in nativeWriters && nativeWriters[ref.session] != f.record {
              FaultRecord(f.record);
              return;
            }
            nativeWriters := nativeWriters[ref.session := f.record];
            records := records[f.record := r.(nativeRef := Some(ref), writerKey := Some(ref.session))];
            ReleaseProvisionalWriter(f.record);
          }
        }
      } else if !output.Plain? {
        FaultRecord(f.record);
      }
    }

    /** `closeRecord` up to its first await. */
    method BeginCloseRecord(id: Id)
      modifies this`records
      ensures View() == BeginClose(old(View()), id)
      ensures IsRegistered(old(View()), id) ==>
        records == old(records)[id := old(records[id]).(phase := Closing, epoch := old(records[id]).epoch + 1)]
    {
      if id !in records || !records[id].phase.Registered? {
        return;
      }
      records := records[id := records[id].(phase := Closing)];
      records := records[id := records[id].(epoch := records[id].epoch + 1)];
    }

    /** `closeRecord` after its last await. */
    method FinishCloseRecord(id: Id)
      modifies this
      ensures View() == FinishClose(old(View()), id)
    {
      if id !in records || !records[id].phase.Closing? {
        return;
      }
      var key := records[id].writerKey;
      if key.Some? && key.value in nativeWriters && nativeWriters[key.value] == id {
        nativeWriters := Without(nativeWriters, key.value);
      }
      ReleaseProvisionalWriter(id);
      records := records[id := records[id].(phase := Gone)];
    }

    /** The socket's close event: a loop over the sessions the connection still has. */
    method OnConnectionLost(conn: Conn)
      modifies this
      ensures View() == LoseConnection(old(View()), conn)
    {
      ghost var start := records;
      lost := lost + {conn};
      var owned := set id | id in records && records[id].phase.Registered? && records[id].owner == conn;
      var remaining := owned;
      while remaining != {}
        invariant remaining <= owned
        invariant records == CloseAll(start, owned - remaining)
        decreases remaining
        modifies this`records
      {
        var id :| id in remaining;
        CloseOneMore(start, owned - remaining, id);
        BeginCloseRecord(id);
        assert owned - (remaining - {id}) == (owned - remaining) + {id};
        remaining := remaining - {id};
      }
      assert owned - remaining == owned;
      assert CloseAll(start, owned) == LoseConnection(old(View()), conn).records;
    }

    /** `close`: every forwarder is retired; the connections go with the server. */
    method CloseNow()
      modifies this
      ensures View() == CloseServer(old(View()))
    {
      if closed {
        return;
      }
      closed := true;
      ghost var start := records;
      var registered := set id | id in records && records[id].phase.Registered?;
      var remaining := registered;
      while remaining != {}
        invariant remaining <= registered
        invariant records == RetireAll(start, registered - remaining)
        decreases remaining
        modifies this`records
      {
        var id :| id in remaining;
        RetireOneMore(start, registered - remaining, id);
        records := records[id := records[id].(epoch := records[id].epoch + 1)];
        assert registered - (remaining - {id}) == (registered - remaining) + {id};
        remaining := remaining - {id};
      }
      assert registered - remaining == registered;
      assert RetireAll(start, registered) == CloseServer(old(View())).records;
    }

    method BeginExecute(conn: Conn, id: Id, generation: nat, command: Command) returns (admitted: bool)
      modifies this
      ensures (View(), admitted) == BrokerLeases.BeginExecute(old(View()), conn, id, generation, command)
    {
      if closed || conn in lost || id !in records || !records[id].phase.Registered? ||
         records[id].owner != conn || records[id].generation != generation {
        return false;
      }
      var r := records[id];
      var gated := r.awaiting && r.writerKey.None?;
      if gated {
        var isBootstrapTurn := command.TurnStart? && r.lease && r.bootstrap.None?;
        var isContinuation := r.bootstrap.Some? &&
          ((command.TurnCancel? && command.turn == r.bootstrap.value) || command.Respond?);
        if !isBootstrapTurn && !isContinuation {
          return false;
        }
        if command.TurnStart? {
          records := records[id := r.(bootstrap := Some(command.turn))];
        }
      }
      executions := executions[nextId := Execution(id, command, gated, true, false)];
      nextId := nextId + 1;
      assert records == BrokerLeases.BeginExecute(old(View()), conn, id, generation, command).0.records;
      return true;
    }

    method FinishExecute(ticket: Id, ok: bool)
      modifies this
      ensures View() == BrokerLeases.FinishExecute(old(View()), ticket, ok)
    {
      if ticket !in executions || !executions[ticket].pending || executions[ticket].record !in records {
        return;
      }
      var e := executions[ticket];
      executions := executions[ticket := e.(pending := false, failed := !ok)];
      var r := records[e.record];
      if !ok && e.command.TurnStart? && r.awaiting && r.bootstrap == Some(e.command.turn) {
        records := records[e.record := r.(bootstrap := None)];
      }
      assert records == BrokerLeases.FinishExecute(old(View()), ticket, ok).records;
    }

    method BeginInvoke(conn: Conn, id: Id, generation: nat, turn: Turn, offered: bool) returns (admitted: bool)
      modifies this
      ensures (View(), admitted) == BrokerLeases.BeginInvoke(old(View()), conn, id, generation, turn, offered)
    {
      if closed || conn in lost || id !in records || !records[id].phase.Registered? ||
         records[id].owner != conn || records[id].generation != generation || !offered {
        return false;
      }
      invocations := invocations[nextId := Invocation(id, turn, true, false)];
      nextId := nextId + 1;
      return true;
    }

    method FinishInvoke(ticket: Id, ok: bool)
      modifies this`invocations
      ensures View() == BrokerLeases.FinishInvoke(old(View()), ticket, ok)
    {
      if ticket in invocations && invocations[ticket].pending {
        invocations := invocations[ticket := invocations[ticket].(pending := false, failed := !ok)];
      }
    }

    /** `session.reopen` up to its first await; the answer says whether a new session is being opened. */
    method BeginReopen(conn: Conn, id: Id, generation: nat) returns (started: bool)
      modifies this
      ensures View() == BrokerLeases.BeginReopen(old(View()), conn, id, generation)
      ensures started <==> id in reopening && id !in old(reopening)
      ensures started <==> old(MayUse(View(), conn, id, generation) && id !in reopening && records[id].faulted && records[id].nativeRef.Some?)
    {
      if closed || conn in lost || id !in records || !records[id].phase.Registered? ||
         records[id].owner != conn || records[id].generation != generation || id in reopening {
        return false;
      }
      if !records[id].faulted || records[id].nativeRef.None? {
        return false;
      }
      records := records[id := records[id].(epoch := records[id].epoch + 1)];
      reopening := reopening + {id};
      return true;
    }

    method FinishReopen(id: Id, reply: OpenReply) returns (replaced: bool)
      modifies this
      ensures View() == BrokerLeases.FinishReopen(old(View()), id, reply)
      ensures replaced <==> records != old(records)
      ensures replaced <==> old(id in reopening && id in records && reply.OpenOk? && reply.ref.Some? && reply.ref == records[id].nativeRef)
    {
      if id !in reopening || id !in records {
        return false;
      }
      reopening := reopening - {id};
      if reply.OpenFailed? || reply.ref.None? || reply.ref != records[id].nativeRef {
        return false;
      }
      records := records[id := records[id].(session := reply.handle)];
      records := records[id := records[id].(generation := records[id].generation + 1)];
      records := records[id := records[id].(faulted := false)];
      return true;
    }
  }
}
