/**
 * The life of a session of packages/harness-broker/src/server.ts, step by step: how an open
 * ends, what an output does to its session, how it closes and is reopened. The writer map and
 * the provisional lease follow from the sessions and opens (BrokerLeases.RunInv), so these
 * theorems tell what becomes of those two alone.
 */
module BrokerSessions {
  import opened Prelude
  import opened BrokerLeases
  import opened BrokerRequests

  // Another open in flight or live session is entitled to the key.
  ghost predicate TakenByOther(s: Broker, key: Key, id: Id) {
    exists other: Id :: other != id && Entitled(s.opens, s.records, key, other)
  }

  // Everything but the sessions, the opens and the two lease tables is as it was.
  ghost predicate OnlySessions(s: Broker, s': Broker) {
    s' == s.(opens := s'.opens, records := s'.records, writers := s'.writers, provisional := s'.provisional)
  }

  ghost predicate SameOthers<K(!new), V>(before: map<K, V>, after: map<K, V>, key: K) {
    forall k: K :: k != key ==> (k in before <==> k in after) && (k in before ==> after[k] == before[k])
  }

  // ---- opening ------------------------------------------------------------------------------------

  /** Why an open is refused, and that a refused one leaves no trace; an admitted one is in flight under a new id. */
  lemma OpenAnswered(harness: nat, events: seq<Event>, conn: Conn, input: OpenInput)
    ensures var s := Run(Empty(harness), events);
            var (s', answer) := BeginOpen(s, conn, input);
            match answer
            case Disconnected => s' == s && (s.closed || conn in s.lost)
            case ForeignSource => s' == s && input != Create && input.ref.harness != s.harness
            case WriterBusy => s' == s && input != Create && exists id: Id :: Entitled(s.opens, s.records, input.ref.session, id)
            case IdentityPending => s' == s && exists id: Id :: LeaseDue(s.opens, s.records, id)
            case Admitted(id) =>
              && id == s.nextId && id !in s.opens && id !in s.records && s' == s.(nextId := s'.nextId, opens := s'.opens, writers := s'.writers, provisional := s'.provisional)
              && s'.nextId == id + 1 && s'.opens == s.opens[id := Opening(conn, input)]
  {
    RunInv(harness, events);
    hide Run;
    var s := Run(Empty(harness), events);
    if input != Create && input.ref.session in s.writers {
      assert Entitled(s.opens, s.records, input.ref.session, s.writers[input.ref.session]);
    }
    if s.provisional.Some? { assert LeaseDue(s.opens, s.records, s.provisional.value); }
    hide WritersExact;
    hide LeaseExact;
    hide RecordsConsistent;
  }

  // The native session that was opened is the one that was asked for.
  predicate AsAsked(s: Broker, input: OpenInput, ref: Option<NativeRef>) {
    match input
    case Create => ref.Some? ==> ref.value.harness == s.harness
    case Resume(from) => ref == Some(NativeRef(s.harness, from.session, from.format)) && from.harness == s.harness
    case Derive(from) => ref.Some? && ref.value.harness == s.harness && ref.value.format == from.format && from.harness == s.harness
  }

  // A session as it is registered: at its first generation, at rest, unidentified only if it was created so.
  predicate Registers(r: Record, o: Opening, handle: Handle, ref: Option<NativeRef>) {
    && r.owner == o.conn && r.phase == Registered && r.generation == 1 && r.session == handle
    && r.nativeRef == ref && !r.faulted && r.bootstrap == None && r.awaiting == ref.None?
  }

  /**
   * How an open ends. Its session is registered exactly if the harness opened one, server and
   * connection are still there, its identity is as asked for, and nobody else is entitled to that.
   * Either way the open is over and no other session or open is touched.
   */
  lemma OpenEndsExactly(harness: nat, events: seq<Event>, id: Id, reply: OpenReply)
    requires id in Run(Empty(harness), events).opens
    ensures var s := Run(Empty(harness), events);
            var (s', registered), o := FinishOpen(s, id, reply), s.opens[id];
            && (registered <==>
                  && reply.OpenOk? && !s.closed && o.conn !in s.lost && AsAsked(s, o.input, reply.ref)
                  && (reply.ref.Some? ==> !TakenByOther(s, reply.ref.value.session, id)))
            && OnlySessions(s, s') && id !in s'.opens && SameOthers(s.opens, s'.opens, id) && SameOthers(s.records, s'.records, id)
            && (registered <==> id in s'.records)
            && (registered ==> Registers(s'.records[id], o, reply.handle, reply.ref))
  {
    RunInv(harness, events);
    hide Run;
    var s := Run(Empty(harness), events);
    OpenEndsFrom(s, id, reply);
  }

  lemma OpenEndsFrom(s: Broker, id: Id, reply: OpenReply)
    requires Inv(s) && id in s.opens
    ensures var (s', registered), o := FinishOpen(s, id, reply), s.opens[id];
            && (registered <==>
                  && reply.OpenOk? && !s.closed && o.conn !in s.lost && AsAsked(s, o.input, reply.ref)
                  && (reply.ref.Some? ==> !TakenByOther(s, reply.ref.value.session, id)))
            && OnlySessions(s, s') && id !in s'.opens && SameOthers(s.opens, s'.opens, id) && SameOthers(s.records, s'.records, id)
            && (registered <==> id in s'.records)
            && (registered ==> Registers(s'.records[id], o, reply.handle, reply.ref))
  {
    var o := s.opens[id];
    if reply.OpenOk? && reply.ref.Some? {
      var key := reply.ref.value.session;
      assert TakenByOther(s, key, id) <==> key in s.writers && s.writers[key] != id by {
        if key in s.writers { assert Entitled(s.opens, s.records, key, s.writers[key]); }
      }
    }
    hide WritersExact;
    hide LeaseExact;
    hide Entitled;
    hide Consistent;
  }

  // ---- outputs --------------------------------------------------------------------------------------

  // The forwarder belongs to the session as it is now.
  predicate Current(s: Broker, f: Forwarder) {
    && f.record in s.records && s.records[f.record].phase == Registered
    && s.records[f.record].session == f.session && s.records[f.record].generation == f.generation && s.records[f.record].epoch == f.epoch
  }

  // The output names an identity the session can take: of this harness, nobody else's.
  ghost predicate Identifies(s: Broker, r: Record, id: Id, output: Output) {
    && output.StateChanged? && output.ref.Some? && output.ref.value.harness == s.harness
    && r.nativeRef == None && !TakenByOther(s, output.ref.value.session, id)
  }

  // The output says that the session cannot go on, or names an identity that cannot be its own.
  ghost predicate Faults(s: Broker, r: Record, id: Id, output: Output) {
    match output
    case Plain => false
    case StateChanged(ref) =>
      && ref.Some?
      && (ref.value.harness != s.harness
          || (r.nativeRef.Some? && r.nativeRef != ref)
          || (r.nativeRef.None? && TakenByOther(s, ref.value.session, id)))
    case _ => true
  }

  // The session's fault mark, its identity, and whether it still waits for one.
  ghost predicate OutputDone(s: Broker, s': Broker, id: Id, output: Output) {
    && id in s.records && id in s'.records
    && var r, r' := s.records[id], s'.records[id];
       && OnlySessions(s, s') && s'.opens == s.opens && SameOthers(s.records, s'.records, id)
       && (r'.faulted <==> r.faulted || Faults(s, r, id, output))
       && r'.nativeRef == (if Identifies(s, r, id, output) then output.ref else r.nativeRef)
       && (r'.awaiting <==> r.awaiting && !Faults(s, r, id, output) && !Identifies(s, r, id, output))
       && r' == r.(faulted := r'.faulted, nativeRef := r'.nativeRef, writerKey := r'.writerKey, awaiting := r'.awaiting, lease := r'.lease)
  }

  /**
   * What an output does. One of a retired forwarder does nothing. One of the session's own forwarder
   * marks it as faulted if it ends it or names an identity that cannot be its own, gives it its identity
   * if it names the first, and ends its wait for one in both cases; nothing else changes.
   */
  lemma OutputDoesExactly(harness: nat, events: seq<Event>, f: Forwarder, output: Output)
    ensures var s := Run(Empty(harness), events);
            if Current(s, f) then OutputDone(s, Forward(s, f, output), f.record, output) else Forward(s, f, output) == s
  {
    RunInv(harness, events);
    hide Run;
    var s := Run(Empty(harness), events);
    if Current(s, f) {
      assert Consistent(s.records[f.record]);
      TakenExactly(s, f.record, output);
      hide Inv;
      hide TakenByOther;
      if Faults(s, s.records[f.record], f.record, output) { FaultDone(s, f, output); }
      else if Identifies(s, s.records[f.record], f.record, output) { IdentityDone(s, f, output); }
    }
  }

  lemma TakenExactly(s: Broker, id: Id, output: Output)
    requires Inv(s) && id in s.records
    ensures s.records[id].nativeRef.None? && output.StateChanged? && output.ref.Some? ==>
              (TakenByOther(s, output.ref.value.session, id) <==>
                 output.ref.value.session in s.writers && s.writers[output.ref.value.session] != id)
  {
    if s.records[id].nativeRef.None? && output.StateChanged? && output.ref.Some? {
      assert Consistent(s.records[id]);
      var key := output.ref.value.session;
      if key in s.writers { assert Entitled(s.opens, s.records, key, s.writers[key]); }
    }
  }

  lemma FaultDone(s: Broker, f: Forwarder, output: Output)
    requires Current(s, f) && Consistent(s.records[f.record]) && Faults(s, s.records[f.record], f.record, output)
    requires Forward(s, f, output) == Fault(s, f.record)
    ensures OutputDone(s, Forward(s, f, output), f.record, output)
  {
    hide Forward;
    hide TakenByOther;
  }

  lemma IdentityDone(s: Broker, f: Forwarder, output: Output)
    requires Current(s, f) && Consistent(s.records[f.record]) && Identifies(s, s.records[f.record], f.record, output)
    requires Forward(s, f, output) == ReleaseProvisional(Claim(s, f.record, output.ref.value), f.record)
    ensures OutputDone(s, Forward(s, f, output), f.record, output)
  {
    hide Forward;
    hide TakenByOther;
  }

  // ---- closing and reopening ---------------------------------------------------------------------------

  // This session moved to another phase and its forwarder was retired; nothing else of it changed.
  predicate Closes(r: Record, r': Record) {
    r' == r.(phase := Closing, epoch := r'.epoch) && r'.epoch > r.epoch
  }

  /** A session starts to close once: it leaves the session table and its forwarder is retired. */
  lemma CloseBeginsExactly(s: Broker, id: Id)
    ensures var s' := BeginClose(s, id);
            if id in s.records && s.records[id].phase == Registered
            then s' == s.(records := s'.records) && id in s'.records && SameOthers(s.records, s'.records, id) && Closes(s.records[id], s'.records[id])
            else s' == s
  {
  }

  /** A lost connection closes exactly its own registered sessions. */
  lemma LostExactly(s: Broker, conn: Conn, id: Id)
    requires id in s.records
    ensures var s', r := LoseConnection(s, conn), s.records[id];
            && s' == s.(lost := s.lost + {conn}, records := s'.records) && s'.records.Keys == s.records.Keys
            && if r.owner == conn && r.phase == Registered then Closes(r, s'.records[id]) else s'.records[id] == r
  {
  }

  /** Closing the server retires the forwarder of every registered session, once. */
  lemma ServerClosesExactly(s: Broker, id: Id)
    requires id in s.records
    ensures var s', r := CloseServer(s), s.records[id];
            && s' == s.(closed := true, records := s'.records) && s'.records.Keys == s.records.Keys
            && if !s.closed && r.phase == Registered
               then s'.records[id] == r.(epoch := s'.records[id].epoch) && s'.records[id].epoch > r.epoch
               else s'.records[id] == r
  {
  }

  /** An ended close leaves a session that is gone and waits for nothing. */
  lemma CloseEndsExactly(s: Broker, id: Id)
    ensures var s' := FinishClose(s, id);
            if id in s.records && s.records[id].phase == Closing
            then && OnlySessions(s, s') && s'.opens == s.opens && id in s'.records && SameOthers(s.records, s'.records, id)
                 && s'.records[id] == s.records[id].(phase := Gone, awaiting := false, lease := false)
            else s' == s
  {
  }

  /**
   * Reopening: only a faulted session with an identity, for its owner, and once at a time; its forwarder
   * is retired. The new native session takes the place of the old under a new generation exactly if it
   * comes with the same identity.
   */
  lemma ReopensExactly(s: Broker, conn: Conn, id: Id, generation: nat, reply: OpenReply)
    requires Inv(s)
    ensures var s' := BeginReopen(s, conn, id, generation);
            if Owner(s, conn, id, generation) && id !in s.reopening && s.records[id].faulted && s.records[id].nativeRef.Some?
            then && s' == s.(records := s'.records, reopening := s.reopening + {id}) && id in s'.records && SameOthers(s.records, s'.records, id)
                 && s'.records[id] == s.records[id].(epoch := s'.records[id].epoch) && s'.records[id].epoch > s.records[id].epoch
            else s' == s
    ensures var s' := FinishReopen(s, id, reply);
            if id in s.reopening
            then && s' == s.(records := s'.records, reopening := s.reopening - {id}) && id in s'.records && SameOthers(s.records, s'.records, id)
                 && (if reply.OpenOk? && reply.ref == s.records[id].nativeRef
                     then && s'.records[id] == s.records[id].(session := reply.handle, generation := s'.records[id].generation, faulted := false)
                          && s'.records[id].generation > s.records[id].generation
                     else s'.records[id] == s.records[id])
            else s' == s
  {
    hide WritersExact;
    hide LeaseExact;
  }
}
