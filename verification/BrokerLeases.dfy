/**
 * packages/harness-broker/src/server.ts: which record may write to which native session.
 * Every function below is one stretch of server code between two awaits; an interleaving
 * of connections, forwarders and closes is a sequence of `Event`s. `HarnessBroker` is the
 * server object whose maps those stretches update in place.
 */
module BrokerLeases {
  import opened Prelude

  type Id = nat        // broker session ids and open reservations (fresh UUIDs)
  type Conn = nat
  type Key = nat       // native session ids, which are their own writer keys
  type Turn = nat
  type Handle = nat    // live native session objects

  datatype NativeRef = NativeRef(harness: nat, session: Key, format: nat)

  // A create has no native source; a resume must come back with the same identity, a
  // fork or rollback may come back with another.
  datatype OpenInput = Create | Resume(ref: NativeRef) | Derive(ref: NativeRef)

  // An `adapter.open` call in flight, with the reservation it made before awaiting.
  datatype Opening = Opening(conn: Conn, input: OpenInput)

  // Closing: removed from the session table, its native session still closing.
  datatype Phase = Registered | Closing | Gone

  datatype Record = Record(
    owner: Conn, phase: Phase, generation: nat, epoch: nat, session: Handle,
    nativeRef: Option<NativeRef>, writerKey: Option<Key>,
    awaiting: bool, lease: bool, bootstrap: Option<Turn>, faulted: bool)

  datatype Command = TurnStart(turn: Turn) | TurnCancel(turn: Turn) | Respond | SelectOption

  // A command handed to a native session. `gated`: the identity gate was on.
  datatype Execution = Execution(record: Id, command: Command, gated: bool, pending: bool, failed: bool)

  // A harness command invoked in a native session, which opens a turn of its own there.
  datatype Invocation = Invocation(record: Id, turn: Turn, pending: bool, failed: bool)

  datatype Broker = Broker(
    harness: nat, closed: bool, lost: set<Conn>, nextId: Id,
    opens: map<Id, Opening>, records: map<Id, Record>, reopening: set<Id>,
    executions: map<Id, Execution>, invocations: map<Id, Invocation>,
    writers: map<Key, Id>, provisional: Option<Id>)

  function Empty(harness: nat): Broker {
    Broker(harness, false, {}, 0, map[], map[], {}, map[], map[], map[], None)
  }

  // ---- adapter.open --------------------------------------------------------------

  datatype Admission = Admitted(id: Id) | ForeignSource | WriterBusy | IdentityPending | Disconnected

  function KeyOf(ref: Option<NativeRef>): Option<Key> {
    if ref.Some? then Some(ref.value.session) else None
  }

  function SourceKey(input: OpenInput): Option<Key> {
    if input.Create? then None else Some(input.ref.session)
  }

  /** Up to the await: refuse, or reserve the source key and (for a create) the provisional lease. */
  function BeginOpen(s: Broker, conn: Conn, input: OpenInput): (Broker, Admission) {
    if s.closed || conn in s.lost then (s, Disconnected)
    else if !input.Create? && input.ref.harness != s.harness then (s, ForeignSource)
    else if !input.Create? && input.ref.session in s.writers then (s, WriterBusy)
    else if s.provisional.Some? then (s, IdentityPending)
    else
      (s.(nextId := s.nextId + 1,
          opens := s.opens[s.nextId := Opening(conn, input)],
          writers := if input.Create? then s.writers else s.writers[input.ref.session := s.nextId],
          provisional := if input.Create? then Some(s.nextId) else s.provisional),
       Admitted(s.nextId))
  }

  function Without<K, V>(m: map<K, V>, key: K): (r: map<K, V>)
    ensures r == map k | k in m && k != key :: m[k]
  {
    map k | k in m && k != key :: m[k]
  }

  function ReleaseOpen(s: Broker, id: Id): Broker
    requires id in s.opens
  {
    var key := SourceKey(s.opens[id].input);
    s.(opens := Without(s.opens, id),
       writers := if key.Some? && key.value in s.writers && s.writers[key.value] == id
                  then Without(s.writers, key.value) else s.writers,
       provisional := if s.opens[id].input.Create? && s.provisional == Some(id) then None else s.provisional)
  }

  // What the adapter's open came back with; None is a rejection or an error result.
  datatype OpenReply = OpenFailed | OpenOk(handle: Handle, ref: Option<NativeRef>)

  predicate IdentityAcceptable(s: Broker, input: OpenInput, ref: Option<NativeRef>) {
    && (ref.Some? ==> ref.value.harness == s.harness)
    && (!input.Create? ==>
          && ref.Some?
          && ref.value.harness == input.ref.harness
          && ref.value.format == input.ref.format
          && (input.Resume? ==> ref.value.session == input.ref.session))
  }

  /** After the await: release everything, or register the record under its native key. */
  function FinishOpen(s: Broker, id: Id, reply: OpenReply): (Broker, bool)
    requires id in s.opens
  {
    var o := s.opens[id];
    if reply.OpenFailed? || s.closed || o.conn in s.lost || !IdentityAcceptable(s, o.input, reply.ref) then
      (ReleaseOpen(s, id), false)
    else
      var key := KeyOf(reply.ref);
      if key.Some? && key.value in s.writers && s.writers[key.value] != id then (ReleaseOpen(s, id), false)
      else
        var delayed := o.input.Create? && key.None?;
        var claimed := if key.Some? then s.writers[key.value := id] else s.writers;
        var from := SourceKey(o.input);
        (s.(opens := Without(s.opens, id),
            records := s.records[id := Record(o.conn, Registered, 1, 1, reply.handle, reply.ref, key, delayed, delayed, None, false)],
            writers := if from.Some? && from != key && from.value in claimed && claimed[from.value] == id
                       then Without(claimed, from.value) else claimed,
            provisional := if !delayed && o.input.Create? && s.provisional == Some(id) then None else s.provisional),
         true)
  }

  // ---- forwarded outputs --------------------------------------------------------------

  // A forwarder task and the values it captured when it was started.
  datatype Forwarder = Forwarder(record: Id, session: Handle, generation: nat, epoch: nat)

  datatype Output = StateChanged(ref: Option<NativeRef>) | SessionFaulted | AuthenticationTerminal | ForwarderThrew | Plain

  predicate IsCurrent(s: Broker, f: Forwarder) {
    && f.record in s.records
    && var r := s.records[f.record];
       r.phase.Registered? && r.session == f.session && r.generation == f.generation && r.epoch == f.epoch
  }

  function ReleaseProvisional(s: Broker, id: Id): Broker
    requires id in s.records
  {
    var r := s.records[id];
    s.(provisional := if r.lease && s.provisional == Some(id) then None else s.provisional,
       records := s.records[id := r.(lease := false, awaiting := false)])
  }

  function Fault(s: Broker, id: Id): Broker
    requires id in s.records
  {
    ReleaseProvisional(s.(records := s.records[id := s.records[id].(faulted := true)]), id)
  }

  function Forward(s: Broker, f: Forwarder, output: Output): Broker {
    if !IsCurrent(s, f) then s
    else
      var id, r := f.record, s.records[f.record];
      match output
      case Plain => s
      case SessionFaulted => Fault(s, id)
      case AuthenticationTerminal => Fault(s, id)
      case ForwarderThrew => Fault(s, id)
      case StateChanged(ref) =>
        if ref.None? then s
        else if ref.value.harness != s.harness || (r.nativeRef.Some? && r.nativeRef != ref) then Fault(s, id)
        else if r.writerKey.Some? then s
        else if ref.value.session in s.writers && s.writers[ref.value.session] != id then Fault(s, id)
        else
          ReleaseProvisional(Claim(s, id, ref.value), id)
  }

  /** The native identity becomes known: the record takes the key. */
  function Claim(s: Broker, id: Id, ref: NativeRef): Broker
    requires id in s.records
  {
    s.(writers := s.writers[ref.session := id],
       records := s.records[id := s.records[id].(nativeRef := Some(ref), writerKey := Some(ref.session))])
  }

  // ---- close ------------------------------------------------------------------------------

  predicate IsRegistered(s: Broker, id: Id) {
    id in s.records && s.records[id].phase.Registered?
  }

  function BeginClose(s: Broker, id: Id): Broker {
    if !IsRegistered(s, id) then s
    else s.(records := s.records[id := s.records[id].(phase := Closing, epoch := s.records[id].epoch + 1)])
  }

  function FinishClose(s: Broker, id: Id): Broker {
    if id !in s.records || !s.records[id].phase.Closing? then s
    else
      var r := s.records[id];
      var freed := s.(
        writers := if r.writerKey.Some? && r.writerKey.value in s.writers && s.writers[r.writerKey.value] == id
                   then Without(s.writers, r.writerKey.value) else s.writers);
      var released := ReleaseProvisional(freed, id);
      released.(records := released.records[id := released.records[id].(phase := Gone)])
  }

  /** The socket's close event: every session of the connection starts closing at once. */
  function LoseConnection(s: Broker, conn: Conn): Broker {
    s.(lost := s.lost + {conn},
       records := map id | id in s.records ::
         var r := s.records[id];
         if r.phase.Registered? && r.owner == conn then r.(phase := Closing, epoch := r.epoch + 1) else r)
  }

  function CloseServer(s: Broker): Broker {
    if s.closed then s
    else s.(closed := true,
            records := map id | id in s.records ::
              var r := s.records[id]; if r.phase.Registered? then r.(epoch := r.epoch + 1) else r)
  }

  // ---- requests on a session -----------------------------------------------------------------

  predicate MayUse(s: Broker, conn: Conn, id: Id, generation: nat) {
    && !s.closed && conn !in s.lost
    && IsRegistered(s, id)
    && s.records[id].owner == conn && s.records[id].generation == generation
  }

  predicate GateOn(r: Record) {
    r.awaiting && r.writerKey.None?
  }

  predicate PassesGate(r: Record, command: Command) {
    || (command.TurnStart? && r.lease && r.bootstrap.None?)
    || (r.bootstrap.Some? && ((command.TurnCancel? && Some(command.turn) == r.bootstrap) || command.Respond?))
  }

  function BeginExecute(s: Broker, conn: Conn, id: Id, generation: nat, command: Command): (Broker, bool) {
    if !MayUse(s, conn, id, generation) then (s, false)
    else
      var r := s.records[id];
      if GateOn(r) && !PassesGate(r, command) then (s, false)
      else
        (s.(nextId := s.nextId + 1,
            executions := s.executions[s.nextId := Execution(id, command, GateOn(r), true, false)],
            records := s.records[id := if GateOn(r) && command.TurnStart? then r.(bootstrap := Some(command.turn)) else r]),
         true)
  }

  function FinishExecute(s: Broker, ticket: Id, ok: bool): Broker {
    if ticket !in s.executions || !s.executions[ticket].pending || s.executions[ticket].record !in s.records then s
    else
      var e := s.executions[ticket];
      var r := s.records[e.record];
      s.(executions := s.executions[ticket := e.(pending := false, failed := !ok)],
         records := s.records[e.record :=
           if !ok && e.command.TurnStart? && r.awaiting && r.bootstrap == Some(e.command.turn)
           then r.(bootstrap := None) else r])
  }

  /** `session.commands.execute`: no gate; `offered` says whether the native session has commands at all. */
  function BeginInvoke(s: Broker, conn: Conn, id: Id, generation: nat, turn: Turn, offered: bool): (Broker, bool) {
    if !MayUse(s, conn, id, generation) || !offered then (s, false)
    else (s.(nextId := s.nextId + 1, invocations := s.invocations[s.nextId := Invocation(id, turn, true, false)]), true)
  }

  function FinishInvoke(s: Broker, ticket: Id, ok: bool): Broker {
    if ticket !in s.invocations || !s.invocations[ticket].pending then s
    else s.(invocations := s.invocations[ticket := s.invocations[ticket].(pending := false, failed := !ok)])
  }

  function BeginReopen(s: Broker, conn: Conn, id: Id, generation: nat): Broker {
    if !MayUse(s, conn, id, generation) || id in s.reopening then s
    else
      var r := s.records[id];
      if !r.faulted || r.nativeRef.None? then s
      else s.(records := s.records[id := r.(epoch := r.epoch + 1)], reopening := s.reopening + {id})
  }

  /** The reopened native session replaces the old one; the record is not looked up again. */
  function FinishReopen(s: Broker, id: Id, reply: OpenReply): Broker {
    if id !in s.reopening || id !in s.records then s
    else
      var r, done := s.records[id], s.(reopening := s.reopening - {id});
      if reply.OpenFailed? || reply.ref.None? || reply.ref != r.nativeRef then done
      else done.(records := s.records[id := r.(session := reply.handle, generation := r.generation + 1, faulted := false)])
  }

  // ---- interleavings ---------------------------------------------------------------------------

  datatype Event =
    | OpenBegins(conn: Conn, input: OpenInput)
    | OpenEnds(id: Id, reply: OpenReply)
    | Forwarded(forwarder: Forwarder, output: Output)
    | CloseBegins(id: Id)
    | CloseEnds(id: Id)
    | ConnectionLost(conn: Conn)
    | ServerCloses
    | ExecuteBegins(conn: Conn, id: Id, generation: nat, command: Command)
    | ExecuteEnds(ticket: Id, ok: bool)
    | InvokeBegins(conn: Conn, id: Id, generation: nat, turn: Turn, offered: bool)
    | InvokeEnds(ticket: Id, ok: bool)
    | ReopenBegins(conn: Conn, id: Id, generation: nat)
    | ReopenEnds(id: Id, reply: OpenReply)

  function Step(s: Broker, event: Event): Broker {
    match event
    case OpenBegins(conn, input) => BeginOpen(s, conn, input).0
    case OpenEnds(id, reply) => if id in s.opens then FinishOpen(s, id, reply).0 else s
    case Forwarded(f, output) => Forward(s, f, output)
    case CloseBegins(id) => BeginClose(s, id)
    case CloseEnds(id) => FinishClose(s, id)
    case ConnectionLost(conn) => LoseConnection(s, conn)
    case ServerCloses => CloseServer(s)
    case ExecuteBegins(conn, id, generation, command) => BeginExecute(s, conn, id, generation, command).0
    case ExecuteEnds(ticket, ok) => FinishExecute(s, ticket, ok)
    case InvokeBegins(conn, id, generation, turn, offered) => BeginInvoke(s, conn, id, generation, turn, offered).0
    case InvokeEnds(ticket, ok) => FinishInvoke(s, ticket, ok)
    case ReopenBegins(conn, id, generation) => BeginReopen(s, conn, id, generation)
    case ReopenEnds(id, reply) => FinishReopen(s, id, reply)
  }

  function Run(s: Broker, events: seq<Event>): Broker {
    if events == [] then s else Step(Run(s, events[..|events| - 1]), events[|events| - 1])
  }

  // ---- the invariant -----------------------------------------------------------------------------

  // A record that is still registered, or still closing.
  predicate Live(records: map<Id, Record>, id: Id) {
    id in records && !records[id].phase.Gone?
  }

  // Who is entitled to a native key: an open in flight to its source, a live record to its identity.
  predicate Entitled(opens: map<Id, Opening>, records: map<Id, Record>, key: Key, id: Id) {
    || (id in opens && SourceKey(opens[id].input) == Some(key))
    || (Live(records, id) && records[id].writerKey == Some(key))
  }

  predicate LeaseDue(opens: map<Id, Opening>, records: map<Id, Record>, id: Id) {
    || (id in opens && opens[id].input.Create?)
    || (Live(records, id) && records[id].lease)
  }

  ghost predicate WritersExact(opens: map<Id, Opening>, records: map<Id, Record>, writers: map<Key, Id>) {
    forall key: Key, id: Id :: (key in writers && writers[key] == id) <==> Entitled(opens, records, key, id)
  }

  ghost predicate LeaseExact(opens: map<Id, Opening>, records: map<Id, Record>, provisional: Option<Id>) {
    forall id: Id :: provisional == Some(id) <==> LeaseDue(opens, records, id)
  }

  predicate Consistent(r: Record) {
    && r.writerKey == KeyOf(r.nativeRef)
    && r.lease == r.awaiting
    && (r.lease ==> r.writerKey.None? && !r.phase.Gone?)
    && (!r.phase.Gone? && r.writerKey.None? ==> r.awaiting == !r.faulted)
  }

  ghost predicate RecordsConsistent(records: map<Id, Record>) {
    forall id :: id in records ==> Consistent(records[id])
  }

  ghost predicate IdsFresh(s: Broker) {
    && (forall id :: id in s.opens ==> id < s.nextId && id !in s.records)
    && (forall id :: id in s.records ==> id < s.nextId)
    && (forall id :: id in s.reopening ==> id in s.records && s.records[id].nativeRef.Some?)
    && (forall t :: t in s.executions ==> t < s.nextId && s.executions[t].record in s.records)
  }

  ghost predicate Inv(s: Broker) {
    && IdsFresh(s)
    && RecordsConsistent(s.records)
    && WritersExact(s.opens, s.records, s.writers)
    && LeaseExact(s.opens, s.records, s.provisional)
  }

  // Records that keep their liveness, key and lease keep every entitlement.
  lemma EntitlementsKept(opens: map<Id, Opening>, records: map<Id, Record>, records': map<Id, Record>, writers: map<Key, Id>, provisional: Option<Id>)
    requires WritersExact(opens, records, writers) && LeaseExact(opens, records, provisional)
    requires records'.Keys == records.Keys
    requires forall id :: id in records ==>
      && records'[id].phase.Gone? == records[id].phase.Gone?
      && records'[id].writerKey == records[id].writerKey
      && records'[id].lease == records[id].lease
    ensures WritersExact(opens, records', writers) && LeaseExact(opens, records', provisional)
  {
    forall key: Key, id: Id ensures Entitled(opens, records', key, id) <==> Entitled(opens, records, key, id) {
    }
    forall id: Id ensures LeaseDue(opens, records', id) <==> LeaseDue(opens, records, id) {
    }
  }

  // One record replaced by a consistent one with the same liveness, identity and lease.
  lemma ReplaceRecordInv(s: Broker, id: Id, r: Record)
    requires Inv(s) && id in s.records && Consistent(r)
    requires r.phase.Gone? == s.records[id].phase.Gone? && r.nativeRef == s.records[id].nativeRef && r.lease == s.records[id].lease
    ensures Inv(s.(records := s.records[id := r]))
  {
    assert Consistent(s.records[id]);
    EntitlementsKept(s.opens, s.records, s.records[id := r], s.writers, s.provisional);
  }

  lemma BeginOpenExact(s: Broker, conn: Conn, input: OpenInput)
    requires Inv(s)
    ensures var s' := BeginOpen(s, conn, input).0;
            WritersExact(s'.opens, s'.records, s'.writers) && LeaseExact(s'.opens, s'.records, s'.provisional)
  {
    hide RecordsConsistent;
    hide Consistent;
    if BeginOpen(s, conn, input).1.Admitted? {
      ReservedWriters(s, conn, input);
      ReservedLease(s, conn, input);
    }
  }

  lemma ReservedWriters(s: Broker, conn: Conn, input: OpenInput)
    requires IdsFresh(s) && WritersExact(s.opens, s.records, s.writers) && BeginOpen(s, conn, input).1.Admitted?
    ensures var s' := BeginOpen(s, conn, input).0; WritersExact(s'.opens, s'.records, s'.writers)
  {
    var s' := BeginOpen(s, conn, input).0;
    forall key: Key, id: Id ensures (key in s'.writers && s'.writers[key] == id) <==> Entitled(s'.opens, s'.records, key, id) {
      assert (key in s.writers && s.writers[key] == id) <==> Entitled(s.opens, s.records, key, id);
    }
  }

  lemma ReservedLease(s: Broker, conn: Conn, input: OpenInput)
    requires IdsFresh(s) && LeaseExact(s.opens, s.records, s.provisional) && BeginOpen(s, conn, input).1.Admitted?
    ensures var s' := BeginOpen(s, conn, input).0; LeaseExact(s'.opens, s'.records, s'.provisional)
  {
    var s' := BeginOpen(s, conn, input).0;
    forall id: Id ensures s'.provisional == Some(id) <==> LeaseDue(s'.opens, s'.records, id) {
      assert s.provisional == Some(id) <==> LeaseDue(s.opens, s.records, id);
    }
  }

  lemma ReleaseOpenExact(s: Broker, id: Id)
    requires Inv(s) && id in s.opens
    ensures var s' := ReleaseOpen(s, id);
            WritersExact(s'.opens, s'.records, s'.writers) && LeaseExact(s'.opens, s'.records, s'.provisional)
  {
    var s' := ReleaseOpen(s, id);
    forall key: Key, other: Id ensures (key in s'.writers && s'.writers[key] == other) <==> Entitled(s'.opens, s'.records, key, other) {
      assert (key in s.writers && s.writers[key] == other) <==> Entitled(s.opens, s.records, key, other);
    }
    forall other: Id ensures s'.provisional == Some(other) <==> LeaseDue(s'.opens, s'.records, other) {
      assert s.provisional == Some(other) <==> LeaseDue(s.opens, s.records, other);
    }
  }

  lemma RegisterExact(s: Broker, id: Id, reply: OpenReply)
    requires Inv(s) && id in s.opens && FinishOpen(s, id, reply).1
    ensures var s' := FinishOpen(s, id, reply).0;
            WritersExact(s'.opens, s'.records, s'.writers) && LeaseExact(s'.opens, s'.records, s'.provisional)
  {
    var s' := FinishOpen(s, id, reply).0;
    forall key: Key, other: Id ensures (key in s'.writers && s'.writers[key] == other) <==> Entitled(s'.opens, s'.records, key, other) {
      assert (key in s.writers && s.writers[key] == other) <==> Entitled(s.opens, s.records, key, other);
      assert (key in s.writers && s.writers[key] == id) <==> Entitled(s.opens, s.records, key, id);
    }
    forall other: Id ensures s'.provisional == Some(other) <==> LeaseDue(s'.opens, s'.records, other) {
      assert s.provisional == Some(other) <==> LeaseDue(s.opens, s.records, other);
      assert s.provisional == Some(id) <==> LeaseDue(s.opens, s.records, id);
    }
  }

  lemma ReleaseProvisionalExact(s: Broker, id: Id)
    requires IdsFresh(s) && id in s.records
    requires WritersExact(s.opens, s.records, s.writers) && LeaseExact(s.opens, s.records, s.provisional)
    requires s.records[id].phase.Gone? ==> !s.records[id].lease
    ensures var s' := ReleaseProvisional(s, id);
            WritersExact(s'.opens, s'.records, s'.writers) && LeaseExact(s'.opens, s'.records, s'.provisional)
  {
    var s' := ReleaseProvisional(s, id);
    forall key: Key, other: Id ensures Entitled(s'.opens, s'.records, key, other) <==> Entitled(s.opens, s.records, key, other) {
    }
    forall other: Id ensures s'.provisional == Some(other) <==> LeaseDue(s'.opens, s'.records, other) {
      assert s.provisional == Some(other) <==> LeaseDue(s.opens, s.records, other);
      assert s.provisional == Some(id) <==> LeaseDue(s.opens, s.records, id);
    }
  }

  lemma FaultExact(s: Broker, id: Id)
    requires Inv(s) && id in s.records
    ensures var s' := Fault(s, id);
            WritersExact(s'.opens, s'.records, s'.writers) && LeaseExact(s'.opens, s'.records, s'.provisional)
  {
    var marked := s.(records := s.records[id := s.records[id].(faulted := true)]);
    EntitlementsKept(s.opens, s.records, marked.records, s.writers, s.provisional);
    assert Consistent(s.records[id]);
    ReleaseProvisionalExact(marked, id);
  }

  lemma ClaimExact(s: Broker, id: Id, ref: NativeRef)
    requires Inv(s) && IsRegistered(s, id) && s.records[id].writerKey.None?
    requires ref.session !in s.writers || s.writers[ref.session] == id
    ensures var s' := ReleaseProvisional(Claim(s, id, ref), id);
            WritersExact(s'.opens, s'.records, s'.writers) && LeaseExact(s'.opens, s'.records, s'.provisional)
  {
    var c := Claim(s, id, ref);
    hide ReleaseProvisional;
    forall key: Key, other: Id ensures (key in c.writers && c.writers[key] == other) <==> Entitled(c.opens, c.records, key, other) {
      assert (key in s.writers && s.writers[key] == other) <==> Entitled(s.opens, s.records, key, other);
    }
    forall other: Id ensures c.provisional == Some(other) <==> LeaseDue(c.opens, c.records, other) {
      assert LeaseDue(s.opens, s.records, other) <==> LeaseDue(c.opens, c.records, other);
    }
    ReleaseProvisionalExact(c, id);
  }

  lemma FinishCloseExact(s: Broker, id: Id)
    requires Inv(s)
    ensures var s' := FinishClose(s, id);
            WritersExact(s'.opens, s'.records, s'.writers) && LeaseExact(s'.opens, s'.records, s'.provisional)
  {
    if id in s.records && s.records[id].phase.Closing? {
      var s' := FinishClose(s, id);
      forall key: Key, other: Id ensures (key in s'.writers && s'.writers[key] == other) <==> Entitled(s'.opens, s'.records, key, other) {
        assert (key in s.writers && s.writers[key] == other) <==> Entitled(s.opens, s.records, key, other);
        assert (key in s.writers && s.writers[key] == id) <==> Entitled(s.opens, s.records, key, id);
      }
      forall other: Id ensures s'.provisional == Some(other) <==> LeaseDue(s'.opens, s'.records, other) {
        assert s.provisional == Some(other) <==> LeaseDue(s.opens, s.records, other);
        assert s.provisional == Some(id) <==> LeaseDue(s.opens, s.records, id);
      }
    }
  }

  lemma BeginOpenInv(s: Broker, conn: Conn, input: OpenInput)
    requires Inv(s)
    ensures Inv(BeginOpen(s, conn, input).0)
  {
    BeginOpenExact(s, conn, input);
  }

  lemma FinishOpenInv(s: Broker, id: Id, reply: OpenReply)
    requires Inv(s) && id in s.opens
    ensures Inv(FinishOpen(s, id, reply).0)
  {
    if FinishOpen(s, id, reply).1 {
      RegisterExact(s, id, reply);
    } else {
      ReleaseOpenExact(s, id);
    }
  }

  lemma FaultInv(s: Broker, id: Id)
    requires Inv(s) && IsRegistered(s, id)
    ensures Inv(Fault(s, id))
  {
    FaultExact(s, id);
    assert Consistent(s.records[id]);
  }

  lemma ClaimInv(s: Broker, id: Id, ref: NativeRef)
    requires Inv(s) && IsRegistered(s, id) && s.records[id].writerKey.None?
    requires ref.session !in s.writers || s.writers[ref.session] == id
    ensures Inv(ReleaseProvisional(Claim(s, id, ref), id))
  {
    ClaimExact(s, id, ref);
  }

  lemma ForwardInv(s: Broker, f: Forwarder, output: Output)
    requires Inv(s)
    ensures Inv(Forward(s, f, output))
  {
    if IsCurrent(s, f) {
      FaultInv(s, f.record);
      if output.StateChanged? && output.ref.Some? && s.records[f.record].writerKey.None? {
        if output.ref.value.session !in s.writers || s.writers[output.ref.value.session] == f.record {
          ClaimInv(s, f.record, output.ref.value);
        }
      }
    }
  }

  lemma FinishCloseInv(s: Broker, id: Id)
    requires Inv(s)
    ensures Inv(FinishClose(s, id))
  {
    FinishCloseExact(s, id);
  }

  lemma BeginCloseInv(s: Broker, id: Id)
    requires Inv(s)
    ensures Inv(BeginClose(s, id))
  {
    if IsRegistered(s, id) {
      assert Consistent(s.records[id]);
      ReplaceRecordInv(s, id, s.records[id].(phase := Closing, epoch := s.records[id].epoch + 1));
    }
  }

  lemma LoseConnectionInv(s: Broker, conn: Conn)
    requires Inv(s)
    ensures Inv(LoseConnection(s, conn))
  {
    EntitlementsKept(s.opens, s.records, LoseConnection(s, conn).records, s.writers, s.provisional);
  }

  lemma CloseServerInv(s: Broker)
    requires Inv(s)
    ensures Inv(CloseServer(s))
  {
    EntitlementsKept(s.opens, s.records, CloseServer(s).records, s.writers, s.provisional);
  }

  lemma BeginExecuteInv(s: Broker, conn: Conn, id: Id, generation: nat, command: Command)
    requires Inv(s)
    ensures Inv(BeginExecute(s, conn, id, generation, command).0)
  {
    if id in s.records {
      assert Consistent(s.records[id]);
      ReplaceRecordInv(s, id, BeginExecute(s, conn, id, generation, command).0.records[id]);
    }
  }

  lemma FinishExecuteInv(s: Broker, ticket: Id, ok: bool)
    requires Inv(s)
    ensures Inv(FinishExecute(s, ticket, ok))
  {
    var s' := FinishExecute(s, ticket, ok);
    ExecutionKeepsRecords(s, ticket, ok);
    hide FinishExecute;
    EntitlementsKept(s.opens, s.records, s'.records, s.writers, s.provisional);
    hide WritersExact;
    hide LeaseExact;
    forall id | id in s'.records ensures Consistent(s'.records[id]) {
      assert Consistent(s.records[id]);
    }
  }

  lemma InvokeInv(s: Broker, conn: Conn, id: Id, generation: nat, turn: Turn, offered: bool, ticket: Id, ok: bool)
    requires Inv(s)
    ensures Inv(BeginInvoke(s, conn, id, generation, turn, offered).0) && Inv(FinishInvoke(s, ticket, ok))
  {
  }

  // A finished command can only clear the remembered bootstrap turn.
  lemma ExecutionKeepsRecords(s: Broker, ticket: Id, ok: bool)
    requires IdsFresh(s)
    ensures var s' := FinishExecute(s, ticket, ok);
            && IdsFresh(s') && s'.opens == s.opens && s'.writers == s.writers && s'.provisional == s.provisional
            && s'.records.Keys == s.records.Keys
            && forall id :: id in s.records ==> s'.records[id] == s.records[id].(bootstrap := s'.records[id].bootstrap)
  {
  }

  lemma BeginReopenInv(s: Broker, conn: Conn, id: Id, generation: nat)
    requires Inv(s)
    ensures Inv(BeginReopen(s, conn, id, generation))
  {
    if id in s.records {
      assert Consistent(s.records[id]);
      ReplaceRecordInv(s, id, s.records[id].(epoch := s.records[id].epoch + 1));
    }
  }

  lemma FinishReopenInv(s: Broker, id: Id, reply: OpenReply)
    requires Inv(s)
    ensures Inv(FinishReopen(s, id, reply))
  {
    if id in s.reopening && id in s.records {
      assert Consistent(s.records[id]);
      var r := FinishReopen(s, id, reply).records[id];
      ReplaceRecordInv(s, id, r);
      assert FinishReopen(s, id, reply) == s.(records := s.records[id := r]).(reopening := s.reopening - {id}) by {
        assert s.records[id := s.records[id]] == s.records;
      }
      hide FinishReopen;
      hide Consistent;
      ReopenedInv(s.(records := s.records[id := r]), id);
    }
  }

  lemma ReopenedInv(s: Broker, id: Id)
    requires Inv(s)
    ensures Inv(s.(reopening := s.reopening - {id}))
  {
  }

  lemma StepInv(s: Broker, event: Event)
    requires Inv(s)
    ensures Inv(Step(s, event))
  {
    match event
    case OpenBegins(conn, input) => BeginOpenInv(s, conn, input);
    case OpenEnds(id, reply) => if id in s.opens { FinishOpenInv(s, id, reply); }
    case Forwarded(f, output) => ForwardInv(s, f, output);
    case CloseBegins(id) => BeginCloseInv(s, id);
    case CloseEnds(id) => FinishCloseInv(s, id);
    case ConnectionLost(conn) => LoseConnectionInv(s, conn);
    case ServerCloses => CloseServerInv(s);
    case ExecuteBegins(conn, id, generation, command) => BeginExecuteInv(s, conn, id, generation, command);
    case ExecuteEnds(ticket, ok) => FinishExecuteInv(s, ticket, ok);
    case InvokeBegins(conn, id, generation, turn, offered) => InvokeInv(s, conn, id, generation, turn, offered, 0, false);
    case InvokeEnds(ticket, ok) => InvokeInv(s, 0, 0, 0, 0, false, ticket, ok);
    case ReopenBegins(conn, id, generation) => BeginReopenInv(s, conn, id, generation);
    case ReopenEnds(id, reply) => FinishReopenInv(s, id, reply);
  }

  lemma {:induction false} RunInv(harness: nat, events: seq<Event>)
    ensures Inv(Run(Empty(harness), events))
  {
    if events != [] {
      RunInv(harness, events[..|events| - 1]);
      StepInv(Run(Empty(harness), events[..|events| - 1]), events[|events| - 1]);
    }
  }

  // ---- the lease theorems ------------------------------------------------------------------------

  ghost predicate OwnsItsKey(s: Broker, id: Id)
    requires id in s.records && s.records[id].writerKey.Some?
  {
    s.records[id].writerKey.value in s.writers && s.writers[s.records[id].writerKey.value] == id
  }

  /**
   * Single writer, in every reachable state: a registered or closing record with a writer
   * key owns that key, so two of them never share a native session; and no key is left
   * behind, because every owner is a live record of that key or an open in flight to it.
   */
  lemma SingleWriter(harness: nat, events: seq<Event>)
    ensures var s := Run(Empty(harness), events);
            && (forall id :: Live(s.records, id) && s.records[id].writerKey.Some? ==> OwnsItsKey(s, id))
            && (forall a, b :: Live(s.records, a) && Live(s.records, b) && s.records[a].writerKey.Some? ==>
                  s.records[a].writerKey == s.records[b].writerKey ==> a == b)
            && (forall key :: key in s.writers ==> Entitled(s.opens, s.records, key, s.writers[key]))
  {
    RunInv(harness, events);
    var s := Run(Empty(harness), events);
    forall id | Live(s.records, id) && s.records[id].writerKey.Some? ensures OwnsItsKey(s, id) {
      assert Entitled(s.opens, s.records, s.records[id].writerKey.value, id);
    }
  }

  lemma FinishOpenKeepsOwner(s: Broker, id: Id, reply: OpenReply, key: Key)
    requires Inv(s) && id in s.opens && key in s.writers && key in FinishOpen(s, id, reply).0.writers
    ensures FinishOpen(s, id, reply).0.writers[key] == s.writers[key]
  {
    assert (key in s.writers && s.writers[key] == id) <==> Entitled(s.opens, s.records, key, id);
  }

  lemma ForwardKeepsOwner(s: Broker, f: Forwarder, output: Output, key: Key)
    requires key in s.writers && key in Forward(s, f, output).writers
    ensures Forward(s, f, output).writers[key] == s.writers[key]
  {
  }

  lemma StepKeepsOwner(s: Broker, event: Event, key: Key)
    requires Inv(s) && key in s.writers && key in Step(s, event).writers
    ensures Step(s, event).writers[key] == s.writers[key]
  {
    hide FinishOpen;
    hide Forward;
    match event
    case OpenEnds(id, reply) => if id in s.opens { FinishOpenKeepsOwner(s, id, reply, key); }
    case Forwarded(f, output) => ForwardKeepsOwner(s, f, output, key);
    case _ =>
  }

  /** A native key changes owner only through absence: no step hands it over directly. */
  lemma OwnerChangesThroughAbsence(harness: nat, events: seq<Event>, event: Event, key: Key)
    requires key in Run(Empty(harness), events).writers && key in Run(Empty(harness), events + [event]).writers
    ensures Run(Empty(harness), events + [event]).writers[key] == Run(Empty(harness), events).writers[key]
  {
    RunInv(harness, events);
    RunSnoc(Empty(harness), events, event);
    StepKeepsOwner(Run(Empty(harness), events), event, key);
  }

  lemma RunSnoc(s: Broker, events: seq<Event>, event: Event)
    ensures Run(s, events + [event]) == Step(Run(s, events), event)
  {
    assert (events + [event])[..|events|] == events;
  }

  /** The provisional lease has at most one holder, and a record marked with it is that holder. */
  lemma OneProvisionalHolder(harness: nat, events: seq<Event>)
    ensures var s := Run(Empty(harness), events);
            && (forall a: Id, b: Id :: LeaseDue(s.opens, s.records, a) && LeaseDue(s.opens, s.records, b) ==> a == b)
            && (forall id :: Live(s.records, id) && s.records[id].lease ==> s.provisional == Some(id))
            && (s.provisional.Some? ==> LeaseDue(s.opens, s.records, s.provisional.value))
  {
    RunInv(harness, events);
    var s := Run(Empty(harness), events);
    forall a: Id, b: Id | LeaseDue(s.opens, s.records, a) && LeaseDue(s.opens, s.records, b) ensures a == b {
      assert s.provisional == Some(a) && s.provisional == Some(b);
    }
    forall id | Live(s.records, id) && s.records[id].lease ensures s.provisional == Some(id) {
      assert LeaseDue(s.opens, s.records, id);
    }
  }

  /**
   * Admission, exactly: an open goes ahead when the connection is up, its source belongs to
   * this harness, nothing is due the provisional lease, and no open in flight or live
   * record is entitled to its source.
   */
  lemma OpenAdmittedExactly(harness: nat, events: seq<Event>, conn: Conn, input: OpenInput)
    ensures var s := Run(Empty(harness), events);
            BeginOpen(s, conn, input).1.Admitted? <==>
              && !s.closed && conn !in s.lost
              && (input.Create? || input.ref.harness == s.harness)
              && (forall id: Id :: !LeaseDue(s.opens, s.records, id))
              && (input.Create? || forall id: Id :: !Entitled(s.opens, s.records, input.ref.session, id))
  {
    RunInv(harness, events);
    var s := Run(Empty(harness), events);
    if s.provisional.Some? {
      assert LeaseDue(s.opens, s.records, s.provisional.value);
    }
    if !input.Create? && input.ref.session in s.writers {
      assert Entitled(s.opens, s.records, input.ref.session, s.writers[input.ref.session]);
    }
  }
}
