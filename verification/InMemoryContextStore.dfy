/** The store object: the maps are fields that the methods reassign, and every method
    performs the step of the same name. */
module InMemoryContextStore {
  import opened Common
  import opened ContextStore
  import opened ContextInvariants

  function Default(value: uint32, fallback: uint32): uint32 { if value == 0 then fallback else value }

  const HOUR: int := 3600 * SECOND

  class InMemoryLlmContextStore {
    const options: Options
    var contexts: map<string, Entry>
    var idempotency: map<string, Outcome>
    var reservations: map<string, Reservation>

    ghost function View(): Store
      reads this
    {
      Store(contexts, idempotency, reservations)
    }

    /** Zero options take their defaults; a missing operation table enables everything. */
    constructor (maxContexts: uint32, defaultTtl: uint32, maxTtl: uint32, tombstone: uint32,
                 idempotencyTtl: int, supported: Option<set<Operation>>)
      ensures View() == EMPTY && Inv(options, View())
      ensures options.maxContexts == Default(maxContexts, 32) > 0
      ensures options.defaultTtl == Default(defaultTtl, 3600) > 0
      ensures options.maxTtl == Default(maxTtl, 3600) > 0
      ensures options.tombstone == Default(tombstone, 86400) > 0
      ensures options.idempotencyTtl == if idempotencyTtl == 0 then 24 * HOUR else idempotencyTtl
      ensures options.supported == if supported.Some? then supported.value else {Create, Append, Fork, Reset, Release}
    {
      options := Options(Default(maxContexts, 32), Default(defaultTtl, 3600), Default(maxTtl, 3600),
                         Default(tombstone, 86400), if idempotencyTtl == 0 then 24 * HOUR else idempotencyTtl,
                         if supported.Some? then supported.value else {Create, Append, Fork, Reset, Release});
      contexts, idempotency, reservations := map[], map[], map[];
      new;
      EmptyInv(options);
    }

    // ---- sweep -------------------------------------------------------------

    /** Idle contexts past their deadline become expired tombstones. */
    method ExpireIdle(now: int)
      modifies this`contexts
      ensures contexts.Keys == old(contexts.Keys)
      ensures forall c :: c in contexts ==> contexts[c] == Lapse(options, old(contexts)[c], now)
    {
      var todo := contexts.Keys;
      while todo != {}
        invariant contexts.Keys == old(contexts.Keys) && todo <= contexts.Keys
        invariant forall c :: c in contexts ==>
                    contexts[c] == if c in todo then old(contexts)[c] else Lapse(options, old(contexts)[c], now)
        decreases todo
      {
        var c :| c in todo;
        var e := contexts[c];
        if e.state == Active && e.reservation == "" && e.expiresAt.Some? && e.expiresAt.value <= now {
          contexts := contexts[c := e.(state := Expired, expiresAt := None,
                                       tombstoneUntil := Some(now + options.tombstone * SECOND))];
        }
        todo := todo - {c};
      }
    }

    /** Elapsed tombstones disappear. */
    method PurgeTombstones(now: int)
      modifies this`contexts
      ensures contexts == map c | c in old(contexts) && !Buried(old(contexts)[c], now) :: old(contexts)[c]
    {
      var todo := contexts.Keys;
      while todo != {}
        invariant todo <= contexts.Keys <= old(contexts.Keys)
        invariant forall c :: c in contexts ==> contexts[c] == old(contexts)[c]
        invariant forall c :: c in old(contexts) ==> (c in contexts <==> c in todo || !Buried(old(contexts)[c], now))
        decreases todo
      {
        var c :| c in todo;
        var e := contexts[c];
        if (e.state == Expired || e.state == Released) && e.tombstoneUntil.Some? && e.tombstoneUntil.value <= now {
          contexts := contexts - {c};
        }
        todo := todo - {c};
      }
    }

    /** Final outcomes past their retention disappear; busy ones stay. */
    method PurgeOutcomes(now: int)
      modifies this`idempotency
      ensures idempotency == SweptOutcomes(old(idempotency), now)
    {
      var todo := idempotency.Keys;
      while todo != {}
        invariant todo <= idempotency.Keys <= old(idempotency.Keys)
        invariant forall k :: k in idempotency ==> idempotency[k] == old(idempotency)[k]
        invariant forall k :: k in old(idempotency) ==>
                    (k in idempotency <==> k in todo || Retained(old(idempotency)[k], now))
        decreases todo
      {
        var k :| k in todo;
        if !idempotency[k].Busy? && idempotency[k].retainUntil <= now {
          idempotency := idempotency - {k};
        }
        todo := todo - {k};
      }
    }

    method SweepLocked(now: int)
      modifies this`contexts, this`idempotency
      ensures View() == Sweep(options, old(View()), now)
    {
      ExpireIdle(now);
      PurgeTombstones(now);
      PurgeOutcomes(now);
    }

    // ---- reserve -----------------------------------------------------------

    method FindSystemMessage(messages: Transcript) returns (found: bool)
      ensures found <==> HasSystemMessage(messages)
    {
      for i := 0 to |messages|
        invariant forall k :: 0 <= k < i ==> messages[k].role != "system"
      {
        if messages[i].role == "system" {
          return true;
        }
      }
      return false;
    }

    method ValidateRequest(r: Request) returns (code: string)
      ensures code == RequestError(r)
    {
      if r.operation == Release { return PARAMS_INVALID; }
      if r.idempotencyKey == "" { return PARAMS_INVALID; }
      if r.ttl == Some(0) { return PARAMS_INVALID; }
      if r.operation == Create {
        if r.contextId.Some? || r.baseVersion.Some? { return PARAMS_INVALID; }
      } else {
        if r.contextId.None? || r.baseVersion.None? { return PARAMS_INVALID; }
        if !ValidContextId(r.contextId.value) { return PARAMS_INVALID; }
      }
      if r.operation != Fork && |r.messages| == 0 { return PARAMS_INVALID; }
      if r.operation == Append || r.operation == Fork {
        var found := FindSystemMessage(r.messages);
        if found { return BINDING_MISMATCH; }
      }
      return "";
    }

    method AllocationExhausted(owner: Owner) returns (full: bool)
      ensures full <==> QuotaReached(options, View(), owner)
    {
      var live := CountLive(owner);
      var pending := CountPending(owner);
      return live + pending >= options.maxContexts;
    }

    method CountLive(owner: Owner) returns (n: nat)
      ensures n == |Live(View(), owner)|
    {
      n := 0;
      var todo := contexts.Keys;
      ghost var seen := {};
      while todo != {}
        invariant todo <= contexts.Keys
        invariant seen == (set c | c in Live(View(), owner) && c !in todo) && n == |seen|
        decreases todo
      {
        var c :| c in todo;
        if contexts[c].owner == owner && contexts[c].state == Active {
          n := n + 1;
          seen := seen + {c};
        }
        todo := todo - {c};
      }
      assert seen == Live(View(), owner);
    }

    method CountPending(owner: Owner) returns (n: nat)
      ensures n == |Pending(View(), owner)|
    {
      n := 0;
      var todo := reservations.Keys;
      ghost var seen := {};
      while todo != {}
        invariant todo <= reservations.Keys
        invariant seen == (set r | r in Pending(View(), owner) && r !in todo) && n == |seen|
        decreases todo
      {
        var r :| r in todo;
        var q := reservations[r].request;
        if q.owner == owner && (q.operation == Create || q.operation == Fork) {
          n := n + 1;
          seen := seen + {r};
        }
        todo := todo - {r};
      }
      assert seen == Pending(View(), owner);
    }

    /** Admission of a validated append, fork or reset against its context. */
    method AdmitMutation(r: Request, rid: string, now: int) returns (got: Result<Reservation>)
      requires RequestError(r) == "" && r.operation in options.supported && r.operation != Create
      requires KeyOf(r) !in idempotency
      ensures got == Admit(options, View(), r, rid, now)
    {
      var found := RequireMutable(Store(contexts, idempotency, reservations), r.owner, r.contextId.value);
      if found.Err? {
        return Err(found.code, found.currentVersion);
      }
      var entry := found.value;
      if entry.reservation != "" || entry.version != r.baseVersion.value {
        return Err(VERSION_CONFLICT, Some(entry.version));
      }
      if (r.operation == Append || r.operation == Fork) && entry.binding != r.binding {
        return Err(BINDING_MISMATCH, None);
      }
      if r.operation == Fork {
        var full := AllocationExhausted(r.owner);
        if full {
          return Err(LIMIT_EXCEEDED, None);
        }
      }
      var parent := if r.operation == Fork then Some(Version(r.contextId.value, entry.version)) else None;
      return Ok(Reservation(rid, r, entry.transcript, EffectiveTtl(options, r, entry, now), parent));
    }

    method AdmitRequest(r: Request, rid: string, now: int) returns (got: Result<Reservation>)
      ensures got == Admit(options, View(), r, rid, now)
    {
      var code := ValidateRequest(r);
      if code != "" {
        return Err(code, None);
      }
      if r.operation !in options.supported {
        return Err(UNSUPPORTED, None);
      }
      if KeyOf(r) in idempotency {
        return Err(IDEMPOTENCY_CONFLICT, None);
      }
      if r.operation == Create {
        var full := AllocationExhausted(r.owner);
        if full {
          return Err(LIMIT_EXCEEDED, None);
        }
        var ttl := ClampTtl(options, ValueOr(r.ttl, options.defaultTtl));
        return Ok(Reservation(rid, r, [], Some(ttl), None));
      }
      got := AdmitMutation(r, rid, now);
    }

    /** rid is the freshly drawn reservation ID. */
    method ReserveMutation(r: Request, rid: string, t: Clock) returns (got: Result<Reservation>)
      requires Inv(options, View()) && rid != "" && rid !in reservations
      modifies this
      ensures (View(), got) == Reserve(options, old(View()), r, rid, t)
      ensures Inv(options, View())
    {
      ghost var before := View();
      ReserveKeeps(options, before, r, rid, t);
      SweepLocked(t.first);
      got := AdmitRequest(r, rid, t.second);
      if got.Ok? {
        var res := got.value;
        if r.operation != Create && r.operation != Fork && r.contextId.value in contexts {
          var cid := r.contextId.value;
          contexts := contexts[cid := contexts[cid].(reservation := rid)];
        }
        reservations := reservations[rid := res];
        idempotency := idempotency[KeyOf(r) := Busy(r.requestId, rid, t.third + options.idempotencyTtl)];
      }
    }

    // ---- commit ------------------------------------------------------------

    method DrawContextId(draws: Draws) returns (id: Option<string>)
      ensures id == NextContextId(contexts, draws, 0)
    {
      for attempt := 0 to 8
        invariant NextContextId(contexts, draws, 0) == NextContextId(contexts, draws, attempt)
      {
        var draw := draws[attempt];
        if draw.DrawFailed? {
          return None;
        }
        if !ValidContextId(draw.id) {
          return None;
        }
        if draw.id !in contexts {
          return Some(draw.id);
        }
      }
      return None;
    }

    method CommitReservation(handle: Option<Reservation>, assistant: Message, draws: Draws, t: Clock)
      returns (reply: Result<Receipt>)
      requires Inv(options, View())
      modifies this
      ensures (View(), reply) == Commit(options, old(View()), handle, assistant, draws, t)
      ensures Inv(options, View())
    {
      CommitKeeps(options, View(), handle, assistant, draws, t);
      if handle.None? {
        return Err(NIL_RESERVATION, None);
      }
      var res := handle.value;
      if res.id !in reservations || reservations[res.id] != res {
        return Err(INACTIVE_RESERVATION, None);
      }
      var cid: string;
      var entry: Entry;
      if res.request.operation == Create || res.request.operation == Fork {
        var id := DrawContextId(draws);
        if id.None? {
          return Err(NO_CONTEXT_ID, None);
        }
        cid, entry := id.value, NewEntry(res, assistant, t.first);
      } else {
        if res.request.contextId.None? || res.request.contextId.value !in contexts {
          return Err(NOT_FOUND, None);
        }
        cid := res.request.contextId.value;
        entry := Advance(contexts[cid], res, assistant, t.first);
      }
      contexts := contexts[cid := entry];
      var receipt := Receipt(cid, entry.version, res.request.operation, Active, res.parent, entry.expiresAt);
      idempotency := idempotency[KeyOf(res.request) :=
        Completed(res.request.requestId, receipt, None, t.second + options.idempotencyTtl)];
      reservations := reservations - {res.id};
      return Ok(receipt);
    }

    // ---- abort and release -------------------------------------------------

    method AbortReservation(handle: Option<Reservation>, errorCode: string, t: Clock) returns (reply: Result<()>)
      requires Inv(options, View())
      modifies this
      ensures (View(), reply) == Abort(options, old(View()), handle, errorCode, t)
      ensures Inv(options, View())
    {
      AbortKeeps(options, View(), handle, errorCode, t);
      if handle.None? {
        return Err(NIL_RESERVATION, None);
      }
      var res := handle.value;
      if res.id !in reservations || reservations[res.id] != res {
        return Err(INACTIVE_RESERVATION, None);
      }
      if res.request.contextId.Some? && res.request.contextId.value in contexts {
        var cid := res.request.contextId.value;
        if contexts[cid].reservation == res.id {
          contexts := contexts[cid := contexts[cid].(reservation := "")];
        }
      }
      reservations := reservations - {res.id};
      idempotency := idempotency[KeyOf(res.request) :=
        Failed(res.request.requestId, errorCode, t.first + options.idempotencyTtl)];
      SweepLocked(t.second);
      return Ok(());
    }

    method ReleaseLocked(owner: Owner, cid: string, baseVersion: uint64, idem: string, t: Clock)
      returns (reply: Result<Receipt>, ghost applied: bool)
      requires Inv(options, View())
      modifies this
      ensures (View(), ReleaseReply(reply, applied))
              == ReleaseContext(options, old(View()), owner, cid, baseVersion, idem, t)
      ensures Inv(options, View())
    {
      ReleaseKeeps(options, View(), owner, cid, baseVersion, idem, t);
      SweepLocked(t.first);
      applied := false;
      if Release !in options.supported {
        return Err(UNSUPPORTED, None), applied;
      }
      if !ValidContextId(cid) {
        return Err(PARAMS_INVALID, None), applied;
      }
      if idem == "" {
        return Err(PARAMS_INVALID, None), applied;
      }
      var key := OwnerKey(owner, RELEASE_ACTION, idem);
      if key in idempotency {
        var prior := idempotency[key];
        if prior.Completed? && prior.released == Some(Version(cid, baseVersion)) {
          return Ok(prior.receipt), applied;
        }
        return Err(IDEMPOTENCY_CONFLICT, None), applied;
      }
      var found := RequireMutable(Store(contexts, idempotency, reservations), owner, cid);
      if found.Err? {
        return Err(found.code, found.currentVersion), applied;
      }
      if found.value.reservation != "" || found.value.version != baseVersion {
        return Err(VERSION_CONFLICT, Some(found.value.version)), applied;
      }
      var entry := Bury(options, found.value, t.second);
      contexts := contexts[cid := entry];
      var receipt := Receipt(cid, entry.version, Release, Released, None, None);
      idempotency := idempotency[key :=
        Completed("", receipt, Some(Version(cid, baseVersion)), t.third + options.idempotencyTtl)];
      applied := true;
      return Ok(receipt), applied;
    }
  }
}
