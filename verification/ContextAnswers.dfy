/** When the calls of the context store succeed and what they answer otherwise, read off the store as it
    was before the call, and who can change or end a context. */
module ContextAnswers {
  import opened Common
  import opened ContextStore
  import opened ContextInvariants
  import opened ContextRuns

  // ---- what a sweep leaves -------------------------------------------------

  /** The context is idle and its deadline has come. */
  ghost predicate Due(e: Entry, now: int) {
    e.state == Active && e.reservation == "" && e.expiresAt.Some? && e.expiresAt.value <= now
  }

  ghost predicate LiveAt(s: Store, cid: string, now: int) {
    cid in s.contexts && s.contexts[cid].state == Active && !Due(s.contexts[cid], now)
  }

  /** A tombstone, or an expired context that keeps one for a while, is still there. */
  ghost predicate Lingers(o: Options, e: Entry, now: int) {
    if Due(e, now) then o.tombstone > 0
    else e.state == Active || e.tombstoneUntil.None? || e.tombstoneUntil.value > now
  }

  ghost predicate Visible(o: Options, s: Store, cid: string, now: int) {
    cid in s.contexts && Lingers(o, s.contexts[cid], now)
  }

  ghost predicate Taken(s: Store, key: string, now: int) {
    key in s.idempotency && (s.idempotency[key].Busy? || now < s.idempotency[key].retainUntil)
  }

  /** A sweep removes what has had its time, turns due contexts into tombstones and leaves the rest. */
  lemma SweepExactly(o: Options, s: Store, now: int, cid: string)
    ensures var w := Sweep(o, s, now);
            && (cid in w.contexts <==> Visible(o, s, cid, now))
            && (cid in w.contexts ==>
                  var e, n := s.contexts[cid], w.contexts[cid];
                  if Due(e, now) then n == e.(state := Expired, expiresAt := None,
                                              tombstoneUntil := Some(now + o.tombstone * SECOND))
                  else n == e)
            && w.reservations == s.reservations
  {
  }

  lemma SweptKeys(o: Options, s: Store, now: int, key: string)
    ensures var w := Sweep(o, s, now);
            && (key in w.idempotency <==> Taken(s, key, now))
            && (key in w.idempotency ==> w.idempotency[key] == s.idempotency[key])
  {
  }

  // ---- using a context -----------------------------------------------------

  /** The caller's own context, in force, idle and at the version the caller names. */
  ghost predicate Usable(s: Store, owner: Owner, cid: string, base: uint64, now: int) {
    && LiveAt(s, cid, now)
    && s.contexts[cid].owner == owner && s.contexts[cid].reservation == "" && s.contexts[cid].version == base
  }

  /** What a caller is told who cannot use a context: a code, and the version if the caller owns it. */
  ghost function Denial(o: Options, s: Store, owner: Owner, cid: string, now: int): (string, Option<uint64>) {
    if !Visible(o, s, cid, now) then (NOT_FOUND, None)
    else
      var e := s.contexts[cid];
      if e.owner != owner then (FORBIDDEN, None)
      else if e.state == Expired || Due(e, now) then (EXPIRED, Some(e.version))
      else if e.state == Released then (NOT_FOUND, None)
      else (VERSION_CONFLICT, Some(e.version))
  }

  lemma MutableIs(o: Options, s: Store, owner: Owner, cid: string, base: uint64, now: int)
    ensures var found := RequireMutable(Sweep(o, s, now), owner, cid);
            && (found.Ok? && found.value.reservation == "" && found.value.version == base
                <==> Usable(s, owner, cid, base, now))
            && (Usable(s, owner, cid, base, now) ==> found == Ok(s.contexts[cid]))
            && (!Usable(s, owner, cid, base, now) ==>
                  Denial(o, s, owner, cid, now) == if found.Err? then (found.code, found.currentVersion)
                                                   else (VERSION_CONFLICT, Some(found.value.version)))
  {
    SweepExactly(o, s, now, cid);
  }

  // ---- release -------------------------------------------------------------

  /** The caller may release the context now. */
  ghost predicate MayRelease(o: Options, s: Store, owner: Owner, cid: string, base: uint64, idem: string, now: int) {
    && Release in o.supported && ValidContextId(cid) && idem != ""
    && !Taken(s, OwnerKey(owner, RELEASE_ACTION, idem), now)
    && Usable(s, owner, cid, base, now)
  }

  ghost function ReleaseDenial(o: Options, s: Store, owner: Owner, cid: string, base: uint64, idem: string, now: int)
    : Result<Receipt>
  {
    var key := OwnerKey(owner, RELEASE_ACTION, idem);
    if Release !in o.supported then Err(UNSUPPORTED, None)
    else if !ValidContextId(cid) || idem == "" then Err(PARAMS_INVALID, None)
    else if Taken(s, key, now) then
      var prior := s.idempotency[key];
      if prior.Completed? && prior.released == Some(Version(cid, base)) then Ok(prior.receipt)
      else Err(IDEMPOTENCY_CONFLICT, None)
    else
      var d := Denial(o, s, owner, cid, now);
      Err(d.0, d.1)
  }

  /** A release takes effect if and only if the owner names the current version of a context that is
      live and idle, under a key that is not in use; then it creates the next version. */
  lemma ReleaseExactly(o: Options, s: Store, owner: Owner, cid: string, base: uint64, idem: string, t: Clock)
    ensures var (after, rr) := ReleaseContext(o, s, owner, cid, base, idem, t);
            && (rr.applied <==> MayRelease(o, s, owner, cid, base, idem, t.first))
            && (rr.applied ==>
                  && rr.result == Ok(Receipt(cid, (base + 1) % TWO64, Release, Released, None, None))
                  && after.contexts == Sweep(o, s, t.first).contexts[cid :=
                       s.contexts[cid].(version := (base + 1) % TWO64, state := Released, expiresAt := None,
                                        tombstoneUntil := Some(t.second + o.tombstone * SECOND))]
                  && after.reservations == s.reservations
                  && after.idempotency == Sweep(o, s, t.first).idempotency[OwnerKey(owner, RELEASE_ACTION, idem) :=
                       Completed("", rr.result.value, Some(Version(cid, base)), t.third + o.idempotencyTtl)])
            && (!rr.applied ==>
                  after == Sweep(o, s, t.first) && rr.result == ReleaseDenial(o, s, owner, cid, base, idem, t.first))
  {
    hide SweptContexts, SweptOutcomes, OwnerKey, ValidContextId, Usable, Denial;
    MutableIs(o, s, owner, cid, base, t.first);
    SweptKeys(o, s, t.first, OwnerKey(owner, RELEASE_ACTION, idem));
  }

  // ---- reserve -------------------------------------------------------------

  /** A request that can be considered at all. */
  ghost predicate Proper(r: Request) {
    && r.operation != Release && r.idempotencyKey != "" && r.ttl != Some(0)
    && (if r.operation == Create then r.contextId.None? && r.baseVersion.None?
        else r.contextId.Some? && r.baseVersion.Some? && ValidContextId(r.contextId.value))
    && (r.operation == Fork || r.messages != [])
  }

  /** Only a new context, or a reset one, may get system messages. */
  ghost predicate BringsSystem(r: Request) {
    (r.operation == Append || r.operation == Fork) && exists m :: m in r.messages && m.role == "system"
  }

  ghost predicate AddsContext(r: Request, owner: Owner) {
    r.owner == owner && (r.operation == Create || r.operation == Fork)
  }

  /** The caller's live contexts and those still to come leave room for one more. */
  ghost predicate Room(o: Options, s: Store, owner: Owner, now: int) {
    var live := set c | c in s.contexts && s.contexts[c].owner == owner && LiveAt(s, c, now);
    var pending := set r | r in s.reservations && AddsContext(s.reservations[r].request, owner);
    |live| + |pending| < o.maxContexts
  }

  lemma RoomIs(o: Options, s: Store, owner: Owner, now: int)
    ensures Room(o, s, owner, now) <==> !QuotaReached(o, Sweep(o, s, now), owner)
  {
    var w := Sweep(o, s, now);
    forall c ensures c in Live(w, owner) <==> c in s.contexts && s.contexts[c].owner == owner && LiveAt(s, c, now) {
      SweepExactly(o, s, now, c);
    }
    assert Live(w, owner) == set c | c in s.contexts && s.contexts[c].owner == owner && LiveAt(s, c, now);
    assert Pending(w, owner) == set r | r in s.reservations && AddsContext(s.reservations[r].request, owner);
  }

  ghost predicate MayReserve(o: Options, s: Store, r: Request, now: int) {
    && Proper(r) && !BringsSystem(r) && r.operation in o.supported
    && !Taken(s, OwnerKey(r.owner, COMPLETE_ACTION, r.idempotencyKey), now)
    && (r.operation != Create ==>
          && Usable(s, r.owner, r.contextId.value, r.baseVersion.value, now)
          && (r.operation != Reset ==> s.contexts[r.contextId.value].binding == r.binding))
    && (r.operation == Create || r.operation == Fork ==> Room(o, s, r.owner, now))
  }

  ghost function ReserveDenial(o: Options, s: Store, r: Request, now: int): Result<Reservation> {
    if !Proper(r) then Err(PARAMS_INVALID, None)
    else if BringsSystem(r) then Err(BINDING_MISMATCH, None)
    else if r.operation !in o.supported then Err(UNSUPPORTED, None)
    else if Taken(s, OwnerKey(r.owner, COMPLETE_ACTION, r.idempotencyKey), now) then Err(IDEMPOTENCY_CONFLICT, None)
    else if r.operation != Create && !Usable(s, r.owner, r.contextId.value, r.baseVersion.value, now) then
      var d := Denial(o, s, r.owner, r.contextId.value, now); Err(d.0, d.1)
    else if r.operation != Create && r.operation != Reset && s.contexts[r.contextId.value].binding != r.binding then
      Err(BINDING_MISMATCH, None)
    else Err(LIMIT_EXCEEDED, None)
  }

  lemma ProperIs(r: Request)
    ensures RequestError(r) == if !Proper(r) then PARAMS_INVALID else if BringsSystem(r) then BINDING_MISMATCH else ""
  {
    hide ValidContextId;
    if HasSystemMessage(r.messages) {
      var i :| 0 <= i < |r.messages| && r.messages[i].role == "system";
      assert r.messages[i] in r.messages;
    }
  }

  /** The seconds that are left, rounded up, but at least one. */
  ghost predicate RoundedUp(seconds: int, left: int) {
    seconds >= 1 && seconds * SECOND >= left && (seconds > 1 ==> (seconds - 1) * SECOND < left)
  }

  lemma QuotientRounds(left: int)
    ensures RoundedUp(Max(1, Quotient(left + SECOND - 1, SECOND)), left)
  {
    if left + SECOND - 1 >= 0 {
      var q := (left + SECOND - 1) / SECOND;
      assert q * SECOND <= left + SECOND - 1 < q * SECOND + SECOND;
    }
  }

  ghost function AtMost(seconds: uint32, limit: uint32): uint32 { if seconds < limit then seconds else limit }

  /** How long the new version is to live: as asked for, up to the maximum. Unasked, a new context gets
      the default, an append or reset the context's own lifetime, a fork what its parent has left. */
  ghost predicate Lifetime(o: Options, s: Store, r: Request, now: int, ttl: Option<uint32>) {
    if r.ttl.Some? then ttl == Some(AtMost(r.ttl.value, o.maxTtl))
    else if r.operation == Create then ttl == Some(AtMost(o.defaultTtl, o.maxTtl))
    else if r.contextId.None? || r.contextId.value !in s.contexts then false
    else
      var e := s.contexts[r.contextId.value];
      if r.operation != Fork then ttl == if e.ttl == 0 then None else Some(e.ttl)
      else if e.expiresAt.None? then ttl.None?
      else ttl.Some? && exists k :: RoundedUp(k, e.expiresAt.value - now) && ttl.value == k % TWO32
  }

  lemma LifetimeIs(o: Options, s: Store, r: Request, now: int)
    requires r.operation != Create && r.contextId.Some? && r.contextId.value in s.contexts
    ensures Lifetime(o, s, r, now, EffectiveTtl(o, r, s.contexts[r.contextId.value], now))
  {
    var e := s.contexts[r.contextId.value];
    if r.ttl.None? && r.operation == Fork && e.expiresAt.Some? {
      QuotientRounds(e.expiresAt.value - now);
      assert EffectiveTtl(o, r, e, now).value == Max(1, Quotient(e.expiresAt.value - now + SECOND - 1, SECOND)) % TWO32;
    }
  }

  /** What an admitted request is given: the transcript and version it starts from, and a lifetime. */
  ghost predicate Granted(o: Options, s: Store, r: Request, rid: string, now: int, res: Reservation) {
    && res.id == rid && res.request == r && Lifetime(o, s, r, now, res.ttl)
    && (if r.operation == Create then res.base == [] && res.parent.None?
        else r.contextId.Some? && r.contextId.value in s.contexts && r.baseVersion.Some?
             && res.base == s.contexts[r.contextId.value].transcript
             && (r.operation == Fork ==> res.parent == Some(Version(r.contextId.value, r.baseVersion.value)))
             && (r.operation != Fork ==> res.parent.None?))
  }

  lemma NotRelease(r: Request)
    requires Proper(r)
    ensures r.operation != Release
  {
  }

  lemma AdmitIs(o: Options, s: Store, r: Request, rid: string, t: Clock)
    ensures var got := Admit(o, Sweep(o, s, t.first), r, rid, t.second);
            if MayReserve(o, s, r, t.first) then got.Ok? && Granted(o, s, r, rid, t.second, got.value)
            else got.Err? && got == ReserveDenial(o, s, r, t.first)
  {
    hide SweptContexts, SweptOutcomes, OwnerKey, ValidContextId, Usable, Room, QuotaReached, RequestError, Proper,
      BringsSystem, EffectiveTtl, Lifetime, RequireMutable;
    ProperIs(r);
    RoomIs(o, s, r.owner, t.first);
    SweptKeys(o, s, t.first, KeyOf(r));
    if Proper(r) { AdmitParts(o, s, r, t); }
  }

  lemma AdmitParts(o: Options, s: Store, r: Request, t: Clock)
    requires Proper(r)
    ensures r.operation != Release
    ensures r.operation == Create ==>
              Lifetime(o, s, r, t.second, Some(ClampTtl(o, ValueOr(r.ttl, o.defaultTtl))))
    ensures r.operation != Create ==>
              && r.contextId.Some? && r.baseVersion.Some?
              && var cid, base := r.contextId.value, r.baseVersion.value;
                 var found := RequireMutable(Sweep(o, s, t.first), r.owner, cid);
                 && (found.Ok? && found.value.reservation == "" && found.value.version == base
                     <==> Usable(s, r.owner, cid, base, t.first))
                 && (Usable(s, r.owner, cid, base, t.first) ==>
                       && cid in s.contexts && found == Ok(s.contexts[cid]) && s.contexts[cid].version == base
                       && Lifetime(o, s, r, t.second, EffectiveTtl(o, r, s.contexts[cid], t.second)))
                 && (!Usable(s, r.owner, cid, base, t.first) ==>
                       Denial(o, s, r.owner, cid, t.first) ==
                         if found.Err? then (found.code, found.currentVersion)
                         else (VERSION_CONFLICT, Some(found.value.version)))
  {
    hide Sweep, RequireMutable, EffectiveTtl, Lifetime, Denial, ValidContextId;
    if r.operation != Create {
      MutableIs(o, s, r.owner, r.contextId.value, r.baseVersion.value, t.first);
      if Usable(s, r.owner, r.contextId.value, r.baseVersion.value, t.first) { LifetimeIs(o, s, r, t.second); }
    } else {
      CreateLifetime(o, s, r, t.second);
    }
  }

  lemma CreateLifetime(o: Options, s: Store, r: Request, now: int)
    requires r.operation == Create
    ensures Lifetime(o, s, r, now, Some(ClampTtl(o, ValueOr(r.ttl, o.defaultTtl))))
  {
  }

  /** Only an append or reset holds its context. */
  ghost function HeldFor(r: Request, rid: string, cid: string, e: Entry): Entry {
    if (r.operation == Append || r.operation == Reset) && r.contextId == Some(cid) then e.(reservation := rid) else e
  }

  /** A request is reserved if and only if it is proper and supported, its key is free, the caller's own
      context is usable as named with the same binding, and there is room for a context it adds. */
  lemma ReserveExactly(o: Options, s: Store, r: Request, rid: string, t: Clock)
    ensures var (after, got) := Reserve(o, s, r, rid, t);
            && (got.Ok? <==> MayReserve(o, s, r, t.first))
            && (got.Ok? ==>
                  && Granted(o, s, r, rid, t.second, got.value)
                  && after.reservations == s.reservations[rid := got.value]
                  && after.idempotency == Sweep(o, s, t.first).idempotency[
                       OwnerKey(r.owner, COMPLETE_ACTION, r.idempotencyKey) :=
                         Busy(r.requestId, rid, t.third + o.idempotencyTtl)]
                  && (forall c :: c in after.contexts <==> Visible(o, s, c, t.first))
                  && (forall c :: c in after.contexts ==>
                        after.contexts[c] == HeldFor(r, rid, c, Sweep(o, s, t.first).contexts[c])))
            && (got.Err? ==> after == Sweep(o, s, t.first) && got == ReserveDenial(o, s, r, t.first))
  {
    hide SweptContexts, SweptOutcomes, OwnerKey, ReserveDenial, Admit, Visible, Room, Proper, Usable, BringsSystem;
    AdmitIs(o, s, r, rid, t);
    if MayReserve(o, s, r, t.first) { NotRelease(r); }
    forall c ensures c in Sweep(o, s, t.first).contexts <==> Visible(o, s, c, t.first) {
      SweepExactly(o, s, t.first, c);
    }
  }
}
