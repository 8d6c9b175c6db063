/** What every step of the context store keeps. */
module ContextInvariants {
  import opened Common
  import opened ContextStore
  import opened Digraph

  /** An open append or reset holds its context: it is active, and still at the version and
      transcript the reservation was made against. */
  ghost predicate HeldAsReserved(s: Store, res: Reservation) {
    && res.request.contextId.Some? && res.request.baseVersion.Some?
    && var cid := res.request.contextId.value;
       && cid in s.contexts
       && var e := s.contexts[cid];
          && e.reservation == res.id && e.state == Active && e.owner == res.request.owner
          && e.version == res.request.baseVersion.value && e.transcript == res.base
          && (res.request.operation == Append ==> e.binding == res.request.binding)
  }

  ghost predicate HasBusyOutcome(s: Store, res: Reservation) {
    var key := KeyOf(res.request);
    key in s.idempotency && s.idempotency[key].Busy? && s.idempotency[key].reservation == res.id
  }

  ghost predicate ForkRecordsParent(res: Reservation) {
    && res.request.contextId.Some? && res.request.baseVersion.Some?
    && res.parent == Some(Version(res.request.contextId.value, res.request.baseVersion.value))
  }

  ghost predicate ReservationOk(s: Store, rid: string) {
    rid in s.reservations ==>
      var res := s.reservations[rid];
      && res.id == rid && rid != "" && res.request.operation != Release
      && (Allocates(res.request.operation) || HeldAsReserved(s, res))
      && (res.request.operation == Fork ==> ForkRecordsParent(res))
      && HasBusyOutcome(s, res)
  }

  /** A held context names an open append or reset of itself. */
  ghost predicate ContextOk(s: Store, cid: string) {
    cid in s.contexts && s.contexts[cid].reservation != "" ==>
      var rid := s.contexts[cid].reservation;
      rid in s.reservations && !Allocates(s.reservations[rid].request.operation)
      && s.reservations[rid].request.contextId == Some(cid)
  }

  /** A busy outcome names an open reservation with that key. */
  ghost predicate OutcomeOk(s: Store, key: string) {
    key in s.idempotency && s.idempotency[key].Busy? ==>
      var rid := s.idempotency[key].reservation;
      rid in s.reservations && KeyOf(s.reservations[rid].request) == key
  }

  ghost predicate QuotaOk(o: Options, s: Store, owner: Owner) {
    |Live(s, owner)| + |Pending(s, owner)| <= o.maxContexts
  }

  ghost predicate LinksOk(s: Store) {
    && (forall rid :: ReservationOk(s, rid))
    && (forall cid :: ContextOk(s, cid))
    && (forall key :: OutcomeOk(s, key))
  }

  ghost predicate Inv(o: Options, s: Store) {
    LinksOk(s) && forall owner :: QuotaOk(o, s, owner)
  }

  lemma EmptyInv(o: Options)
    ensures Inv(o, EMPTY)
  {
    forall owner ensures QuotaOk(o, EMPTY, owner) {
      assert Live(EMPTY, owner) == {} && Pending(EMPTY, owner) == {};
    }
  }

  // ---- sweep ---------------------------------------------------------------

  lemma SweepContext(o: Options, s: Store, now: int, cid: string)
    requires cid in s.contexts && s.contexts[cid].reservation != "" && s.contexts[cid].state == Active
    ensures cid in Sweep(o, s, now).contexts && Sweep(o, s, now).contexts[cid] == s.contexts[cid]
  {
  }

  lemma SweepKeepsLinks(o: Options, s: Store, now: int)
    requires LinksOk(s)
    ensures LinksOk(Sweep(o, s, now))
  {
    var n := Sweep(o, s, now);
    forall rid ensures ReservationOk(n, rid) {
      assert ReservationOk(s, rid);
      if rid in s.reservations && !Allocates(s.reservations[rid].request.operation) {
        SweepContext(o, s, now, s.reservations[rid].request.contextId.value);
      }
    }
    forall cid ensures ContextOk(n, cid) { assert ContextOk(s, cid); }
    forall key ensures OutcomeOk(n, key) { assert OutcomeOk(s, key); }
  }

  lemma QuotaMonotone(o: Options, s: Store, n: Store, owner: Owner)
    requires QuotaOk(o, s, owner)
    requires Live(n, owner) <= Live(s, owner) && Pending(n, owner) <= Pending(s, owner)
    ensures QuotaOk(o, n, owner)
  {
    SubsetCardinality(Live(n, owner), Live(s, owner));
    SubsetCardinality(Pending(n, owner), Pending(s, owner));
  }

  lemma SweepKeeps(o: Options, s: Store, now: int)
    requires Inv(o, s)
    ensures Inv(o, Sweep(o, s, now))
  {
    var n := Sweep(o, s, now);
    SweepKeepsLinks(o, s, now);
    forall owner ensures QuotaOk(o, n, owner) {
      assert QuotaOk(o, s, owner);
      QuotaMonotone(o, s, n, owner);
    }
  }

  // ---- reserve -------------------------------------------------------------

  lemma AdmittedIsSound(o: Options, s: Store, r: Request, rid: string, now: int)
    requires LinksOk(s) && rid != "" && rid !in s.reservations && Admit(o, s, r, rid, now).Ok?
    ensures var res := Admit(o, s, r, rid, now).value;
            && res.id == rid && res.request == r && r.operation != Release && KeyOf(r) !in s.idempotency
            && (Allocates(r.operation) ==> !QuotaReached(o, s, r.owner))
            && (!Allocates(r.operation) ==> HeldAsReserved(RecordReservation(o, s, res, 0), res))
  {
  }

  lemma RecordKeepsOther(o: Options, s: Store, res: Reservation, now: int, rid: string)
    requires LinksOk(s) && res.id !in s.reservations && KeyOf(res.request) !in s.idempotency && res.id != ""
    requires !Allocates(res.request.operation) ==>
               res.request.contextId.Some? && res.request.contextId.value in s.contexts
               && s.contexts[res.request.contextId.value].reservation == ""
    requires rid != res.id
    ensures ReservationOk(RecordReservation(o, s, res, now), rid)
  {
    assert ReservationOk(s, rid);
  }

  lemma RecordKeepsLinks(o: Options, s: Store, r: Request, rid: string, now: int, t: int)
    requires LinksOk(s) && rid != "" && rid !in s.reservations && Admit(o, s, r, rid, now).Ok?
    ensures LinksOk(RecordReservation(o, s, Admit(o, s, r, rid, now).value, t))
  {
    var res := Admit(o, s, r, rid, now).value;
    var n := RecordReservation(o, s, res, t);
    AdmittedIsSound(o, s, r, rid, now);
    forall id ensures ReservationOk(n, id) {
      if id != rid { RecordKeepsOther(o, s, res, t, id); }
    }
    forall cid ensures ContextOk(n, cid) { assert ContextOk(s, cid); }
    forall key ensures OutcomeOk(n, key) { assert OutcomeOk(s, key); }
  }

  lemma RecordKeepsLive(o: Options, s: Store, res: Reservation, t: int, owner: Owner)
    ensures Live(RecordReservation(o, s, res, t), owner) == Live(s, owner)
  {
  }

  lemma RecordPending(o: Options, s: Store, res: Reservation, t: int, owner: Owner)
    requires res.id !in s.reservations
    ensures Pending(RecordReservation(o, s, res, t), owner) ==
            if res.request.owner == owner && Allocates(res.request.operation)
            then Pending(s, owner) + {res.id} else Pending(s, owner)
  {
  }

  lemma RecordKeepsQuota(o: Options, s: Store, res: Reservation, t: int, owner: Owner)
    requires QuotaOk(o, s, owner) && res.id !in s.reservations
    requires Allocates(res.request.operation) ==> !QuotaReached(o, s, res.request.owner)
    ensures QuotaOk(o, RecordReservation(o, s, res, t), owner)
  {
    RecordKeepsLive(o, s, res, t, owner);
    RecordPending(o, s, res, t, owner);
  }

  lemma ReserveKeeps(o: Options, s: Store, r: Request, rid: string, t: Clock)
    requires Inv(o, s) && rid != "" && rid !in s.reservations
    ensures Inv(o, Reserve(o, s, r, rid, t).0)
  {
    SweepKeeps(o, s, t.first);
    var w := Sweep(o, s, t.first);
    var got := Admit(o, w, r, rid, t.second);
    if got.Ok? {
      AdmittedIsSound(o, w, r, rid, t.second);
      RecordKeepsLinks(o, w, r, rid, t.second, t.third);
      forall owner ensures QuotaOk(o, RecordReservation(o, w, got.value, t.third), owner) {
        assert QuotaOk(o, w, owner);
        RecordKeepsQuota(o, w, got.value, t.third, owner);
      }
    }
  }

  // ---- commit --------------------------------------------------------------

  lemma {:induction false} DrawnIdIsNew(contexts: map<string, Entry>, draws: Draws, k: nat)
    requires k <= 8
    ensures var id := NextContextId(contexts, draws, k);
            id.Some? ==> id.value !in contexts && ValidContextId(id.value)
    decreases 8 - k
  {
    if k < 8 { DrawnIdIsNew(contexts, draws, k + 1); }
  }

  /** Two open reservations never share a key, and never hold the same context. */
  lemma ReservationsDisjoint(s: Store, a: string, b: string)
    requires LinksOk(s) && a in s.reservations && b in s.reservations && a != b
    ensures KeyOf(s.reservations[a].request) != KeyOf(s.reservations[b].request)
    ensures !Allocates(s.reservations[a].request.operation) && !Allocates(s.reservations[b].request.operation)
            ==> s.reservations[a].request.contextId != s.reservations[b].request.contextId
  {
    assert ReservationOk(s, a) && ReservationOk(s, b);
  }

  ghost function Settled(o: Options, s: Store, res: Reservation, cid: string, e: Entry, t: Clock): Store {
    Settle(o, s, res, cid, e, t).0
  }

  lemma SettleKeepsLinks(o: Options, s: Store, res: Reservation, cid: string, e: Entry, t: Clock)
    requires LinksOk(s) && Open(s, res) && e.reservation == ""
    requires if Allocates(res.request.operation) then cid !in s.contexts else res.request.contextId == Some(cid)
    ensures LinksOk(Settled(o, s, res, cid, e, t))
  {
    var n := Settled(o, s, res, cid, e, t);
    assert ReservationOk(s, res.id);
    forall rid ensures ReservationOk(n, rid) {
      assert ReservationOk(s, rid);
      if rid in s.reservations && rid != res.id { ReservationsDisjoint(s, rid, res.id); }
    }
    forall c ensures ContextOk(n, c) { assert ContextOk(s, c); }
    forall key ensures OutcomeOk(n, key) { assert OutcomeOk(s, key); }
  }

  lemma SettleLive(o: Options, s: Store, res: Reservation, cid: string, e: Entry, t: Clock, owner: Owner)
    requires cid !in s.contexts && e.state == Active
    ensures Live(Settled(o, s, res, cid, e, t), owner) ==
            if owner == e.owner then Live(s, owner) + {cid} else Live(s, owner)
  {
  }

  lemma SettlePending(o: Options, s: Store, res: Reservation, cid: string, e: Entry, t: Clock, owner: Owner)
    requires Open(s, res)
    ensures Pending(Settled(o, s, res, cid, e, t), owner) == Pending(s, owner) - {res.id}
    ensures owner == res.request.owner && Allocates(res.request.operation) ==> res.id in Pending(s, owner)
  {
  }

  lemma SettleNewKeepsQuota(o: Options, s: Store, res: Reservation, cid: string, e: Entry, t: Clock, owner: Owner)
    requires QuotaOk(o, s, owner) && Open(s, res) && Allocates(res.request.operation)
    requires cid !in s.contexts && e.owner == res.request.owner && e.state == Active
    ensures QuotaOk(o, Settled(o, s, res, cid, e, t), owner)
  {
    SettleLive(o, s, res, cid, e, t, owner);
    SettlePending(o, s, res, cid, e, t, owner);
    SubsetCardinality(Pending(s, owner) - {res.id}, Pending(s, owner));
  }

  lemma SettleHeldKeepsQuota(o: Options, s: Store, res: Reservation, cid: string, e: Entry, t: Clock, owner: Owner)
    requires QuotaOk(o, s, owner) && cid in s.contexts
    requires e.owner == s.contexts[cid].owner && s.contexts[cid].state == Active
    ensures QuotaOk(o, Settled(o, s, res, cid, e, t), owner)
  {
    QuotaMonotone(o, s, Settled(o, s, res, cid, e, t), owner);
  }

  lemma CommitKeeps(o: Options, s: Store, handle: Option<Reservation>, a: Message, draws: Draws, t: Clock)
    requires Inv(o, s)
    ensures Inv(o, Commit(o, s, handle, a, draws, t).0)
  {
    if handle.Some? && Open(s, handle.value) {
      var res := handle.value;
      assert ReservationOk(s, res.id);
      if Allocates(res.request.operation) {
        CommitNewKeeps(o, s, res, a, draws, t);
      } else {
        CommitHeldKeeps(o, s, res, a, draws, t);
      }
    }
  }

  lemma CommitNewKeeps(o: Options, s: Store, res: Reservation, a: Message, draws: Draws, t: Clock)
    requires Inv(o, s) && Open(s, res) && Allocates(res.request.operation)
    ensures Inv(o, Commit(o, s, Some(res), a, draws, t).0)
  {
    var id := NextContextId(s.contexts, draws, 0);
    DrawnIdIsNew(s.contexts, draws, 0);
    if id.Some? {
      var e := NewEntry(res, a, t.first);
      SettleKeepsLinks(o, s, res, id.value, e, t);
      forall owner ensures QuotaOk(o, Settled(o, s, res, id.value, e, t), owner) {
        assert QuotaOk(o, s, owner);
        SettleNewKeepsQuota(o, s, res, id.value, e, t, owner);
      }
    }
  }

  lemma CommitHeldKeeps(o: Options, s: Store, res: Reservation, a: Message, draws: Draws, t: Clock)
    requires Inv(o, s) && Open(s, res) && !Allocates(res.request.operation)
    ensures Inv(o, Commit(o, s, Some(res), a, draws, t).0)
  {
    assert ReservationOk(s, res.id);
    var cid := res.request.contextId.value;
    var e := Advance(s.contexts[cid], res, a, t.first);
    SettleKeepsLinks(o, s, res, cid, e, t);
    forall owner ensures QuotaOk(o, Settled(o, s, res, cid, e, t), owner) {
      assert QuotaOk(o, s, owner);
      SettleHeldKeepsQuota(o, s, res, cid, e, t, owner);
    }
  }

  // ---- abort ---------------------------------------------------------------

  lemma AbandonKeepsLinks(o: Options, s: Store, res: Reservation, code: string, now: int)
    requires LinksOk(s) && Open(s, res)
    ensures LinksOk(Abandon(o, s, res, code, now))
  {
    var n := Abandon(o, s, res, code, now);
    assert ReservationOk(s, res.id);
    forall rid ensures ReservationOk(n, rid) {
      assert ReservationOk(s, rid);
      if rid in s.reservations && rid != res.id { ReservationsDisjoint(s, rid, res.id); }
    }
    forall c ensures ContextOk(n, c) { assert ContextOk(s, c); }
    forall key ensures OutcomeOk(n, key) { assert OutcomeOk(s, key); }
  }

  lemma AbortKeeps(o: Options, s: Store, handle: Option<Reservation>, code: string, t: Clock)
    requires Inv(o, s)
    ensures Inv(o, Abort(o, s, handle, code, t).0)
  {
    if handle.Some? && Open(s, handle.value) {
      var n := Abandon(o, s, handle.value, code, t.first);
      AbandonKeepsLinks(o, s, handle.value, code, t.first);
      forall owner ensures QuotaOk(o, n, owner) {
        assert QuotaOk(o, s, owner);
        QuotaMonotone(o, s, n, owner);
      }
      SweepKeeps(o, n, t.second);
    }
  }

  // ---- release -------------------------------------------------------------

  lemma BuryKeeps(o: Options, w: Store, n: Store, cid: string, e: Entry, key: string, x: Outcome)
    requires Inv(o, w) && cid in w.contexts && w.contexts[cid].reservation == "" && key !in w.idempotency
    requires e.reservation == "" && e.state == Released && x.Completed?
    requires n == Store(w.contexts[cid := e], w.idempotency[key := x], w.reservations)
    ensures Inv(o, n)
  {
    forall rid ensures ReservationOk(n, rid) { assert ReservationOk(w, rid); }
    forall c ensures ContextOk(n, c) { assert ContextOk(w, c); }
    forall k ensures OutcomeOk(n, k) { assert OutcomeOk(w, k); }
    forall owner ensures QuotaOk(o, n, owner) {
      assert QuotaOk(o, w, owner);
      QuotaMonotone(o, w, n, owner);
    }
  }

  lemma ReleaseKeeps(o: Options, s: Store, owner: Owner, cid: string, base: uint64, idem: string, t: Clock)
    requires Inv(o, s)
    ensures Inv(o, ReleaseContext(o, s, owner, cid, base, idem, t).0)
  {
    var w := Sweep(o, s, t.first);
    SweepKeeps(o, s, t.first);
    var step := ReleaseContext(o, s, owner, cid, base, idem, t);
    if step.1.applied {
      var key := OwnerKey(owner, RELEASE_ACTION, idem);
      BuryKeeps(o, w, step.0, cid, step.0.contexts[cid], key, step.0.idempotency[key]);
    }
  }
}
