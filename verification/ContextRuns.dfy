/** Runs of the context store: the invariant in every reachable state, the ledger that
    committed calls add up to, and the life of a reservation and of an idempotency key. */
module ContextRuns {
  import opened Common
  import opened ContextStore
  import opened ContextInvariants

  /** One atomic call with everything it takes from outside. Status, Snapshot and
      SweepExpired change the store only by sweeping. */
  datatype Call =
    | CallReserve(request: Request, rid: string, t: Clock)
    | CallCommit(handle: Option<Reservation>, assistant: Message, draws: Draws, t: Clock)
    | CallAbort(handle: Option<Reservation>, code: string, t: Clock)
    | CallRelease(owner: Owner, cid: string, base: uint64, idem: string, t: Clock)
    | CallSweep(t: Clock)

  datatype Reply =
    | Reserved(reservation: Result<Reservation>)
    | Committed(receipt: Result<Receipt>)
    | Aborted(done: Result<()>)
    | ReleaseDone(release: ReleaseReply)
    | Swept

  function Step(o: Options, s: Store, c: Call): (Store, Reply) {
    match c
    case CallReserve(r, rid, t) => var x := Reserve(o, s, r, rid, t); (x.0, Reserved(x.1))
    case CallCommit(h, a, d, t) => var x := Commit(o, s, h, a, d, t); (x.0, Committed(x.1))
    case CallAbort(h, code, t) => var x := Abort(o, s, h, code, t); (x.0, Aborted(x.1))
    case CallRelease(w, cid, b, i, t) => var x := ReleaseContext(o, s, w, cid, b, i, t); (x.0, ReleaseDone(x.1))
    case CallSweep(t) => (Sweep(o, s, t.first), Swept)
  }

  function StateAfter(o: Options, calls: seq<Call>): Store {
    if calls == [] then EMPTY
    else Step(o, StateAfter(o, calls[..|calls| - 1]), calls[|calls| - 1]).0
  }

  /** The answer of the i-th call. */
  function ReplyAt(o: Options, calls: seq<Call>, i: nat): Reply
    requires i < |calls|
  {
    Step(o, StateAfter(o, calls[..i]), calls[i]).1
  }

  ghost function UsedIds(calls: seq<Call>): set<string> {
    set i | 0 <= i < |calls| && calls[i].CallReserve? :: calls[i].rid
  }

  /** The random reservation IDs are non-empty and never repeat. */
  ghost predicate FreshIds(calls: seq<Call>) {
    calls == [] ||
    (var n := |calls| - 1;
     FreshIds(calls[..n]) && (calls[n].CallReserve? ==> calls[n].rid != "" && calls[n].rid !in UsedIds(calls[..n])))
  }

  lemma {:induction false} FreshPrefix(calls: seq<Call>, n: nat)
    requires FreshIds(calls) && n <= |calls|
    ensures FreshIds(calls[..n])
  {
    if n < |calls| {
      FreshPrefix(calls[..|calls| - 1], n);
      assert calls[..|calls| - 1][..n] == calls[..n];
    } else {
      assert calls[..n] == calls;
    }
  }

  lemma StepKeeps(o: Options, s: Store, c: Call)
    requires Inv(o, s)
    requires c.CallReserve? ==> c.rid != "" && c.rid !in s.reservations
    ensures Inv(o, Step(o, s, c).0)
  {
    match c
    case CallReserve(r, rid, t) => ReserveKeeps(o, s, r, rid, t);
    case CallCommit(h, a, d, t) => CommitKeeps(o, s, h, a, d, t);
    case CallAbort(h, code, t) => AbortKeeps(o, s, h, code, t);
    case CallRelease(w, cid, b, i, t) => ReleaseKeeps(o, s, w, cid, b, i, t);
    case CallSweep(t) => SweepKeeps(o, s, t.first);
  }

  /** A step opens at most the reservation it was given an ID for. */
  lemma StepReservations(o: Options, s: Store, c: Call)
    ensures Step(o, s, c).0.reservations.Keys <= s.reservations.Keys + (if c.CallReserve? then {c.rid} else {})
    ensures forall rid ::
              rid in s.reservations && rid in Step(o, s, c).0.reservations && !(c.CallReserve? && c.rid == rid)
              ==> Step(o, s, c).0.reservations[rid] == s.reservations[rid]
  {
  }

  lemma UsedIdsGrow(calls: seq<Call>)
    requires calls != []
    ensures var n := |calls| - 1;
            UsedIds(calls) == UsedIds(calls[..n]) + (if calls[n].CallReserve? then {calls[n].rid} else {})
  {
    var n := |calls| - 1;
    forall x | x in UsedIds(calls)
      ensures x in UsedIds(calls[..n]) + (if calls[n].CallReserve? then {calls[n].rid} else {})
    {
      var i :| 0 <= i < |calls| && calls[i].CallReserve? && calls[i].rid == x;
      if i < n { assert calls[..n][i] == calls[i]; }
    }
    forall x | x in UsedIds(calls[..n]) ensures x in UsedIds(calls) {
      var i :| 0 <= i < n && calls[..n][i].CallReserve? && calls[..n][i].rid == x;
      assert calls[i].rid == x;
    }
  }

  /** Every reachable state satisfies the invariant. */
  lemma {:induction false} Reachable(o: Options, calls: seq<Call>)
    requires FreshIds(calls)
    ensures Inv(o, StateAfter(o, calls))
    ensures StateAfter(o, calls).reservations.Keys <= UsedIds(calls)
  {
    if calls == [] {
      EmptyInv(o);
    } else {
      var n := |calls| - 1;
      Reachable(o, calls[..n]);
      UsedIdsGrow(calls);
      StepKeeps(o, StateAfter(o, calls[..n]), calls[n]);
      StepReservations(o, StateAfter(o, calls[..n]), calls[n]);
    }
  }

  // ---- what reachable states guarantee -------------------------------------

  /** A principal's active contexts plus its pending creates and forks stay within the quota. */
  lemma QuotaAlways(o: Options, calls: seq<Call>, owner: Owner)
    requires FreshIds(calls)
    ensures var s := StateAfter(o, calls); |Live(s, owner)| + |Pending(s, owner)| <= o.maxContexts
  {
    Reachable(o, calls);
    assert QuotaOk(o, StateAfter(o, calls), owner);
  }

  /** Each context has at most one open append or reset, and it stays as reserved. */
  lemma OneOpenMutation(o: Options, calls: seq<Call>, a: Reservation, b: Reservation)
    requires FreshIds(calls)
    requires Open(StateAfter(o, calls), a) && Open(StateAfter(o, calls), b)
    requires !Allocates(a.request.operation) && !Allocates(b.request.operation)
    requires a.request.contextId == b.request.contextId
    ensures a == b && HeldAsReserved(StateAfter(o, calls), a)
  {
    var s := StateAfter(o, calls);
    Reachable(o, calls);
    assert ReservationOk(s, a.id);
    if a.id != b.id { ReservationsDisjoint(s, a.id, b.id); }
  }

  ghost predicate SameKey(s: Store, a: string, b: string) {
    && a in s.reservations && b in s.reservations
    && KeyOf(s.reservations[a].request) == KeyOf(s.reservations[b].request)
  }

  /** Open reservations and busy outcomes correspond one to one through the key. */
  lemma BusyMeansOpen(o: Options, calls: seq<Call>, key: string)
    requires FreshIds(calls)
    ensures var s := StateAfter(o, calls);
            (key in s.idempotency && s.idempotency[key].Busy?)
            <==> exists rid :: rid in s.reservations && KeyOf(s.reservations[rid].request) == key
    ensures var s := StateAfter(o, calls);
            forall a, b :: SameKey(s, a, b) ==> a == b
  {
    var s := StateAfter(o, calls);
    Reachable(o, calls);
    assert OutcomeOk(s, key);
    if rid :| rid in s.reservations && KeyOf(s.reservations[rid].request) == key {
      assert ReservationOk(s, rid);
    }
    forall a, b | SameKey(s, a, b) ensures a == b {
      if a != b { ReservationsDisjoint(s, a, b); }
    }
  }

  /** Committing an open append or reset cannot fail, and it lands on the version the
      request named, plus one. */
  lemma HeldCommitSucceeds(o: Options, calls: seq<Call>, res: Reservation, a: Message, draws: Draws, t: Clock)
    requires FreshIds(calls) && Open(StateAfter(o, calls), res) && !Allocates(res.request.operation)
    ensures res.request.baseVersion.Some? && res.request.contextId.Some?
    ensures var reply := Commit(o, StateAfter(o, calls), Some(res), a, draws, t).1;
            reply.Ok? && reply.value.contextId == res.request.contextId.value
            && reply.value.version == Successor(res.request.baseVersion.value)
  {
    Reachable(o, calls);
    assert ReservationOk(StateAfter(o, calls), res.id);
  }
}
