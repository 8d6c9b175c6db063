/** What commits and aborts do, and who can change or end a context in any run. */
module ContextLaws {
  import opened Common
  import opened ContextStore
  import opened ContextInvariants
  import opened ContextRuns
  import opened ContextAnswers

  // ---- commit --------------------------------------------------------------

  /** The k-th draw is the first identifier that is not in use; all before it were well-formed. */
  ghost predicate FirstFree(s: Store, draws: Draws, k: nat) {
    && k < 8 && draws[k].Drawn? && ValidContextId(draws[k].id) && draws[k].id !in s.contexts
    && forall j :: 0 <= j < k ==> draws[j].Drawn? && ValidContextId(draws[j].id) && draws[j].id in s.contexts
  }

  lemma {:induction false} DrawIs(s: Store, draws: Draws, k: nat)
    requires k <= 8
    requires forall j :: 0 <= j < k ==> draws[j].Drawn? && ValidContextId(draws[j].id) && draws[j].id in s.contexts
    ensures var id := NextContextId(s.contexts, draws, k);
            && (id.Some? <==> exists m: nat :: FirstFree(s, draws, m))
            && forall m: nat :: FirstFree(s, draws, m) ==> id == Some(draws[m].id)
    decreases 8 - k
  {
    hide ValidContextId;
    if k < 8 && draws[k].Drawn? && ValidContextId(draws[k].id) {
      if draws[k].id in s.contexts {
        DrawIs(s, draws, k + 1);
      } else {
        assert FirstFree(s, draws, k);
      }
    }
  }

  ghost function Deadline(ttl: Option<uint32>, now: int): Option<int> {
    if ttl.None? then None else Some(now + ttl.value * 1_000_000_000)
  }

  /** The entry a commit writes for a context. */
  ghost predicate NextEntry(s: Store, res: Reservation, a: Message, now: int, cid: string, n: Entry) {
    var r := res.request;
    && n.owner == r.owner && n.state == Active && n.reservation == ""
    && n.expiresAt == Deadline(res.ttl, now) && n.ttl == (if res.ttl.Some? then res.ttl.value else 0)
    && (r.operation == Create ==> n.version == 1 && n.transcript == r.messages + [a] && n.binding == r.binding)
    && (r.operation == Fork ==> n.version == 1 && n.transcript == res.base + r.messages + [a] && n.binding == r.binding)
    && (r.operation == Append || r.operation == Reset ==>
          && r.contextId == Some(cid) && cid in s.contexts
          && n.version == (s.contexts[cid].version + 1) % TWO64)
    && (r.operation == Append ==>
          n.transcript == s.contexts[cid].transcript + r.messages + [a] && n.binding == s.contexts[cid].binding)
    && (r.operation == Reset ==> n.transcript == r.messages + [a] && n.binding == r.binding)
  }

  ghost predicate Writes(o: Options, s: Store, after: Store, res: Reservation, a: Message, t: Clock, receipt: Receipt) {
    var cid := receipt.contextId;
    && cid in after.contexts && NextEntry(s, res, a, t.first, cid, after.contexts[cid])
    && after.contexts == s.contexts[cid := after.contexts[cid]]
    && after.reservations == s.reservations - {res.id}
    && receipt == Receipt(cid, after.contexts[cid].version, res.request.operation, Active, res.parent,
                          Deadline(res.ttl, t.first))
    && after.idempotency == s.idempotency[OwnerKey(res.request.owner, COMPLETE_ACTION, res.request.idempotencyKey) :=
         Completed(res.request.requestId, receipt, None, t.second + o.idempotencyTtl)]
  }

  /** A commit succeeds if and only if its reservation is open and, for a new context, an identifier was
      found; it then writes the next entry of that context and nothing else. */
  lemma CommitExactly(o: Options, s: Store, handle: Option<Reservation>, a: Message, draws: Draws, t: Clock)
    requires Inv(o, s)
    ensures var (after, reply) := Commit(o, s, handle, a, draws, t);
            && (reply.Ok? <==> handle.Some? && Open(s, handle.value) &&
                               (Allocates(handle.value.request.operation) ==> exists k: nat :: FirstFree(s, draws, k)))
            && (reply.Err? ==> after == s)
            && (reply.Ok? ==>
                  && Writes(o, s, after, handle.value, a, t, reply.value)
                  && forall k: nat :: Allocates(handle.value.request.operation) && FirstFree(s, draws, k) ==>
                       reply.value.contextId == draws[k].id)
  {
    hide OwnerKey, ValidContextId, FirstFree, NextEntry, Writes;
    if handle.Some? && Open(s, handle.value) {
      var res := handle.value;
      assert ReservationOk(s, res.id);
      DrawIs(s, draws, 0);
      if !Allocates(res.request.operation) {
        HeldWrites(o, s, res, a, t);
      } else if NextContextId(s.contexts, draws, 0).Some? {
        NewWrites(o, s, res, a, t, NextContextId(s.contexts, draws, 0).value);
      }
    }
  }

  lemma HeldWrites(o: Options, s: Store, res: Reservation, a: Message, t: Clock)
    requires !Allocates(res.request.operation) && res.request.operation != Release && HeldAsReserved(s, res)
    ensures var cid := res.request.contextId.value;
            var (after, reply) := Settle(o, s, res, cid, Advance(s.contexts[cid], res, a, t.first), t);
            reply.Ok? && Writes(o, s, after, res, a, t, reply.value)
  {
    hide OwnerKey;
  }

  lemma NewWrites(o: Options, s: Store, res: Reservation, a: Message, t: Clock, cid: string)
    requires Allocates(res.request.operation)
    ensures var (after, reply) := Settle(o, s, res, cid, NewEntry(res, a, t.first), t);
            reply.Ok? && Writes(o, s, after, res, a, t, reply.value) && reply.value.contextId == cid
  {
    hide OwnerKey;
    assert [] + res.request.messages + [a] == res.request.messages + [a];
  }

  /** The deadline of a version: the lifetime its reservation was granted, from the moment of its commit. */
  lemma VersionExpires(o: Options, calls: seq<Call>, i: nat, j: nat)
    requires FreshIds(calls) && i < |calls| && j < |calls| && calls[i].CallReserve? && calls[j].CallCommit?
    requires ReplyAt(o, calls, i).reservation.Ok? && ReplyAt(o, calls, j).receipt.Ok?
    requires calls[j].handle == Some(ReplyAt(o, calls, i).reservation.value)
    ensures var res, receipt := ReplyAt(o, calls, i).reservation.value, ReplyAt(o, calls, j).receipt.value;
            var after := StateAfter(o, calls[..j + 1]);
            && Lifetime(o, StateAfter(o, calls[..i]), calls[i].request, calls[i].t.second, res.ttl)
            && receipt.expiresAt == Deadline(res.ttl, calls[j].t.first)
            && receipt.contextId in after.contexts && after.contexts[receipt.contextId].expiresAt == receipt.expiresAt
  {
    hide Reserve, Commit, Inv, Lifetime, FirstFree, MayReserve, ReserveDenial;
    ReserveExactly(o, StateAfter(o, calls[..i]), calls[i].request, calls[i].rid, calls[i].t);
    FreshPrefix(calls, j);
    Reachable(o, calls[..j]);
    assert calls[..j + 1][..j] == calls[..j];
    var c := calls[j];
    CommitExactly(o, StateAfter(o, calls[..j]), c.handle, c.assistant, c.draws, c.t);
  }

  // ---- abort ---------------------------------------------------------------

  /** An abort succeeds if and only if its reservation is open; it changes no version and no transcript. */
  lemma AbortExactly(o: Options, s: Store, handle: Option<Reservation>, code: string, t: Clock)
    ensures var (after, reply) := Abort(o, s, handle, code, t);
            && (reply.Ok? <==> handle.Some? && Open(s, handle.value))
            && (reply.Err? ==> after == s)
            && (reply.Ok? ==>
                  && after.reservations == s.reservations - {handle.value.id}
                  && FailedOutcome(o, s, after, handle.value, code, t)
                  && forall cid :: cid in after.contexts ==>
                       && cid in s.contexts && SameContents(s.contexts[cid], after.contexts[cid])
                       && after.contexts[cid].reservation == FreedFrom(handle.value, cid, s.contexts[cid].reservation))
  {
    if handle.Some? && Open(s, handle.value) {
      var n := Abandon(o, s, handle.value, code, t.first);
      forall cid ensures cid in Sweep(o, n, t.second).contexts ==> cid in n.contexts {
        SweepExactly(o, n, t.second, cid);
      }
      AbortOutcome(o, s, handle.value, code, t);
    }
  }

  /** The key keeps the failure, unless that has had its time already. */
  ghost predicate FailedOutcome(o: Options, s: Store, after: Store, res: Reservation, code: string, t: Clock) {
    var key := OwnerKey(res.request.owner, COMPLETE_ACTION, res.request.idempotencyKey);
    && (key in after.idempotency <==> t.second < t.first + o.idempotencyTtl)
    && (key in after.idempotency ==>
          after.idempotency[key] == Failed(res.request.requestId, code, t.first + o.idempotencyTtl))
    && forall k :: k != key ==>
         && (k in after.idempotency <==> Taken(s, k, t.second))
         && (k in after.idempotency ==> after.idempotency[k] == s.idempotency[k])
  }

  ghost predicate SameContents(a: Entry, b: Entry) {
    && a.owner == b.owner && a.version == b.version && a.transcript == b.transcript
    && a.binding == b.binding && a.ttl == b.ttl
  }

  lemma AbortOutcome(o: Options, s: Store, res: Reservation, code: string, t: Clock)
    ensures FailedOutcome(o, s, Sweep(o, Abandon(o, s, res, code, t.first), t.second), res, code, t)
  {
    hide OwnerKey;
    var n := Abandon(o, s, res, code, t.first);
    forall k ensures (k in Sweep(o, n, t.second).idempotency <==> Taken(n, k, t.second))
                     && (k in Sweep(o, n, t.second).idempotency ==>
                           Sweep(o, n, t.second).idempotency[k] == n.idempotency[k]) {
      SweptKeys(o, n, t.second, k);
    }
  }

  /** What holds a context once the reservation is given up. */
  ghost function FreedFrom(res: Reservation, cid: string, holder: string): string {
    if res.request.contextId == Some(cid) && holder == res.id then "" else holder
  }

  // ---- who changes a context -----------------------------------------------

  /** The owner commits an append or reset of the context at its current version, or releases it there. */
  ghost predicate OwnersChange(o: Options, s: Store, c: Call, cid: string)
    requires cid in s.contexts
  {
    var e := s.contexts[cid];
    || (&& c.CallCommit? && c.handle.Some? && Open(s, c.handle.value)
        && c.handle.value.request.contextId == Some(cid) && c.handle.value.request.owner == e.owner
        && c.handle.value.request.baseVersion == Some(e.version))
    || (&& c.CallRelease? && c.cid == cid && c.owner == e.owner && c.base == e.version
        && MayRelease(o, s, c.owner, c.cid, c.base, c.idem, c.t.first))
  }

  lemma SweepContents(o: Options, s: Store, now: int, cid: string)
    requires cid in s.contexts && cid in Sweep(o, s, now).contexts
    ensures SameContents(s.contexts[cid], Sweep(o, s, now).contexts[cid])
  {
  }

  /** A stored context keeps its owner, and only its owner changes it. */
  lemma OnlyTheOwner(o: Options, s: Store, c: Call, cid: string)
    requires Inv(o, s) && cid in s.contexts && cid in Step(o, s, c).0.contexts
    ensures s.contexts[cid].owner == Step(o, s, c).0.contexts[cid].owner
    ensures SameContents(s.contexts[cid], Step(o, s, c).0.contexts[cid]) || OwnersChange(o, s, c, cid)
  {
    hide Commit, Abort, ReleaseContext, Inv, Sweep, MayRelease;
    match c
    case CallReserve(r, rid, t) => ReserveContents(o, s, r, rid, t, cid);
    case CallCommit(h, a, d, t) => CommitContents(o, s, c, cid);
    case CallAbort(h, code, t) => AbortExactly(o, s, h, code, t);
    case CallRelease(w, id, b, i, t) => ReleaseContents(o, s, w, id, b, i, t, cid);
    case CallSweep(t) => SweepContents(o, s, t.first, cid);
  }

  lemma ReserveContents(o: Options, s: Store, r: Request, rid: string, t: Clock, cid: string)
    requires cid in s.contexts && cid in Reserve(o, s, r, rid, t).0.contexts
    ensures SameContents(s.contexts[cid], Reserve(o, s, r, rid, t).0.contexts[cid])
  {
    hide SweptContexts, SweptOutcomes, OwnerKey, Admit;
    if cid in Sweep(o, s, t.first).contexts { SweepContents(o, s, t.first, cid); }
  }

  lemma ReleaseContents(o: Options, s: Store, owner: Owner, id: string, base: uint64, idem: string, t: Clock,
                        cid: string)
    requires cid in s.contexts && cid in ReleaseContext(o, s, owner, id, base, idem, t).0.contexts
    ensures var n := ReleaseContext(o, s, owner, id, base, idem, t).0;
            && s.contexts[cid].owner == n.contexts[cid].owner
            && (SameContents(s.contexts[cid], n.contexts[cid])
                || OwnersChange(o, s, CallRelease(owner, id, base, idem, t), cid))
  {
    hide ReleaseContext, SweptContexts, SweptOutcomes, OwnerKey;
    ReleaseExactly(o, s, owner, id, base, idem, t);
    if cid in Sweep(o, s, t.first).contexts { SweepContents(o, s, t.first, cid); }
  }

  lemma CommitContents(o: Options, s: Store, c: Call, cid: string)
    requires Inv(o, s) && c.CallCommit? && cid in s.contexts && cid in Step(o, s, c).0.contexts
    ensures var n := Step(o, s, c).0;
            && s.contexts[cid].owner == n.contexts[cid].owner
            && (SameContents(s.contexts[cid], n.contexts[cid]) || OwnersChange(o, s, c, cid))
  {
    hide Commit, OwnerKey, ValidContextId;
    var (after, reply) := Commit(o, s, c.handle, c.assistant, c.draws, c.t);
    CommitExactly(o, s, c.handle, c.assistant, c.draws, c.t);
    if reply.Ok? && reply.value.contextId == cid {
      var res := c.handle.value;
      assert ReservationOk(s, res.id);
    }
  }

  // ---- what ends a context -------------------------------------------------

  /** The time a call sweeps the store at. */
  ghost function SweepTime(s: Store, c: Call): Option<int> {
    match c
    case CallReserve(_, _, t) => Some(t.first)
    case CallCommit(_, _, _, _) => None
    case CallAbort(h, _, t) => if h.Some? && Open(s, h.value) then Some(t.second) else None
    case CallRelease(_, _, _, _, t) => Some(t.first)
    case CallSweep(t) => Some(t.first)
  }

  /** The context's deadline has come when it is swept, and no mutation of it is open, or its abort is
      what sweeps. */
  ghost predicate SweptWhenDue(s: Store, c: Call, cid: string)
    requires cid in s.contexts
  {
    var e := s.contexts[cid];
    && e.expiresAt.Some? && SweepTime(s, c).Some? && e.expiresAt.value <= SweepTime(s, c).value
    && (e.reservation == "" || (c.CallAbort? && c.handle.Some? && c.handle.value.id == e.reservation))
  }

  ghost predicate InUse(s: Store, cid: string) { cid in s.contexts && s.contexts[cid].state == Active }

  ghost predicate EndsLife(o: Options, s: Store, c: Call, cid: string) {
    InUse(s, cid) &&
    (SweptWhenDue(s, c, cid) || (c.CallRelease? && OwnersChange(o, s, c, cid)))
  }

  lemma SweepLife(o: Options, s: Store, now: int, cid: string)
    requires InUse(s, cid)
    ensures InUse(Sweep(o, s, now), cid) <==> !Due(s.contexts[cid], now)
  {
    SweepExactly(o, s, now, cid);
  }

  /** A context stays live unless it is swept at its deadline or its owner releases its current version. */
  lemma StepLife(o: Options, s: Store, c: Call, cid: string)
    requires Inv(o, s) && InUse(s, cid)
    ensures InUse(Step(o, s, c).0, cid) || EndsLife(o, s, c, cid)
  {
    hide Reserve, Commit, Abort, ReleaseContext, Inv, Sweep, OwnersChange;
    match c
    case CallReserve(r, rid, t) => ReserveLife(o, s, r, rid, t, cid);
    case CallCommit(h, a, d, t) => CommitLife(o, s, h, a, d, t, cid);
    case CallAbort(h, code, t) => AbortLife(o, s, h, code, t, cid);
    case CallRelease(w, id, b, i, t) => ReleaseLife(o, s, w, id, b, i, t, cid);
    case CallSweep(t) => SweepLife(o, s, t.first, cid);
  }

  lemma ReserveLife(o: Options, s: Store, r: Request, rid: string, t: Clock, cid: string)
    requires InUse(s, cid)
    ensures InUse(Reserve(o, s, r, rid, t).0, cid) || SweptWhenDue(s, CallReserve(r, rid, t), cid)
  {
    hide SweptContexts, SweptOutcomes, OwnerKey, Admit;
    SweepLife(o, s, t.first, cid);
  }

  lemma CommitLife(o: Options, s: Store, h: Option<Reservation>, a: Message, draws: Draws, t: Clock, cid: string)
    requires Inv(o, s) && InUse(s, cid)
    ensures InUse(Commit(o, s, h, a, draws, t).0, cid)
  {
    hide Commit, OwnerKey, FirstFree, Inv;
    CommitExactly(o, s, h, a, draws, t);
  }

  lemma AbortLife(o: Options, s: Store, h: Option<Reservation>, code: string, t: Clock, cid: string)
    requires InUse(s, cid)
    ensures InUse(Abort(o, s, h, code, t).0, cid) || SweptWhenDue(s, CallAbort(h, code, t), cid)
  {
    hide SweptContexts, SweptOutcomes, OwnerKey;
    if h.Some? && Open(s, h.value) {
      SweepLife(o, Abandon(o, s, h.value, code, t.first), t.second, cid);
    }
  }

  lemma ReleaseLife(o: Options, s: Store, owner: Owner, id: string, base: uint64, idem: string, t: Clock, cid: string)
    requires InUse(s, cid)
    ensures var c := CallRelease(owner, id, base, idem, t);
            || InUse(ReleaseContext(o, s, owner, id, base, idem, t).0, cid)
            || SweptWhenDue(s, c, cid) || OwnersChange(o, s, c, cid)
  {
    hide ReleaseContext, SweptContexts, SweptOutcomes, OwnerKey, ReleaseDenial;
    ReleaseExactly(o, s, owner, id, base, idem, t);
    SweepLife(o, s, t.first, cid);
  }

  /** In every run, if a live context is not live later, some call in between ended it that way. */
  lemma {:induction false} LiveUntilEnded(o: Options, calls: seq<Call>, i: nat, j: nat, cid: string) returns (k: nat)
    requires FreshIds(calls) && i <= j <= |calls|
    requires InUse(StateAfter(o, calls[..i]), cid) && !InUse(StateAfter(o, calls[..j]), cid)
    ensures i <= k < j && EndsLife(o, StateAfter(o, calls[..k]), calls[k], cid)
    decreases j - i
  {
    hide EndsLife, Step, InUse;
    FreshPrefix(calls, i);
    Reachable(o, calls[..i]);
    StepLife(o, StateAfter(o, calls[..i]), calls[i], cid);
    assert calls[..i + 1][..i] == calls[..i];
    if EndsLife(o, StateAfter(o, calls[..i]), calls[i], cid) {
      k := i;
    } else {
      k := LiveUntilEnded(o, calls, i + 1, j, cid);
    }
  }

  /** In every run, a call that changes a stored context is its owner's. */
  lemma ChangedByOwner(o: Options, calls: seq<Call>, i: nat, cid: string)
    requires FreshIds(calls) && i < |calls|
    requires cid in StateAfter(o, calls[..i]).contexts && cid in StateAfter(o, calls[..i + 1]).contexts
    ensures var s, n := StateAfter(o, calls[..i]), StateAfter(o, calls[..i + 1]);
            && s.contexts[cid].owner == n.contexts[cid].owner
            && (SameContents(s.contexts[cid], n.contexts[cid]) || OwnersChange(o, s, calls[i], cid))
  {
    hide Step, SameContents, OwnersChange, Inv;
    FreshPrefix(calls, i);
    Reachable(o, calls[..i]);
    assert calls[..i + 1][..i] == calls[..i];
    OnlyTheOwner(o, StateAfter(o, calls[..i]), calls[i], cid);
  }

  // ---- keys ----------------------------------------------------------------

  const UNIT_SEPARATOR: char := '\U{1F}'

  lemma {:induction false} FirstSeparator(a: string, b: string, x: string, y: string)
    requires UNIT_SEPARATOR !in a && UNIT_SEPARATOR !in b && a + [UNIT_SEPARATOR] + x == b + [UNIT_SEPARATOR] + y
    ensures a == b && x == y
  {
    var l, r := a + [UNIT_SEPARATOR] + x, b + [UNIT_SEPARATOR] + y;
    assert l[|a|] == UNIT_SEPARATOR && r[|b|] == UNIT_SEPARATOR;
    assert (forall i :: 0 <= i < |a| ==> l[i] == a[i]) && (forall i :: 0 <= i < |b| ==> r[i] == b[i]);
    assert |a| == |b|;
    assert l[..|a|] == a && r[..|b|] == b && l[|a| + 1..] == x && r[|b| + 1..] == y;
  }

  /** Different callers, actions or keys never share an idempotency key, as long as the parts before the
      last do not contain the separator. */
  lemma KeysDiffer(a: Owner, action: string, key: string, b: Owner, action2: string, key2: string)
    requires UNIT_SEPARATOR !in a.nid && UNIT_SEPARATOR !in a.scope && UNIT_SEPARATOR !in action
    requires UNIT_SEPARATOR !in b.nid && UNIT_SEPARATOR !in b.scope && UNIT_SEPARATOR !in action2
    requires OwnerKey(a, action, key) == OwnerKey(b, action2, key2)
    ensures a == b && action == action2 && key == key2
  {
    var s := [UNIT_SEPARATOR];
    assert OwnerKey(a, action, key) == a.nid + s + (a.scope + s + (action + s + key));
    assert OwnerKey(b, action2, key2) == b.nid + s + (b.scope + s + (action2 + s + key2));
    FirstSeparator(a.nid, b.nid, a.scope + s + (action + s + key), b.scope + s + (action2 + s + key2));
    FirstSeparator(a.scope, b.scope, action + s + key, action2 + s + key2);
    FirstSeparator(action, action2, key, key2);
  }
}
