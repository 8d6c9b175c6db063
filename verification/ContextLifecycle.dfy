/** The life of a reservation and of its idempotency key over a run. */
module ContextLifecycle {
  import opened Common
  import opened ContextStore
  import opened ContextInvariants
  import opened ContextRuns

  /** The call commits or aborts res. */
  predicate Targets(c: Call, res: Reservation) {
    (c.CallCommit? || c.CallAbort?) && c.handle == Some(res)
  }

  predicate Succeeds(r: Reply) {
    match r
    case Committed(x) => x.Ok?
    case Aborted(x) => x.Ok?
    case _ => false
  }

  /** The i-th call resolves res. */
  predicate Resolves(o: Options, calls: seq<Call>, i: nat, res: Reservation)
    requires i < |calls|
  {
    Targets(calls[i], res) && Succeeds(ReplyAt(o, calls, i))
  }

  /** Until when a resolving call retains its outcome. */
  function RetainedUntil(o: Options, c: Call): int {
    (if c.CallCommit? then c.t.second else c.t.first) + o.idempotencyTtl
  }

  /** The clock reading of the call's sweep, if it sweeps. */
  function SweepTime(c: Call): Option<int> {
    match c
    case CallCommit(_, _, _, _) => None
    case CallAbort(_, _, t) => Some(t.second)
    case _ => Some(c.t.first)
  }

  predicate SweepsAt(c: Call, deadline: int) {
    SweepTime(c).Some? && deadline <= SweepTime(c).value
  }

  /** key holds a final outcome retained until the deadline. */
  ghost predicate Final(s: Store, key: string, deadline: int) {
    key in s.idempotency && !s.idempotency[key].Busy? && s.idempotency[key].retainUntil == deadline
  }

  // ---- one step ------------------------------------------------------------

  lemma OpenUnlessResolved(o: Options, s: Store, c: Call, res: Reservation)
    requires Open(s, res) && (c.CallReserve? ==> c.rid !in s.reservations)
    requires !(Targets(c, res) && Succeeds(Step(o, s, c).1))
    ensures Open(Step(o, s, c).0, res)
  {
  }

  lemma ResolveLeavesOutcome(o: Options, s: Store, c: Call, res: Reservation)
    requires Targets(c, res) && Succeeds(Step(o, s, c).1)
    ensures res.id !in Step(o, s, c).0.reservations
    ensures var deadline := RetainedUntil(o, c);
            Final(Step(o, s, c).0, KeyOf(res.request), deadline) || SweepsAt(c, deadline)
  {
  }

  lemma SweepFate(o: Options, s: Store, now: int, key: string, deadline: int)
    requires Final(s, key, deadline)
    ensures Final(Sweep(o, s, now), key, deadline) || deadline <= now
  {
  }

  lemma OtherKeyUntouched(s: Store, res: Reservation, key: string, deadline: int)
    requires LinksOk(s) && Open(s, res) && Final(s, key, deadline)
    ensures KeyOf(res.request) != key
  {
    assert ReservationOk(s, res.id);
  }

  /** A final outcome stays as it is until a sweep at or after its deadline. */
  lemma FinalUntilSwept(o: Options, s: Store, c: Call, key: string, deadline: int)
    requires Inv(o, s) && Final(s, key, deadline)
    ensures Final(Step(o, s, c).0, key, deadline) || SweepsAt(c, deadline)
  {
    match c
    case CallReserve(r, rid, t) => SweepFate(o, s, t.first, key, deadline);
    case CallCommit(h, a, d, t) =>
      if h.Some? && Open(s, h.value) { OtherKeyUntouched(s, h.value, key, deadline); }
    case CallAbort(h, code, t) =>
      if h.Some? && Open(s, h.value) {
        OtherKeyUntouched(s, h.value, key, deadline);
        SweepFate(o, Abandon(o, s, h.value, code, t.first), t.second, key, deadline);
      }
    case CallRelease(w, cid, b, i, t) => SweepFate(o, s, t.first, key, deadline);
    case CallSweep(t) => SweepFate(o, s, t.first, key, deadline);
  }

  // ---- runs ----------------------------------------------------------------

  lemma StepState(o: Options, calls: seq<Call>, n: nat)
    requires n < |calls|
    ensures StateAfter(o, calls[..n + 1]) == Step(o, StateAfter(o, calls[..n]), calls[n]).0
  {
    assert calls[..n + 1][..n] == calls[..n];
  }

  lemma FreshAt(calls: seq<Call>, n: nat)
    requires FreshIds(calls) && n < |calls| && calls[n].CallReserve?
    ensures calls[n].rid !in UsedIds(calls[..n])
  {
    FreshPrefix(calls, n + 1);
    assert calls[..n + 1][..n] == calls[..n];
  }

  lemma UsedIdsMonotone(calls: seq<Call>, m: nat, n: nat)
    requires m <= n <= |calls|
    ensures UsedIds(calls[..m]) <= UsedIds(calls[..n])
  {
    forall x | x in UsedIds(calls[..m]) ensures x in UsedIds(calls[..n]) {
      var i :| 0 <= i < m && calls[..m][i].CallReserve? && calls[..m][i].rid == x;
      assert calls[..n][i].rid == x;
    }
  }

  lemma ClosedAtFirst(o: Options, calls: seq<Call>, i: nat, res: Reservation)
    requires FreshIds(calls) && i < |calls| && Resolves(o, calls, i, res)
    ensures res.id !in StateAfter(o, calls[..i + 1]).reservations
    ensures res.id in UsedIds(calls[..i])
  {
    StepState(o, calls, i);
    ResolveLeavesOutcome(o, StateAfter(o, calls[..i]), calls[i], res);
    FreshPrefix(calls, i);
    Reachable(o, calls[..i]);
  }

  lemma ClosedStep(o: Options, calls: seq<Call>, n: nat, rid: string)
    requires FreshIds(calls) && n < |calls| && rid in UsedIds(calls[..n])
    requires rid !in StateAfter(o, calls[..n]).reservations
    ensures rid !in StateAfter(o, calls[..n + 1]).reservations
  {
    StepState(o, calls, n);
    StepReservations(o, StateAfter(o, calls[..n]), calls[n]);
    if calls[n].CallReserve? { FreshAt(calls, n); }
  }

  lemma {:induction false} ClosedFrom(o: Options, calls: seq<Call>, m: nat, n: nat, rid: string)
    requires FreshIds(calls) && m <= n <= |calls| && rid in UsedIds(calls[..m])
    requires rid !in StateAfter(o, calls[..m]).reservations
    ensures rid !in StateAfter(o, calls[..n]).reservations
    decreases n
  {
    hide StateAfter, UsedIds, FreshIds;
    if m < n {
      ClosedFrom(o, calls, m, n - 1, rid);
      UsedIdsMonotone(calls, m, n - 1);
      ClosedStep(o, calls, n - 1, rid);
    }
  }

  /** A resolved reservation never becomes open again. */
  lemma StaysClosed(o: Options, calls: seq<Call>, i: nat, n: nat, res: Reservation)
    requires FreshIds(calls) && i < n <= |calls| && Resolves(o, calls, i, res)
    ensures res.id !in StateAfter(o, calls[..n]).reservations
  {
    ClosedAtFirst(o, calls, i, res);
    UsedIdsMonotone(calls, i, i + 1);
    ClosedFrom(o, calls, i + 1, n, res.id);
  }

  /** Each reservation is resolved by at most one commit or abort. */
  lemma ResolvedOnce(o: Options, calls: seq<Call>, i: nat, j: nat, res: Reservation)
    requires FreshIds(calls) && i < j < |calls| && Resolves(o, calls, i, res)
    ensures !Resolves(o, calls, j, res)
  {
    StaysClosed(o, calls, i, j, res);
  }

  /** How a reservation made by the i-th call ended before step n: call k resolved it, and
      call l swept its outcome away. */
  ghost predicate Forgotten(o: Options, calls: seq<Call>, i: nat, n: nat, res: Reservation) {
    exists k, l ::
      i < k <= l < n && n <= |calls| && Resolves(o, calls, k, res) && SweepsAt(calls[l], RetainedUntil(o, calls[k]))
  }

  ghost predicate Remembered(o: Options, calls: seq<Call>, i: nat, n: nat, res: Reservation) {
    exists k :: i < k < n && n <= |calls| && Resolves(o, calls, k, res)
                && Final(StateAfter(o, calls[..n]), KeyOf(res.request), RetainedUntil(o, calls[k]))
  }

  ghost predicate ReservedBy(o: Options, calls: seq<Call>, i: nat, res: Reservation) {
    i < |calls| && calls[i].CallReserve? && ReplyAt(o, calls, i) == Reserved(Ok(res))
  }

  /** A reservation is open, or its outcome is retained, or it was resolved and swept. */
  ghost predicate Accounted(o: Options, calls: seq<Call>, i: nat, n: nat, res: Reservation) {
    n <= |calls| &&
    (Open(StateAfter(o, calls[..n]), res) || Remembered(o, calls, i, n, res) || Forgotten(o, calls, i, n, res))
  }

  lemma FateStep(o: Options, calls: seq<Call>, i: nat, n: nat, res: Reservation)
    requires FreshIds(calls) && i < n < |calls|
    requires Accounted(o, calls, i, n, res)
    ensures Accounted(o, calls, i, n + 1, res)
  {
    var s, c := StateAfter(o, calls[..n]), calls[n];
    StepState(o, calls, n);
    FreshPrefix(calls, n);
    Reachable(o, calls[..n]);
    if Forgotten(o, calls, i, n, res) {
    } else if Remembered(o, calls, i, n, res) {
      var k :| i < k < n && Resolves(o, calls, k, res) && Final(s, KeyOf(res.request), RetainedUntil(o, calls[k]));
      FinalUntilSwept(o, s, c, KeyOf(res.request), RetainedUntil(o, calls[k]));
    } else if Resolves(o, calls, n, res) {
      ResolveLeavesOutcome(o, s, c, res);
    } else {
      if c.CallReserve? { FreshAt(calls, n); }
      OpenUnlessResolved(o, s, c, res);
    }
  }

  lemma OpenAtFirst(o: Options, calls: seq<Call>, i: nat, res: Reservation)
    requires i < |calls| && ReservedBy(o, calls, i, res)
    ensures Open(StateAfter(o, calls[..i + 1]), res)
  {
    StepState(o, calls, i);
    ReserveOpens(o, StateAfter(o, calls[..i]), calls[i]);
  }

  lemma {:induction false} FateFrom(o: Options, calls: seq<Call>, i: nat, m: nat, n: nat, res: Reservation)
    requires FreshIds(calls) && i < m <= n <= |calls| && Accounted(o, calls, i, m, res)
    ensures Accounted(o, calls, i, n, res)
    decreases n - m
  {
    hide Accounted, FreshIds;
    if m < n {
      FateStep(o, calls, i, m, res);
      FateFrom(o, calls, i, m + 1, n, res);
    }
  }

  lemma Fate(o: Options, calls: seq<Call>, i: nat, n: nat, res: Reservation)
    requires FreshIds(calls) && i < n <= |calls| && ReservedBy(o, calls, i, res)
    ensures Accounted(o, calls, i, n, res)
  {
    OpenAtFirst(o, calls, i, res);
    FateFrom(o, calls, i, i + 1, n, res);
  }

  lemma ReserveOpens(o: Options, s: Store, c: Call)
    requires c.CallReserve? && Step(o, s, c).1.reservation.Ok?
    ensures Open(Step(o, s, c).0, Step(o, s, c).1.reservation.value)
    ensures KeyOf(c.request) !in Sweep(o, s, c.t.first).idempotency
    ensures Step(o, s, c).1.reservation.value.request == c.request
  {
  }

  /** A key admits a second reservation only after the first was resolved and its retained
      outcome was swept at or after its deadline. */
  lemma KeyAdmitsAgainOnlyAfterSweep(o: Options, calls: seq<Call>, i: nat, j: nat, first: Reservation,
                                     second: Reservation)
    requires FreshIds(calls) && i < j < |calls|
    requires ReservedBy(o, calls, i, first) && ReservedBy(o, calls, j, second)
    requires KeyOf(first.request) == KeyOf(second.request)
    ensures Forgotten(o, calls, i, j + 1, first)
  {
    var s := StateAfter(o, calls[..j]);
    Fate(o, calls, i, j, first);
    FreshPrefix(calls, j);
    Reachable(o, calls[..j]);
    ReserveOpens(o, s, calls[j]);
    var key := KeyOf(first.request);
    assert ReservationOk(s, first.id);
    if Remembered(o, calls, i, j, first) {
      var k :| i < k < j && Resolves(o, calls, k, first) && Final(s, key, RetainedUntil(o, calls[k]));
      SweepFate(o, s, calls[j].t.first, key, RetainedUntil(o, calls[k]));
      assert SweepsAt(calls[j], RetainedUntil(o, calls[k]));
    }
  }
}
