/** The ledger: what the committed calls of a run add up to, kept without expiry, sweeping,
    reservations or idempotency. Every store state refines it. */
module ContextLedger {
  import opened Common
  import opened ContextStore
  import opened ContextInvariants
  import opened ContextRuns

  /** history[c] lists the transcripts of c's versions 1, 2, 3, ... since c was created;
      forkBase[r] is the parent's transcript when fork reservation r was made. */
  datatype Ledger = Ledger(history: map<string, seq<Transcript>>, forkBase: map<string, Transcript>)

  function HistoryOf(l: Ledger, cid: string): seq<Transcript> {
    if cid in l.history then l.history[cid] else []
  }

  function Latest(l: Ledger, cid: string): Transcript {
    var h := HistoryOf(l, cid);
    if h == [] then [] else h[|h| - 1]
  }

  function ForkBase(l: Ledger, rid: string): Transcript {
    if rid in l.forkBase then l.forkBase[rid] else []
  }

  function Extend(l: Ledger, cid: string, transcript: Transcript): Ledger {
    l.(history := l.history[cid := HistoryOf(l, cid) + [transcript]])
  }

  function Start(l: Ledger, cid: string, transcript: Transcript): Ledger {
    l.(history := l.history[cid := [transcript]])
  }

  /** A committed reservation, entered into the ledger. */
  function NoteCommit(l: Ledger, res: Reservation, assistant: Message, receipt: Receipt): Ledger {
    var turn := res.request.messages + [assistant];
    match res.request.operation
    case Create => Start(l, receipt.contextId, turn)
    case Fork => Start(l, receipt.contextId, ForkBase(l, res.id) + turn)
    case Append => Extend(l, receipt.contextId, Latest(l, receipt.contextId) + turn)
    case Reset => Extend(l, receipt.contextId, turn)
    case Release => l
  }

  /** The ledger sees only calls and their answers. */
  function Note(l: Ledger, c: Call, reply: Reply): Ledger {
    match (c, reply)
    case (CallReserve(r, rid, _), Reserved(Ok(_))) =>
      if r.operation == Fork && r.contextId.Some?
      then l.(forkBase := l.forkBase[rid := Latest(l, r.contextId.value)]) else l
    case (CallCommit(Some(res), a, _, _), Committed(Ok(receipt))) => NoteCommit(l, res, a, receipt)
    case (CallRelease(_, cid, _, _, _), ReleaseDone(rr)) =>
      if rr.applied then Extend(l, cid, Latest(l, cid)) else l
    case _ => l
  }

  function LedgerAfter(o: Options, calls: seq<Call>): Ledger {
    if calls == [] then Ledger(map[], map[])
    else
      var n := |calls| - 1;
      Note(LedgerAfter(o, calls[..n]), calls[n], Step(o, StateAfter(o, calls[..n]), calls[n]).1)
  }

  /** The stored context is at the ledger's latest version. */
  ghost predicate Matches(l: Ledger, cid: string, e: Entry) {
    && HistoryOf(l, cid) != []
    && e.version == |HistoryOf(l, cid)| % TWO64
    && e.transcript == Latest(l, cid)
  }

  ghost predicate ForkMatches(l: Ledger, res: Reservation) {
    res.request.operation == Fork ==> res.id in l.forkBase && res.base == l.forkBase[res.id]
  }

  ghost predicate ContextsMatch(l: Ledger, contexts: map<string, Entry>) {
    forall cid :: cid in contexts ==> Matches(l, cid, contexts[cid])
  }

  ghost predicate ForksMatch(l: Ledger, reservations: map<string, Reservation>) {
    forall rid :: rid in reservations ==> ForkMatches(l, reservations[rid])
  }

  ghost predicate Refines(s: Store, l: Ledger) {
    ContextsMatch(l, s.contexts) && ForksMatch(l, s.reservations)
  }

  lemma SuccessorCounts(n: nat)
    ensures Successor(n % TWO64) == (n + 1) % TWO64
  {
    assert n == (n / TWO64) * TWO64 + n % TWO64;
    var r := n % TWO64 + 1;
    if r == TWO64 {
      assert n + 1 == (n / TWO64 + 1) * TWO64;
    } else {
      assert n + 1 == (n / TWO64) * TWO64 + r;
    }
  }

  lemma ExtendMatches(l: Ledger, cid: string, before: Entry, e: Entry, transcript: Transcript)
    requires Matches(l, cid, before)
    requires e.version == Successor(before.version) && e.transcript == transcript
    ensures Matches(Extend(l, cid, transcript), cid, e)
  {
    SuccessorCounts(|HistoryOf(l, cid)|);
  }

  lemma SweepMatches(o: Options, s: Store, l: Ledger, now: int)
    requires ContextsMatch(l, s.contexts)
    ensures ContextsMatch(l, Sweep(o, s, now).contexts)
  {
    var n := Sweep(o, s, now).contexts;
    forall cid | cid in n ensures Matches(l, cid, n[cid]) {
      assert Matches(l, cid, s.contexts[cid]);
    }
  }

  lemma RecordRefines(o: Options, w: Store, l: Ledger, after: Ledger, res: Reservation, now: int)
    requires Refines(w, l) && res.id !in w.reservations
    requires after.history == l.history && ForkMatches(after, res)
    requires forall rid :: rid in l.forkBase && rid != res.id ==>
               rid in after.forkBase && after.forkBase[rid] == l.forkBase[rid]
    requires forall rid :: rid in w.reservations ==> w.reservations[rid].id == rid
    ensures Refines(RecordReservation(o, w, res, now), after)
  {
    var n := RecordReservation(o, w, res, now);
    forall cid | cid in n.contexts ensures Matches(after, cid, n.contexts[cid]) {
      assert Matches(l, cid, w.contexts[cid]);
    }
    forall id | id in n.reservations ensures ForkMatches(after, n.reservations[id]) {
      if id != res.id { assert ForkMatches(l, w.reservations[id]); }
    }
  }

  lemma ReserveRefines(o: Options, s: Store, l: Ledger, r: Request, rid: string, t: Clock)
    requires Inv(o, s) && Refines(s, l) && rid !in s.reservations
    ensures Refines(Reserve(o, s, r, rid, t).0, Note(l, CallReserve(r, rid, t), Reserved(Reserve(o, s, r, rid, t).1)))
  {
    hide SweptContexts, SweptOutcomes, KeyOf, QuotaReached, RecordReservation, EffectiveTtl;
    var w := Sweep(o, s, t.first);
    SweepMatches(o, s, l, t.first);
    var got := Admit(o, w, r, rid, t.second);
    if got.Ok? {
      forall id | id in w.reservations ensures w.reservations[id].id == id { assert ReservationOk(s, id); }
      if r.operation == Fork {
        assert Matches(l, r.contextId.value, w.contexts[r.contextId.value]);
      }
      RecordRefines(o, w, l, Note(l, CallReserve(r, rid, t), Reserved(got)), got.value, t.third);
    }
  }

  lemma SettleRefines(o: Options, s: Store, l: Ledger, after: Ledger, res: Reservation, cid: string, e: Entry, t: Clock)
    requires Refines(s, l) && after.forkBase == l.forkBase && Matches(after, cid, e)
    requires forall c :: c != cid ==> HistoryOf(after, c) == HistoryOf(l, c)
    ensures Refines(Settled(o, s, res, cid, e, t), after)
  {
    var n := Settled(o, s, res, cid, e, t);
    forall c | c in n.contexts ensures Matches(after, c, n.contexts[c]) {
      if c != cid { assert Matches(l, c, s.contexts[c]); }
    }
    forall rid | rid in n.reservations ensures ForkMatches(after, n.reservations[rid]) {
      assert ForkMatches(l, s.reservations[rid]);
    }
  }

  lemma StartMatches(l: Ledger, res: Reservation, a: Message, receipt: Receipt, now: int)
    requires Allocates(res.request.operation) && ForkMatches(l, res)
    ensures var after := NoteCommit(l, res, a, receipt);
            && Matches(after, receipt.contextId, NewEntry(res, a, now)) && after.forkBase == l.forkBase
            && forall c :: c != receipt.contextId ==> HistoryOf(after, c) == HistoryOf(l, c)
  {
    assert res.base + res.request.messages + [a] == res.base + (res.request.messages + [a]);
    assert [] + res.request.messages + [a] == res.request.messages + [a];
  }

  lemma CommitNewRefines(o: Options, s: Store, l: Ledger, res: Reservation, a: Message, draws: Draws, t: Clock)
    requires Inv(o, s) && Refines(s, l) && Open(s, res) && Allocates(res.request.operation)
    ensures var x := Commit(o, s, Some(res), a, draws, t);
            Refines(x.0, Note(l, CallCommit(Some(res), a, draws, t), Committed(x.1)))
  {
    hide Matches, HistoryOf, NoteCommit, NewEntry, OwnerKey, Inv;
    var id := NextContextId(s.contexts, draws, 0);
    if id.Some? {
      var e := NewEntry(res, a, t.first);
      var receipt := Settle(o, s, res, id.value, e, t).1.value;
      assert ForkMatches(l, s.reservations[res.id]);
      StartMatches(l, res, a, receipt, t.first);
      SettleRefines(o, s, l, NoteCommit(l, res, a, receipt), res, id.value, e, t);
    }
  }

  lemma AdvanceMatches(l: Ledger, res: Reservation, a: Message, receipt: Receipt, before: Entry, now: int)
    requires !Allocates(res.request.operation) && res.request.operation != Release
             && Matches(l, receipt.contextId, before)
    ensures var after := NoteCommit(l, res, a, receipt);
            && Matches(after, receipt.contextId, Advance(before, res, a, now)) && after.forkBase == l.forkBase
            && forall c :: c != receipt.contextId ==> HistoryOf(after, c) == HistoryOf(l, c)
  {
    var e := Advance(before, res, a, now);
    assert before.transcript + res.request.messages + [a] == before.transcript + (res.request.messages + [a]);
    ExtendMatches(l, receipt.contextId, before, e, e.transcript);
  }

  lemma CommitHeldRefines(o: Options, s: Store, l: Ledger, res: Reservation, a: Message, draws: Draws, t: Clock)
    requires Inv(o, s) && Refines(s, l) && Open(s, res) && !Allocates(res.request.operation)
    ensures var x := Commit(o, s, Some(res), a, draws, t);
            Refines(x.0, Note(l, CallCommit(Some(res), a, draws, t), Committed(x.1)))
  {
    hide Matches, HistoryOf, NoteCommit, Advance, OwnerKey;
    assert ReservationOk(s, res.id);
    var cid := res.request.contextId.value;
    var before := s.contexts[cid];
    var e := Advance(before, res, a, t.first);
    var receipt := Settle(o, s, res, cid, e, t).1.value;
    assert Matches(l, cid, before);
    AdvanceMatches(l, res, a, receipt, before, t.first);
    SettleRefines(o, s, l, NoteCommit(l, res, a, receipt), res, cid, e, t);
  }

  lemma AbortRefines(o: Options, s: Store, l: Ledger, handle: Option<Reservation>, code: string, t: Clock)
    requires Inv(o, s) && Refines(s, l)
    ensures Refines(Abort(o, s, handle, code, t).0, l)
  {
    if handle.Some? && Open(s, handle.value) {
      var n := Abandon(o, s, handle.value, code, t.first);
      forall cid | cid in n.contexts ensures Matches(l, cid, n.contexts[cid]) {
        assert Matches(l, cid, s.contexts[cid]);
      }
      SweepMatches(o, n, l, t.second);
      forall rid | rid in n.reservations ensures ForkMatches(l, n.reservations[rid]) {
        assert ForkMatches(l, s.reservations[rid]);
      }
    }
  }

  lemma BuryRefines(w: Store, n: Store, l: Ledger, cid: string, e: Entry, key: string, x: Outcome)
    requires Refines(w, l) && cid in w.contexts
    requires n == Store(w.contexts[cid := e], w.idempotency[key := x], w.reservations)
    requires e.version == Successor(w.contexts[cid].version) && e.transcript == w.contexts[cid].transcript
    ensures Refines(n, Extend(l, cid, Latest(l, cid)))
  {
    var after := Extend(l, cid, Latest(l, cid));
    assert Matches(l, cid, w.contexts[cid]);
    ExtendMatches(l, cid, w.contexts[cid], e, Latest(l, cid));
    forall c | c in n.contexts ensures Matches(after, c, n.contexts[c]) {
      if c != cid { assert Matches(l, c, w.contexts[c]); }
    }
    forall rid | rid in n.reservations ensures ForkMatches(after, n.reservations[rid]) {
      assert ForkMatches(l, w.reservations[rid]);
    }
  }

  lemma ReleaseRefines(o: Options, s: Store, l: Ledger, owner: Owner, cid: string, base: uint64, idem: string, t: Clock)
    requires Refines(s, l)
    ensures var x := ReleaseContext(o, s, owner, cid, base, idem, t);
            Refines(x.0, Note(l, CallRelease(owner, cid, base, idem, t), ReleaseDone(x.1)))
  {
    hide SweptContexts, SweptOutcomes, OwnerKey;
    var w := Sweep(o, s, t.first);
    SweepMatches(o, s, l, t.first);
    var x := ReleaseContext(o, s, owner, cid, base, idem, t);
    if x.1.applied {
      var key := OwnerKey(owner, RELEASE_ACTION, idem);
      BuryRefines(w, x.0, l, cid, x.0.contexts[cid], key, x.0.idempotency[key]);
    }
  }

  lemma StepRefines(o: Options, s: Store, l: Ledger, c: Call)
    requires Inv(o, s) && Refines(s, l)
    requires c.CallReserve? ==> c.rid !in s.reservations
    ensures Refines(Step(o, s, c).0, Note(l, c, Step(o, s, c).1))
  {
    match c
    case CallReserve(r, rid, t) => ReserveRefines(o, s, l, r, rid, t);
    case CallCommit(h, a, d, t) =>
      if h.Some? && Open(s, h.value) {
        if Allocates(h.value.request.operation) {
          CommitNewRefines(o, s, l, h.value, a, d, t);
        } else {
          CommitHeldRefines(o, s, l, h.value, a, d, t);
        }
      }
    case CallAbort(h, code, t) => AbortRefines(o, s, l, h, code, t);
    case CallRelease(w, cid, b, i, t) => ReleaseRefines(o, s, l, w, cid, b, i, t);
    case CallSweep(t) => SweepMatches(o, s, l, t.first);
  }

  /** In every run, each stored context is at version |history| (mod 2^64) of the ledger and
      holds exactly the transcript the committed calls add up to. */
  lemma {:induction false} StoreRefinesLedger(o: Options, calls: seq<Call>)
    requires FreshIds(calls)
    ensures Refines(StateAfter(o, calls), LedgerAfter(o, calls))
  {
    if calls != [] {
      var n := |calls| - 1;
      StoreRefinesLedger(o, calls[..n]);
      Reachable(o, calls[..n]);
      StepRefines(o, StateAfter(o, calls[..n]), LedgerAfter(o, calls[..n]), calls[n]);
    }
  }

  // ---- versions ------------------------------------------------------------

  /** The receipt of the version a call created, if it created one. A replayed release did not. */
  function Created(reply: Reply): Option<Receipt> {
    match reply
    case Committed(Ok(receipt)) => Some(receipt)
    case ReleaseDone(rr) => if rr.applied && rr.result.Ok? then Some(rr.result.value) else None
    case _ => None
  }

  lemma CommitVersion(o: Options, s: Store, l: Ledger, res: Reservation, a: Message, draws: Draws, t: Clock)
    requires Inv(o, s) && Refines(s, l) && Open(s, res) && Commit(o, s, Some(res), a, draws, t).1.Ok?
    ensures var receipt := Commit(o, s, Some(res), a, draws, t).1.value;
            var before := HistoryOf(l, receipt.contextId);
            && receipt.operation == res.request.operation
            && if Allocates(receipt.operation) then receipt.version == 1 && receipt.contextId !in s.contexts
               else before != [] && receipt.version == (|before| + 1) % TWO64 && receipt.contextId in s.contexts
  {
    if Allocates(res.request.operation) {
      NewIdUnused(s.contexts, draws, 0);
    } else {
      assert ReservationOk(s, res.id);
      var cid := res.request.contextId.value;
      assert Matches(l, cid, s.contexts[cid]);
      SuccessorCounts(|HistoryOf(l, cid)|);
    }
  }

  lemma {:induction false} NewIdUnused(contexts: map<string, Entry>, draws: Draws, k: nat)
    requires k <= 8 && NextContextId(contexts, draws, k).Some?
    ensures NextContextId(contexts, draws, k).value !in contexts
    decreases 8 - k
  {
    if draws[k].id in contexts { NewIdUnused(contexts, draws, k + 1); }
  }

  lemma ReleaseVersion(o: Options, s: Store, l: Ledger, owner: Owner, cid: string, base: uint64, idem: string, t: Clock)
    requires Refines(s, l) && ReleaseContext(o, s, owner, cid, base, idem, t).1.applied
    ensures var rr := ReleaseContext(o, s, owner, cid, base, idem, t).1;
            && rr.result.Ok? && rr.result.value.contextId == cid && rr.result.value.operation == Release
            && HistoryOf(l, cid) != [] && rr.result.value.version == (|HistoryOf(l, cid)| + 1) % TWO64
            && cid in s.contexts
  {
    hide SweptOutcomes, OwnerKey;
    SweepMatches(o, s, l, t.first);
    assert Matches(l, cid, Sweep(o, s, t.first).contexts[cid]);
    SuccessorCounts(|HistoryOf(l, cid)|);
  }

  /** What the receipt of a call says, given the store and the ledger before and the ledger after it. */
  ghost predicate VersionNoted(s: Store, l: Ledger, after: Ledger, receipt: Receipt) {
    var before := HistoryOf(l, receipt.contextId);
    && (if Allocates(receipt.operation) then receipt.version == 1 && receipt.contextId !in s.contexts
        else before != [] && receipt.version == (|before| + 1) % TWO64 && receipt.contextId in s.contexts)
    && receipt.version == |HistoryOf(after, receipt.contextId)| % TWO64
  }

  lemma CommitNoted(o: Options, s: Store, l: Ledger, c: Call)
    requires Inv(o, s) && Refines(s, l) && c.CallCommit? && Created(Step(o, s, c).1).Some?
    ensures VersionNoted(s, l, Note(l, c, Step(o, s, c).1), Created(Step(o, s, c).1).value)
  {
    hide Commit, NoteCommit;
    CommittedOpen(o, s, c);
    CommitVersion(o, s, l, c.handle.value, c.assistant, c.draws, c.t);
    NotedCommit(l, c.handle.value, c.assistant, Created(Step(o, s, c).1).value);
  }

  lemma ReleaseNoted(o: Options, s: Store, l: Ledger, c: Call)
    requires Refines(s, l) && c.CallRelease? && Created(Step(o, s, c).1).Some?
    ensures VersionNoted(s, l, Note(l, c, Step(o, s, c).1), Created(Step(o, s, c).1).value)
  {
    hide ReleaseContext;
    ReleaseVersion(o, s, l, c.owner, c.cid, c.base, c.idem, c.t);
  }

  /** A call that creates a version hands out 1 for a context that was not stored, otherwise one
      more than the ledger had; and the ledger then has as many versions. */
  lemma ReceiptVersions(o: Options, calls: seq<Call>, i: nat)
    requires i < |calls| && FreshIds(calls) && Created(ReplyAt(o, calls, i)).Some?
    ensures VersionNoted(StateAfter(o, calls[..i]), LedgerAfter(o, calls[..i]), LedgerAfter(o, calls[..i + 1]),
                         Created(ReplyAt(o, calls, i)).value)
  {
    hide VersionNoted, Note, Refines, Inv, Commit, ReleaseContext, Reserve, Abort, Sweep;
    var s, l := StateAfter(o, calls[..i]), LedgerAfter(o, calls[..i]);
    FreshPrefix(calls, i);
    StoreRefinesLedger(o, calls[..i]);
    Reachable(o, calls[..i]);
    LedgerStep(o, calls, i);
    if calls[i].CallCommit? { CommitNoted(o, s, l, calls[i]); } else { ReleaseNoted(o, s, l, calls[i]); }
  }

  lemma LedgerStep(o: Options, calls: seq<Call>, i: nat)
    requires i < |calls|
    ensures LedgerAfter(o, calls[..i + 1]) == Note(LedgerAfter(o, calls[..i]), calls[i], ReplyAt(o, calls, i))
  {
    assert calls[..i + 1][..i] == calls[..i];
  }

  lemma CommittedOpen(o: Options, s: Store, c: Call)
    requires Inv(o, s) && c.CallCommit? && Commit(o, s, c.handle, c.assistant, c.draws, c.t).1.Ok?
    ensures c.handle.Some? && Open(s, c.handle.value) && c.handle.value.request.operation != Release
  {
    assert ReservationOk(s, c.handle.value.id);
  }

  lemma NotedCommit(l: Ledger, res: Reservation, a: Message, receipt: Receipt)
    requires res.request.operation != Release
    ensures |HistoryOf(NoteCommit(l, res, a, receipt), receipt.contextId)|
         == if Allocates(res.request.operation) then 1 else |HistoryOf(l, receipt.contextId)| + 1
  {
  }

  /** A call that creates no version of a context leaves its history as it is. */
  lemma NoteElsewhere(o: Options, s: Store, l: Ledger, c: Call, cid: string)
    requires Created(Step(o, s, c).1).Some? ==> Created(Step(o, s, c).1).value.contextId != cid
    ensures HistoryOf(Note(l, c, Step(o, s, c).1), cid) == HistoryOf(l, cid)
  {
    hide Reserve, Commit, Abort, Sweep, SweptContexts, SweptOutcomes, OwnerKey;
  }

  lemma {:induction false} HistoryBetween(o: Options, calls: seq<Call>, i: nat, j: nat, cid: string)
    requires i <= j <= |calls|
    requires forall k :: i <= k < j ==>
      Created(ReplyAt(o, calls, k)).Some? ==> Created(ReplyAt(o, calls, k)).value.contextId != cid
    ensures HistoryOf(LedgerAfter(o, calls[..j]), cid) == HistoryOf(LedgerAfter(o, calls[..i]), cid)
    decreases j
  {
    hide Note, Created, Reserve, Commit, ReleaseContext, Abort, Sweep, HistoryOf;
    if i < j {
      HistoryBetween(o, calls, i, j - 1, cid);
      LedgerStep(o, calls, j - 1);
      NoteElsewhere(o, StateAfter(o, calls[..j - 1]), LedgerAfter(o, calls[..j - 1]), calls[j - 1], cid);
    }
  }

  /** Two successive versions of one context identifier: the second is the successor of the first,
      or starts again at 1 after the context was removed from the store. */
  lemma VersionsConsecutive(o: Options, calls: seq<Call>, i: nat, j: nat)
    requires i < j < |calls| && FreshIds(calls)
    requires Created(ReplyAt(o, calls, i)).Some? && Created(ReplyAt(o, calls, j)).Some?
    requires Created(ReplyAt(o, calls, i)).value.contextId == Created(ReplyAt(o, calls, j)).value.contextId
    requires forall k :: i < k < j && Created(ReplyAt(o, calls, k)).Some? ==>
      Created(ReplyAt(o, calls, k)).value.contextId != Created(ReplyAt(o, calls, i)).value.contextId
    ensures var first, second := Created(ReplyAt(o, calls, i)).value, Created(ReplyAt(o, calls, j)).value;
            if Allocates(second.operation)
            then second.version == 1 && second.contextId !in StateAfter(o, calls[..j]).contexts
            else second.version == Successor(first.version)
  {
    hide Step, Note, Created, Allocates, FreshIds;
    var cid := Created(ReplyAt(o, calls, i)).value.contextId;
    ReceiptVersions(o, calls, i);
    ReceiptVersions(o, calls, j);
    HistoryBetween(o, calls, i + 1, j, cid);
    SuccessorCounts(|HistoryOf(LedgerAfter(o, calls[..j]), cid)|);
  }

  lemma ForkNamesParent(o: Options, s: Store, l: Ledger, r: Request, rid: string, t: Clock)
    requires Refines(s, l) && r.operation == Fork && Reserve(o, s, r, rid, t).1.Ok?
    ensures var res := Reserve(o, s, r, rid, t).1.value;
            res.parent.Some? &&
            var h := HistoryOf(l, res.parent.value.contextId);
            h != [] && res.parent.value.version == |h| % TWO64 && res.base == h[|h| - 1]
  {
    hide SweptContexts, SweptOutcomes, KeyOf, RecordReservation, QuotaReached, EffectiveTtl;
    SweepMatches(o, s, l, t.first);
    assert Matches(l, r.contextId.value, Sweep(o, s, t.first).contexts[r.contextId.value]);
  }

  /** A fork reserved by the i-th call starts from the parent's transcript at the parent
      version its receipt will name. */
  lemma ForkStartsAtParentVersion(o: Options, calls: seq<Call>, i: nat)
    requires i < |calls| && FreshIds(calls) && calls[i].CallReserve?
    requires calls[i].request.operation == Fork && ReplyAt(o, calls, i).reservation.Ok?
    ensures var res := ReplyAt(o, calls, i).reservation.value;
            res.parent.Some? &&
            var h := HistoryOf(LedgerAfter(o, calls[..i]), res.parent.value.contextId);
            h != [] && res.parent.value.version == |h| % TWO64 && res.base == h[|h| - 1]
  {
    hide Refines, HistoryOf, Note, Reserve, Commit, ReleaseContext, Abort, Sweep, FreshIds;
    FreshPrefix(calls, i);
    StoreRefinesLedger(o, calls[..i]);
    ForkNamesParent(o, StateAfter(o, calls[..i]), LedgerAfter(o, calls[..i]), calls[i].request, calls[i].rid,
                    calls[i].t);
  }
}
