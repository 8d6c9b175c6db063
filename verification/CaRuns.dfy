/** Runs of CA service calls, each one atomic. */
module CaRuns {
  import opened Common
  import opened CaModel
  import opened CaInvariants

  datatype Call =
    | DoRegister(entityType: string, identifier: string, pubKey: string, caps: seq<string>, scope: string,
                 frameOk: bool, now: int)
    | DoRegisterGroup(identifier: string, auto: string, pubKey: string, caps: seq<string>, scope: string,
                      frameOk: bool, now: int)
    | DoIssueSession(group: string, pubKey: string, q: SessionRequest, sid: string, frameOk: bool,
                     checked: int, now: int)
    | DoRenew(nid: string, frameOk: bool, now: int)
    | DoRevoke(nid: string, reason: string, now: int)

  function Step(o: Options, ca: Ca, c: Call): Ca {
    match c
    case DoRegister(e, i, p, caps, scope, ok, now) => Register(o, ca, e, i, p, caps, scope, ok, now).0
    case DoRegisterGroup(i, auto, p, caps, scope, ok, now) => RegisterGroup(o, ca, i, auto, p, caps, scope, ok, now).0
    case DoIssueSession(g, p, q, sid, ok, checked, now) => IssueSession(o, ca, g, p, q, sid, ok, checked, now).0
    case DoRenew(nid, ok, now) => Renew(o, ca, nid, ok, now).0
    case DoRevoke(nid, reason, now) => Revoke(ca, nid, reason, now).0
  }

  function StateAfter(o: Options, calls: seq<Call>): Ca {
    if calls == [] then Ca([], 0) else Step(o, StateAfter(o, calls[..|calls| - 1]), calls[|calls| - 1])
  }

  /** A drawn session identifier does not name an existing NID. */
  ghost predicate FreshSession(o: Options, ca: Ca, c: Call) {
    c.DoIssueSession? ==> Newest(ca.records, BuildNid(o, "agent", c.sid)) < 0
  }

  ghost predicate FreshSessions(o: Options, calls: seq<Call>) {
    calls == [] ||
    (var n := |calls| - 1;
     FreshSessions(o, calls[..n]) && FreshSession(o, StateAfter(o, calls[..n]), calls[n]))
  }

  // ---- one step ------------------------------------------------------------

  lemma RegisterNidKeeps(o: Options, ca: Ca, r: Record, frameOk: bool)
    requires Inv(ca) && r.nid != "" && r.revokedAt.None? && r.parent.None?
    ensures Inv(RegisterNid(o, ca, r.nid, r, frameOk).0)
  {
    if Newest(ca.records, r.nid) < 0 { IssueKeeps(ca, frameOk, r); }
  }

  lemma IssueSessionKeeps(o: Options, ca: Ca, c: Call)
    requires Inv(ca) && c.DoIssueSession? && FreshSession(o, ca, c)
    ensures Inv(Step(o, ca, c))
  {
    if SessionError(o, ca, c.group, c.q, c.checked) == "" {
      var group := ca.records[Newest(ca.records, c.group)];
      var caps := if c.q.capabilities.Some? then c.q.capabilities.value else group.capabilities;
      var scope := if c.q.scope == "" then group.scope else c.q.scope;
      var r := Record(BuildNid(o, "agent", c.sid), "agent", 0, c.pubKey, caps, scope, c.now,
                      c.now + Validity(o, c.q), None, "", Some(Session), Some(c.group));
      assert r.nid[0] == 'u';
      IssueKeeps(ca, c.frameOk, r);
    }
  }

  lemma RenewKeeps(o: Options, ca: Ca, nid: string, frameOk: bool, now: int)
    requires Inv(ca)
    ensures Inv(Renew(o, ca, nid, frameOk, now).0)
  {
    if RenewError(o, ca, nid, now) == "" {
      var r := ca.records[Newest(ca.records, nid)];
      LiveNidAllLive(ca, nid);
      assert SerialIssued(ca, Newest(ca.records, nid));
      IssueKeeps(ca, frameOk, Record(nid, r.entityType, 0, r.pubKey, r.capabilities, r.scope, now,
                                     now + ValidDays(o, r.entityType) * DAY, None, "", None, None));
    }
  }

  lemma StepKeeps(o: Options, ca: Ca, c: Call)
    requires Inv(ca) && FreshSession(o, ca, c)
    ensures Inv(Step(o, ca, c))
  {
    match c
    case DoRegister(e, i, p, caps, scope, ok, now) =>
      var nid := BuildNid(o, e, i);
      assert nid[0] == 'u';
      RegisterNidKeeps(o, ca, Record(nid, e, 0, p, caps, scope, now, now + ValidDays(o, e) * DAY,
                                     None, "", None, None), ok);
    case DoRegisterGroup(i, auto, p, caps, scope, ok, now) =>
      var nid := BuildNid(o, "agent", if i == "" then auto else i);
      assert nid[0] == 'u';
      RegisterNidKeeps(o, ca, Record(nid, "agent", 0, p, caps, scope, now, now + o.groupDays * DAY,
                                     None, "", Some(Group), None), ok);
    case DoIssueSession(_, _, _, _, _, _, _) => IssueSessionKeeps(o, ca, c);
    case DoRenew(nid, ok, now) => RenewKeeps(o, ca, nid, ok, now);
    case DoRevoke(nid, reason, now) => RevokeKeeps(ca, nid, reason, now);
  }

  /** In every reachable state a NID's revoked records are the newest ones. */
  lemma {:induction false} Reachable(o: Options, calls: seq<Call>)
    requires FreshSessions(o, calls)
    ensures Inv(StateAfter(o, calls))
  {
    if calls != [] {
      Reachable(o, calls[..|calls| - 1]);
      StepKeeps(o, StateAfter(o, calls[..|calls| - 1]), calls[|calls| - 1]);
    }
  }

  // ---- revocation is final -------------------------------------------------

  /** The new state either revokes in place or appends one record, never to a revoked NID. */
  ghost predicate Progress(a: Ca, b: Ca) {
    || Revocation(a.records, b.records)
    || (exists r :: b.records == a.records + [r] && !NewestRevoked(a.records, r.nid))
  }

  lemma IssueProgress(ca: Ca, frameOk: bool, r: Record)
    requires !NewestRevoked(ca.records, r.nid)
    ensures Progress(ca, Issue(ca, frameOk, r).0)
  {
    Reflexive(ca.records);
    var n := r.(serial := ca.serial + 1);
    assert n.nid == r.nid;
  }

  lemma Reflexive(rs: seq<Record>)
    ensures Revocation(rs, rs)
  {
    assert forall i :: 0 <= i < |rs| ==> MoreRevoked(rs[i], rs[i]);
  }

  lemma StepProgress(o: Options, ca: Ca, c: Call)
    requires Inv(ca) && FreshSession(o, ca, c)
    ensures Progress(ca, Step(o, ca, c))
  {
    Reflexive(ca.records);
    match c
    case DoRegister(e, i, p, caps, scope, ok, now) =>
      var nid := BuildNid(o, e, i);
      if Newest(ca.records, nid) < 0 {
        IssueProgress(ca, ok, Record(nid, e, 0, p, caps, scope, now, now + ValidDays(o, e) * DAY,
                                     None, "", None, None));
      }
    case DoRegisterGroup(i, auto, p, caps, scope, ok, now) =>
      var nid := BuildNid(o, "agent", if i == "" then auto else i);
      if Newest(ca.records, nid) < 0 {
        IssueProgress(ca, ok, Record(nid, "agent", 0, p, caps, scope, now, now + o.groupDays * DAY,
                                     None, "", Some(Group), None));
      }
    case DoIssueSession(g, p, q, sid, ok, checked, now) =>
      if SessionError(o, ca, g, q, checked) == "" {
        var group := ca.records[Newest(ca.records, g)];
        IssueProgress(ca, ok, Record(BuildNid(o, "agent", sid), "agent", 0, p,
                                     if q.capabilities.Some? then q.capabilities.value else group.capabilities,
                                     if q.scope == "" then group.scope else q.scope, now, now + Validity(o, q),
                                     None, "", Some(Session), Some(g)));
      }
    case DoRenew(nid, ok, now) =>
      if RenewError(o, ca, nid, now) == "" {
        var r := ca.records[Newest(ca.records, nid)];
        IssueProgress(ca, ok, Record(nid, r.entityType, 0, r.pubKey, r.capabilities, r.scope, now,
                                     now + ValidDays(o, r.entityType) * DAY, None, "", None, None));
      }
    case DoRevoke(nid, reason, now) => RevokeKeeps(ca, nid, reason, now);
  }

  lemma NewestAfterAppend(rs: seq<Record>, r: Record, nid: string)
    ensures Newest(rs + [r], nid) == if r.nid == nid then |rs| else Newest(rs, nid)
  {
    assert (rs + [r])[..|rs|] == rs;
  }

  lemma ProgressKeepsRevoked(a: Ca, b: Ca, nid: string)
    requires Progress(a, b) && NewestRevoked(a.records, nid)
    ensures NewestRevoked(b.records, nid)
  {
    if Revocation(a.records, b.records) {
      NewestRevokedStays(a.records, b.records, nid);
    } else {
      var r :| b.records == a.records + [r] && !NewestRevoked(a.records, r.nid);
      NewestAfterAppend(a.records, r, nid);
    }
  }

  /** A NID whose newest record is revoked never verifies again. */
  lemma {:induction false} RevokedForever(o: Options, calls: seq<Call>, n: nat, nid: string, now: int, parentNow: int)
    requires n <= |calls| && FreshSessions(o, calls) && NewestRevoked(StateAfter(o, calls[..n]).records, nid)
    ensures NewestRevoked(StateAfter(o, calls).records, nid)
    ensures Verify(StateAfter(o, calls), nid, now, parentNow) == CERT_REVOKED
  {
    if n == |calls| {
      assert calls[..n] == calls;
    } else {
      var m := |calls| - 1;
      assert calls[..m][..n] == calls[..n];
      RevokedForever(o, calls[..m], n, nid, now, parentNow);
      Reachable(o, calls[..m]);
      StepProgress(o, StateAfter(o, calls[..m]), calls[m]);
      ProgressKeepsRevoked(StateAfter(o, calls[..m]), StateAfter(o, calls), nid);
    }
  }

  // ---- groups and sessions -------------------------------------------------

  /** No session ever holds a capability its group lacks, whatever was renewed since. */
  lemma SessionWithinGroup(o: Options, calls: seq<Call>, i: nat)
    requires FreshSessions(o, calls)
    requires i < |StateAfter(o, calls).records| && StateAfter(o, calls).records[i].parent.Some?
    ensures var rs := StateAfter(o, calls).records;
            var g, s := Newest(rs, rs[i].parent.value), Newest(rs, rs[i].nid);
            g >= 0 && s >= 0 && Subset(rs[s].capabilities, rs[g].capabilities)
  {
    var ca := StateAfter(o, calls);
    var rs := ca.records;
    Reachable(o, calls);
    assert IssuedUnderParent(rs, i);
    var k :| 0 <= k < i && rs[k].nid == rs[i].parent.value && Subset(rs[i].capabilities, rs[k].capabilities);
    assert Newest(rs, rs[i].parent.value) >= k && Newest(rs, rs[i].nid) >= i;
    LiveNidAllLive(ca, rs[i].parent.value);
    LiveNidAllLive(ca, rs[i].nid);
  }

  /** A current record that names a parent is the one the session was issued with. */
  lemma NewestParent(ca: Ca, i: nat)
    requires Inv(ca) && i < |ca.records| && ca.records[i].parent.Some?
    ensures var s := Newest(ca.records, ca.records[i].nid);
            s >= i && (ca.records[s].parent.Some? ==> s == i)
  {
    var s := Newest(ca.records, ca.records[i].nid);
    assert s >= i;
    assert IssuedUnderParent(ca.records, s);
  }

  /** Exactly which sessions verify in the state a group's revocation leaves: those that were renewed
      after issue and are live, if the group had itself been renewed since it was registered. */
  lemma VerifiesAfterGroupRevoke(ca: Ca, g: string, reason: string, at: int, i: nat, now: int, parentNow: int)
    requires Inv(ca) && Revoke(ca, g, reason, at).1.Ok?
    requires i < |ca.records| && ca.records[i].parent == Some(g)
    ensures var s := ca.records[Newest(ca.records, ca.records[i].nid)];
            Verify(Revoke(ca, g, reason, at).0, ca.records[i].nid, now, parentNow) == ""
            <==> && ca.records[Newest(ca.records, g)].role != Some(Group)
                 && s.parent.None? && s.revokedAt.None? && now <= s.expiresAt
  {
    var after := Revoke(ca, g, reason, at).0;
    var sid := ca.records[i].nid;
    var k := Newest(ca.records, sid);
    NewestParent(ca, i);
    RevokeKeeps(ca, g, reason, at);
    NewestSame(ca.records, after.records, sid);
    assert MoreRevoked(ca.records[k], after.records[k]);
    assert IssuedUnderParent(ca.records, i);
    if ca.records[Newest(ca.records, g)].role == Some(Group) {
      RevokeCascades(ca, g, reason, at, i);
    } else {
      UntouchedByRevokeOne(ca.records, g, reason, at, k);
      GroupNidNotEmpty(ca, i);
    }
  }

  lemma GroupNidNotEmpty(ca: Ca, i: nat)
    requires Inv(ca) && i < |ca.records| && ca.records[i].parent.Some?
    ensures ca.records[i].parent.value != ""
  {
    assert IssuedUnderParent(ca.records, i);
    var k :| 0 <= k < i && ca.records[k].nid == ca.records[i].parent.value;
    assert SerialIssued(ca, k);
  }

  lemma UntouchedByRevokeOne(rs: seq<Record>, nid: string, reason: string, now: int, k: nat)
    requires k < |rs| && rs[k].nid != nid
    ensures RevokeOne(rs, nid, reason, now)[k] == rs[k]
  {
  }

  // ---- what a revoked group leaves possible --------------------------------

  /** The calls happen one after the other, from time at on, and not after time now. */
  ghost predicate InTime(calls: seq<Call>, at: int, now: int) {
    && at <= now
    && (forall k :: 0 <= k < |calls| ==> at <= calls[k].now <= now)
    && (forall j, k :: 0 <= j < k < |calls| ==> calls[j].now <= calls[k].now)
  }

  /** The NID verifies at some time from at on, now or after further calls. */
  ghost predicate CanVerify(o: Options, calls: seq<Call>, nid: string, at: int) {
    exists more, now :: FreshSessions(o, calls + more) && InTime(more, at, now)
                     && Verify(StateAfter(o, calls + more), nid, now, now) == ""
  }

  lemma AfterCall(o: Options, calls: seq<Call>, c: Call)
    requires FreshSessions(o, calls) && FreshSession(o, StateAfter(o, calls), c)
    ensures FreshSessions(o, calls + [c]) && StateAfter(o, calls + [c]) == Step(o, StateAfter(o, calls), c)
  {
    assert (calls + [c])[..|calls|] == calls;
  }

  lemma RevokedCannotVerify(o: Options, calls: seq<Call>, nid: string, at: int)
    requires NewestRevoked(StateAfter(o, calls).records, nid)
    ensures !CanVerify(o, calls, nid, at)
  {
    forall more, now | FreshSessions(o, calls + more)
      ensures Verify(StateAfter(o, calls + more), nid, now, now) != ""
    {
      assert (calls + more)[..|calls|] == calls;
      RevokedForever(o, calls + more, |calls|, nid, now, now);
    }
  }

  /** A renewal looks only at the record it renews, and drops its parent. */
  lemma RenewedVerifies(o: Options, ca: Ca, nid: string, t: int)
    requires Inv(ca) && o.agentDays >= 0 && o.nodeDays >= 0
    requires RenewError(o, ca, nid, t) == ""
    ensures Verify(Renew(o, ca, nid, true, t).0, nid, t, t) == ""
  {
    var r := ca.records[Newest(ca.records, nid)];
    var n := Record(nid, r.entityType, 0, r.pubKey, r.capabilities, r.scope, t,
                    t + ValidDays(o, r.entityType) * DAY, None, "", None, None);
    LiveNidAllLive(ca, nid);
    assert SerialIssued(ca, Newest(ca.records, nid));
    IssueKeeps(ca, true, n);
    NewestAfterAppend(ca.records, n.(serial := ca.serial + 1), nid);
  }

  lemma LiveCanVerify(o: Options, calls: seq<Call>, nid: string, at: int)
    requires FreshSessions(o, calls) && o.agentDays >= 0 && o.nodeDays >= 0
    requires Newest(StateAfter(o, calls).records, nid) >= 0 && !NewestRevoked(StateAfter(o, calls).records, nid)
    ensures CanVerify(o, calls, nid, at)
  {
    var ca := StateAfter(o, calls);
    var opens := ca.records[Newest(ca.records, nid)].expiresAt - o.renewalDays * DAY;
    var t := if at <= opens then opens else at;
    Reachable(o, calls);
    AfterCall(o, calls, DoRenew(nid, true, t));
    RenewedVerifies(o, ca, nid, t);
    assert InTime([DoRenew(nid, true, t)], at, t);
  }

  /** Revoking a group ends a session issued under it, for good, if and only if the group's current
      record still has its role or the session was revoked before. */
  lemma GroupRevokeEndsSession(o: Options, calls: seq<Call>, g: string, reason: string, at: int, i: nat)
    requires FreshSessions(o, calls) && o.agentDays >= 0 && o.nodeDays >= 0
    requires i < |StateAfter(o, calls).records| && StateAfter(o, calls).records[i].parent == Some(g)
    requires Revoke(StateAfter(o, calls), g, reason, at).1.Ok?
    ensures var rs := StateAfter(o, calls).records;
            !CanVerify(o, calls + [DoRevoke(g, reason, at)], rs[i].nid, at)
            <==> rs[Newest(rs, g)].role == Some(Group) || NewestRevoked(rs, rs[i].nid)
  {
    var ca, revoke := StateAfter(o, calls), DoRevoke(g, reason, at);
    var rs, sid := ca.records, ca.records[i].nid;
    Reachable(o, calls);
    AfterCall(o, calls, revoke);
    RevokeKeeps(ca, g, reason, at);
    NewestSame(rs, Step(o, ca, revoke).records, sid);
    if rs[Newest(rs, g)].role == Some(Group) {
      RevokeCascades(ca, g, reason, at, i);
      RevokedCannotVerify(o, calls + [revoke], sid, at);
    } else if NewestRevoked(rs, sid) {
      NewestRevokedStays(rs, Step(o, ca, revoke).records, sid);
      RevokedCannotVerify(o, calls + [revoke], sid, at);
    } else {
      assert IssuedUnderParent(rs, i);
      NewestParent(ca, i);
      UntouchedByRevokeOne(rs, g, reason, at, Newest(rs, sid));
      LiveCanVerify(o, calls + [revoke], sid, at);
    }
  }
}
