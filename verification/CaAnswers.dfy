/** When the calls of the certificate authority succeed, what they write, and where records come from. */
module CaAnswers {
  import opened Common
  import opened Results
  import opened CaModel
  import opened CaInvariants
  import opened CaRuns

  /** The i-th record is the newest of the NID. */
  ghost predicate Current(rs: seq<Record>, nid: string, i: int) {
    0 <= i < |rs| && rs[i].nid == nid && forall k :: i < k < |rs| ==> rs[k].nid != nid
  }

  lemma CurrentIs(rs: seq<Record>, nid: string, i: int)
    ensures Current(rs, nid, i) <==> i == Newest(rs, nid) && i >= 0
  {
    if Current(rs, nid, i) {
      assert !(i < Newest(rs, nid)) && !(Newest(rs, nid) < i);
    }
  }

  lemma NoneCurrent(rs: seq<Record>, nid: string)
    ensures Newest(rs, nid) < 0 <==> forall i :: 0 <= i < |rs| ==> rs[i].nid != nid
    ensures Newest(rs, nid) < 0 <==> !exists i :: Current(rs, nid, i)
  {
    CurrentIs(rs, nid, Newest(rs, nid));
    forall i ensures Current(rs, nid, i) ==> Newest(rs, nid) >= 0 { CurrentIs(rs, nid, i); }
  }

  // ---- registration --------------------------------------------------------

  ghost predicate Unknown(ca: Ca, nid: string) { forall i :: 0 <= i < |ca.records| ==> ca.records[i].nid != nid }

  ghost predicate Grantable(o: Options, caps: seq<string>) {
    o.allowed.Some? ==> forall c :: c in caps ==> c in o.allowed.value
  }

  /** The answer is the record, which is all that the call adds. */
  ghost predicate Appends(ca: Ca, after: Ca, reply: Result<Record>, r: Record) {
    && reply == Ok(r) && r.serial == ca.serial + 1 && r.revokedAt.None?
    && after == Ca(ca.records + [r], ca.serial + 1)
  }

  lemma RegisterNidExactly(o: Options, ca: Ca, r: Record, frameOk: bool)
    requires Inv(ca) && r.nid != "" && r.revokedAt.None? && r.parent.None?
    ensures var (after, reply) := RegisterNid(o, ca, r.nid, r, frameOk);
            if !Unknown(ca, r.nid) then after == ca && reply == Err(NID_ALREADY_EXISTS)
            else if !Grantable(o, r.capabilities) then after == ca && reply == Err(CAPABILITY_MISSING)
            else if !frameOk then after == ca.(serial := ca.serial + 1) && reply == Err(CERT_FORMAT_INVALID)
            else Appends(ca, after, reply, r.(serial := ca.serial + 1))
  {
    NoneCurrent(ca.records, r.nid);
    if Newest(ca.records, r.nid) < 0 { IssueKeeps(ca, frameOk, r); }
    if CapsAllowed(o, r.capabilities) && o.allowed.Some? {
      forall c | c in r.capabilities ensures c in o.allowed.value { }
    }
  }

  /** An agent or node is registered if its NID is new and its capabilities may be granted. */
  lemma RegisterExactly(o: Options, ca: Ca, entityType: string, identifier: string, pubKey: string,
                        caps: seq<string>, scope: string, frameOk: bool, now: int)
    requires Inv(ca)
    ensures var (after, reply) := Register(o, ca, entityType, identifier, pubKey, caps, scope, frameOk, now);
            var nid := "urn:nps:" + entityType + ":" + o.domain + ":" + identifier;
            && (reply.Ok? <==> frameOk && Unknown(ca, nid) && Grantable(o, caps))
            && (!Unknown(ca, nid) ==> reply == Err(NID_ALREADY_EXISTS))
            && (Unknown(ca, nid) && !Grantable(o, caps) ==> reply == Err(CAPABILITY_MISSING))
            && (reply.Err? ==> after.records == ca.records)
            && (reply.Ok? ==>
                  var days := if entityType == "node" then o.nodeDays else o.agentDays;
                  Appends(ca, after, reply, Record(nid, entityType, ca.serial + 1, pubKey, caps, scope, now,
                                                   now + days * DAY, None, "", None, None)))
  {
    var nid := BuildNid(o, entityType, identifier);
    assert nid[0] == 'u';
    RegisterNidExactly(o, ca, Record(nid, entityType, 0, pubKey, caps, scope, now,
                                     now + ValidDays(o, entityType) * DAY, None, "", None, None), frameOk);
  }

  ghost predicate StartsWithGroup(id: string) { |id| >= 6 && id[..6] == "group-" }

  /** A group, besides, needs an identifier that begins with "group-", or none. */
  lemma RegisterGroupExactly(o: Options, ca: Ca, identifier: string, auto: string, pubKey: string,
                             caps: seq<string>, scope: string, frameOk: bool, now: int)
    requires Inv(ca)
    ensures var (after, reply) := RegisterGroup(o, ca, identifier, auto, pubKey, caps, scope, frameOk, now);
            var nid := "urn:nps:agent:" + o.domain + ":" + (if identifier == "" then auto else identifier);
            var named := identifier == "" || StartsWithGroup(identifier);
            && (reply.Ok? <==> frameOk && named && Unknown(ca, nid) && Grantable(o, caps))
            && (!named || !Unknown(ca, nid) ==> reply == Err(NID_ALREADY_EXISTS))
            && (reply.Err? ==> after.records == ca.records)
            && (reply.Ok? ==>
                  Appends(ca, after, reply, Record(nid, "agent", ca.serial + 1, pubKey, caps, scope, now,
                                                   now + o.groupDays * DAY, None, "", Some(Group), None)))
  {
    assert "group-" <= identifier <==> StartsWithGroup(identifier);
    var id := if identifier == "" then auto else identifier;
    var nid := BuildNid(o, "agent", id);
    assert nid == "urn:nps:agent:" + o.domain + ":" + id by {
      assert "urn:nps:" + "agent" + ":" == "urn:nps:agent:";
    }
    assert nid[0] == 'u';
    RegisterNidExactly(o, ca, Record(nid, "agent", 0, pubKey, caps, scope, now,
                                     now + o.groupDays * DAY, None, "", Some(Group), None), frameOk);
  }

  // ---- sessions ------------------------------------------------------------

  ghost predicate WithinLimits(o: Options, q: SessionRequest) {
    var v := if q.validity == 0 then o.sessionDefault else q.validity;
    o.sessionMin <= v <= o.sessionMax
  }

  ghost predicate AsksForMore(q: SessionRequest, group: Record) {
    q.capabilities.Some? && exists c :: c in q.capabilities.value && c !in group.capabilities
  }

  /** The record is a group in force, and the request stays within it and the limits. */
  ghost predicate MayIssue(o: Options, group: Record, q: SessionRequest, checked: int) {
    && group.role == Some(Group) && group.revokedAt.None? && checked <= group.expiresAt
    && WithinLimits(o, q) && !AsksForMore(q, group)
  }

  ghost predicate SessionUnder(o: Options, group: Record, c: Call, r: Record)
    requires c.DoIssueSession?
  {
    && r.nid == "urn:nps:agent:" + o.domain + ":" + c.sid && r.parent == Some(c.group) && r.role == Some(Session)
    && r.entityType == "agent" && r.pubKey == c.pubKey && r.issuedAt == c.now
    && r.capabilities == (if c.q.capabilities.Some? then c.q.capabilities.value else group.capabilities)
    && r.scope == (if c.q.scope != "" then c.q.scope else group.scope)
    && r.expiresAt == c.now + (if c.q.validity != 0 then c.q.validity else o.sessionDefault)
  }

  lemma SubsetIs(q: SessionRequest, group: Record)
    requires q.capabilities.Some?
    ensures Subset(q.capabilities.value, group.capabilities) <==> !AsksForMore(q, group)
  {
    var caps := q.capabilities.value;
    if c :| c in caps && c !in group.capabilities {
      var i :| 0 <= i < |caps| && caps[i] == c;
    }
  }

  /** Why no session is issued, the first reason counting. */
  ghost function Refusal(o: Options, group: Record, q: SessionRequest, checked: int): string {
    if group.role != Some(Group) then PARENT_NOT_GROUP
    else if group.revokedAt.Some? then GROUP_REVOKED
    else if group.expiresAt < checked then CERT_EXPIRED
    else if !WithinLimits(o, q) then SESSION_VALIDITY_INVALID
    else SCOPE_EXPANSION_DENIED
  }

  lemma SessionErrorIs(o: Options, ca: Ca, g: string, q: SessionRequest, checked: int, i: int)
    requires Current(ca.records, g, i)
    ensures SessionError(o, ca, g, q, checked)
         == if MayIssue(o, ca.records[i], q, checked) then "" else Refusal(o, ca.records[i], q, checked)
  {
    CurrentIs(ca.records, g, i);
    if q.capabilities.Some? { SubsetIs(q, ca.records[i]); }
  }

  /** A session is issued if and only if the NID's newest record is a group in force that covers the
      request. */
  lemma IssueSessionExactly(o: Options, ca: Ca, c: Call)
    requires Inv(ca) && c.DoIssueSession? && FreshSession(o, ca, c)
    ensures var (after, reply) := IssueSession(o, ca, c.group, c.pubKey, c.q, c.sid, c.frameOk, c.checked, c.now);
            && (reply.Ok? <==> c.frameOk && exists i :: Current(ca.records, c.group, i)
                                                     && MayIssue(o, ca.records[i], c.q, c.checked))
            && ((forall i :: !Current(ca.records, c.group, i)) ==> reply == Err(PARENT_NOT_FOUND))
            && (forall i :: Current(ca.records, c.group, i) && !MayIssue(o, ca.records[i], c.q, c.checked) ==>
                  reply == Err(Refusal(o, ca.records[i], c.q, c.checked)))
            && (reply.Err? ==> after.records == ca.records)
            && (reply.Ok? ==>
                  && Appends(ca, after, reply, reply.value)
                  && exists i :: Current(ca.records, c.group, i) && SessionUnder(o, ca.records[i], c, reply.value))
  {
    var i := Newest(ca.records, c.group);
    NoneCurrent(ca.records, c.group);
    forall k | Current(ca.records, c.group, k) ensures k == i { CurrentIs(ca.records, c.group, k); }
    if i >= 0 {
      CurrentIs(ca.records, c.group, i);
      SessionErrorIs(o, ca, c.group, c.q, c.checked, i);
      if SessionError(o, ca, c.group, c.q, c.checked) == "" { SessionIssued(o, ca, c, i); }
    }
  }

  lemma SessionIssued(o: Options, ca: Ca, c: Call, i: int)
    requires Inv(ca) && c.DoIssueSession? && FreshSession(o, ca, c)
    requires Current(ca.records, c.group, i) && SessionError(o, ca, c.group, c.q, c.checked) == ""
    ensures var (after, reply) := IssueSession(o, ca, c.group, c.pubKey, c.q, c.sid, c.frameOk, c.checked, c.now);
            if c.frameOk then
              reply.Ok? && Appends(ca, after, reply, reply.value) && SessionUnder(o, ca.records[i], c, reply.value)
            else reply.Err? && after.records == ca.records
  {
    CurrentIs(ca.records, c.group, i);
    var group := ca.records[i];
    var caps := if c.q.capabilities.Some? then c.q.capabilities.value else group.capabilities;
    var scope := if c.q.scope == "" then group.scope else c.q.scope;
    var nid := BuildNid(o, "agent", c.sid);
    var r := Record(nid, "agent", 0, c.pubKey, caps, scope, c.now, c.now + Validity(o, c.q),
                    None, "", Some(Session), Some(c.group));
    assert nid == "urn:nps:agent:" + o.domain + ":" + c.sid by {
      assert "urn:nps:" + "agent" + ":" == "urn:nps:agent:";
    }
    assert r.nid[0] == 'u';
    IssueKeeps(ca, c.frameOk, r);
  }

  // ---- renewal -------------------------------------------------------------

  ghost predicate Renewed(o: Options, old_: Record, r: Record, now: int) {
    && r.nid == old_.nid && r.entityType == old_.entityType && r.pubKey == old_.pubKey
    && r.capabilities == old_.capabilities && r.scope == old_.scope && r.issuedAt == now
    && r.expiresAt == now + (if old_.entityType == "node" then o.nodeDays else o.agentDays) * DAY
    && r.role.None? && r.parent.None?
  }

  /** The newest record is in force, or expired without being revoked, and its renewal window is open. */
  ghost predicate MayRenew(o: Options, r: Record, now: int) {
    r.revokedAt.None? && r.expiresAt - o.renewalDays * DAY <= now
  }

  lemma RenewExactly(o: Options, ca: Ca, nid: string, frameOk: bool, now: int)
    requires Inv(ca)
    ensures var (after, reply) := Renew(o, ca, nid, frameOk, now);
            && (reply.Ok? <==> frameOk && exists i :: Current(ca.records, nid, i) && MayRenew(o, ca.records[i], now))
            && (Unknown(ca, nid) ==> reply == Err(NID_NOT_FOUND))
            && (forall i :: Current(ca.records, nid, i) && !MayRenew(o, ca.records[i], now) ==>
                  reply == Err(if ca.records[i].revokedAt.Some? then CERT_REVOKED else RENEWAL_TOO_EARLY))
            && (reply.Err? ==> after.records == ca.records)
            && (reply.Ok? ==>
                  && Appends(ca, after, reply, reply.value)
                  && exists i :: Current(ca.records, nid, i) && Renewed(o, ca.records[i], reply.value, now))
  {
    var i := Newest(ca.records, nid);
    NoneCurrent(ca.records, nid);
    forall k | Current(ca.records, nid, k) ensures k == i { CurrentIs(ca.records, nid, k); }
    if i >= 0 {
      CurrentIs(ca.records, nid, i);
      var r := ca.records[i];
      if RenewError(o, ca, nid, now) == "" {
        LiveNidAllLive(ca, nid);
        assert SerialIssued(ca, i);
        var n := Record(nid, r.entityType, 0, r.pubKey, r.capabilities, r.scope, now,
                        now + ValidDays(o, r.entityType) * DAY, None, "", None, None);
        IssueKeeps(ca, frameOk, n);
        assert frameOk ==> Renewed(o, r, n.(serial := ca.serial + 1), now);
      }
    }
  }

  // ---- verification --------------------------------------------------------

  ghost predicate InForce(ca: Ca, nid: string, now: int) {
    exists i :: Current(ca.records, nid, i) && ca.records[i].revokedAt.None? && now <= ca.records[i].expiresAt
  }

  /** A NID verifies if and only if its newest record is in force, and that of its parent, if it names one. */
  lemma VerifyExactly(ca: Ca, nid: string, now: int, parentNow: int)
    ensures Verify(ca, nid, now, parentNow) == "" <==>
              exists i :: && Current(ca.records, nid, i)
                          && ca.records[i].revokedAt.None? && now <= ca.records[i].expiresAt
                          && (ca.records[i].parent.Some? && ca.records[i].parent.value != "" ==>
                                InForce(ca, ca.records[i].parent.value, parentNow))
    ensures Verify(ca, nid, now, parentNow) == NID_NOT_FOUND <==> Unknown(ca, nid)
    ensures Verify(ca, nid, now, parentNow) == CERT_REVOKED <==>
              exists i :: Current(ca.records, nid, i) && ca.records[i].revokedAt.Some?
    ensures Verify(ca, nid, now, parentNow) == CERT_EXPIRED <==>
              exists i :: Current(ca.records, nid, i) && ca.records[i].revokedAt.None? && ca.records[i].expiresAt < now
  {
    var i := Newest(ca.records, nid);
    NoneCurrent(ca.records, nid);
    forall k | Current(ca.records, nid, k) ensures k == i { CurrentIs(ca.records, nid, k); }
    CurrentIs(ca.records, nid, i);
    if i >= 0 && ca.records[i].parent.Some? {
      var p, j := ca.records[i].parent.value, Newest(ca.records, ca.records[i].parent.value);
      forall k | Current(ca.records, p, k) ensures k == j { CurrentIs(ca.records, p, k); }
      CurrentIs(ca.records, p, j);
    }
  }

  // ---- revocation ----------------------------------------------------------

  ghost predicate RevokedAs(a: Record, b: Record, reason: string, now: int) {
    a.revokedAt.None? && b == a.(revokedAt := Some(now), revokeReason := reason)
  }

  lemma {:induction false} RevokeAllTouches(rs: seq<Record>, cs: seq<Record>, now: int, k: nat)
    requires k < |rs|
    ensures var after := RevokeAll(rs, cs, now);
            after[k] != rs[k] ==> RevokedAs(rs[k], after[k], "parent_revoked", now)
                                  && exists m :: 0 <= m < |cs| && cs[m].nid == rs[k].nid
  {
    if cs != [] {
      var n := |cs| - 1;
      RevokeAllTouches(rs, cs[..n], now, k);
      if m :| 0 <= m < n && cs[..n][m].nid == rs[k].nid { assert cs[m].nid == rs[k].nid; }
    }
  }

  lemma {:induction false} ChildrenAre(rs: seq<Record>, parent: string, m: nat) returns (i: nat)
    requires m < |Children(rs, parent)|
    ensures i < |rs| && rs[i] == Children(rs, parent)[m] && rs[i].parent == Some(parent)
  {
    var n := |rs| - 1;
    if m < |Children(rs[..n], parent)| { i := ChildrenAre(rs[..n], parent, m); } else { i := n; }
  }

  /** The NID has a record of a session that was issued under the group. */
  ghost predicate SessionOf(rs: seq<Record>, nid: string, group: string) {
    exists i :: 0 <= i < |rs| && rs[i].nid == nid && rs[i].parent == Some(group)
  }

  /** Revoking marks records of the NID and, if its newest record is a group, of the sessions issued
      under it; nothing else changes. */
  lemma RevokeTouches(ca: Ca, nid: string, reason: string, now: int, k: nat)
    requires Inv(ca) && k < |ca.records|
    ensures var (after, reply) := Revoke(ca, nid, reason, now);
            && |after.records| == |ca.records| && after.serial == ca.serial
            && (after.records[k] != ca.records[k] ==>
                  || (ca.records[k].nid == nid && RevokedAs(ca.records[k], after.records[k], reason, now))
                  || (&& RevokedAs(ca.records[k], after.records[k], "parent_revoked", now)
                      && SessionOf(ca.records, ca.records[k].nid, nid)
                      && exists i :: Current(ca.records, nid, i) && ca.records[i].role == Some(Group)))
  {
    var rs := ca.records;
    var one := RevokeOne(rs, nid, reason, now);
    var after := Revoke(ca, nid, reason, now).0.records;
    CurrentIs(rs, nid, Newest(rs, nid));
    if after != rs && after != one {
      var cs := Children(one, nid);
      RevokeAllTouches(one, cs, now, k);
      if after[k] != one[k] {
        var m :| 0 <= m < |cs| && cs[m].nid == one[k].nid;
        var i := ChildrenAre(one, nid, m);
        assert rs[i].nid == rs[k].nid && rs[i].parent == Some(nid);
      }
    }
  }

  /** A revocation succeeds if and only if some record of the NID is not revoked yet. */
  lemma RevokeExactly(ca: Ca, nid: string, reason: string, now: int)
    ensures var (after, reply) := Revoke(ca, nid, reason, now);
            && (reply.Ok? <==> exists i :: 0 <= i < |ca.records| && Revocable(ca.records[i], nid))
            && (reply.Err? ==> after == ca && reply == Err(NID_NOT_FOUND))
            && (reply.Ok? ==> exists i :: Current(ca.records, nid, i) && reply.value == ca.records[i].serial)
  {
    var i := NewestUnrevoked(ca.records, nid);
    CurrentIs(ca.records, nid, Newest(ca.records, nid));
    if i >= 0 { assert Newest(ca.records, nid) >= i; }
  }

  // ---- where sessions come from --------------------------------------------

  /** The j-th call issued the session that the k-th record is. */
  ghost predicate IssuedBy(o: Options, calls: seq<Call>, rs: seq<Record>, k: nat, j: nat)
    requires k < |rs| && j < |calls|
  {
    var c, before := calls[j], StateAfter(o, calls[..j]).records;
    && c.DoIssueSession? && rs[k].parent == Some(c.group) && |before| == k
    && |StateAfter(o, calls[..j + 1]).records| == k + 1
    && exists i :: Current(before, c.group, i) && MayIssue(o, before[i], c.q, c.checked)
                   && SessionUnder(o, before[i], c, rs[k])
  }

  /** A call either marks records in place or appends one; the record names a parent only if the call
      issued a session. */
  lemma StepAppends(o: Options, ca: Ca, c: Call)
    requires Inv(ca) && FreshSession(o, ca, c)
    ensures var rs := Step(o, ca, c).records;
            || Revocation(ca.records, rs)
            || (&& |rs| == |ca.records| + 1 && rs[..|ca.records|] == ca.records
                && (rs[|ca.records|].parent.Some? ==>
                      && c.DoIssueSession? && rs[|ca.records|].parent == Some(c.group)
                      && exists i :: Current(ca.records, c.group, i) && MayIssue(o, ca.records[i], c.q, c.checked)
                                     && SessionUnder(o, ca.records[i], c, rs[|ca.records|])))
  {
    hide Register, RegisterGroup, IssueSession, Renew, Revoke, MayIssue, Inv;
    Reflexive(ca.records);
    match c
    case DoRegister(e, i, p, caps, scope, ok, now) => RegisterExactly(o, ca, e, i, p, caps, scope, ok, now);
    case DoRegisterGroup(i, auto, p, caps, scope, ok, now) =>
      RegisterGroupExactly(o, ca, i, auto, p, caps, scope, ok, now);
    case DoIssueSession(_, _, _, _, _, _, _) =>
      IssueSessionExactly(o, ca, c);
      if IssueSession(o, ca, c.group, c.pubKey, c.q, c.sid, c.frameOk, c.checked, c.now).1.Ok? {
        var r := Step(o, ca, c).records[|ca.records|];
        var i :| Current(ca.records, c.group, i) && MayIssue(o, ca.records[i], c.q, c.checked);
        var k :| Current(ca.records, c.group, k) && SessionUnder(o, ca.records[k], c, r);
        assert i == k;
      }
    case DoRenew(nid, ok, now) => RenewExactly(o, ca, nid, ok, now);
    case DoRevoke(nid, reason, now) => RevokeKeeps(ca, nid, reason, now);
  }

  lemma IssuedLater(o: Options, calls: seq<Call>, old_: seq<Record>, rs: seq<Record>, k: nat, j: nat)
    requires calls != [] && k < |old_| <= |rs| && j < |calls| - 1 && MoreRevoked(old_[k], rs[k])
    requires IssuedBy(o, calls[..|calls| - 1], old_, k, j)
    ensures IssuedBy(o, calls, rs, k, j)
  {
    var less := calls[..|calls| - 1];
    assert less[..j] == calls[..j] && less[..j + 1] == calls[..j + 1];
    var c, before := calls[j], StateAfter(o, calls[..j]).records;
    var i :| && Current(before, c.group, i) && MayIssue(o, before[i], c.q, c.checked)
             && SessionUnder(o, before[i], c, old_[k]);
    assert SessionUnder(o, before[i], c, rs[k]);
  }

  /** Every record that names a parent was written by a call that issued a session, when the parent's
      newest record was a group in force that covered the request. */
  lemma {:induction false} SessionOrigin(o: Options, calls: seq<Call>, k: nat) returns (j: nat)
    requires FreshSessions(o, calls)
    requires k < |StateAfter(o, calls).records| && StateAfter(o, calls).records[k].parent.Some?
    ensures j < |calls| && IssuedBy(o, calls, StateAfter(o, calls).records, k, j)
    decreases |calls|
  {
    hide Step, FreshSession, MayIssue, SessionUnder;
    var n := |calls| - 1;
    var ca, rs := StateAfter(o, calls[..n]), StateAfter(o, calls).records;
    Reachable(o, calls[..n]);
    StepAppends(o, ca, calls[n]);
    if k < |ca.records| {
      assert MoreRevoked(ca.records[k], rs[k]) by {
        if !Revocation(ca.records, rs) { assert rs[k] == rs[..|ca.records|][k]; }
      }
      j := SessionOrigin(o, calls[..n], k);
      IssuedLater(o, calls, ca.records, rs, k, j);
    } else {
      j := n;
      assert calls[..n + 1] == calls;
    }
  }

  lemma {:induction false} RecordsGrow(o: Options, calls: seq<Call>, n: nat)
    requires FreshSessions(o, calls) && n <= |calls|
    ensures |StateAfter(o, calls[..n]).records| <= |StateAfter(o, calls).records| && FreshSessions(o, calls[..n])
    decreases |calls|
  {
    hide Step, FreshSession;
    if n == |calls| {
      assert calls[..n] == calls;
    } else {
      var m := |calls| - 1;
      RecordsGrow(o, calls[..m], n);
      assert calls[..m][..n] == calls[..n];
      Reachable(o, calls[..m]);
      StepAppends(o, StateAfter(o, calls[..m]), calls[m]);
    }
  }

  lemma OriginAfter(o: Options, calls: seq<Call>, n: nat, k: nat, j: nat)
    requires FreshSessions(o, calls) && n < |calls| && j < |calls|
    requires |StateAfter(o, calls[..n + 1]).records| <= k && |StateAfter(o, calls[..j + 1]).records| == k + 1
    ensures n < j
  {
    hide StateAfter, FreshSessions;
    if j <= n {
      assert calls[..n + 1][..j + 1] == calls[..j + 1];
      RecordsGrow(o, calls, n + 1);
      RecordsGrow(o, calls[..n + 1], j + 1);
    }
  }

  lemma RevokedThen(o: Options, calls: seq<Call>, n: nat)
    requires FreshSessions(o, calls) && n < |calls| && calls[n].DoRevoke?
    requires Revoke(StateAfter(o, calls[..n]), calls[n].nid, calls[n].reason, calls[n].now).1.Ok?
    ensures NewestRevoked(StateAfter(o, calls[..n + 1]).records, calls[n].nid)
  {
    hide Revoke, NewestRevoked, FreshSessions, FreshSession;
    RecordsGrow(o, calls, n);
    Reachable(o, calls[..n]);
    assert calls[..n + 1][..n] == calls[..n];
    RevokeKeeps(StateAfter(o, calls[..n]), calls[n].nid, calls[n].reason, calls[n].now);
  }

  /** Once a group was revoked, no session is ever issued under it again. */
  lemma NoSessionAfterRevoke(o: Options, calls: seq<Call>, n: nat, k: nat)
    requires FreshSessions(o, calls) && n < |calls| && calls[n].DoRevoke?
    requires Revoke(StateAfter(o, calls[..n]), calls[n].nid, calls[n].reason, calls[n].now).1.Ok?
    requires |StateAfter(o, calls[..n + 1]).records| <= k < |StateAfter(o, calls).records|
    ensures StateAfter(o, calls).records[k].parent != Some(calls[n].nid)
  {
    hide StateAfter, FreshSessions, Revoke, NewestRevoked, SessionUnder;
    var g := calls[n].nid;
    if StateAfter(o, calls).records[k].parent == Some(g) {
      var j := SessionOrigin(o, calls, k);
      OriginAfter(o, calls, n, k, j);
      RevokedThen(o, calls, n);
      RecordsGrow(o, calls, j);
      assert calls[..j][..n + 1] == calls[..n + 1];
      StillRevoked(o, calls[..j], n + 1, g);
    }
  }

  lemma StillRevoked(o: Options, calls: seq<Call>, n: nat, g: string)
    requires FreshSessions(o, calls) && n <= |calls| && NewestRevoked(StateAfter(o, calls[..n]).records, g)
    ensures forall i :: Current(StateAfter(o, calls).records, g, i) ==> StateAfter(o, calls).records[i].revokedAt.Some?
  {
    RevokedForever(o, calls, n, g, 0, 0);
    forall i | Current(StateAfter(o, calls).records, g, i)
      ensures StateAfter(o, calls).records[i].revokedAt.Some?
    {
      CurrentIs(StateAfter(o, calls).records, g, i);
    }
  }
}
