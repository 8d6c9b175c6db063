/** The in-memory certificate store and the CA service over it. */
module CaService {
  import opened Common
  import opened Results
  import opened CaModel
  import opened CaInvariants
  import opened CaRuns

  class InMemoryNipCaStore {
    var records: seq<Record>
    var serial: nat

    constructor ()
      ensures View() == Ca([], 0) && Inv(View())
    {
      records, serial := [], 0;
    }

    ghost function View(): Ca
      reads this
    {
      Ca(records, serial)
    }

    method SaveRecord(r: Record) returns (reply: Result<Record>)
      modifies this`records
      ensures (View(), reply) == Save(old(View()), r)
    {
      for i := 0 to |records|
        invariant records == old(records)
        invariant forall k :: 0 <= k < i ==> records[k].serial != r.serial
      {
        if records[i].serial == r.serial {
          return Err(SERIAL_EXISTS);
        }
      }
      records := records + [r];
      return Ok(r);
    }

    /** The newest record of nid. */
    method GetByNid(nid: string) returns (found: Option<Record>)
      ensures found == (var i := Newest(records, nid); if i < 0 then None else Some(records[i]))
    {
      var i := |records| - 1;
      while i >= 0
        invariant -1 <= i < |records|
        invariant forall k :: i < k < |records| ==> records[k].nid != nid
      {
        if records[i].nid == nid {
          return Some(records[i]);
        }
        i := i - 1;
      }
      return None;
    }

    /** Revokes the newest record of nid that is not revoked yet, in place. */
    method RevokeNewest(nid: string, reason: string, now: int) returns (revoked: bool)
      modifies this`records
      ensures records == RevokeOne(old(records), nid, reason, now)
      ensures revoked <==> NewestUnrevoked(old(records), nid) >= 0
    {
      var i := |records| - 1;
      while i >= 0
        invariant -1 <= i < |records| && records == old(records)
        invariant forall k :: i < k < |records| ==> !Revocable(records[k], nid)
      {
        if records[i].nid == nid && records[i].revokedAt.None? {
          assert Revocable(records[i], nid);
          records := records[i := records[i].(revokedAt := Some(now), revokeReason := reason)];
          return true;
        }
        i := i - 1;
      }
      return false;
    }

    method NextSerial() returns (next: nat)
      modifies this`serial
      ensures serial == old(serial) + 1 == next
    {
      serial := serial + 1;
      return serial;
    }

    method GetByParentNid(parent: string) returns (out: seq<Record>)
      ensures out == Children(records, parent)
    {
      out := [];
      for i := 0 to |records|
        invariant out == Children(records[..i], parent)
      {
        assert records[..i + 1][..i] == records[..i];
        if records[i].parent == Some(parent) {
          out := out + [records[i]];
        }
      }
      assert records[..|records|] == records;
    }
  }

  class NipCaService {
    const opts: Options
    const store: InMemoryNipCaStore

    constructor (o: Options, s: InMemoryNipCaStore)
      ensures opts == o && store == s
    {
      opts, store := o, s;
    }

    method CheckAllowedCaps(caps: seq<string>) returns (ok: bool)
      ensures ok <==> CapsAllowed(opts, caps)
    {
      if opts.allowed.None? {
        return true;
      }
      for i := 0 to |caps|
        invariant forall k :: 0 <= k < i ==> caps[k] in opts.allowed.value
      {
        if caps[i] !in opts.allowed.value {
          return false;
        }
      }
      return true;
    }

    /** Take a serial, then save the record under it if the frame could be built. */
    method IssueRecord(frameOk: bool, r: Record) returns (reply: Result<Record>)
      modifies store
      ensures (store.View(), reply) == Issue(old(store.View()), frameOk, r)
    {
      var serial := store.NextSerial();
      if !frameOk {
        return Err(CERT_FORMAT_INVALID);
      }
      reply := store.SaveRecord(r.(serial := serial));
    }

    method RegisterRecord(r: Record, frameOk: bool) returns (reply: Result<Record>)
      modifies store
      ensures (store.View(), reply) == RegisterNid(opts, old(store.View()), r.nid, r, frameOk)
    {
      var existing := store.GetByNid(r.nid);
      if existing.Some? {
        return Err(NID_ALREADY_EXISTS);
      }
      var allowed := CheckAllowedCaps(r.capabilities);
      if !allowed {
        return Err(CAPABILITY_MISSING);
      }
      reply := IssueRecord(frameOk, r);
    }

    method RegisterEntity(entityType: string, identifier: string, pubKey: string, caps: seq<string>,
                          scope: string, frameOk: bool, now: int) returns (reply: Result<Record>)
      requires Inv(store.View())
      modifies store
      ensures (store.View(), reply)
              == Register(opts, old(store.View()), entityType, identifier, pubKey, caps, scope, frameOk, now)
      ensures Inv(store.View())
    {
      StepKeeps(opts, store.View(), DoRegister(entityType, identifier, pubKey, caps, scope, frameOk, now));
      var nid := BuildNid(opts, entityType, identifier);
      var days := if entityType == "node" then opts.nodeDays else opts.agentDays;
      reply := RegisterRecord(Record(nid, entityType, 0, pubKey, caps, scope, now, now + days * DAY,
                                     None, "", None, None), frameOk);
    }

    method RegisterGroupNid(identifier: string, auto: string, pubKey: string, caps: seq<string>,
                            scope: string, frameOk: bool, now: int) returns (reply: Result<Record>)
      requires Inv(store.View())
      modifies store
      ensures (store.View(), reply)
              == RegisterGroup(opts, old(store.View()), identifier, auto, pubKey, caps, scope, frameOk, now)
      ensures Inv(store.View())
    {
      StepKeeps(opts, store.View(), DoRegisterGroup(identifier, auto, pubKey, caps, scope, frameOk, now));
      var id := identifier;
      if id == "" {
        id := auto;
      } else if !("group-" <= id) {
        return Err(NID_ALREADY_EXISTS);
      }
      var nid := BuildNid(opts, "agent", id);
      reply := RegisterRecord(Record(nid, "agent", 0, pubKey, caps, scope, now, now + opts.groupDays * DAY,
                                     None, "", Some(Group), None), frameOk);
    }

    method WithinGroup(caps: seq<string>, groupCaps: seq<string>) returns (ok: bool)
      ensures ok <==> Subset(caps, groupCaps)
    {
      for i := 0 to |caps|
        invariant forall k :: 0 <= k < i ==> caps[k] in groupCaps
      {
        if caps[i] !in groupCaps {
          return false;
        }
      }
      return true;
    }

    method SessionGroup(groupNid: string, q: SessionRequest, now: int) returns (code: string, group: Option<Record>)
      ensures code == SessionError(opts, store.View(), groupNid, q, now)
      ensures code == "" ==> group == Some(store.records[Newest(store.records, groupNid)])
    {
      group := store.GetByNid(groupNid);
      if group.None? {
        return PARENT_NOT_FOUND, group;
      }
      var g := group.value;
      if g.role != Some(Group) {
        return PARENT_NOT_GROUP, group;
      }
      if g.revokedAt.Some? {
        return GROUP_REVOKED, group;
      }
      if now > g.expiresAt {
        return CERT_EXPIRED, group;
      }
      var v := if q.validity == 0 then opts.sessionDefault else q.validity;
      if v < opts.sessionMin || v > opts.sessionMax {
        return SESSION_VALIDITY_INVALID, group;
      }
      if q.capabilities.Some? {
        var ok := WithinGroup(q.capabilities.value, g.capabilities);
        if !ok {
          return SCOPE_EXPANSION_DENIED, group;
        }
      }
      return "", group;
    }

    method IssueSessionNid(groupNid: string, pubKey: string, q: SessionRequest, sid: string, frameOk: bool,
                           checked: int, now: int) returns (reply: Result<Record>)
      requires Inv(store.View()) && Newest(store.records, BuildNid(opts, "agent", sid)) < 0
      modifies store
      ensures (store.View(), reply)
              == IssueSession(opts, old(store.View()), groupNid, pubKey, q, sid, frameOk, checked, now)
      ensures Inv(store.View())
    {
      StepKeeps(opts, store.View(), DoIssueSession(groupNid, pubKey, q, sid, frameOk, checked, now));
      var code, group := SessionGroup(groupNid, q, checked);
      if code != "" {
        return Err(code);
      }
      var caps := if q.capabilities.Some? then q.capabilities.value else group.value.capabilities;
      var scope := if q.scope == "" then group.value.scope else q.scope;
      var v := if q.validity == 0 then opts.sessionDefault else q.validity;
      reply := IssueRecord(frameOk, Record(BuildNid(opts, "agent", sid), "agent", 0, pubKey, caps, scope, now, now + v,
                                           None, "", Some(Session), Some(groupNid)));
    }

    method RenewNid(nid: string, frameOk: bool, now: int) returns (reply: Result<Record>)
      requires Inv(store.View())
      modifies store
      ensures (store.View(), reply) == Renew(opts, old(store.View()), nid, frameOk, now)
      ensures Inv(store.View())
    {
      RenewKeeps(opts, store.View(), nid, frameOk, now);
      var found := store.GetByNid(nid);
      if found.None? {
        return Err(NID_NOT_FOUND);
      }
      var r := found.value;
      if r.revokedAt.Some? {
        return Err(CERT_REVOKED);
      }
      if now < r.expiresAt - opts.renewalDays * DAY {
        return Err(RENEWAL_TOO_EARLY);
      }
      var days := if r.entityType == "node" then opts.nodeDays else opts.agentDays;
      reply := IssueRecord(frameOk, Record(nid, r.entityType, 0, r.pubKey, r.capabilities, r.scope, now,
                                           now + days * DAY, None, "", None, None));
    }

    method RevokeNid(nid: string, reason: string, now: int) returns (reply: Result<nat>)
      requires Inv(store.View())
      modifies store
      ensures (store.View(), reply) == Revoke(old(store.View()), nid, reason, now)
      ensures Inv(store.View())
    {
      RevokeKeeps(store.View(), nid, reason, now);
      var found := store.GetByNid(nid);
      if found.None? {
        return Err(NID_NOT_FOUND);
      }
      var revoked := store.RevokeNewest(nid, reason, now);
      if !revoked {
        return Err(NID_NOT_FOUND);
      }
      if found.value.role == Some(Group) {
        var children := store.GetByParentNid(nid);
        RevokeChildren(children, now);
      }
      return Ok(found.value.serial);
    }

    method RevokeChildren(children: seq<Record>, now: int)
      modifies store
      ensures store.View() == Ca(RevokeAll(old(store.records), children, now), old(store.serial))
    {
      for i := 0 to |children|
        invariant store.serial == old(store.serial)
        invariant store.records == RevokeAll(old(store.records), children[..i], now)
      {
        assert children[..i + 1][..i] == children[..i];
        if children[i].revokedAt.Some? {
          continue;
        }
        var _ := store.RevokeNewest(children[i].nid, "parent_revoked", now);
      }
      assert children[..|children|] == children;
    }

    method VerifyNid(nid: string, now: int, parentNow: int) returns (code: string)
      ensures code == Verify(store.View(), nid, now, parentNow)
    {
      var found := store.GetByNid(nid);
      if found.None? {
        return NID_NOT_FOUND;
      }
      var r := found.value;
      if r.revokedAt.Some? {
        return CERT_REVOKED;
      }
      if now > r.expiresAt {
        return CERT_EXPIRED;
      }
      if r.parent.Some? && r.parent.value != "" {
        var parent := store.GetByNid(r.parent.value);
        if parent.None? {
          return CERT_PARENT_REVOKED;
        }
        if parent.value.revokedAt.Some? {
          return CERT_PARENT_REVOKED;
        }
        if parentNow > parent.value.expiresAt {
          return CERT_PARENT_REVOKED;
        }
      }
      return "";
    }
  }
}
