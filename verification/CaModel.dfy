/** The NIP certificate authority: an append-only list of certificate records per process,
    newest record first to be consulted, and the service operations over it. Signing,
    X.509 and JSON are outside: frameOk says whether the frame could be built. */
module CaModel {
  import opened Common
  import opened Results

  const DAY: int := 24 * 3600 * 1_000_000_000

  const NID_ALREADY_EXISTS := "NIP-CA-NID-ALREADY-EXISTS"
  const NID_NOT_FOUND := "NIP-CA-NID-NOT-FOUND"
  const CAPABILITY_MISSING := "NIP-CERT-CAPABILITY-MISSING"
  const CERT_FORMAT_INVALID := "NIP-CERT-FORMAT-INVALID"
  const CERT_REVOKED := "NIP-CERT-REVOKED"
  const CERT_EXPIRED := "NIP-CERT-EXPIRED"
  const CERT_PARENT_REVOKED := "NIP-CERT-PARENT-REVOKED"
  const RENEWAL_TOO_EARLY := "NIP-CA-RENEWAL-TOO-EARLY"
  const PARENT_NOT_FOUND := "NIP-CA-PARENT-NOT-FOUND"
  const PARENT_NOT_GROUP := "NIP-CA-PARENT-NOT-GROUP"
  const GROUP_REVOKED := "NIP-CA-GROUP-REVOKED"
  const SESSION_VALIDITY_INVALID := "NIP-CA-SESSION-VALIDITY-INVALID"
  const SCOPE_EXPANSION_DENIED := "NIP-CA-SCOPE-EXPANSION-DENIED"
  const SERIAL_EXISTS := "serial already exists"

  datatype Role = Group | Session

  datatype Record = Record(nid: string, entityType: string, serial: nat, pubKey: string,
                           capabilities: seq<string>, scope: string, issuedAt: int, expiresAt: int,
                           revokedAt: Option<int>, revokeReason: string,
                           role: Option<Role>, parent: Option<string>)

  datatype Options = Options(domain: string, agentDays: int, nodeDays: int, renewalDays: int, groupDays: int,
                             sessionDefault: int, sessionMax: int, sessionMin: int,
                             allowed: Option<set<string>>)

  /** records in issue order; serial is the last serial handed out. */
  datatype Ca = Ca(records: seq<Record>, serial: nat)

  // ---- store ---------------------------------------------------------------

  /** Position of the newest record of nid, or -1. */
  function Newest(records: seq<Record>, nid: string): (i: int)
    ensures -1 <= i < |records|
    ensures i >= 0 ==> records[i].nid == nid
    ensures forall k :: i < k < |records| ==> records[k].nid != nid
  {
    if records == [] then -1
    else if records[|records| - 1].nid == nid then |records| - 1
    else Newest(records[..|records| - 1], nid)
  }

  predicate Revocable(r: Record, nid: string) { r.nid == nid && r.revokedAt.None? }

  /** Position of the newest unrevoked record of nid, or -1. */
  function NewestUnrevoked(records: seq<Record>, nid: string): (i: int)
    ensures -1 <= i < |records|
    ensures i >= 0 ==> Revocable(records[i], nid)
    ensures forall k :: i < k < |records| ==> !Revocable(records[k], nid)
  {
    if records == [] then -1
    else if Revocable(records[|records| - 1], nid) then |records| - 1
    else NewestUnrevoked(records[..|records| - 1], nid)
  }

  function RevokeOne(records: seq<Record>, nid: string, reason: string, now: int): (r: seq<Record>)
    ensures |r| == |records|
  {
    var i := NewestUnrevoked(records, nid);
    if i < 0 then records else records[i := records[i].(revokedAt := Some(now), revokeReason := reason)]
  }

  /** Records issued under parent, in issue order. */
  function Children(records: seq<Record>, parent: string): seq<Record> {
    if records == [] then []
    else
      var n := |records| - 1;
      Children(records[..n], parent) + (if records[n].parent == Some(parent) then [records[n]] else [])
  }

  /** Revoke the NIDs of those children that were live when the list was taken. */
  function RevokeAll(records: seq<Record>, children: seq<Record>, now: int): (r: seq<Record>)
    ensures |r| == |records|
  {
    if children == [] then records
    else
      var n := |children| - 1;
      var before := RevokeAll(records, children[..n], now);
      if children[n].revokedAt.Some? then before
      else RevokeOne(before, children[n].nid, "parent_revoked", now)
  }

  predicate SerialTaken(records: seq<Record>, serial: nat) {
    exists i :: 0 <= i < |records| && records[i].serial == serial
  }

  /** Append a record unless its serial is taken. */
  function Save(ca: Ca, r: Record): (Ca, Result<Record>) {
    if SerialTaken(ca.records, r.serial) then (ca, Err(SERIAL_EXISTS))
    else (ca.(records := ca.records + [r]), Ok(r))
  }

  // ---- service -------------------------------------------------------------

  function BuildNid(o: Options, entityType: string, identifier: string): string {
    "urn:nps:" + entityType + ":" + o.domain + ":" + identifier
  }

  predicate CapsAllowed(o: Options, caps: seq<string>) {
    o.allowed.None? || forall i :: 0 <= i < |caps| ==> caps[i] in o.allowed.value
  }

  function ValidDays(o: Options, entityType: string): int {
    if entityType == "node" then o.nodeDays else o.agentDays
  }

  /** Take a serial, build the frame, save the record made from that serial. */
  function Issue(ca: Ca, frameOk: bool, r: Record): (Ca, Result<Record>) {
    var taken := ca.(serial := ca.serial + 1);
    if !frameOk then (taken, Err(CERT_FORMAT_INVALID)) else Save(taken, r.(serial := ca.serial + 1))
  }

  function RegisterNid(o: Options, ca: Ca, nid: string, r: Record, frameOk: bool): (Ca, Result<Record>) {
    if Newest(ca.records, nid) >= 0 then (ca, Err(NID_ALREADY_EXISTS))
    else if !CapsAllowed(o, r.capabilities) then (ca, Err(CAPABILITY_MISSING))
    else Issue(ca, frameOk, r)
  }

  function Register(o: Options, ca: Ca, entityType: string, identifier: string, pubKey: string,
                    caps: seq<string>, scope: string, frameOk: bool, now: int): (Ca, Result<Record>) {
    var nid := BuildNid(o, entityType, identifier);
    RegisterNid(o, ca, nid,
                Record(nid, entityType, 0, pubKey, caps, scope, now, now + ValidDays(o, entityType) * DAY,
                       None, "", None, None), frameOk)
  }

  predicate HasGroupPrefix(s: string) { "group-" <= s }

  /** auto is the identifier drawn when none is given. */
  function RegisterGroup(o: Options, ca: Ca, identifier: string, auto: string, pubKey: string,
                         caps: seq<string>, scope: string, frameOk: bool, now: int): (Ca, Result<Record>) {
    if identifier != "" && !HasGroupPrefix(identifier) then (ca, Err(NID_ALREADY_EXISTS))
    else
      var nid := BuildNid(o, "agent", if identifier == "" then auto else identifier);
      RegisterNid(o, ca, nid,
                  Record(nid, "agent", 0, pubKey, caps, scope, now, now + o.groupDays * DAY,
                         None, "", Some(Group), None),
                  frameOk)
  }

  predicate Subset(a: seq<string>, b: seq<string>) { forall i :: 0 <= i < |a| ==> a[i] in b }

  /** What a session asks for: validity 0 and absent capabilities or scope are inherited. */
  datatype SessionRequest = SessionRequest(validity: int, capabilities: Option<seq<string>>, scope: string)

  function Validity(o: Options, q: SessionRequest): int {
    if q.validity == 0 then o.sessionDefault else q.validity
  }

  function SessionError(o: Options, ca: Ca, groupNid: string, q: SessionRequest, now: int): string {
    var g := Newest(ca.records, groupNid);
    if g < 0 then PARENT_NOT_FOUND
    else if ca.records[g].role != Some(Group) then PARENT_NOT_GROUP
    else if ca.records[g].revokedAt.Some? then GROUP_REVOKED
    else if now > ca.records[g].expiresAt then CERT_EXPIRED
    else if Validity(o, q) < o.sessionMin || Validity(o, q) > o.sessionMax then SESSION_VALIDITY_INVALID
    else if q.capabilities.Some? && !Subset(q.capabilities.value, ca.records[g].capabilities) then
      SCOPE_EXPANSION_DENIED
    else ""
  }

  /** sid is the drawn session identifier; check and issue read the clock separately. */
  function IssueSession(o: Options, ca: Ca, groupNid: string, pubKey: string, q: SessionRequest, sid: string,
                        frameOk: bool, checked: int, now: int): (Ca, Result<Record>) {
    if SessionError(o, ca, groupNid, q, checked) != "" then (ca, Err(SessionError(o, ca, groupNid, q, checked)))
    else
      var group := ca.records[Newest(ca.records, groupNid)];
      var caps := if q.capabilities.Some? then q.capabilities.value else group.capabilities;
      var scope := if q.scope == "" then group.scope else q.scope;
      Issue(ca, frameOk, Record(BuildNid(o, "agent", sid), "agent", 0, pubKey, caps, scope, now,
                                now + Validity(o, q), None, "", Some(Session), Some(groupNid)))
  }

  function RenewError(o: Options, ca: Ca, nid: string, now: int): string {
    var i := Newest(ca.records, nid);
    if i < 0 then NID_NOT_FOUND
    else if ca.records[i].revokedAt.Some? then CERT_REVOKED
    else if now < ca.records[i].expiresAt - o.renewalDays * DAY then RENEWAL_TOO_EARLY
    else ""
  }

  /** The renewed record carries neither role nor parent. */
  function Renew(o: Options, ca: Ca, nid: string, frameOk: bool, now: int): (Ca, Result<Record>) {
    if RenewError(o, ca, nid, now) != "" then (ca, Err(RenewError(o, ca, nid, now)))
    else
      var r := ca.records[Newest(ca.records, nid)];
      Issue(ca, frameOk, Record(nid, r.entityType, 0, r.pubKey, r.capabilities, r.scope, now,
                                now + ValidDays(o, r.entityType) * DAY, None, "", None, None))
  }

  /** Revoke a NID; if its newest record is a group, cascade to the sessions issued under it. */
  function Revoke(ca: Ca, nid: string, reason: string, now: int): (Ca, Result<nat>) {
    var i := Newest(ca.records, nid);
    if i < 0 then (ca, Err(NID_NOT_FOUND))
    else if NewestUnrevoked(ca.records, nid) < 0 then (ca, Err(NID_NOT_FOUND))
    else
      var one := RevokeOne(ca.records, nid, reason, now);
      var all := if ca.records[i].role == Some(Group) then RevokeAll(one, Children(one, nid), now) else one;
      (ca.(records := all), Ok(ca.records[i].serial))
  }

  /** "" when the NID verifies, else the code. The clock is read for the record and for the parent. */
  function Verify(ca: Ca, nid: string, now: int, parentNow: int): string {
    var i := Newest(ca.records, nid);
    if i < 0 then NID_NOT_FOUND
    else
      var r := ca.records[i];
      if r.revokedAt.Some? then CERT_REVOKED
      else if now > r.expiresAt then CERT_EXPIRED
      else if r.parent.Some? && r.parent.value != "" then
        var p := Newest(ca.records, r.parent.value);
        if p < 0 then CERT_PARENT_REVOKED
        else if ca.records[p].revokedAt.Some? then CERT_PARENT_REVOKED
        else if parentNow > ca.records[p].expiresAt then CERT_PARENT_REVOKED
        else ""
      else ""
  }
}
