/** What every CA call keeps, and what revocation means over whole runs. */
module CaInvariants {
  import opened Common
  import opened CaModel

  /** Once a record of a NID is revoked, every newer record of it is revoked. */
  ghost predicate RevokedStaysRevoked(rs: seq<Record>, i: int, j: int) {
    0 <= i < j < |rs| && rs[i].nid == rs[j].nid && rs[i].revokedAt.Some? ==> rs[j].revokedAt.Some?
  }

  /** All records of a NID carry the same capabilities. */
  ghost predicate SameCapabilities(rs: seq<Record>, i: int, j: int) {
    0 <= i < j < |rs| && rs[i].nid == rs[j].nid ==> rs[i].capabilities == rs[j].capabilities
  }

  /** A record that names a parent is the first of its NID, and was issued under an older
      record of the parent, within that record's capabilities. */
  ghost predicate IssuedUnderParent(rs: seq<Record>, i: int) {
    0 <= i < |rs| && rs[i].parent.Some? ==>
      && rs[i].parent.value != rs[i].nid
      && (forall j :: 0 <= j < i ==> rs[j].nid != rs[i].nid)
      && exists k :: 0 <= k < i && rs[k].nid == rs[i].parent.value && Subset(rs[i].capabilities, rs[k].capabilities)
  }

  ghost predicate SerialIssued(ca: Ca, i: int) {
    0 <= i < |ca.records| ==> ca.records[i].serial <= ca.serial && ca.records[i].nid != ""
  }

  ghost predicate RevokedSuffix(rs: seq<Record>) { forall i, j :: RevokedStaysRevoked(rs, i, j) }

  ghost predicate Inv(ca: Ca) {
    && RevokedSuffix(ca.records)
    && (forall i, j :: SameCapabilities(ca.records, i, j))
    && (forall i :: IssuedUnderParent(ca.records, i))
    && (forall i :: SerialIssued(ca, i))
  }

  // ---- appending -----------------------------------------------------------

  /** The record r may be appended: live, with a new serial, consistent with its NID's records. */
  ghost predicate Appendable(ca: Ca, r: Record) {
    && r.revokedAt.None? && r.serial > ca.serial && r.nid != ""
    && (forall i :: 0 <= i < |ca.records| && ca.records[i].nid == r.nid ==>
          ca.records[i].revokedAt.None? && ca.records[i].capabilities == r.capabilities)
    && (r.parent.Some? ==>
          && Newest(ca.records, r.nid) < 0 && r.parent.value != r.nid
          && Newest(ca.records, r.parent.value) >= 0
          && Subset(r.capabilities, ca.records[Newest(ca.records, r.parent.value)].capabilities))
  }

  lemma ParentKept(rs: seq<Record>, r: Record, i: int)
    requires 0 <= i < |rs| && IssuedUnderParent(rs, i)
    ensures IssuedUnderParent(rs + [r], i)
  {
    var n := rs + [r];
    if rs[i].parent.Some? {
      var k :| 0 <= k < i && rs[k].nid == rs[i].parent.value && Subset(rs[i].capabilities, rs[k].capabilities);
      assert n[k] == rs[k] && n[i] == rs[i];
      assert forall j :: 0 <= j < i ==> n[j] == rs[j];
    }
  }

  lemma NewParent(ca: Ca, r: Record)
    requires Appendable(ca, r)
    ensures IssuedUnderParent(ca.records + [r], |ca.records|)
  {
    var n, m := ca.records + [r], |ca.records|;
    if r.parent.Some? {
      var k := Newest(ca.records, r.parent.value);
      assert n[k] == ca.records[k] && n[m] == r;
      assert forall j :: 0 <= j < m ==> n[j] == ca.records[j];
    }
  }

  lemma AppendKeeps(ca: Ca, r: Record)
    requires Inv(ca) && Appendable(ca, r)
    ensures Inv(Ca(ca.records + [r], r.serial))
  {
    var rs, m := ca.records, |ca.records|;
    var n := rs + [r];
    assert forall i :: 0 <= i < m ==> n[i] == rs[i];
    forall i, j ensures RevokedStaysRevoked(n, i, j) && SameCapabilities(n, i, j) {
      assert RevokedStaysRevoked(rs, i, j) && SameCapabilities(rs, i, j);
    }
    forall i ensures IssuedUnderParent(n, i) {
      assert IssuedUnderParent(rs, i);
      if 0 <= i < m { ParentKept(rs, r, i); } else if i == m { NewParent(ca, r); }
    }
    forall i ensures SerialIssued(Ca(n, r.serial), i) { assert SerialIssued(ca, i); }
  }

  lemma SerialBumpKeeps(ca: Ca)
    requires Inv(ca)
    ensures Inv(ca.(serial := ca.serial + 1))
  {
    var n := ca.(serial := ca.serial + 1);
    forall i ensures SerialIssued(n, i) { assert SerialIssued(ca, i); }
  }

  /** Issuing an appendable record keeps the invariant, and fails only if the frame does. */
  lemma IssueKeeps(ca: Ca, frameOk: bool, r: Record)
    requires Inv(ca) && Appendable(ca, r.(serial := ca.serial + 1))
    ensures Inv(Issue(ca, frameOk, r).0)
    ensures Issue(ca, frameOk, r).1.Ok? <==> frameOk
    ensures frameOk ==> Issue(ca, frameOk, r).0.records == ca.records + [r.(serial := ca.serial + 1)]
    ensures !frameOk ==> Issue(ca, frameOk, r).0.records == ca.records
  {
    SerialBumpKeeps(ca);
    AppendKeeps(ca, r.(serial := ca.serial + 1));
    assert !SerialTaken(ca.records, ca.serial + 1) by {
      forall i | 0 <= i < |ca.records| ensures ca.records[i].serial != ca.serial + 1 { assert SerialIssued(ca, i); }
    }
  }

  /** A NID whose newest record is live has no revoked record at all. */
  lemma LiveNidAllLive(ca: Ca, nid: string)
    requires Inv(ca) && Newest(ca.records, nid) >= 0
    ensures ca.records[Newest(ca.records, nid)].revokedAt.None? ==>
              forall i :: 0 <= i < |ca.records| && ca.records[i].nid == nid ==> ca.records[i].revokedAt.None?
    ensures forall i :: 0 <= i < |ca.records| && ca.records[i].nid == nid ==>
              ca.records[i].capabilities == ca.records[Newest(ca.records, nid)].capabilities
  {
    var k := Newest(ca.records, nid);
    forall i | 0 <= i < |ca.records| && ca.records[i].nid == nid
      ensures (ca.records[k].revokedAt.None? ==> ca.records[i].revokedAt.None?)
              && ca.records[i].capabilities == ca.records[k].capabilities
    {
      assert i <= k;
      assert RevokedStaysRevoked(ca.records, i, k) && SameCapabilities(ca.records, i, k);
    }
  }

  // ---- revoking ------------------------------------------------------------

  ghost predicate MoreRevoked(a: Record, b: Record) {
    || b == a
    || (a.revokedAt.None? && b.revokedAt.Some? && b == a.(revokedAt := b.revokedAt, revokeReason := b.revokeReason))
  }

  /** b is a with some records revoked in place. */
  ghost predicate Revocation(a: seq<Record>, b: seq<Record>) {
    |a| == |b| && forall i :: 0 <= i < |a| ==> MoreRevoked(a[i], b[i])
  }

  lemma {:induction false} NewestSame(a: seq<Record>, b: seq<Record>, nid: string)
    requires Revocation(a, b)
    ensures Newest(a, nid) == Newest(b, nid)
  {
    if a != [] {
      var n := |a| - 1;
      assert MoreRevoked(a[n], b[n]);
      forall i | 0 <= i < n ensures MoreRevoked(a[..n][i], b[..n][i]) { assert MoreRevoked(a[i], b[i]); }
      NewestSame(a[..n], b[..n], nid);
    }
  }

  lemma RevocationTransitive(a: seq<Record>, b: seq<Record>, c: seq<Record>)
    requires Revocation(a, b) && Revocation(b, c)
    ensures Revocation(a, c)
  {
    forall i | 0 <= i < |a| ensures MoreRevoked(a[i], c[i]) {
      assert MoreRevoked(a[i], b[i]) && MoreRevoked(b[i], c[i]);
    }
  }

  lemma RevokeOneRevokes(rs: seq<Record>, nid: string, reason: string, now: int)
    requires RevokedSuffix(rs)
    ensures Revocation(rs, RevokeOne(rs, nid, reason, now))
    ensures RevokedSuffix(RevokeOne(rs, nid, reason, now))
  {
    var n := RevokeOne(rs, nid, reason, now);
    var k := NewestUnrevoked(rs, nid);
    forall i, j ensures RevokedStaysRevoked(n, i, j) {
      assert RevokedStaysRevoked(rs, i, j);
      if i == k && k < j < |rs| { assert !Revocable(rs[j], nid); }
    }
  }

  lemma ParentKeptByRevocation(a: seq<Record>, b: seq<Record>, i: int)
    requires Revocation(a, b) && 0 <= i < |a| && IssuedUnderParent(a, i)
    ensures IssuedUnderParent(b, i)
  {
    assert MoreRevoked(a[i], b[i]);
    if a[i].parent.Some? {
      var k :| 0 <= k < i && a[k].nid == a[i].parent.value && Subset(a[i].capabilities, a[k].capabilities);
      assert MoreRevoked(a[k], b[k]);
      forall j | 0 <= j < i ensures b[j].nid != b[i].nid { assert MoreRevoked(a[j], b[j]); }
      assert b[k].nid == b[i].parent.value && Subset(b[i].capabilities, b[k].capabilities);
    }
  }

  lemma RevocationKeeps(ca: Ca, b: seq<Record>)
    requires Inv(ca) && Revocation(ca.records, b) && RevokedSuffix(b)
    ensures Inv(ca.(records := b))
  {
    var a := ca.records;
    forall i, j ensures SameCapabilities(b, i, j) {
      assert SameCapabilities(a, i, j);
      if 0 <= i < j < |a| { assert MoreRevoked(a[i], b[i]) && MoreRevoked(a[j], b[j]); }
    }
    forall i ensures IssuedUnderParent(b, i) {
      assert IssuedUnderParent(a, i);
      if 0 <= i < |a| { ParentKeptByRevocation(a, b, i); }
    }
    forall i ensures SerialIssued(ca.(records := b), i) {
      assert SerialIssued(ca, i);
      if 0 <= i < |a| { assert MoreRevoked(a[i], b[i]); }
    }
  }

  ghost predicate NewestRevoked(rs: seq<Record>, nid: string) {
    Newest(rs, nid) >= 0 && rs[Newest(rs, nid)].revokedAt.Some?
  }

  lemma NewestRevokedStays(a: seq<Record>, b: seq<Record>, nid: string)
    requires Revocation(a, b) && NewestRevoked(a, nid)
    ensures NewestRevoked(b, nid)
  {
    NewestSame(a, b, nid);
    assert MoreRevoked(a[Newest(a, nid)], b[Newest(a, nid)]);
  }

  /** Revoking a NID, even one whose newest record is revoked already, leaves it revoked. */
  lemma RevokeOneHitsNewest(rs: seq<Record>, nid: string, reason: string, now: int)
    requires RevokedSuffix(rs) && Newest(rs, nid) >= 0
    ensures NewestRevoked(RevokeOne(rs, nid, reason, now), nid)
  {
    RevokeOneRevokes(rs, nid, reason, now);
    NewestSame(rs, RevokeOne(rs, nid, reason, now), nid);
    var k := Newest(rs, nid);
    if rs[k].revokedAt.None? {
      assert Revocable(rs[k], nid);
      assert NewestUnrevoked(rs, nid) == k;
    }
  }

  lemma {:induction false} RevokeAllRevokes(rs: seq<Record>, cs: seq<Record>, now: int)
    requires RevokedSuffix(rs)
    ensures Revocation(rs, RevokeAll(rs, cs, now)) && RevokedSuffix(RevokeAll(rs, cs, now))
  {
    if cs != [] {
      var n := |cs| - 1;
      RevokeAllRevokes(rs, cs[..n], now);
      var before := RevokeAll(rs, cs[..n], now);
      if cs[n].revokedAt.None? {
        RevokeOneRevokes(before, cs[n].nid, "parent_revoked", now);
        RevocationTransitive(rs, before, RevokeAll(rs, cs, now));
      }
    }
  }

  lemma {:induction false} RevokeAllHits(rs: seq<Record>, cs: seq<Record>, now: int, m: nat)
    requires RevokedSuffix(rs) && m < |cs| && Newest(rs, cs[m].nid) >= 0
    requires cs[m].revokedAt.Some? ==> NewestRevoked(rs, cs[m].nid)
    ensures NewestRevoked(RevokeAll(rs, cs, now), cs[m].nid)
  {
    var n := |cs| - 1;
    var before := RevokeAll(rs, cs[..n], now);
    RevokeAllRevokes(rs, cs[..n], now);
    NewestSame(rs, before, cs[m].nid);
    if m < n {
      RevokeAllHits(rs, cs[..n], now, m);
      if cs[n].revokedAt.None? {
        RevokeOneRevokes(before, cs[n].nid, "parent_revoked", now);
        NewestRevokedStays(before, RevokeAll(rs, cs, now), cs[m].nid);
      }
    } else if cs[n].revokedAt.None? {
      RevokeOneHitsNewest(before, cs[n].nid, "parent_revoked", now);
    } else {
      NewestRevokedStays(rs, before, cs[m].nid);
    }
  }

  lemma {:induction false} ChildrenComplete(rs: seq<Record>, parent: string, i: nat) returns (m: nat)
    requires i < |rs| && rs[i].parent == Some(parent)
    ensures m < |Children(rs, parent)| && Children(rs, parent)[m] == rs[i]
  {
    var n := |rs| - 1;
    if i == n {
      m := |Children(rs[..n], parent)|;
    } else {
      m := ChildrenComplete(rs[..n], parent, i);
    }
  }

  lemma ChildHit(rs: seq<Record>, parent: string, now: int, i: nat)
    requires RevokedSuffix(rs) && i < |rs| && rs[i].parent == Some(parent)
    ensures NewestRevoked(RevokeAll(rs, Children(rs, parent), now), rs[i].nid)
  {
    var cs := Children(rs, parent);
    var m := ChildrenComplete(rs, parent, i);
    var k := Newest(rs, rs[i].nid);
    assert k >= i;
    assert RevokedStaysRevoked(rs, i, k);
    RevokeAllHits(rs, cs, now, m);
  }

  lemma RevokeKeeps(ca: Ca, nid: string, reason: string, now: int)
    requires Inv(ca)
    ensures Inv(Revoke(ca, nid, reason, now).0)
    ensures Revocation(ca.records, Revoke(ca, nid, reason, now).0.records)
    ensures Revoke(ca, nid, reason, now).1.Ok? ==> NewestRevoked(Revoke(ca, nid, reason, now).0.records, nid)
  {
    if Revoke(ca, nid, reason, now).1.Ok? {
      var one := RevokeOne(ca.records, nid, reason, now);
      RevokeOneRevokes(ca.records, nid, reason, now);
      RevokeOneHitsNewest(ca.records, nid, reason, now);
      RevokeAllRevokes(one, Children(one, nid), now);
      var all := RevokeAll(one, Children(one, nid), now);
      RevocationTransitive(ca.records, one, all);
      NewestRevokedStays(one, all, nid);
      RevocationKeeps(ca, Revoke(ca, nid, reason, now).0.records);
    } else {
      assert forall i :: 0 <= i < |ca.records| ==> MoreRevoked(ca.records[i], ca.records[i]);
    }
  }

  /** Cascade: revoking a NID whose newest record is a group leaves the newest record of every
      session ever issued under it revoked, renewed or not. */
  lemma RevokeCascades(ca: Ca, g: string, reason: string, now: int, i: nat)
    requires Inv(ca) && Revoke(ca, g, reason, now).1.Ok?
    requires ca.records[Newest(ca.records, g)].role == Some(Group)
    requires i < |ca.records| && ca.records[i].parent == Some(g)
    ensures NewestRevoked(Revoke(ca, g, reason, now).0.records, ca.records[i].nid)
  {
    var one := RevokeOne(ca.records, g, reason, now);
    RevokeOneRevokes(ca.records, g, reason, now);
    assert MoreRevoked(ca.records[i], one[i]);
    ChildHit(one, g, now, i);
  }
}
