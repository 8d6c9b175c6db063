/** Two runs in which a session outlives the revocation of its group. */
module CaCounterexample {
  import opened Common
  import opened CaModel
  import opened CaRuns
  import CaInvariants

  const HOUR: int := 3600 * 1_000_000_000

  const O := Options("ca", 30, 90, 7, 365, HOUR, 24 * HOUR, HOUR / 60, None)

  const GROUP := BuildNid(O, "agent", "group-a")
  const SESSION := BuildNid(O, "agent", "session-1-b")

  /** A group and a session under it, both renewed in their windows, then the group revoked. */
  const CALLS: seq<Call> := [
    DoRegisterGroup("group-a", "", "k", [], "", true, 0),
    DoIssueSession(GROUP, "k", SessionRequest(0, None, ""), "session-1-b", true, 360 * DAY, 360 * DAY),
    DoRenew(SESSION, true, 360 * DAY),
    DoRenew(GROUP, true, 360 * DAY),
    DoRevoke(GROUP, "compromised", 361 * DAY)]

  const G1 := Record(GROUP, "agent", 1, "k", [], "", 0, 365 * DAY, None, "", Some(Group), None)
  const S2 := Record(SESSION, "agent", 2, "k", [], "", 360 * DAY, 360 * DAY + HOUR,
                     None, "", Some(Session), Some(GROUP))
  const S3 := Record(SESSION, "agent", 3, "k", [], "", 360 * DAY, 390 * DAY, None, "", None, None)
  const G4 := Record(GROUP, "agent", 4, "k", [], "", 360 * DAY, 390 * DAY, None, "", None, None)

  lemma NidsDiffer()
    ensures GROUP != SESSION && GROUP != ""
  {
    assert |GROUP| == 24 && |SESSION| == 28;
  }

  lemma State1()
    ensures Step(O, Ca([], 0), CALLS[0]) == Ca([G1], 1)
  {
  }

  lemma State2()
    ensures Step(O, Ca([G1], 1), CALLS[1]) == Ca([G1, S2], 2)
    ensures FreshSession(O, Ca([G1], 1), CALLS[1])
  {
    NidsDiffer();
    assert [G1] + [S2] == [G1, S2];
    assert Newest([G1], GROUP) == 0;
  }

  lemma State3()
    ensures Step(O, Ca([G1, S2], 2), CALLS[2]) == Ca([G1, S2, S3], 3)
  {
    assert Newest([G1, S2], SESSION) == 1;
    assert [G1, S2] + [S3] == [G1, S2, S3];
    assert !SerialTaken([G1, S2], 3);
  }

  lemma State4()
    ensures Step(O, Ca([G1, S2, S3], 3), CALLS[3]) == Ca([G1, S2, S3, G4], 4)
  {
    NidsDiffer();
    var rs := [G1, S2, S3];
    assert rs[..2] == [G1, S2] && [G1, S2][..1] == [G1];
    assert Newest([G1], GROUP) == 0;
    assert Newest([G1, S2], GROUP) == 0;
    assert Newest(rs, GROUP) == 0;
    assert rs + [G4] == [G1, S2, S3, G4];
    assert !SerialTaken(rs, 4);
  }

  lemma Prefixes()
    ensures CALLS[..4][..3] == CALLS[..3] && CALLS[..3][..2] == CALLS[..2] && CALLS[..2][..1] == CALLS[..1]
    ensures CALLS[..1][..0] == [] && CALLS[..4] == CALLS[..|CALLS| - 1]
  {
  }

  lemma RunStates()
    ensures StateAfter(O, CALLS[..1]) == Ca([G1], 1) && StateAfter(O, CALLS[..2]) == Ca([G1, S2], 2)
    ensures StateAfter(O, CALLS[..4]) == Ca([G1, S2, S3, G4], 4)
  {
    Prefixes();
    State1();
    assert StateAfter(O, CALLS[..1]) == Ca([G1], 1);
    State2();
    assert StateAfter(O, CALLS[..2]) == Ca([G1, S2], 2);
    State3();
    assert StateAfter(O, CALLS[..3]) == Ca([G1, S2, S3], 3);
    State4();
  }

  lemma RunIsFresh()
    ensures FreshSessions(O, CALLS) && FreshSessions(O, CALLS[..4]) && FreshSessions(O, CALLS[..2])
  {
    Prefixes();
    RunStates();
    State2();
    assert FreshSessions(O, CALLS[..1][..0]);
    assert FreshSessions(O, CALLS[..1]);
    assert FreshSessions(O, CALLS[..2]);
    assert FreshSessions(O, CALLS[..3]);
    assert FreshSessions(O, CALLS[..4]);
  }

  /** "Revoking a group ends its sessions" fails in this run: the session issued under the
      group still verifies a day after the group was revoked. */
  lemma RenewedSessionOutlivesGroup()
    ensures FreshSessions(O, CALLS)
    ensures var ca := StateAfter(O, CALLS[..4]);
            && |ca.records| == 4 && ca.records[1].parent == Some(GROUP)
            && Revoke(ca, GROUP, "compromised", 361 * DAY).1.Ok?
            && Verify(Revoke(ca, GROUP, "compromised", 361 * DAY).0, SESSION, 362 * DAY, 362 * DAY) == ""
  {
    hide StateAfter, FreshSessions, Verify, CaInvariants.Inv;
    RunStates();
    RunIsFresh();
    CaRuns.Reachable(O, CALLS[..4]);
    BothRenewed();
    VerifiesAfterGroupRevoke(Ca([G1, S2, S3, G4], 4), GROUP, "compromised", 361 * DAY, 1, 362 * DAY, 362 * DAY);
  }

  lemma BothRenewed()
    ensures var rs := [G1, S2, S3, G4];
            Newest(rs, GROUP) == 3 && Newest(rs, SESSION) == 2 && NewestUnrevoked(rs, GROUP) == 3
  {
    NidsDiffer();
    assert [G1, S2, S3, G4][..3] == [G1, S2, S3];
  }

  // ---- a session renewed after its group was revoked -----------------------

  const G3 := Record(GROUP, "agent", 3, "k", [], "", 360 * DAY, 390 * DAY, None, "", None, None)
  const REVOKED := G3.(revokedAt := Some(360 * DAY + 1), revokeReason := "compromised")

  /** The group is renewed, the session is not. */
  lemma GroupRenewed()
    ensures Renew(O, Ca([G1, S2], 2), GROUP, true, 360 * DAY).0 == Ca([G1, S2, G3], 3)
  {
    NidsDiffer();
    assert [G1, S2][..1] == [G1] && Newest([G1], GROUP) == 0;
    assert Newest([G1, S2], GROUP) == 0;
    assert [G1, S2] + [G3] == [G1, S2, G3];
    assert !SerialTaken([G1, S2], 3);
  }

  lemma GroupRevoked()
    ensures Revoke(Ca([G1, S2, G3], 3), GROUP, "compromised", 360 * DAY + 1).0 == Ca([G1, S2, REVOKED], 3)
    ensures Revoke(Ca([G1, S2, G3], 3), GROUP, "compromised", 360 * DAY + 1).1.Ok?
  {
    assert Newest([G1, S2, G3], GROUP) == 2 && NewestUnrevoked([G1, S2, G3], GROUP) == 2;
  }

  const RENEW_GROUP := DoRenew(GROUP, true, 360 * DAY)
  const REVOKE_GROUP := DoRevoke(GROUP, "compromised", 360 * DAY + 1)
  const RENEW_SESSION := DoRenew(SESSION, true, 360 * DAY + 3)

  /** The group is renewed and then revoked; the session issued under it is not renewed so far. */
  const REVOCATION := CALLS[..2] + [RENEW_GROUP] + [REVOKE_GROUP]

  lemma RevocationRun()
    ensures FreshSessions(O, REVOCATION) && StateAfter(O, REVOCATION) == Ca([G1, S2, REVOKED], 3)
  {
    RunStates();
    RunIsFresh();
    GroupRenewed();
    AfterCall(O, CALLS[..2], RENEW_GROUP);
    GroupRevoked();
    AfterCall(O, CALLS[..2] + [RENEW_GROUP], REVOKE_GROUP);
  }

  /** The session fails to verify once its group is revoked, and verifies again once it is renewed. */
  lemma RenewalRevivesSession()
    ensures FreshSessions(O, REVOCATION + [RENEW_SESSION])
    ensures Verify(StateAfter(O, REVOCATION), SESSION, 360 * DAY + 2, 360 * DAY + 2) == CERT_PARENT_REVOKED
    ensures Verify(StateAfter(O, REVOCATION + [RENEW_SESSION]), SESSION, 361 * DAY, 361 * DAY) == ""
  {
    RevocationRun();
    AfterCall(O, REVOCATION, RENEW_SESSION);
    NidsDiffer();
    var rs := [G1, S2, REVOKED];
    assert rs[..2] == [G1, S2] && Newest([G1, S2], SESSION) == 1;
    assert Newest(rs, SESSION) == 1 && Newest(rs, GROUP) == 2;
    var s := S3.(serial := 4, issuedAt := 360 * DAY + 3, expiresAt := 390 * DAY + 3);
    assert !SerialTaken(rs, 4);
    assert Renew(O, Ca(rs, 3), SESSION, true, 360 * DAY + 3).0 == Ca(rs + [s], 4);
    NewestAfterAppend(rs, s, SESSION);
  }
}
