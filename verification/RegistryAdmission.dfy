/** Which announcements reach the registry, what its contents come from, and what its answers tell. */
module RegistryAdmission {
  import opened Common
  import opened RegistryModel

  // ---- announcements that count --------------------------------------------

  /** A bridge lists a protocol in some direction, any other node has neither list. */
  ghost predicate Shaped(a: Announce) {
    && a.outbound != BadField && a.inbound != BadField
    && (a.bridge <==> a.outbound != NoField || a.inbound != NoField)
    && (a.bridge ==> exists p: string :: p in Names(a.outbound) || p in Names(a.inbound))
  }

  function Names(p: Protocols): seq<string> { if p.Listed? then p.names else [] }

  ghost predicate Complete(a: Announce, local: bool) {
    && a.nid != "" && a.timestamp.Some?
    && (a.graphSeq.Given? || (a.graphSeq.Absent? && local))
    && a.ttl.Some? && a.ttl.value <= 0xFFFF_FFFF
    && Shaped(a)
  }

  /** Timestamps up to 300 seconds off are tolerated, outside local development. */
  ghost predicate Timely(a: Announce, local: bool, at: int) {
    !local && a.timestamp.Some? ==>
      at <= a.timestamp.value + 300_000_000_000 && a.timestamp.value <= at + 300_000_000_000
  }

  /** Signed, complete, recent and encodable. */
  ghost predicate Genuine(x: Arrival, local: bool) {
    x.signatureValid && Complete(x.frame, local) && Timely(x.frame, local, x.at) && x.frame.digest.Some?
  }

  lemma ShapedIsValid(a: Announce)
    ensures Shaped(a) <==> BridgeShapeIsValid(a)
  {
    if a.bridge && BridgeShapeIsValid(a) {
      var names := if a.outbound.Listed? && a.outbound.names != [] then a.outbound.names else a.inbound.names;
      assert names[0] in Names(a.outbound) || names[0] in Names(a.inbound);
    }
  }

  /** Anything else is turned down with a code that names the first thing missing, and changes nothing. */
  lemma TurnedDown(g: Registry, x: Arrival, local: bool)
    requires !Genuine(x, local)
    ensures Apply(g, x.frame, x.signatureValid, local, x.at)
         == (g, Rejected(if !x.signatureValid || (Complete(x.frame, local) && !Timely(x.frame, local, x.at))
                         then SIGNATURE_INVALID else PROFILE_VIOLATION))
  {
    ShapedIsValid(x.frame);
  }

  lemma Admitted(x: Arrival, local: bool)
    requires Genuine(x, local)
    ensures Gate(x.frame, x.signatureValid, local, x.at).None?
  {
    ShapedIsValid(x.frame);
  }

  ghost function OnlyGenuine(log: seq<Arrival>, local: bool): seq<Arrival> {
    if log == [] then []
    else
      var n := |log| - 1;
      OnlyGenuine(log[..n], local) + (if Genuine(log[n], local) then [log[n]] else [])
  }

  /** Forged, malformed and outdated frames do not show, wherever they arrive in a run. */
  lemma {:induction false} OthersDoNotShow(local: bool, log: seq<Arrival>)
    ensures Run(EMPTY, local, log) == Run(EMPTY, local, OnlyGenuine(log, local))
  {
    hide Genuine, Apply;
    if log != [] {
      var n := |log| - 1;
      var before := OnlyGenuine(log[..n], local);
      OthersDoNotShow(local, log[..n]);
      if Genuine(log[n], local) {
        assert (before + [log[n]])[..|before|] == before;
      } else {
        TurnedDown(Run(EMPTY, local, log[..n]), log[n], local);
        assert before + [] == before;
      }
    }
  }

  // ---- where the contents come from ----------------------------------------

  ghost predicate Numbered(a: Announce, s: uint64) { a.graphSeq == Given(s) || (a.graphSeq == Absent && s == 0) }

  /** The node's lifetime counts from when it was last seen, or else from its timestamp. */
  ghost predicate Lasts(a: Announce, until: int) {
    && a.ttl.Some? && (a.lastSeenAt.Some? || a.timestamp.Some?)
    && until == (if a.lastSeenAt.Some? then a.lastSeenAt.value else a.timestamp.value) + a.ttl.value * 1_000_000_000
  }

  /** The i-th arrival put the node's sequence number on record. */
  ghost predicate Recorded(g: Registry, local: bool, log: seq<Arrival>, n: string, i: nat)
    requires i < |log| && n in g.sequences
  {
    Genuine(log[i], local) && log[i].frame.nid == n && Numbered(log[i].frame, g.sequences[n])
  }

  /** The i-th arrival is the node's entry, and its lifetime had not passed at its arrival. */
  ghost predicate Shown(g: Registry, local: bool, log: seq<Arrival>, n: string, i: nat)
    requires i < |log| && n in g.entries && n in g.sequences
  {
    && Recorded(g, local, log, n, i) && g.entries[n].frame == log[i].frame
    && Lasts(log[i].frame, g.entries[n].expiresAt) && g.entries[n].expiresAt > log[i].at
  }

  ghost predicate Sourced(g: Registry, local: bool, log: seq<Arrival>, n: string) {
    && (n in g.sequences ==> exists i :: 0 <= i < |log| && Recorded(g, local, log, n, i))
    && (n in g.entries ==> n in g.sequences && exists i :: 0 <= i < |log| && Shown(g, local, log, n, i))
  }

  /** Nothing new is on record for the node. */
  ghost predicate Untouched(g: Registry, h: Registry, n: string) {
    && (n in h.sequences ==> n in g.sequences && h.sequences[n] == g.sequences[n])
    && (n in h.entries ==> n in g.entries && n in h.sequences && h.entries[n] == g.entries[n])
  }

  lemma SourcedLater(g: Registry, h: Registry, local: bool, log: seq<Arrival>, x: Arrival, n: string)
    requires Sourced(g, local, log, n) && Untouched(g, h, n)
    ensures Sourced(h, local, log + [x], n)
  {
    var more := log + [x];
    if n in h.sequences {
      var i :| 0 <= i < |log| && Recorded(g, local, log, n, i);
      assert more[i] == log[i] && Recorded(h, local, more, n, i);
    }
    if n in h.entries {
      var i :| 0 <= i < |log| && Shown(g, local, log, n, i);
      assert more[i] == log[i] && Shown(h, local, more, n, i);
    }
  }

  /** A step touches only the node that announces, and only on behalf of the frame that arrives. */
  lemma StepSource(g: Registry, x: Arrival, local: bool, log: seq<Arrival>, n: string)
    requires Genuine(x, local) && Inv(g)
    ensures var h := Apply(g, x.frame, x.signatureValid, local, x.at).0;
            || Untouched(g, h, n)
            || (&& n in h.sequences && Recorded(h, local, log + [x], n, |log|)
                && (n in h.entries ==> Shown(h, local, log + [x], n, |log|)))
  {
    Admitted(x, local);
    assert (log + [x])[|log|] == x;
  }

  lemma StepSourced(g: Registry, local: bool, log: seq<Arrival>, x: Arrival, n: string)
    requires Sourced(g, local, log, n) && Inv(g)
    ensures Sourced(Apply(g, x.frame, x.signatureValid, local, x.at).0, local, log + [x], n)
  {
    hide Apply, Genuine, Recorded, Shown;
    var h := Apply(g, x.frame, x.signatureValid, local, x.at).0;
    if !Genuine(x, local) {
      TurnedDown(g, x, local);
    } else {
      StepSource(g, x, local, log, n);
    }
    if Untouched(g, h, n) { SourcedLater(g, h, local, log, x, n); }
  }

  /** Whatever the registry holds comes from a genuine announcement in the log. */
  lemma {:induction false} ContentsSourced(local: bool, log: seq<Arrival>, n: string)
    ensures Sourced(Run(EMPTY, local, log), local, log, n)
  {
    hide Sourced, Apply, Inv;
    if log == [] {
      NothingSourced(local, n);
    } else {
      var k := |log| - 1;
      ContentsSourced(local, log[..k], n);
      RunKeeps(local, log[..k]);
      StepSourced(Run(EMPTY, local, log[..k]), local, log[..k], log[k], n);
      assert log[..k] + [log[k]] == log;
    }
  }

  lemma NothingSourced(local: bool, n: string)
    ensures Sourced(EMPTY, local, [], n)
  {
  }

  // ---- one signed body per sequence number ---------------------------------

  /** While a node stays at a sequence number, no frame with another signed body takes its place. */
  lemma {:induction false} SignedBodyFixed(g: Registry, local: bool, log: seq<Arrival>, n: string)
    requires Inv(g) && n in g.entries
    ensures var h := Run(g, local, log);
            && n in h.sequences
            && (h.sequences[n] == g.sequences[n] && n in h.entries ==> h.entries[n].digest == g.entries[n].digest)
  {
    if log != [] {
      var k := |log| - 1;
      SignedBodyFixed(g, local, log[..k], n);
      RunMonotone(g, local, log[..k], n);
      BodyStep(Run(g, local, log[..k]), log[k], local, n);
    }
  }

  lemma BodyStep(g: Registry, x: Arrival, local: bool, n: string)
    requires n in g.sequences
    ensures var h := Apply(g, x.frame, x.signatureValid, local, x.at).0;
            && n in h.sequences && g.sequences[n] <= h.sequences[n]
            && (h.sequences[n] == g.sequences[n] && n in h.entries ==>
                  n in g.entries && h.entries[n].digest == g.entries[n].digest)
  {
  }

  // ---- what the answers tell -----------------------------------------------

  ghost predicate Newer(g: Registry, a: Announce) {
    a.nid !in g.sequences || exists s: uint64 :: Numbered(a, s) && s > g.sequences[a.nid]
  }

  ghost predicate Repeats(g: Registry, a: Announce) { a.nid in g.sequences && Numbered(a, g.sequences[a.nid]) }

  ghost predicate Alive(a: Announce, at: int) { exists until: int :: Lasts(a, until) && until > at }

  ghost predicate Alike(a: Announce, b: Announce) { a.health == b.health && a.lastSeen == b.lastSeen }

  ghost predicate Holds(h: Registry, a: Announce) {
    && a.nid in h.entries && a.nid in h.sequences && Numbered(a, h.sequences[a.nid])
    && h.entries[a.nid].frame == a && Some(h.entries[a.nid].digest) == a.digest
    && Lasts(a, h.entries[a.nid].expiresAt)
  }

  /** The decision on a genuine announcement says what became of it, and a rejection why. */
  lemma DecisionExactly(g: Registry, x: Arrival, local: bool)
    requires Genuine(x, local) && Inv(g)
    ensures var (h, d) := Apply(g, x.frame, x.signatureValid, local, x.at);
            var a := x.frame;
            var known := a.nid in g.entries;
            && (d == Accepted <==> Newer(g, a) && a.ttl != Some(0) && Alive(a, x.at))
            && (d == Removed <==> Newer(g, a) && a.ttl == Some(0))
            && (d == Refreshed <==> Repeats(g, a) && known && g.entries[a.nid].digest == a.digest.value
                                    && !Alike(g.entries[a.nid].frame, a) && Alive(a, x.at))
            && (d == Rejected(CONFLICT) <==> Repeats(g, a) && known && g.entries[a.nid].digest != a.digest.value)
            && (d == Rejected(SEQ_ROLLBACK) <==> !Newer(g, a) && !Repeats(g, a))
            && (d == Duplicate <==> Repeats(g, a) && (!known || (g.entries[a.nid].digest == a.digest.value
                                                                 && Alike(g.entries[a.nid].frame, a))))
            && (d == Accepted || d == Refreshed ==> Holds(h, a))
            && (d == Removed ==> a.nid !in h.entries && a.nid in h.sequences && Numbered(a, h.sequences[a.nid]))
            && (d == Duplicate || d.Rejected? ==> h == g)
  {
    Admitted(x, local);
    AliveIsFresh(x.frame, x.at);
    NewerIs(g, x.frame);
  }

  lemma AliveIsFresh(a: Announce, at: int)
    requires a.ttl.Some?
    ensures Alive(a, at) <==> Fresh(a, at)
  {
    if Fresh(a, at) { assert Lasts(a, FreshnessDeadline(a).value); }
  }

  lemma NewerIs(g: Registry, a: Announce)
    requires a.graphSeq != Malformed
    ensures Newer(g, a) <==> a.nid !in g.sequences || SequenceOf(a) > g.sequences[a.nid]
    ensures Repeats(g, a) <==> a.nid in g.sequences && SequenceOf(a) == g.sequences[a.nid]
  {
    assert Numbered(a, SequenceOf(a));
  }
}
