/** NDP registry: admission of announcements as a step function, over one state for all nodes. */
module RegistryModel {
  import opened Common

  /** graph_seq as it stands in a frame. */
  datatype Sequence = Absent | Malformed | Given(n: uint64)

  datatype Protocols = NoField | BadField | Listed(names: seq<string>)

  /** An announce frame, as far as admission looks at it. Times are nanoseconds; None is a text that
      does not parse. digest is the hash of the canonical signed body, None if it cannot be encoded. */
  datatype Announce = Announce(
    nid: string, timestamp: Option<int>, graphSeq: Sequence, ttl: Option<uint64>,
    bridge: bool, outbound: Protocols, inbound: Protocols, digest: Option<string>,
    health: string, lastSeen: string, lastSeenAt: Option<int>,
    clusterAnchor: string, anchorRole: bool, clusterEpoch: Option<uint64>)

  const SECOND: int := 1_000_000_000
  const SKEW: int := 300 * SECOND

  datatype Decision = Accepted | Duplicate | Refreshed | Removed | Rejected(code: string)

  const SIGNATURE_INVALID := "NDP-ANNOUNCE-SIGNATURE-INVALID"
  const PROFILE_VIOLATION := "NDP-ANNOUNCE-PROFILE-VIOLATION"
  const SEQ_ROLLBACK := "NDP-GRAPH-SEQ-ROLLBACK"
  const CONFLICT := "NDP-ANNOUNCE-CONFLICT"
  const STALE := "NDP-ANNOUNCE-STALE"

  datatype Entry = Entry(frame: Announce, digest: string, expiresAt: int)

  datatype Registry = Registry(entries: map<string, Entry>, sequences: map<string, uint64>)

  function SequenceOf(a: Announce): uint64 { if a.graphSeq.Given? then a.graphSeq.n else 0 }

  function TtlOf(a: Announce): uint64 { if a.ttl.Some? then a.ttl.value else 0 }

  predicate BridgeShapeIsValid(a: Announce) {
    a.outbound != BadField && a.inbound != BadField &&
    if a.bridge then (a.outbound.Listed? && a.outbound.names != []) || (a.inbound.Listed? && a.inbound.names != [])
    else a.outbound == NoField && a.inbound == NoField
  }

  /** Checks that depend on the frame alone. */
  predicate WellFormed(a: Announce, local: bool) {
    && a.nid != "" && a.timestamp.Some?
    && a.graphSeq != Malformed && (a.graphSeq == Absent ==> local)
    && a.ttl.Some? && a.ttl.value as int < TWO32 && BridgeShapeIsValid(a)
  }

  predicate InTime(a: Announce, local: bool, at: int)
    requires a.timestamp.Some?
  {
    local || -SKEW <= at - a.timestamp.value <= SKEW
  }

  function SameLiveness(a: Announce, b: Announce): bool { a.health == b.health && a.lastSeen == b.lastSeen }

  function FreshnessDeadline(a: Announce): Option<int> {
    var source := if a.lastSeenAt.Some? then a.lastSeenAt else a.timestamp;
    if source.None? then None else Some(source.value + (TtlOf(a) as int) * SECOND)
  }

  predicate Fresh(a: Announce, at: int) { FreshnessDeadline(a).Some? && FreshnessDeadline(a).value > at }

  function EntryOf(a: Announce): Entry
    requires a.digest.Some? && FreshnessDeadline(a).Some?
  {
    Entry(a, a.digest.value, FreshnessDeadline(a).value)
  }

  /** Why a frame is turned down before the registry is consulted. */
  function Gate(a: Announce, signatureValid: bool, local: bool, at: int): Option<string> {
    if !signatureValid then Some(SIGNATURE_INVALID)
    else if !WellFormed(a, local) then Some(PROFILE_VIOLATION)
    else if !InTime(a, local, at) then Some(SIGNATURE_INVALID)
    else if a.digest.None? then Some(PROFILE_VIOLATION)
    else None
  }

  /** A frame with the sequence number already on record. */
  function Repeat(g: Registry, a: Announce, at: int): (Registry, Decision)
    requires a.digest.Some?
  {
    if a.nid !in g.entries then (g, Duplicate)
    else if g.entries[a.nid].digest != a.digest.value then (g, Rejected(CONFLICT))
    else if SameLiveness(g.entries[a.nid].frame, a) then (g, Duplicate)
    else if !Fresh(a, at) then (g, Rejected(STALE))
    else (g.(entries := g.entries[a.nid := EntryOf(a)]), Refreshed)
  }

  function Advance(g: Registry, a: Announce, at: int): (Registry, Decision)
    requires a.digest.Some?
  {
    if TtlOf(a) == 0 then (Registry(g.entries - {a.nid}, g.sequences[a.nid := SequenceOf(a)]), Removed)
    else if !Fresh(a, at) then (g, Rejected(STALE))
    else (Registry(g.entries[a.nid := EntryOf(a)], g.sequences[a.nid := SequenceOf(a)]), Accepted)
  }

  function Apply(g: Registry, a: Announce, signatureValid: bool, local: bool, at: int): (Registry, Decision) {
    if Gate(a, signatureValid, local, at).Some? then (g, Rejected(Gate(a, signatureValid, local, at).value))
    else if a.nid !in g.sequences || SequenceOf(a) > g.sequences[a.nid] then Advance(g, a, at)
    else if SequenceOf(a) == g.sequences[a.nid] then Repeat(g, a, at)
    else (g, Rejected(SEQ_ROLLBACK))
  }

  // ---- runs ----------------------------------------------------------------

  datatype Arrival = Arrival(frame: Announce, signatureValid: bool, at: int)

  const EMPTY := Registry(map[], map[])

  function Run(g: Registry, local: bool, log: seq<Arrival>): Registry {
    if log == [] then g
    else
      var last := log[|log| - 1];
      Apply(Run(g, local, log[..|log| - 1]), last.frame, last.signatureValid, local, last.at).0
  }

  // ---- safety over every run -----------------------------------------------

  /** Every entry carries the sequence number on record for its node. */
  ghost predicate Inv(g: Registry) {
    && (forall n :: n in g.entries ==> n in g.sequences)
    && (forall n :: n in g.entries ==> InvEntry(g, n))
  }

  ghost predicate InvEntry(g: Registry, n: string)
    requires n in g.entries
  {
    var e := g.entries[n];
    && n in g.sequences && e.frame.nid == n && SequenceOf(e.frame) == g.sequences[n]
    && FreshnessDeadline(e.frame) == Some(e.expiresAt)
    && e.frame.digest == Some(e.digest)
  }

  lemma ApplyKeeps(g: Registry, a: Announce, signatureValid: bool, local: bool, at: int)
    requires Inv(g)
    ensures Inv(Apply(g, a, signatureValid, local, at).0)
  {
  }

  /** Sequence numbers never go back, and an accepted frame never loses its place to an older one. */
  lemma ApplyMonotone(g: Registry, a: Announce, signatureValid: bool, local: bool, at: int, n: string)
    requires n in g.sequences
    ensures var h := Apply(g, a, signatureValid, local, at).0;
            n in h.sequences && g.sequences[n] <= h.sequences[n]
            && (g.sequences[n] == h.sequences[n] && n !in g.entries ==> n !in h.entries)
  {
  }

  lemma {:induction false} RunMonotone(g: Registry, local: bool, log: seq<Arrival>, n: string)
    requires n in g.sequences
    ensures n in Run(g, local, log).sequences && g.sequences[n] <= Run(g, local, log).sequences[n]
  {
    if log != [] {
      RunMonotone(g, local, log[..|log| - 1], n);
      var last := log[|log| - 1];
      ApplyMonotone(Run(g, local, log[..|log| - 1]), last.frame, last.signatureValid, local, last.at, n);
    }
  }

  lemma {:induction false} RunKeeps(local: bool, log: seq<Arrival>)
    ensures Inv(Run(EMPTY, local, log))
  {
    if log != [] {
      RunKeeps(local, log[..|log| - 1]);
      var last := log[|log| - 1];
      ApplyKeeps(Run(EMPTY, local, log[..|log| - 1]), last.frame, last.signatureValid, local, last.at);
    }
  }

  // ---- removal is final ----------------------------------------------------

  /** No arrival for the node goes beyond sequence s. */
  ghost predicate NotBeyond(log: seq<Arrival>, n: string, s: uint64) {
    forall i :: 0 <= i < |log| && log[i].frame.nid == n ==> SequenceOf(log[i].frame) <= s
  }

  /** Once removed at sequence s, a node stays out of the registry whatever arrives with a sequence
      number up to s: replays, reordered frames, frames with another body. */
  lemma {:induction false} RemovedStays(g: Registry, local: bool, log: seq<Arrival>, n: string)
    requires n in g.sequences && n !in g.entries && NotBeyond(log, n, g.sequences[n])
    ensures var h := Run(g, local, log); n in h.sequences && h.sequences[n] == g.sequences[n] && n !in h.entries
  {
    if log != [] {
      RemovedStays(g, local, log[..|log| - 1], n);
    }
  }

  /** A frame that passes every check at its arrival. */
  predicate Admissible(a: Announce, local: bool, at: int) {
    Gate(a, true, local, at).None? && (TtlOf(a) > 0 ==> Fresh(a, at))
  }

  // ---- convergence ---------------------------------------------------------

  ghost predicate AllAdmissible(local: bool, log: seq<Arrival>) {
    forall i :: 0 <= i < |log| ==> log[i].signatureValid && Admissible(log[i].frame, local, log[i].at)
  }

  /** A node uses each sequence number for one frame only. */
  ghost predicate OneFrameEach(frames: set<Announce>) {
    forall a, b :: a in frames && b in frames && a.nid == b.nid && SequenceOf(a) == SequenceOf(b) ==> a == b
  }

  ghost function Frames(log: seq<Arrival>): set<Announce> { set i | 0 <= i < |log| :: log[i].frame }

  /** What the registry shows for a node whose newest frame is a. */
  ghost predicate Shows(g: Registry, a: Announce) {
    && a.nid in g.sequences && g.sequences[a.nid] == SequenceOf(a)
    && (if TtlOf(a) == 0 then a.nid !in g.entries
        else a.nid in g.entries && a.digest.Some? && FreshnessDeadline(a).Some? && g.entries[a.nid] == EntryOf(a))
  }

  /** The registry shows, for every node, the newest of the given frames. */
  ghost predicate Mirrors(g: Registry, frames: set<Announce>, newest: map<string, Announce>) {
    && newest.Keys == g.sequences.Keys && g.entries.Keys <= g.sequences.Keys
    && (forall n :: n in newest ==> newest[n] in frames && newest[n].nid == n && Shows(g, newest[n]))
    && (forall a :: a in frames ==> a.nid in g.sequences && SequenceOf(a) <= g.sequences[a.nid])
  }

  lemma MirrorAdvance(g: Registry, frames: set<Announce>, newest: map<string, Announce>, a: Announce, at: int)
    requires Mirrors(g, frames, newest) && a.digest.Some? && (TtlOf(a) > 0 ==> Fresh(a, at))
    requires a.nid !in g.sequences || SequenceOf(a) > g.sequences[a.nid]
    ensures Mirrors(Advance(g, a, at).0, frames + {a}, newest[a.nid := a])
  {
    var h, after := Advance(g, a, at).0, newest[a.nid := a];
    forall n | n in after ensures after[n] in frames + {a} && after[n].nid == n && Shows(h, after[n]) {
      if n != a.nid { assert Shows(g, newest[n]); }
    }
  }

  lemma MirrorStep(g: Registry, frames: set<Announce>, newest: map<string, Announce>, a: Announce, local: bool, at: int)
    returns (after: map<string, Announce>)
    requires Mirrors(g, frames, newest) && Admissible(a, local, at) && OneFrameEach(frames + {a})
    ensures Mirrors(Apply(g, a, true, local, at).0, frames + {a}, after)
  {
    if a.nid !in g.sequences || SequenceOf(a) > g.sequences[a.nid] {
      MirrorAdvance(g, frames, newest, a, at);
      after := newest[a.nid := a];
    } else {
      after := newest;
      if SequenceOf(a) == g.sequences[a.nid] { assert newest[a.nid] == a && Shows(g, a); }
    }
  }

  lemma {:induction false} RunMirrors(local: bool, log: seq<Arrival>) returns (newest: map<string, Announce>)
    requires AllAdmissible(local, log) && OneFrameEach(Frames(log))
    ensures Mirrors(Run(EMPTY, local, log), Frames(log), newest)
  {
    newest := map[];
    if log != [] {
      var k := |log| - 1;
      assert Frames(log) == Frames(log[..k]) + {log[k].frame};
      var before := RunMirrors(local, log[..k]);
      newest := MirrorStep(Run(EMPTY, local, log[..k]), Frames(log[..k]), before, log[k].frame, local, log[k].at);
    }
  }

  lemma SameNewest(g: Registry, h: Registry, frames: set<Announce>, newest: map<string, Announce>,
                   latest: map<string, Announce>, n: string)
    requires Mirrors(g, frames, newest) && Mirrors(h, frames, latest) && OneFrameEach(frames) && n in newest
    ensures n in latest && newest[n] == latest[n]
  {
    assert newest[n] in frames && latest[n] in frames;
  }

  lemma MirrorUnique(g: Registry, h: Registry, frames: set<Announce>, newest: map<string, Announce>,
                     latest: map<string, Announce>)
    requires Mirrors(g, frames, newest) && Mirrors(h, frames, latest) && OneFrameEach(frames)
    ensures g == h
  {
    forall n | n in newest ensures n in latest && newest[n] == latest[n] {
      SameNewest(g, h, frames, newest, latest, n);
    }
    forall n | n in latest ensures n in newest { SameNewest(h, g, frames, latest, newest, n); }
    assert newest == latest;
    SameShown(g, h, newest);
  }

  lemma SameShown(g: Registry, h: Registry, newest: map<string, Announce>)
    requires newest.Keys == g.sequences.Keys == h.sequences.Keys && g.entries.Keys <= newest.Keys
             && h.entries.Keys <= newest.Keys
    requires forall n :: n in newest ==> newest[n].nid == n && Shows(g, newest[n]) && Shows(h, newest[n])
    ensures g == h
  {
    assert g.sequences == h.sequences;
    forall n ensures n in g.entries <==> n in h.entries {
      if n in newest { assert Shows(g, newest[n]) && Shows(h, newest[n]); }
    }
    assert g.entries == h.entries;
  }

  /** Any order, any redelivery: the same frames lead to the same registry. */
  lemma Converges(local: bool, log: seq<Arrival>, again: seq<Arrival>)
    requires AllAdmissible(local, log) && AllAdmissible(local, again) && Frames(log) == Frames(again)
             && OneFrameEach(Frames(log))
    ensures Run(EMPTY, local, log) == Run(EMPTY, local, again)
  {
    var newest := RunMirrors(local, log);
    var latest := RunMirrors(local, again);
    MirrorUnique(Run(EMPTY, local, log), Run(EMPTY, local, again), Frames(log), newest, latest);
  }

  /** And it shows the newest frame of every node. */
  lemma NewestShows(local: bool, log: seq<Arrival>, a: Announce)
    requires AllAdmissible(local, log) && OneFrameEach(Frames(log)) && a in Frames(log)
    requires forall b :: b in Frames(log) && b.nid == a.nid ==> SequenceOf(b) <= SequenceOf(a)
    ensures Shows(Run(EMPTY, local, log), a)
  {
    var newest := RunMirrors(local, log);
    assert newest[a.nid] in Frames(log);
  }
}
