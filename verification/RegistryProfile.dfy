/** The registry object: announcements update its two maps in place, queries read them. */
module RegistryProfile {
  import opened Common
  import opened StringOrder
  import opened RegistryModel

  datatype Selection = NoOwner | Owner(nid: string, epoch: uint64) | Split

  class NdpRegistryProfile {
    const local: bool
    var entries: map<string, Entry>
    var sequences: map<string, uint64>

    constructor (local: bool)
      ensures this.local == local && State() == EMPTY
    {
      this.local, entries, sequences := local, map[], map[];
    }

    function State(): Registry
      reads this
    {
      Registry(entries, sequences)
    }

    method ApplyAnnounce(frame: Announce, signatureValid: bool, receivedAt: int) returns (d: Decision)
      modifies this
      ensures (State(), d) == Apply(old(State()), frame, signatureValid, local, receivedAt)
    {
      if !signatureValid { return Rejected(SIGNATURE_INVALID); }
      if frame.nid == "" || frame.timestamp.None? { return Rejected(PROFILE_VIOLATION); }
      var sequence := SequenceOf(frame);
      if frame.graphSeq == Malformed || (frame.graphSeq == Absent && !local) || frame.ttl.None?
          || frame.ttl.value >= TWO32 {
        return Rejected(PROFILE_VIOLATION);
      }
      if !BridgeShapeIsValid(frame) { return Rejected(PROFILE_VIOLATION); }
      var age := receivedAt - frame.timestamp.value;
      if !local && (if age < 0 then -age else age) > SKEW { return Rejected(SIGNATURE_INVALID); }
      if frame.digest.None? { return Rejected(PROFILE_VIOLATION); }
      var digest := frame.digest.value;
      var nid := frame.nid;
      var deadline := FreshnessDeadline(frame);
      if nid in sequences {
        var highest := sequences[nid];
        if sequence < highest { return Rejected(SEQ_ROLLBACK); }
        if sequence == highest {
          if nid !in entries { return Duplicate; }
          var current := entries[nid];
          if current.digest != digest { return Rejected(CONFLICT); }
          if SameLiveness(current.frame, frame) { return Duplicate; }
          if deadline.None? || deadline.value <= receivedAt { return Rejected(STALE); }
          entries := entries[nid := Entry(frame, digest, deadline.value)];
          return Refreshed;
        }
      }
      if frame.ttl.value == 0 {
        sequences := sequences[nid := sequence];
        entries := entries - {nid};
        return Removed;
      }
      if deadline.None? || deadline.value <= receivedAt { return Rejected(STALE); }
      sequences := sequences[nid := sequence];
      entries := entries[nid := Entry(frame, digest, deadline.value)];
      d := Accepted;
    }

    predicate Live(nid: string, now: int)
      reads this
    {
      nid in entries && entries[nid].expiresAt > now
    }

    /** Exactly the live nodes, in ascending order. */
    method LiveNids(now: int) returns (result: seq<string>)
      ensures Ascending(result) && forall n :: n in result <==> Live(n, now)
    {
      result := [];
      var left := entries.Keys;
      while left != {}
        invariant left <= entries.Keys
        invariant forall n :: n in result <==> n !in left && Live(n, now)
        invariant forall i, j :: 0 <= i < j < |result| ==> result[i] != result[j]
        decreases |left|
      {
        var n :| n in left;
        assert n !in result;
        if entries[n].expiresAt > now { result := result + [n]; }
        left := left - {n};
      }
      SortAscending(result);
      SortMembers(result);
      result := Sort(result);
    }

    /** A live anchor of the cluster. */
    predicate Member(nid: string, anchor: string, now: int)
      reads this
    {
      Live(nid, now) && entries[nid].frame.clusterAnchor == anchor && entries[nid].frame.anchorRole
    }

    function Epoch(nid: string): uint64
      requires nid in entries
      reads this
    {
      if entries[nid].frame.clusterEpoch.Some? then entries[nid].frame.clusterEpoch.value else 1
    }

    /** nid is a member that no other member reaches in epoch. */
    ghost predicate Ahead(nid: string, anchor: string, now: int)
      reads this
    {
      Member(nid, anchor, now) && forall m :: Member(m, anchor, now) && m != nid ==> Epoch(m) < Epoch(nid)
    }

    ghost predicate NoMember(anchor: string, now: int)
      reads this
    {
      forall m {:trigger Member(m, anchor, now)} :: m in entries ==> !Member(m, anchor, now)
    }

    ghost predicate NoneAhead(anchor: string, now: int)
      reads this
    {
      forall m {:trigger Ahead(m, anchor, now)} :: m in entries ==> !Ahead(m, anchor, now)
    }

    /** The member with the highest epoch owns the cluster; two of them split it. */
    method ResolveCluster(anchor: string, now: int) returns (r: Selection)
      ensures match r
              case NoOwner => NoMember(anchor, now)
              case Owner(n, e) => Ahead(n, anchor, now) && e == Epoch(n)
              case Split => !NoMember(anchor, now) && NoneAhead(anchor, now)
    {
      var members := Members(anchor, now);
      if members == {} { return NoOwner; }
      var top := Top(members);
      var leaders := Leaders(members, top);
      var n :| n in leaders;
      if leaders == {n} { return Owner(n, top); }
      ghost var m :| m in leaders && m != n;
      TiedLeaders(anchor, now, n, m);
      r := Split;
    }

    method Members(anchor: string, now: int) returns (members: set<string>)
      ensures members <= entries.Keys && forall n :: Member(n, anchor, now) <==> n in members
    {
      members := set n | n in entries && Member(n, anchor, now);
    }

    method Leaders(members: set<string>, top: uint64) returns (leaders: set<string>)
      requires members <= entries.Keys && exists m :: m in members && Epoch(m) == top
      ensures leaders != {} && forall n :: n in leaders <==> n in members && Epoch(n) == top
    {
      leaders := set n | n in members && Epoch(n) == top;
      ghost var m :| m in members && Epoch(m) == top;
      assert m in leaders;
    }

    lemma TiedLeaders(anchor: string, now: int, n: string, m: string)
      requires Member(n, anchor, now) && Member(m, anchor, now) && n != m && Epoch(n) == Epoch(m)
      requires forall x :: x in entries && Member(x, anchor, now) ==> Epoch(x) <= Epoch(n)
      ensures !NoMember(anchor, now) && NoneAhead(anchor, now)
    {
      forall x | x in entries ensures !Ahead(x, anchor, now) {
        var y := if x == n then m else n;
        assert Member(y, anchor, now) && y != x;
      }
    }

    /** The highest epoch among some entries. */
    method Top(members: set<string>) returns (top: uint64)
      requires members != {} && members <= entries.Keys
      ensures (forall m :: m in members ==> Epoch(m) <= top) && exists m :: m in members && Epoch(m) == top
    {
      top := 0;
      var left := members;
      ghost var witness_ : Option<string> := None;
      while left != {}
        invariant left <= members
        invariant forall m :: m in members - left ==> Epoch(m) <= top
        invariant witness_.Some? ==> witness_.value in members && Epoch(witness_.value) == top
        invariant witness_.None? ==> top == 0
        decreases |left|
      {
        var m :| m in left;
        if Epoch(m) > top {
          top, witness_ := Epoch(m), Some(m);
        }
        left := left - {m};
      }
      if witness_.None? {
        ghost var m :| m in members;
        assert Epoch(m) == top;
      }
    }
  }
}
