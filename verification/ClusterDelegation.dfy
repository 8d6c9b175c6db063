/** The delegation cache: lookups run outside the lock, so each resolve is two atomic steps that
    failover events may come between. */
module ClusterDelegation {
  import opened Common

  datatype AnchorInfo = AnchorInfo(activeNid: string, epoch: uint64)

  type Cache = map<string, AnchorInfo>

  // ---- atomic steps --------------------------------------------------------

  /** Compare, then set: only a strictly newer epoch replaces what is cached. */
  function Offer(cache: Cache, cluster: string, info: AnchorInfo): Cache {
    if cluster in cache && info.epoch <= cache[cluster].epoch then cache else cache[cluster := info]
  }

  /** Begin: a caller looks in the cache; on a miss its lookup is under way.
      Finish: that lookup returns, None standing for no owner or a failure.
      Failover: an event arrives. Invalidate: the entry is dropped. */
  datatype Event =
    | Begin(call: nat, cluster: string)
    | Finish(call: nat, found: Option<AnchorInfo>)
    | Failover(cluster: string, successor: string, epoch: uint64)
    | Invalidate(cluster: string)

  datatype State = State(cache: Cache, pending: map<nat, string>)

  const START := State(map[], map[])

  /** What a resolve returns to its caller when it ends in this step. */
  function Answer(s: State, e: Event): Option<AnchorInfo> {
    match e
    case Begin(_, c) => if c in s.cache then Some(s.cache[c]) else None
    case Finish(call, found) =>
      if call !in s.pending || found.None? then None
      else Some(Offer(s.cache, s.pending[call], found.value)[s.pending[call]])
    case _ => None
  }

  function Step(s: State, e: Event): State {
    match e
    case Begin(call, c) => if c == "" || c in s.cache then s else s.(pending := s.pending[call := c])
    case Finish(call, found) =>
      if call !in s.pending then s
      else State(if found.None? then s.cache else Offer(s.cache, s.pending[call], found.value), s.pending - {call})
    case Failover(c, nid, epoch) =>
      if c == "" || nid == "" then s else s.(cache := Offer(s.cache, c, AnchorInfo(nid, epoch)))
    case Invalidate(c) => s.(cache := s.cache - {c})
  }

  function Run(s: State, log: seq<Event>): State {
    if log == [] then s else Step(Run(s, log[..|log| - 1]), log[|log| - 1])
  }

  // ---- every interleaving --------------------------------------------------

  ghost predicate NeverDropped(log: seq<Event>, c: string) {
    forall i :: 0 <= i < |log| ==> log[i] != Invalidate(c)
  }

  /** The entry of c in t is the one in s or a strictly newer one. */
  ghost predicate NoOlder(s: State, t: State, c: string) {
    c in s.cache ==> c in t.cache && (t.cache[c] == s.cache[c] || t.cache[c].epoch > s.cache[c].epoch)
  }

  /** Between any two moments of a run the cached epoch does not decrease, and the owner of an epoch
      does not change, however lookups and failovers interleave. */
  lemma {:induction false} EpochsAdvance(s: State, log: seq<Event>, c: string)
    requires NeverDropped(log, c)
    ensures NoOlder(s, Run(s, log), c)
  {
    if log != [] {
      var k := |log| - 1;
      EpochsAdvance(s, log[..k], c);
      assert log[k] != Invalidate(c);
    }
  }

  /** The cluster a resolve that ends in this step was asked for. */
  function Asked(s: State, e: Event): Option<string> {
    match e
    case Begin(_, c) => Some(c)
    case Finish(call, _) => if call in s.pending then Some(s.pending[call]) else None
    case _ => None
  }

  lemma AnswerIsCached(s: State, e: Event)
    requires Answer(s, e).Some?
    ensures Asked(s, e).Some? && Asked(s, e).value in Step(s, e).cache
            && Step(s, e).cache[Asked(s, e).value] == Answer(s, e).value
  {
  }

  /** Of two answers about a cluster the later one names no older epoch, and the same owner for the
      same epoch, whoever asked. */
  lemma AnswersAdvance(s: State, first: Event, log: seq<Event>, second: Event)
    requires Answer(s, first).Some? && Answer(Run(Step(s, first), log), second).Some?
    requires Asked(s, first) == Asked(Run(Step(s, first), log), second) && NeverDropped(log, Asked(s, first).value)
    ensures var a, b := Answer(s, first).value, Answer(Run(Step(s, first), log), second).value;
            a == b || a.epoch < b.epoch
  {
    var c := Asked(s, first).value;
    var t := Run(Step(s, first), log);
    AnswerIsCached(s, first);
    AnswerIsCached(t, second);
    EpochsAdvance(Step(s, first), log, c);
    assert NoOlder(t, Step(t, second), c);
  }

  // ---- what the cache holds ------------------------------------------------

  /** What a step tells about cluster c. */
  function Observed(s: State, e: Event, c: string): seq<AnchorInfo> {
    match e
    case Finish(call, found) => if call in s.pending && s.pending[call] == c && found.Some? then [found.value] else []
    case Failover(about, nid, epoch) => if about == c && c != "" && nid != "" then [AnchorInfo(nid, epoch)] else []
    case _ => []
  }

  /** Everything told about c in a run since c was last dropped, in the order of the atomic steps. */
  function Observations(s: State, log: seq<Event>, c: string): seq<AnchorInfo> {
    if log == [] || log[|log| - 1] == Invalidate(c) then []
    else Observations(s, log[..|log| - 1], c) + Observed(Run(s, log[..|log| - 1]), log[|log| - 1], c)
  }

  /** info has the highest epoch told, and was the first with it. */
  ghost predicate FirstOfNewest(told: seq<AnchorInfo>, info: AnchorInfo) {
    exists k :: 0 <= k < |told| && told[k] == info && Leads(told, k)
  }

  ghost predicate Leads(told: seq<AnchorInfo>, k: nat)
    requires k < |told|
  {
    && (forall j :: 0 <= j < k ==> told[j].epoch < told[k].epoch)
    && (forall j :: k <= j < |told| ==> told[j].epoch <= told[k].epoch)
  }

  /** In every run the cache holds, for each cluster, the first owner told for the highest epoch told
      since the cluster was last dropped. */
  lemma {:induction false} CacheIsNewest(log: seq<Event>, c: string)
    ensures var told, s := Observations(START, log, c), Run(START, log);
            && (c in s.cache <==> told != [])
            && (c in s.cache ==> FirstOfNewest(told, s.cache[c]))
  {
    if log != [] {
      var k := |log| - 1;
      CacheIsNewest(log[..k], c);
      if log[k] != Invalidate(c) {
        NewestStep(Run(START, log[..k]), Observations(START, log[..k], c), log[k], c);
      }
    }
  }

  lemma NewestStep(s: State, told: seq<AnchorInfo>, e: Event, c: string)
    requires e != Invalidate(c)
    requires (c in s.cache <==> told != []) && (c in s.cache ==> FirstOfNewest(told, s.cache[c]))
    ensures var more, t := told + Observed(s, e, c), Step(s, e);
            (c in t.cache <==> more != []) && (c in t.cache ==> FirstOfNewest(more, t.cache[c]))
  {
    if Observed(s, e, c) == [] {
      assert told + [] == told;
    } else {
      OfferNewest(s.cache, told, c, Observed(s, e, c)[0]);
    }
  }

  lemma OfferNewest(cache: Cache, told: seq<AnchorInfo>, c: string, info: AnchorInfo)
    requires (c in cache <==> told != []) && (c in cache ==> FirstOfNewest(told, cache[c]))
    ensures FirstOfNewest(told + [info], Offer(cache, c, info)[c])
  {
    var more := told + [info];
    if c in cache {
      var k :| 0 <= k < |told| && told[k] == cache[c] && Leads(told, k);
      if info.epoch <= cache[c].epoch { assert Leads(more, k); } else { assert Leads(more, |told|); }
    } else {
      assert Leads(more, 0);
    }
  }

  /** The first of the newest is unique, so what was told determines the cache. */
  lemma NewestUnique(told: seq<AnchorInfo>, a: AnchorInfo, b: AnchorInfo)
    requires FirstOfNewest(told, a) && FirstOfNewest(told, b)
    ensures a == b
  {
    var i :| 0 <= i < |told| && told[i] == a && Leads(told, i);
    var j :| 0 <= j < |told| && told[j] == b && Leads(told, j);
  }

  /** Dropping an entry forgets its epoch: a lookup begun before a failover can then bring the older
      owner back. So epochs advance only while the entry is not dropped. */
  lemma DroppedEntryGoesBack(c: string, old_: AnchorInfo, next: AnchorInfo)
    requires c != "" && next.activeNid != "" && old_.epoch < next.epoch
    ensures var before := [Begin(0, c), Failover(c, next.activeNid, next.epoch)];
            var after := [Invalidate(c), Finish(0, Some(old_))];
            var s := Run(START, before);
            c in s.cache && s.cache[c] == next && !NoOlder(s, Run(s, after), c)
  {
    var before := [Begin(0, c), Failover(c, next.activeNid, next.epoch)];
    assert before[..1] == [Begin(0, c)] && before[..1][..0] == [];
    assert Run(START, before[..1]) == Step(START, Begin(0, c)) == State(map[], map[0 := c]);
    var s := Run(START, before);
    assert s == Step(State(map[], map[0 := c]), Failover(c, next.activeNid, next.epoch));
    var after := [Invalidate(c), Finish(0, Some(old_))];
    assert after[..1] == [Invalidate(c)] && after[..1][..0] == [];
    assert Run(s, after[..1]) == Step(s, Invalidate(c));
  }

  // ---- the resolver --------------------------------------------------------

  datatype Reply = Resolved(info: AnchorInfo) | Unresolved | Invalid

  predicate IsNpsNid(s: string) { |s| > |"urn:nps:"| && s[..|"urn:nps:"|] == "urn:nps:" }

  class ClusterDelegationResolver {
    var active: Cache
    ghost var pending: map<nat, string>

    constructor ()
      ensures Abstract() == START
    {
      active, pending := map[], map[];
    }

    ghost function Abstract(): State
      reads this
    {
      State(active, pending)
    }

    /** First critical section of ResolveActive: a hit is returned, a miss sends the caller to look up. */
    method BeginResolve(cluster: string, ghost call: nat) returns (r: Reply)
      modifies this
      ensures Abstract() == Step(old(Abstract()), Begin(call, cluster))
      ensures r == if cluster == "" then Invalid
                   else if cluster in old(active) then Resolved(old(active)[cluster])
                   else Unresolved
    {
      if cluster == "" { return Invalid; }
      if cluster in active { return Resolved(active[cluster]); }
      pending := pending[call := cluster];
      r := Unresolved;
    }

    /** Second critical section, run by the caller whose lookup came back. */
    method FinishResolve(cluster: string, found: Option<AnchorInfo>, ghost call: nat) returns (r: Reply)
      requires call in pending && pending[call] == cluster
      modifies this
      ensures Abstract() == Step(old(Abstract()), Finish(call, found))
      ensures r == match Answer(old(Abstract()), Finish(call, found))
                   case None => Unresolved
                   case Some(info) => Resolved(info)
    {
      pending := pending - {call};
      if found.None? { return Unresolved; }
      if cluster in active {
        var cur := active[cluster];
        if found.value.epoch <= cur.epoch { return Resolved(cur); }
      }
      active := active[cluster := found.value];
      r := Resolved(found.value);
    }

    /** Whether the event was accepted; None for an event without cluster or successor. */
    method OnAnchorFailover(cluster: string, successor: string, epoch: uint64) returns (accepted: Option<bool>)
      modifies this
      ensures Abstract() == Step(old(Abstract()), Failover(cluster, successor, epoch))
      ensures accepted.None? <==> cluster == "" || successor == ""
      ensures accepted.Some? ==> (accepted.value <==> cluster !in old(active) || epoch > old(active)[cluster].epoch)
    {
      if cluster == "" || successor == "" { return None; }
      if cluster in active {
        if epoch <= active[cluster].epoch { return Some(false); }
      }
      active := active[cluster := AnchorInfo(successor, epoch)];
      accepted := Some(true);
    }

    method InvalidateEntry(cluster: string)
      modifies this
      ensures Abstract() == Step(old(Abstract()), Invalidate(cluster))
    {
      active := active - {cluster};
    }

    /** Without a target cluster the frame's own agent is used and the cache is not touched; a target
        that is no NID is refused. */
    method BeginDelegate(targetNid: string, cluster: Option<string>, ghost call: nat)
      returns (nid: Option<string>, lookup: bool)
      modifies this
      ensures cluster.None? || cluster.value == "" || !IsNpsNid(cluster.value)
              ==> Abstract() == old(Abstract()) && !lookup
      ensures cluster.None? || cluster.value == "" ==> nid == Some(targetNid)
      ensures cluster.Some? && cluster.value != "" && !IsNpsNid(cluster.value) ==> nid == None
      ensures cluster.Some? && IsNpsNid(cluster.value) ==>
                && Abstract() == Step(old(Abstract()), Begin(call, cluster.value))
                && (lookup <==> cluster.value !in old(active))
                && (!lookup ==> nid == Some(old(active)[cluster.value].activeNid))
    {
      if cluster.None? || cluster.value == "" { return Some(targetNid), false; }
      if !IsNpsNid(cluster.value) { return None, false; }
      var r := BeginResolve(cluster.value, call);
      nid, lookup := if r.Resolved? then Some(r.info.activeNid) else None, r == Unresolved;
    }

    /** The rest of a delegation whose lookup came back: the active owner, or nobody. */
    method FinishDelegate(cluster: string, found: Option<AnchorInfo>, ghost call: nat) returns (nid: Option<string>)
      requires call in pending && pending[call] == cluster
      modifies this
      ensures Abstract() == Step(old(Abstract()), Finish(call, found))
      ensures nid == match Answer(old(Abstract()), Finish(call, found))
                     case None => None
                     case Some(info) => Some(info.activeNid)
    {
      var r := FinishResolve(cluster, found, call);
      nid := if r.Resolved? then Some(r.info.activeNid) else None;
    }
  }
}
