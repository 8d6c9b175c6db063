/** The LLM context store as a state machine: three coupled maps and one function per
    public operation. Every operation of the store runs under one mutex, so a concurrent
    history is a sequence of these steps. Clock readings are arguments (in nanoseconds,
    in no particular order); random IDs are arguments too. */
module ContextStore {
  import opened Common

  const SECOND: int := 1_000_000_000

  const PARAMS_INVALID := "NWP-ACTION-PARAMS-INVALID"
  const IDEMPOTENCY_CONFLICT := "NWP-ACTION-IDEMPOTENCY-CONFLICT"
  const NOT_FOUND := "NWP-LLM-CONTEXT-NOT-FOUND"
  const EXPIRED := "NWP-LLM-CONTEXT-EXPIRED"
  const VERSION_CONFLICT := "NWP-LLM-CONTEXT-VERSION-CONFLICT"
  const BINDING_MISMATCH := "NWP-LLM-CONTEXT-BINDING-MISMATCH"
  const FORBIDDEN := "NWP-LLM-CONTEXT-FORBIDDEN"
  const LIMIT_EXCEEDED := "NWP-LLM-CONTEXT-LIMIT-EXCEEDED"
  const UNSUPPORTED := "NWP-LLM-CONTEXT-OPERATION-UNSUPPORTED"
  const INACTIVE_RESERVATION := "context reservation is not active"
  const NIL_RESERVATION := "context reservation is nil"
  const NO_CONTEXT_ID := "no context ID"

  const COMPLETE_ACTION := "llm.complete"
  const RELEASE_ACTION := "llm.context.release"

  datatype Result<+T> = Ok(value: T) | Err(code: string, currentVersion: Option<uint64>)

  // ---- data ----------------------------------------------------------------

  datatype Operation = Create | Append | Fork | Reset | Release

  datatype Owner = Owner(nid: string, scope: string)

  datatype Message = Message(role: string, body: string)

  type Transcript = seq<Message>

  datatype Binding = Binding(model: string, system: seq<Message>, tools: seq<string>, runtimeRevision: string)

  datatype Request = Request(operation: Operation, owner: Owner, contextId: Option<string>,
                             baseVersion: Option<uint64>, binding: Binding, messages: Transcript,
                             ttl: Option<uint32>, idempotencyKey: string, requestId: string)

  datatype Version = Version(contextId: string, version: uint64)

  datatype Reservation = Reservation(id: string, request: Request, base: Transcript,
                                     ttl: Option<uint32>, parent: Option<Version>)

  datatype LiveState = Active | Expired | Released

  datatype Entry = Entry(owner: Owner, version: uint64, state: LiveState, binding: Binding,
                         transcript: Transcript, ttl: uint32, expiresAt: Option<int>,
                         tombstoneUntil: Option<int>, reservation: string)

  datatype Receipt = Receipt(contextId: string, version: uint64, operation: Operation, state: LiveState,
                             parent: Option<Version>, expiresAt: Option<int>)

  datatype Outcome =
    | Busy(requestId: string, reservation: string, retainUntil: int)
    | Failed(requestId: string, errorCode: string, retainUntil: int)
    | Completed(requestId: string, receipt: Receipt, released: Option<Version>, retainUntil: int)

  datatype Options = Options(maxContexts: uint32, defaultTtl: uint32, maxTtl: uint32, tombstone: uint32,
                             idempotencyTtl: int, supported: set<Operation>)

  datatype Store = Store(contexts: map<string, Entry>, idempotency: map<string, Outcome>,
                         reservations: map<string, Reservation>)

  const EMPTY := Store(map[], map[], map[])

  /** The clock readings of one call, in the order the code takes them. */
  datatype Clock = Clock(first: int, second: int, third: int)

  /** One answer of the context ID factory. */
  datatype Draw = Drawn(id: string) | DrawFailed

  type Draws = d: seq<Draw> | |d| == 8 witness seq(8, _ => DrawFailed)

  // ---- shared pieces -------------------------------------------------------

  function OwnerKey(owner: Owner, action: string, key: string): string {
    owner.nid + "\U{1F}" + owner.scope + "\U{1F}" + action + "\U{1F}" + key
  }

  function KeyOf(r: Request): string { OwnerKey(r.owner, COMPLETE_ACTION, r.idempotencyKey) }

  predicate IdChar(c: char) {
    'A' <= c <= 'Z' || 'a' <= c <= 'z' || '0' <= c <= '9' || c == '_' || c == '-'
  }

  predicate ValidContextId(s: string) {
    22 <= |s| <= 128 && forall i :: 0 <= i < |s| ==> IdChar(s[i])
  }

  predicate Allocates(op: Operation) { op == Create || op == Fork }

  function Successor(v: uint64): uint64 { (v + 1) % TWO64 }

  /** Division as Go does it, truncating toward zero. */
  function Quotient(a: int, b: int): int
    requires b > 0
  {
    if a >= 0 then a / b else -((-a) / b)
  }

  function Max(a: int, b: int): int { if a >= b then a else b }

  function ClampTtl(o: Options, ttl: uint32): uint32 { if ttl <= o.maxTtl then ttl else o.maxTtl }

  function ValueOr<T>(x: Option<T>, d: T): T { if x.Some? then x.value else d }

  // ---- sweep ---------------------------------------------------------------

  predicate Lapses(e: Entry, now: int) {
    e.state == Active && e.reservation == "" && e.expiresAt.Some? && e.expiresAt.value <= now
  }

  function Lapse(o: Options, e: Entry, now: int): Entry {
    if Lapses(e, now)
    then e.(state := Expired, expiresAt := None, tombstoneUntil := Some(now + o.tombstone * SECOND))
    else e
  }

  predicate Buried(e: Entry, now: int) {
    (e.state == Expired || e.state == Released) && e.tombstoneUntil.Some? && e.tombstoneUntil.value <= now
  }

  predicate Retained(x: Outcome, now: int) { x.Busy? || x.retainUntil > now }

  function SweptContexts(o: Options, contexts: map<string, Entry>, now: int): map<string, Entry> {
    map c | c in contexts && !Buried(Lapse(o, contexts[c], now), now) :: Lapse(o, contexts[c], now)
  }

  function SweptOutcomes(idempotency: map<string, Outcome>, now: int): map<string, Outcome> {
    map k | k in idempotency && Retained(idempotency[k], now) :: idempotency[k]
  }

  function Sweep(o: Options, s: Store, now: int): Store {
    s.(contexts := SweptContexts(o, s.contexts, now), idempotency := SweptOutcomes(s.idempotency, now))
  }

  // ---- reserve -------------------------------------------------------------

  /** The code a malformed request is refused with, or "". */
  function RequestError(r: Request): string {
    if r.operation == Release then PARAMS_INVALID
    else if r.idempotencyKey == "" then PARAMS_INVALID
    else if r.ttl == Some(0) then PARAMS_INVALID
    else if r.operation == Create && (r.contextId.Some? || r.baseVersion.Some?) then PARAMS_INVALID
    else if r.operation != Create && (r.contextId.None? || r.baseVersion.None?) then PARAMS_INVALID
    else if r.operation != Create && !ValidContextId(r.contextId.value) then PARAMS_INVALID
    else if r.operation != Fork && r.messages == [] then PARAMS_INVALID
    else if (r.operation == Append || r.operation == Fork) && HasSystemMessage(r.messages) then BINDING_MISMATCH
    else ""
  }

  predicate HasSystemMessage(m: Transcript) { exists i :: 0 <= i < |m| && m[i].role == "system" }

  function Live(s: Store, owner: Owner): set<string> {
    set c | c in s.contexts && s.contexts[c].owner == owner && s.contexts[c].state == Active
  }

  function Pending(s: Store, owner: Owner): set<string> {
    set r | r in s.reservations && s.reservations[r].request.owner == owner
            && Allocates(s.reservations[r].request.operation)
  }

  predicate QuotaReached(o: Options, s: Store, owner: Owner) {
    |Live(s, owner)| + |Pending(s, owner)| >= o.maxContexts
  }

  function RequireMutable(s: Store, owner: Owner, cid: string): Result<Entry> {
    if cid !in s.contexts then Err(NOT_FOUND, None)
    else
      var e := s.contexts[cid];
      if e.owner != owner then Err(FORBIDDEN, None)
      else if e.state == Expired then Err(EXPIRED, Some(e.version))
      else if e.state == Released then Err(NOT_FOUND, None)
      else Ok(e)
  }

  function EffectiveTtl(o: Options, r: Request, e: Entry, now: int): Option<uint32> {
    if r.ttl.Some? then Some(ClampTtl(o, r.ttl.value))
    else if r.operation == Fork then
      if e.expiresAt.None? then None
      else Some(Max(1, Quotient(e.expiresAt.value - now + SECOND - 1, SECOND)) % TWO32)
    else if e.ttl == 0 then None
    else Some(e.ttl)
  }

  /** The reservation a request would get in a swept store, before it is recorded. */
  function Admit(o: Options, s: Store, r: Request, rid: string, now: int): Result<Reservation> {
    if RequestError(r) != "" then Err(RequestError(r), None)
    else if r.operation !in o.supported then Err(UNSUPPORTED, None)
    else if KeyOf(r) in s.idempotency then Err(IDEMPOTENCY_CONFLICT, None)
    else if r.operation == Create then
      if QuotaReached(o, s, r.owner) then Err(LIMIT_EXCEEDED, None)
      else Ok(Reservation(rid, r, [], Some(ClampTtl(o, ValueOr(r.ttl, o.defaultTtl))), None))
    else
      var found := RequireMutable(s, r.owner, r.contextId.value);
      if found.Err? then Err(found.code, found.currentVersion)
      else
        var e := found.value;
        if e.reservation != "" || e.version != r.baseVersion.value then Err(VERSION_CONFLICT, Some(e.version))
        else if (r.operation == Append || r.operation == Fork) && e.binding != r.binding then
          Err(BINDING_MISMATCH, None)
        else if r.operation == Fork && QuotaReached(o, s, r.owner) then Err(LIMIT_EXCEEDED, None)
        else
          Ok(Reservation(rid, r, e.transcript, EffectiveTtl(o, r, e, now),
                         if r.operation == Fork then Some(Version(r.contextId.value, e.version)) else None))
  }

  function Hold(contexts: map<string, Entry>, res: Reservation): map<string, Entry> {
    if Allocates(res.request.operation) || res.request.contextId.None? || res.request.contextId.value !in contexts
    then contexts
    else var cid := res.request.contextId.value; contexts[cid := contexts[cid].(reservation := res.id)]
  }

  function RecordReservation(o: Options, s: Store, res: Reservation, now: int): Store {
    Store(Hold(s.contexts, res),
          s.idempotency[KeyOf(res.request) := Busy(res.request.requestId, res.id, now + o.idempotencyTtl)],
          s.reservations[res.id := res])
  }

  function Reserve(o: Options, s0: Store, r: Request, rid: string, t: Clock): (Store, Result<Reservation>) {
    var s := Sweep(o, s0, t.first);
    var got := Admit(o, s, r, rid, t.second);
    if got.Err? then (s, got) else (RecordReservation(o, s, got.value, t.third), got)
  }

  // ---- commit --------------------------------------------------------------

  predicate Open(s: Store, res: Reservation) { res.id in s.reservations && s.reservations[res.id] == res }

  function ReservationError(s: Store, handle: Option<Reservation>): string {
    if handle.None? then NIL_RESERVATION
    else if !Open(s, handle.value) then INACTIVE_RESERVATION
    else ""
  }

  /** The first acceptable draw from position k on; a failed or malformed draw ends the search. */
  function NextContextId(contexts: map<string, Entry>, draws: Draws, k: nat): Option<string>
    requires k <= 8
    decreases 8 - k
  {
    if k == 8 || draws[k].DrawFailed? || !ValidContextId(draws[k].id) then None
    else if draws[k].id !in contexts then Some(draws[k].id)
    else NextContextId(contexts, draws, k + 1)
  }

  function Expiry(res: Reservation, now: int): Option<int> {
    if res.ttl.Some? then Some(now + res.ttl.value * SECOND) else None
  }

  function NewEntry(res: Reservation, assistant: Message, now: int): Entry {
    Entry(res.request.owner, 1, Active, res.request.binding,
          (if res.request.operation == Fork then res.base else []) + res.request.messages + [assistant],
          ValueOr(res.ttl, 0), Expiry(res, now), None, "")
  }

  function Advance(e: Entry, res: Reservation, assistant: Message, now: int): Entry {
    var n := e.(version := Successor(e.version), state := Active, reservation := "",
                expiresAt := Expiry(res, now), ttl := ValueOr(res.ttl, 0));
    if res.request.operation == Reset
    then n.(binding := res.request.binding, transcript := res.request.messages + [assistant])
    else n.(transcript := e.transcript + res.request.messages + [assistant])
  }

  /** Store the new entry and close the reservation with a completed outcome. */
  function Settle(o: Options, s: Store, res: Reservation, cid: string, e: Entry, clock: Clock)
    : (Store, Result<Receipt>)
  {
    var receipt := Receipt(cid, e.version, res.request.operation, Active, res.parent, e.expiresAt);
    (Store(s.contexts[cid := e],
           s.idempotency[KeyOf(res.request) :=
             Completed(res.request.requestId, receipt, None, clock.second + o.idempotencyTtl)],
           s.reservations - {res.id}),
     Ok(receipt))
  }

  function Commit(o: Options, s: Store, handle: Option<Reservation>, assistant: Message, draws: Draws, t: Clock)
    : (Store, Result<Receipt>)
  {
    if ReservationError(s, handle) != "" then (s, Err(ReservationError(s, handle), None))
    else
      var res := handle.value;
      if Allocates(res.request.operation) then
        var id := NextContextId(s.contexts, draws, 0);
        if id.None? then (s, Err(NO_CONTEXT_ID, None))
        else Settle(o, s, res, id.value, NewEntry(res, assistant, t.first), t)
      else if res.request.contextId.None? || res.request.contextId.value !in s.contexts then (s, Err(NOT_FOUND, None))
      else
        var cid := res.request.contextId.value;
        Settle(o, s, res, cid, Advance(s.contexts[cid], res, assistant, t.first), t)
  }

  // ---- abort ---------------------------------------------------------------

  function Unhold(contexts: map<string, Entry>, res: Reservation): map<string, Entry> {
    if res.request.contextId.None? || res.request.contextId.value !in contexts then contexts
    else
      var cid := res.request.contextId.value;
      if contexts[cid].reservation == res.id then contexts[cid := contexts[cid].(reservation := "")] else contexts
  }

  function Abandon(o: Options, s: Store, res: Reservation, errorCode: string, now: int): Store {
    Store(Unhold(s.contexts, res),
          s.idempotency[KeyOf(res.request) := Failed(res.request.requestId, errorCode, now + o.idempotencyTtl)],
          s.reservations - {res.id})
  }

  function Abort(o: Options, s: Store, handle: Option<Reservation>, errorCode: string, t: Clock): (Store, Result<()>) {
    if ReservationError(s, handle) != "" then (s, Err(ReservationError(s, handle), None))
    else (Sweep(o, Abandon(o, s, handle.value, errorCode, t.first), t.second), Ok(()))
  }

  // ---- release -------------------------------------------------------------

  datatype ReleaseReply = ReleaseReply(result: Result<Receipt>, applied: bool)

  function Bury(o: Options, e: Entry, now: int): Entry {
    e.(version := Successor(e.version), state := Released, expiresAt := None,
       tombstoneUntil := Some(now + o.tombstone * SECOND))
  }

  /** A replayed release returns the retained receipt and changes nothing; applied tells them apart. */
  function ReleaseContext(o: Options, s0: Store, owner: Owner, cid: string, baseVersion: uint64, idem: string, t: Clock)
    : (Store, ReleaseReply)
  {
    var s := Sweep(o, s0, t.first);
    var key := OwnerKey(owner, RELEASE_ACTION, idem);
    if Release !in o.supported then (s, ReleaseReply(Err(UNSUPPORTED, None), false))
    else if !ValidContextId(cid) || idem == "" then (s, ReleaseReply(Err(PARAMS_INVALID, None), false))
    else if key in s.idempotency then
      var prior := s.idempotency[key];
      if prior.Completed? && prior.released == Some(Version(cid, baseVersion))
      then (s, ReleaseReply(Ok(prior.receipt), false))
      else (s, ReleaseReply(Err(IDEMPOTENCY_CONFLICT, None), false))
    else
      var found := RequireMutable(s, owner, cid);
      if found.Err? then (s, ReleaseReply(Err(found.code, found.currentVersion), false))
      else if found.value.reservation != "" || found.value.version != baseVersion
      then (s, ReleaseReply(Err(VERSION_CONFLICT, Some(found.value.version)), false))
      else
        var e := Bury(o, found.value, t.second);
        var receipt := Receipt(cid, e.version, Release, Released, None, None);
        (Store(s.contexts[cid := e],
               s.idempotency[key := Completed("", receipt, Some(Version(cid, baseVersion)),
                                              t.third + o.idempotencyTtl)],
               s.reservations),
         ReleaseReply(Ok(receipt), true))
  }
}
