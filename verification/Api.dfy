/** The API a call reaches: idempotency records, an adversarial network, and the client that sends. */
module Api {
  import opened Text
  import opened Transport

  datatype Method = Get | Post | Put | Patch | Delete

  type Fields = map<string, string>

  datatype Req = Req(verb: Method, path: string, key: Option<string>, body: Fields)

  /** What an Idempotency-Key is scoped to. */
  datatype Slot = Slot(path: string, key: string)

  type ErrorStatus = n: int | n >= 400 witness 500
  type SuccessStatus = n: int | n < 400 witness 200

  datatype Answer = Accept(status: SuccessStatus) | Reject(refusal: ErrorStatus, code: ErrorCode)

  /** A keyed POST is still executing, or its answer is on record. */
  datatype Record = Running(answer: Answer) | Settled(answer: Answer)

  /** `created` lists every application of a POST, in order. */
  datatype Server = Server(entities: map<string, Fields>, created: seq<Req>, records: map<Slot, Record>)

  datatype Delivery = Arrives | Dropped(timedOut: bool) | Replaced(gateway: ErrorStatus)

  datatype Contact =
    | Lost(timedOut: bool)                                        // the request never arrives
    | Turned(gateway: ErrorStatus, code: ErrorCode)               // something in front refuses it
    | Reached(answer: Answer, slow: bool, delivery: Delivery)

  /** What becomes of one send; `finish` lets a request still executing finish just before it. */
  datatype Fate = Fate(finish: bool, contact: Contact)

  // ---------------------------------------------------------------------
  // The server
  // ---------------------------------------------------------------------

  predicate IsKeyedPost(req: Req) {
    req.verb.Post? && req.key.Some?
  }

  function SlotOf(req: Req): Slot
    requires req.key.Some?
  {
    Slot(req.path, req.key.value)
  }

  /** PUT overwrites, PATCH assigns the listed fields, DELETE removes. */
  function Effect(entities: map<string, Fields>, req: Req): map<string, Fields> {
    match req.verb
    case Get => entities
    case Post => entities
    case Put => entities[req.path := req.body]
    case Patch => entities[req.path := (if req.path in entities then entities[req.path] else map[]) + req.body]
    case Delete => map p | p in entities && p != req.path :: entities[p]
  }

  function Execute(s: Server, req: Req, answer: Answer): Server {
    if answer.Reject? then s
    else if req.verb.Post? then s.(created := s.created + [req])
    else s.(entities := Effect(s.entities, req))
  }

  /** The executing request of a slot runs to its end. */
  function Finish(s: Server, req: Req): Server {
    if IsKeyedPost(req) && SlotOf(req) in s.records && s.records[SlotOf(req)].Running? then
      var answer := s.records[SlotOf(req)].answer;
      Execute(s, req, answer).(records := s.records[SlotOf(req) := Settled(answer)])
    else s
  }

  function NoAnswer(timedOut: bool): Outcome {
    if timedOut then TimedOut else Disconnected
  }

  function Deliver(delivery: Delivery, answer: Answer): Outcome {
    match delivery
    case Dropped(timedOut) => NoAnswer(timedOut)
    case Replaced(gateway) => Response(gateway, OtherCode("gateway"))
    case Arrives =>
      match answer
      case Accept(status) => Response(status, OtherCode(""))
      case Reject(status, code) => Response(status, code)
  }

  const BUSY := Reject(409, IdempotencyInProgress)

  /** A reached server: replay a recorded key, refuse a running one, else execute. */
  function Handle(s: Server, req: Req, answer: Answer, slow: bool, delivery: Delivery): (Server, Outcome) {
    if !IsKeyedPost(req) then (Execute(s, req, answer), Deliver(delivery, answer))
    else if SlotOf(req) in s.records then
      (s, Deliver(delivery, if s.records[SlotOf(req)].Running? then BUSY else s.records[SlotOf(req)].answer))
    else if slow then (s.(records := s.records[SlotOf(req) := Running(answer)]), NoAnswer(true))
    else (Execute(s, req, answer).(records := s.records[SlotOf(req) := Settled(answer)]), Deliver(delivery, answer))
  }

  function Send(s: Server, req: Req, fate: Fate): (Server, Outcome) {
    var ready := if fate.finish then Finish(s, req) else s;
    match fate.contact
    case Lost(timedOut) => (ready, NoAnswer(timedOut))
    case Turned(gateway, code) => (ready, Response(gateway, code))
    case Reached(answer, slow, delivery) => Handle(ready, req, answer, slow, delivery)
  }

  // ---------------------------------------------------------------------
  // At most once for a keyed POST
  // ---------------------------------------------------------------------

  function Applications(created: seq<Req>, slot: Slot): nat {
    if created == [] then 0
    else
      var n := |created| - 1;
      Applications(created[..n], slot) + if IsKeyedPost(created[n]) && SlotOf(created[n]) == slot then 1 else 0
  }

  /** A slot was applied once if its record settled on success, and otherwise not at all. */
  predicate SlotInv(s: Server, slot: Slot) {
    var applied := slot in s.records && s.records[slot].Settled? && s.records[slot].answer.Accept?;
    Applications(s.created, slot) == if applied then 1 else 0
  }

  lemma ApplicationsStep(created: seq<Req>, req: Req, slot: Slot)
    ensures Applications(created + [req], slot) ==
            Applications(created, slot) + if IsKeyedPost(req) && SlotOf(req) == slot then 1 else 0
  {
    assert (created + [req])[..|created|] == created;
  }

  lemma FinishKeepsSlot(s: Server, req: Req, slot: Slot)
    requires SlotInv(s, slot)
    ensures SlotInv(Finish(s, req), slot)
    ensures Applications(s.created, slot) <= Applications(Finish(s, req).created, slot)
  {
    ApplicationsStep(s.created, req, slot);
  }

  lemma HandleKeepsSlot(s: Server, req: Req, answer: Answer, slow: bool, delivery: Delivery, slot: Slot)
    requires SlotInv(s, slot)
    ensures SlotInv(Handle(s, req, answer, slow, delivery).0, slot)
    ensures Applications(s.created, slot) <= Applications(Handle(s, req, answer, slow, delivery).0.created, slot)
  {
    ApplicationsStep(s.created, req, slot);
  }

  /** Any send of any request keeps every slot's count, which never falls. */
  lemma SendKeepsSlot(s: Server, req: Req, fate: Fate, slot: Slot)
    requires SlotInv(s, slot)
    ensures SlotInv(Send(s, req, fate).0, slot)
    ensures Applications(s.created, slot) <= Applications(Send(s, req, fate).0.created, slot)
  {
    FinishKeepsSlot(s, req, slot);
    var ready := if fate.finish then Finish(s, req) else s;
    match fate.contact {
      case Lost(_) =>
      case Turned(_, _) =>
      case Reached(answer, slow, delivery) => HandleKeepsSlot(ready, req, answer, slow, delivery, slot);
    }
  }

  predicate IsSuccess(o: Outcome) {
    o.Response? && o.status < 400
  }

  /** A success answer to a keyed POST means that its slot has been applied. */
  lemma SuccessMeansApplied(s: Server, req: Req, fate: Fate)
    requires IsKeyedPost(req) && SlotInv(s, SlotOf(req))
    requires IsSuccess(Send(s, req, fate).1)
    ensures Applications(Send(s, req, fate).0.created, SlotOf(req)) == 1
  {
    SendKeepsSlot(s, req, fate, SlotOf(req));
  }

  /** Any sends by any callers. */
  function History(s: Server, sends: seq<(Req, Fate)>): Server {
    if sends == [] then s
    else
      var n := |sends| - 1;
      Send(History(s, sends[..n]), sends[n].0, sends[n].1).0
  }

  function Blank(entities: map<string, Fields>): Server {
    Server(entities, [], map[])
  }

  lemma {:induction false} HistoryKeepsSlot(entities: map<string, Fields>, sends: seq<(Req, Fate)>, slot: Slot)
    ensures SlotInv(History(Blank(entities), sends), slot)
  {
    if sends != [] {
      var n := |sends| - 1;
      HistoryKeepsSlot(entities, sends[..n], slot);
      SendKeepsSlot(History(Blank(entities), sends[..n]), sends[n].0, sends[n].1, slot);
    }
  }

  lemma {:induction false} AppliedStays(entities: map<string, Fields>, sends: seq<(Req, Fate)>, k: nat, slot: Slot)
    requires k <= |sends|
    ensures Applications(History(Blank(entities), sends[..k]).created, slot)
            <= Applications(History(Blank(entities), sends).created, slot)
    decreases |sends|
  {
    if k < |sends| {
      var n := |sends| - 1;
      assert sends[..n][..k] == sends[..k];
      AppliedStays(entities, sends[..n], k, slot);
      HistoryKeepsSlot(entities, sends[..n], slot);
      SendKeepsSlot(History(Blank(entities), sends[..n]), sends[n].0, sends[n].1, slot);
    } else {
      assert sends[..k] == sends;
    }
  }

  /** Over any history of sends by any callers, each key is applied at most once, and exactly once
      as soon as one of its sends was answered with success. */
  lemma KeyedPostExactlyOnce(entities: map<string, Fields>, sends: seq<(Req, Fate)>, slot: Slot)
    ensures Applications(History(Blank(entities), sends).created, slot) <= 1
    ensures forall i :: 0 <= i < |sends| && IsKeyedPost(sends[i].0) && SlotOf(sends[i].0) == slot
              && IsSuccess(Send(History(Blank(entities), sends[..i]), sends[i].0, sends[i].1).1)
              ==> Applications(History(Blank(entities), sends).created, slot) == 1
  {
    HistoryKeepsSlot(entities, sends, slot);
    forall i | 0 <= i < |sends| && IsKeyedPost(sends[i].0) && SlotOf(sends[i].0) == slot
      && IsSuccess(Send(History(Blank(entities), sends[..i]), sends[i].0, sends[i].1).1)
      ensures Applications(History(Blank(entities), sends).created, slot) == 1
    {
      var before := History(Blank(entities), sends[..i]);
      HistoryKeepsSlot(entities, sends[..i], slot);
      SuccessMeansApplied(before, sends[i].0, sends[i].1);
      assert sends[..i + 1][..i] == sends[..i];
      AppliedStays(entities, sends, i + 1, slot);
    }
  }

  // ---------------------------------------------------------------------
  // Retried PUT, PATCH and DELETE
  // ---------------------------------------------------------------------

  /** PUT leaves exactly the body, PATCH assigns the body's fields and keeps the others, DELETE leaves nothing; no other
      entity changes, and GET and POST change none. */
  lemma EffectMeans(entities: map<string, Fields>, req: Req, path: string)
    ensures var after := Effect(entities, req);
      && (path != req.path ==> Lookup(after, path) == Lookup(entities, path))
      && (req.verb.Get? || req.verb.Post? ==> after == entities)
      && (req.verb.Put? ==> Lookup(after, req.path) == Some(req.body))
      && (req.verb.Delete? ==> req.path !in after)
      && (req.verb.Patch? ==> req.path in after && forall field ::
            Lookup(after[req.path], field) ==
              if field in req.body then Some(req.body[field])
              else if req.path in entities then Lookup(entities[req.path], field)
              else None)
  {}

  /** A keyed POST whose answer is on record is answered with that record, and changes nothing. */
  lemma ReplayVerbatim(s: Server, req: Req, answer: Answer, slow: bool)
    requires IsKeyedPost(req) && SlotOf(req) in s.records && s.records[SlotOf(req)].Settled?
    ensures Send(s, req, Fate(false, Reached(answer, slow, Arrives))) ==
            (s, match s.records[SlotOf(req)].answer
                case Accept(status) => Response(status, OtherCode(""))
                case Reject(status, code) => Response(status, code))
  {}

  /** A keyed POST that is still executing after its answer was given up: repeated, it is refused as in progress, and
      once it has run to its end it was applied if accepted, and is answered with its own answer. */
  lemma SlowPostReplayed(s: Server, req: Req, answer: Answer, delivery: Delivery, repeat: Answer, slow: bool)
    requires IsKeyedPost(req) && SlotOf(req) !in s.records
    ensures var (t, o) := Send(s, req, Fate(false, Reached(answer, true, delivery)));
      && o == TimedOut && t.created == s.created && t.entities == s.entities
      && Send(t, req, Fate(false, Reached(repeat, slow, Arrives))) == (t, Response(409, IdempotencyInProgress))
      && IsInProgress(Response(409, IdempotencyInProgress))
      && var (u, again) := Send(t, req, Fate(true, Reached(repeat, slow, Arrives)));
         && u.created == s.created + (if answer.Accept? then [req] else []) && u.entities == s.entities
         && again == (match answer
                      case Accept(status) => Response(status, OtherCode(""))
                      case Reject(status, code) => Response(status, code))
  {}

  /** What is on record for the slot and how often it was applied are the same. */
  predicate SameSlot(s: Server, t: Server, slot: Slot) {
    && Lookup(t.records, slot) == Lookup(s.records, slot)
    && Applications(t.created, slot) == Applications(s.created, slot)
  }

  lemma FinishKeepsOther(s: Server, req: Req, slot: Slot)
    requires IsKeyedPost(req) && slot != SlotOf(req)
    ensures SameSlot(s, Finish(s, req), slot)
  {
    ApplicationsStep(s.created, req, slot);
  }

  lemma HandleKeepsOther(s: Server, req: Req, answer: Answer, slow: bool, delivery: Delivery, slot: Slot)
    requires IsKeyedPost(req) && slot != SlotOf(req)
    ensures SameSlot(s, Handle(s, req, answer, slow, delivery).0, slot)
  {
    ApplicationsStep(s.created, req, slot);
  }

  /** A key is scoped to its path: a keyed POST leaves every slot of another path or another key alone. */
  lemma SlotsApart(s: Server, req: Req, fate: Fate, path: string, key: string)
    requires IsKeyedPost(req) && (req.path != path || req.key != Some(key))
    ensures SameSlot(s, Send(s, req, fate).0, Slot(path, key))
  {
    FinishKeepsOther(s, req, Slot(path, key));
    var ready := if fate.finish then Finish(s, req) else s;
    match fate.contact {
      case Lost(_) =>
      case Turned(_, _) =>
      case Reached(answer, slow, delivery) => HandleKeepsOther(ready, req, answer, slow, delivery, Slot(path, key));
    }
  }

  lemma EffectTwice(entities: map<string, Fields>, req: Req)
    ensures Effect(Effect(entities, req), req) == Effect(entities, req)
  {
    if req.verb.Patch? {
      var fields: Fields := if req.path in entities then entities[req.path] else map[];
      assert fields + req.body + req.body == fields + req.body;
    }
  }

  /** The server after the first k sends of one request. */
  function ServerAfter(s: Server, req: Req, fates: nat -> Fate, k: nat): Server {
    if k == 0 then s else Send(ServerAfter(s, req, fates, k - 1), req, fates(k - 1)).0
  }

  function OutcomeAt(s: Server, req: Req, fates: nat -> Fate, k: nat): Outcome {
    Send(ServerAfter(s, req, fates, k), req, fates(k)).1
  }

  function Outcomes(s: Server, req: Req, fates: nat -> Fate): nat -> Outcome {
    (k: nat) => OutcomeAt(s, req, fates, k)
  }

  predicate SomeSuccess(s: Server, req: Req, fates: nat -> Fate, k: nat) {
    exists i: nat :: i < k && IsSuccess(OutcomeAt(s, req, fates, i))
  }

  lemma SendLikeOnce(s: Server, req: Req, fate: Fate)
    requires !req.verb.Post?
    ensures var (t, o) := Send(s, req, fate);
            && t.created == s.created && t.records == s.records
            && (t.entities == s.entities || t.entities == Effect(s.entities, req))
            && (IsSuccess(o) ==> t.entities == Effect(s.entities, req))
  {}

  /** However often a request other than a POST is sent, the entities are as before or as after one
      application, and as after one application once any send succeeded. */
  lemma {:induction false} RepeatsLikeOnce(s: Server, req: Req, fates: nat -> Fate, k: nat)
    requires !req.verb.Post?
    ensures var t := ServerAfter(s, req, fates, k);
            && t.created == s.created && t.records == s.records
            && (t.entities == s.entities || t.entities == Effect(s.entities, req))
            && (SomeSuccess(s, req, fates, k) ==> t.entities == Effect(s.entities, req))
  {
    if k > 0 {
      RepeatsLikeOnce(s, req, fates, k - 1);
      EffectTwice(s.entities, req);
      SendLikeOnce(ServerAfter(s, req, fates, k - 1), req, fates(k - 1));
      if SomeSuccess(s, req, fates, k) && !SomeSuccess(s, req, fates, k - 1) {
        var i: nat :| i < k && IsSuccess(OutcomeAt(s, req, fates, i));
        assert i == k - 1;
      }
    }
  }

  // ---------------------------------------------------------------------
  // The client
  // ---------------------------------------------------------------------

  class Wire {
    var server: Server
    var sent: nat
    var slept: nat
    const fates: nat -> Fate

    constructor (start: Server, fate: nat -> Fate)
      ensures server == start && sent == 0 && slept == 0 && fates == fate
    {
      server, sent, slept, fates := start, 0, 0, fate;
    }

    method Request(req: Req) returns (outcome: Outcome)
      modifies `server, `sent
      ensures (server, outcome) == Send(old(server), req, fates(old(sent)))
      ensures sent == old(sent) + 1
    {
      var after := Send(server, req, fates(sent));
      server, outcome := after.0, after.1;
      sent := sent + 1;
    }

    method Sleep(seconds: nat)
      modifies `slept
      ensures slept == old(slept) + seconds
    {
      slept := slept + seconds;
    }
  }

  predicate RetrySafe(req: Req, explicit: Option<bool>) {
    if explicit.Some? then explicit.value else !req.verb.Post? || req.key.Some?
  }

  function AttemptCount(maxRetries: int, safe: bool): int {
    if safe then maxRetries else 1
  }

  /** A transport error says "possibly applied" exactly for a POST that may not be repeated. */
  predicate Marked(req: Req, safe: bool) {
    !safe && req.verb.Post?
  }

  /** `_request` on a wire that has not been used. */
  method CallApi(wire: Wire, req: Req, maxRetries: int, explicit: Option<bool>, isUuid4: string -> bool)
    returns (result: Result)
    requires wire.sent == 0 && wire.slept == 0
    modifies wire
    ensures req.key.Some? && !isUuid4(req.key.value) ==>
              result == Raised(InvalidIdempotencyKey) && wire.sent == 0 && wire.server == old(wire.server)
    ensures req.key.None? || isUuid4(req.key.value) ==>
              (Loop(result, wire.sent, wire.slept), wire.server) ==
              CallWith(old(wire.server), req, wire.fates, maxRetries, explicit)
    ensures req.key.None? || isUuid4(req.key.value) ==>
              var loop, outs := Loop(result, wire.sent, wire.slept), Outcomes(old(wire.server), req, wire.fates);
              && (explicit == Some(true) ==> Tries(maxRetries, outs, false, loop))
              && (explicit == None && (!req.verb.Post? || req.key.Some?) ==> Tries(maxRetries, outs, false, loop))
              && (explicit == None && req.verb.Post? && req.key.None? ==> Tries(1, outs, true, loop))
              && (explicit == Some(false) ==> Tries(1, outs, req.verb.Post?, loop))
  {
    if req.key.Some? && !isUuid4(req.key.value) {
      return Raised(InvalidIdempotencyKey);
    }
    CallTries(wire.server, req, wire.fates, maxRetries, explicit);
    var retrySafe := RetrySafe(req, explicit);
    result := SendRepeatedly(wire, req, AttemptCount(maxRetries, retrySafe), Marked(req, retrySafe));
  }

  /** The servers and outcomes of sending one request again and again. */
  ghost predicate Replays(fates: nat -> Fate, req: Req, servers: nat -> Server, outs: nat -> Outcome) {
    forall k: nat {:trigger Send(servers(k), req, fates(k))} ::
      Send(servers(k), req, fates(k)) == (servers(k + 1), outs(k))
  }

  method SendNext(wire: Wire, req: Req, ghost servers: nat -> Server, ghost outs: nat -> Outcome)
    returns (outcome: Outcome)
    requires Replays(wire.fates, req, servers, outs) && wire.server == servers(wire.sent)
    modifies wire
    ensures wire.sent == old(wire.sent) + 1 && wire.slept == old(wire.slept)
    ensures outcome == outs(old(wire.sent)) && wire.server == servers(wire.sent)
  {
    outcome := wire.Request(req);
  }

  method SendRepeatedly(wire: Wire, req: Req, attempts: int, marked: bool) returns (result: Result)
    requires wire.sent == 0 && wire.slept == 0
    modifies wire
    ensures var loop := Calls(attempts, Outcomes(old(wire.server), req, wire.fates), marked);
            && result == loop.result && wire.sent == loop.sends && wire.slept == loop.slept
            && wire.server == ServerAfter(old(wire.server), req, wire.fates, loop.sends)
  {
    ghost var start := wire.server;
    ghost var servers := (k: nat) => ServerAfter(start, req, wire.fates, k);
    result := RetryLoop(wire, req, attempts, marked, servers, Outcomes(start, req, wire.fates));
  }

  /** The loop of `_request`. */
  method RetryLoop(wire: Wire, req: Req, attempts: int, marked: bool,
                   ghost servers: nat -> Server, ghost outs: nat -> Outcome) returns (result: Result)
    requires wire.sent == 0 && wire.slept == 0 && wire.server == servers(0)
    requires Replays(wire.fates, req, servers, outs)
    modifies wire
    ensures var loop := Calls(attempts, outs, marked);
            && result == loop.result && wire.sent == loop.sends && wire.slept == loop.slept
            && wire.server == servers(loop.sends)
  {
    var lastExc: Option<Failure> := None;
    var inProgressRetries := 0;
    ghost var whole := Calls(attempts, outs, marked);
    var attempt := 0;
    while attempt < attempts
      invariant attempt == 0 || attempt <= attempts
      invariant wire.sent == attempt && wire.server == servers(attempt)
      invariant var rest := Attempts(attempts, attempt, lastExc, inProgressRetries, outs, marked);
                whole == rest.(slept := wire.slept + rest.slept)
    {
      var outcome := SendNext(wire, req, servers, outs);
      match outcome {
        case Response(status, code) =>
          if status == 429 {
            return Raised(HttpFailure(429, code));
          }
          if status >= 500 {
            lastExc := Some(HttpFailure(status, code));
            if attempt == attempts - 1 {
              return Raised(lastExc.value);
            }
            wire.Sleep(Pow2(attempt));
          } else if status >= 400 {
            if !code.IdempotencyInProgress? || inProgressRetries >= 2 {
              return Raised(HttpFailure(status, code));
            }
            wire.Sleep(Pow2(inProgressRetries));
            inProgressRetries := inProgressRetries + 1;
          } else {
            return Success(status);
          }
        case TimedOut =>
          lastExc := Some(TimeoutFailure(marked));
          if attempt == attempts - 1 {
            return Raised(lastExc.value);
          }
          wire.Sleep(Pow2(attempt));
        case Disconnected =>
          lastExc := Some(ConnectionFailure(marked));
          if attempt == attempts - 1 {
            return Raised(lastExc.value);
          }
          wire.Sleep(Pow2(attempt));
      }
      attempt := attempt + 1;
    }
    result := if lastExc.Some? then Raised(lastExc.value) else NothingToRaise;
  }

  // ---------------------------------------------------------------------
  // What a whole call leaves behind
  // ---------------------------------------------------------------------

  /** The call as a value, without an explicit word on retries. */
  function CallOf(s: Server, req: Req, fates: nat -> Fate, maxRetries: int): (Loop, Server) {
    CallWith(s, req, fates, maxRetries, None)
  }

  /** The loop and the server it leaves. */
  function CallWith(s: Server, req: Req, fates: nat -> Fate, maxRetries: int, explicit: Option<bool>): (Loop, Server) {
    var safe := RetrySafe(req, explicit);
    var loop := Calls(AttemptCount(maxRetries, safe), Outcomes(s, req, fates), Marked(req, safe));
    (loop, ServerAfter(s, req, fates, loop.sends))
  }

  /** A call that is no POST, or a keyed POST, may use all its attempts, and so may any call told to; an unkeyed POST,
      and any call told not to, has one, and then a POST's transport error is marked. */
  lemma CallTries(s: Server, req: Req, fates: nat -> Fate, maxRetries: int, explicit: Option<bool>)
    ensures var loop, outs := CallWith(s, req, fates, maxRetries, explicit).0, Outcomes(s, req, fates);
      && (explicit == Some(true) ==> Tries(maxRetries, outs, false, loop))
      && (explicit == None && (!req.verb.Post? || req.key.Some?) ==> Tries(maxRetries, outs, false, loop))
      && (explicit == None && req.verb.Post? && req.key.None? ==> Tries(1, outs, true, loop))
      && (explicit == Some(false) ==> Tries(1, outs, req.verb.Post?, loop))
  {
    var outs := Outcomes(s, req, fates);
    CallsTry(maxRetries, outs, false);
    CallsTry(1, outs, false);
    CallsTry(1, outs, true);
  }

  lemma SuccessWasLastSend(s: Server, req: Req, fates: nat -> Fate, maxRetries: int)
    requires CallOf(s, req, fates, maxRetries).0.result.Success?
    ensures var loop := CallOf(s, req, fates, maxRetries).0;
            loop.sends > 0 && IsSuccess(OutcomeAt(s, req, fates, loop.sends - 1))
  {
    var safe := RetrySafe(req, None);
    CallsMean(AttemptCount(maxRetries, safe), Outcomes(s, req, fates), Marked(req, safe));
  }

  lemma {:induction false} RepeatsKeepSlot(s: Server, req: Req, fates: nat -> Fate, k: nat, slot: Slot)
    requires SlotInv(s, slot)
    ensures SlotInv(ServerAfter(s, req, fates, k), slot)
  {
    if k > 0 {
      RepeatsKeepSlot(s, req, fates, k - 1, slot);
      SendKeepsSlot(ServerAfter(s, req, fates, k - 1), req, fates(k - 1), slot);
    }
  }

  /** A call with a key, after any history of other calls: applied at most once over all of them,
      and exactly once if the call returns. */
  lemma KeyedCallExactlyOnce(
      entities: map<string, Fields>, sends: seq<(Req, Fate)>, req: Req, fates: nat -> Fate, maxRetries: int)
    requires IsKeyedPost(req)
    ensures var (loop, after) := CallOf(History(Blank(entities), sends), req, fates, maxRetries);
            && Applications(after.created, SlotOf(req)) <= 1
            && (loop.result.Success? ==> Applications(after.created, SlotOf(req)) == 1)
  {
    var s := History(Blank(entities), sends);
    var (loop, after) := CallOf(s, req, fates, maxRetries);
    HistoryKeepsSlot(entities, sends, SlotOf(req));
    RepeatsKeepSlot(s, req, fates, loop.sends, SlotOf(req));
    if loop.result.Success? {
      SuccessWasLastSend(s, req, fates, maxRetries);
      RepeatsKeepSlot(s, req, fates, loop.sends - 1, SlotOf(req));
      SuccessMeansApplied(ServerAfter(s, req, fates, loop.sends - 1), req, fates(loop.sends - 1));
    }
  }

  /** A POST without a key is sent exactly once; it is applied once if the call returns, and a
      transport error it raises is marked "possibly applied". */
  lemma UnkeyedPostSentOnce(s: Server, req: Req, fates: nat -> Fate, maxRetries: int)
    requires req.verb.Post? && req.key.None?
    ensures var (loop, after) := CallOf(s, req, fates, maxRetries);
            && loop.sends == 1
            && (after.created == s.created || after.created == s.created + [req])
            && (loop.result.Success? ==> after.created == s.created + [req])
            && (loop.result.Raised? && loop.result.failure.TimeoutFailure? ==> loop.result.failure.possiblyApplied)
            && (loop.result.Raised? && loop.result.failure.ConnectionFailure? ==> loop.result.failure.possiblyApplied)
  {
    var loop := CallOf(s, req, fates, maxRetries).0;
    CallsAreBounded(1, Outcomes(s, req, fates), true);
    CallsMean(1, Outcomes(s, req, fates), true);
    assert ServerAfter(s, req, fates, 1) == Send(ServerAfter(s, req, fates, 0), req, fates(0)).0;
  }

  /** An unkeyed POST raises "possibly applied" exactly when its send got no response. It raises without
      the mark and yet was applied exactly when the API accepted it and a gateway's error replaced the answer. */
  lemma UnmarkedExactlyWhen(s: Server, req: Req, fates: nat -> Fate, maxRetries: int)
    requires req.verb.Post? && req.key.None?
    ensures var (loop, after) := CallOf(s, req, fates, maxRetries);
            var contact := fates(0).contact;
            && (after.created == s.created + [req] <==> contact.Reached? && contact.answer.Accept?)
            && (SaysPossiblyApplied(loop.result) <==> !OutcomeAt(s, req, fates, 0).Response?)
            && (after.created == s.created + [req] && loop.result.Raised? && !SaysPossiblyApplied(loop.result) <==>
                contact.Reached? && contact.answer.Accept? && contact.delivery.Replaced?)
  {
    UnkeyedPostSentOnce(s, req, fates, maxRetries);
    CallsMean(1, Outcomes(s, req, fates), true);
    assert ServerAfter(s, req, fates, 1) == Send(ServerAfter(s, req, fates, 0), req, fates(0)).0;
  }

  predicate SaysPossiblyApplied(result: Result) {
    result.Raised? && match result.failure
      case TimeoutFailure(possiblyApplied) => possiblyApplied
      case ConnectionFailure(possiblyApplied) => possiblyApplied
      case _ => false
  }

  /** The mark is for transport errors only: a gateway's 5xx over an applied POST carries none. */
  lemma GatewayErrorIsUnmarked(s: Server, req: Req, maxRetries: int)
    requires req.verb.Post? && req.key.None?
    ensures var fates := (k: nat) => Fate(false, Reached(Accept(201), false, Replaced(502)));
            var (loop, after) := CallOf(s, req, fates, maxRetries);
            after.created == s.created + [req] && loop.result == Raised(HttpFailure(502, OtherCode("gateway")))
  {
    var fates := (k: nat) => Fate(false, Reached(Accept(201), false, Replaced(502)));
    UnkeyedPostSentOnce(s, req, fates, maxRetries);
    CallsMean(1, Outcomes(s, req, fates), true);
    assert ServerAfter(s, req, fates, 1) == Send(ServerAfter(s, req, fates, 0), req, fates(0)).0;
    assert OutcomeAt(s, req, fates, 0) == Response(502, OtherCode("gateway"));
  }

  /** A retried PUT, PATCH or DELETE leaves the entities as one application does if the call returns,
      and never other than untouched or applied once. */
  lemma RetriedUpdateLikeOnce(s: Server, req: Req, fates: nat -> Fate, maxRetries: int)
    requires !req.verb.Post?
    ensures var (loop, after) := CallOf(s, req, fates, maxRetries);
            && after.created == s.created && after.records == s.records
            && (after.entities == s.entities || after.entities == Effect(s.entities, req))
            && (loop.result.Success? ==> after.entities == Effect(s.entities, req))
  {
    var loop := CallOf(s, req, fates, maxRetries).0;
    RepeatsLikeOnce(s, req, fates, loop.sends);
    if loop.result.Success? {
      SuccessWasLastSend(s, req, fates, maxRetries);
      assert SomeSuccess(s, req, fates, loop.sends);
    }
  }
}
