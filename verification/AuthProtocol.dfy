/** The auth agent as a state machine: security contexts kept by id until they are closed or
    expire, requests that create, continue and close them, and the handles they own.  What
    the security package answers is an input, and any answer is possible. */
module AuthProtocol {
  import opened Options
  import opened Base64Tables
  import Base64

  type Handle = nat
  type Id = nat
  type Time = nat  // nanoseconds of the steady clock

  const DEFAULT_TTL: nat := 1800 * 1_000_000_000

  datatype Entry = Entry(credentials: Handle, context: Handle, spn: string, createdAt: Time, ttl: nat, inUse: bool)

  predicate IsExpired(e: Entry, now: Time) {
    now - e.createdAt > e.ttl
  }

  datatype Kind = Credentials | Context

  function HandleOf(e: Entry, kind: Kind): Handle {
    match kind case Credentials => e.credentials case Context => e.context
  }

  /** A step of a negotiation that the security package was asked for. */
  datatype Call =
    | Opening(credentials: Handle, target: string)
    | Continuing(context: Handle, challenge: seq<Byte>)

  /** What the security package has handed out and taken back, and what it was asked for.  The
      n-th handle of a kind it hands out is n; a handle released twice counts twice. */
  datatype Ledger = Ledger(
    credentials: nat, contexts: nat, freed: multiset<Handle>, deleted: multiset<Handle>, seen: seq<Call>)

  function HandedOut(l: Ledger, kind: Kind): nat {
    match kind case Credentials => l.credentials case Context => l.contexts
  }

  function Released(l: Ledger, kind: Kind): multiset<Handle> {
    match kind case Credentials => l.freed case Context => l.deleted
  }

  datatype State = State(contexts: map<Id, Entry>, nextId: Id, ledger: Ledger)

  const Initial := State(map[], 1, Ledger(0, 0, multiset{}, multiset{}, []))

  // ---- The security package -------------------------------------------------------

  datatype Status = Ok | ContinueNeeded | CompleteNeeded | CompleteAndContinue | Failed

  /** Whether credentials are granted, how the step ends, and the token it leaves. */
  datatype Answer = Answer(acquired: bool, status: Status, token: seq<Byte>)

  predicate MoreRounds(status: Status) {
    status == ContinueNeeded || status == CompleteAndContinue
  }

  // ---- Requests -------------------------------------------------------------------

  /** `None` stands for parameters that are missing or of the wrong type. */
  datatype Request =
    | Hello(version: Option<int>)
    | Ping
    | CreateContext(spn: Option<string>)
    | ContinueContext(params: Option<(Id, string)>)
    | CloseContext(id: Option<Id>)
    | OtherMethod(name: string)

  datatype Reply =
    | HelloReply(version: int)
    | Pong
    | Created(id: Id, token: string, more: bool)
    | Continued(token: string, more: bool)
    | Closed
    | Error(code: int)

  const SSPI_FAILED := -1
  const NOT_FOUND := -2
  const METHOD_NOT_FOUND := -32601
  const INTERNAL_ERROR := -32603

  datatype Event =
    | Requested(request: Request, now: Time, answer: Answer)
    | Cleanup(now: Time)
    | Shutdown

  // ---- The step -------------------------------------------------------------------

  /** Releases both handles of an entry that is still in use. */
  function Destroy(l: Ledger, e: Entry): Ledger {
    if e.inUse then l.(deleted := l.deleted + multiset{e.context}, freed := l.freed + multiset{e.credentials}) else l
  }

  function Close(s: State, id: Id): State {
    if id in s.contexts then s.(contexts := s.contexts - {id}, ledger := Destroy(s.ledger, s.contexts[id])) else s
  }

  /** Looking up an expired entry destroys it. */
  function Get(s: State, id: Id, now: Time): (State, Option<Entry>) {
    if id !in s.contexts then (s, None)
    else if IsExpired(s.contexts[id], now) then (Close(s, id), None)
    else (s, Some(s.contexts[id]))
  }

  function MakeSpn(host: string): string {
    "HTTP/" + host
  }

  function Asked(l: Ledger, call: Call): Ledger {
    l.(seen := l.seen + [call])
  }

  function Create(s: State, spn: string, now: Time, answer: Answer): (State, Reply) {
    var l := Asked(s.ledger, Opening(s.ledger.credentials, MakeSpn(spn)));
    if !answer.acquired then (s, Error(SSPI_FAILED))
    else if answer.status == Failed then
      (s.(ledger := l.(credentials := l.credentials + 1, freed := l.freed + multiset{l.credentials})), Error(SSPI_FAILED))
    else
      var e := Entry(l.credentials, l.contexts, spn, now, DEFAULT_TTL, true);
      (State(s.contexts[s.nextId := e], s.nextId + 1, l.(credentials := l.credentials + 1, contexts := l.contexts + 1)),
       Created(s.nextId, Base64.Encode(answer.token), MoreRounds(answer.status)))
  }

  function Continue(s: State, id: Id, challenge: string, now: Time, answer: Answer): (State, Reply) {
    var (s, entry) := Get(s, id, now);
    if entry.None? then (s, Error(NOT_FOUND))
    else
      var s := s.(ledger := Asked(s.ledger, Continuing(entry.value.context, Base64.Decode(challenge))));
      if answer.status == Failed then (Close(s, id), Error(SSPI_FAILED))
      else (if MoreRounds(answer.status) then s else Close(s, id),
            Continued(Base64.Encode(answer.token), MoreRounds(answer.status)))
  }

  function Respond(s: State, request: Request, now: Time, answer: Answer): (State, Reply) {
    match request
    case Hello(Some(_)) => (s, HelloReply(1))
    case Ping => (s, Pong)
    case CreateContext(Some(spn)) => Create(s, spn, now, answer)
    case ContinueContext(Some((id, challenge))) => Continue(s, id, challenge, now, answer)
    case CloseContext(Some(id)) => (Close(s, id), Closed)
    case OtherMethod(_) => (s, Error(METHOD_NOT_FOUND))
    case _ => (s, Error(INTERNAL_ERROR))
  }

  /** The handle of one kind that the entry for `id` owns, if any. */
  function OwnedBy(contexts: map<Id, Entry>, kind: Kind, id: Id): multiset<Handle> {
    if id in contexts && contexts[id].inUse then multiset{HandleOf(contexts[id], kind)} else multiset{}
  }

  /** The handles of one kind owned by the entries with ids below `n`. */
  function Owned(contexts: map<Id, Entry>, kind: Kind, n: nat): multiset<Handle> {
    if n == 0 then multiset{} else Owned(contexts, kind, n - 1) + OwnedBy(contexts, kind, n - 1)
  }

  function Expired(contexts: map<Id, Entry>, now: Time): map<Id, Entry> {
    map id | id in contexts && IsExpired(contexts[id], now) :: contexts[id]
  }

  function Unexpired(contexts: map<Id, Entry>, now: Time): map<Id, Entry> {
    map id | id in contexts && !IsExpired(contexts[id], now) :: contexts[id]
  }

  /** Releases the handles of all `entries`. */
  function DestroyAll(l: Ledger, entries: map<Id, Entry>, n: nat): Ledger {
    l.(freed := l.freed + Owned(entries, Credentials, n), deleted := l.deleted + Owned(entries, Context, n))
  }

  function Step(s: State, event: Event): (State, Option<Reply>) {
    match event
    case Requested(request, now, answer) =>
      var (s', reply) := Respond(s, request, now, answer);
      (s', Some(reply))
    case Cleanup(now) =>
      (s.(contexts := Unexpired(s.contexts, now), ledger := DestroyAll(s.ledger, Expired(s.contexts, now), s.nextId)), None)
    case Shutdown =>
      (s.(contexts := map[], ledger := DestroyAll(s.ledger, s.contexts, s.nextId)), None)
  }

  function Run(s: State, events: seq<Event>): State
    decreases |events|
  {
    if events == [] then s else Run(Step(s, events[0]).0, events[1..])
  }

  function Replies(s: State, events: seq<Event>): (out: seq<Option<Reply>>)
    ensures |out| == |events|
    decreases |events|
  {
    if events == [] then []
    else var (s', reply) := Step(s, events[0]);
         [reply] + Replies(s', events[1..])
  }

  lemma {:induction false} ReplyAt(s: State, events: seq<Event>, i: nat)
    requires i < |events|
    ensures Replies(s, events)[i] == Step(Run(s, events[..i]), events[i]).1
    decreases i
  {
    if i > 0 {
      ReplyAt(Step(s, events[0]).0, events[1..], i - 1);
      assert events[..i][1..] == events[1..][..i - 1];
    }
  }

  lemma {:induction false} RunConcat(s: State, a: seq<Event>, b: seq<Event>)
    ensures Run(s, a + b) == Run(Run(s, a), b)
    decreases |a|
  {
    if a == [] {
      assert a + b == b;
    } else {
      RunConcat(Step(s, a[0]).0, a[1..], b);
      assert (a + b)[1..] == a[1..] + b;
    }
  }
}
