/** What the auth agent keeps over every run. */
module AuthLaws {
  import opened Options
  import opened AuthProtocol
  import Base64
  import Base64Laws

  // ---- Handles --------------------------------------------------------------------

  ghost predicate Inv(s: State) {
    forall id :: id in s.contexts ==> id < s.nextId && s.contexts[id].inUse
  }

  /** Every handle below `n`, once. */
  function AllBelow(n: nat): multiset<Handle> {
    if n == 0 then multiset{} else AllBelow(n - 1) + multiset{n - 1}
  }

  /** Every handle handed out has been released once or is owned by one stored entry. */
  ghost predicate Balanced(s: State, kind: Kind) {
    AllBelow(HandedOut(s.ledger, kind)) == Released(s.ledger, kind) + Owned(s.contexts, kind, s.nextId)
  }

  lemma {:induction false} OwnedAgrees(a: map<Id, Entry>, b: map<Id, Entry>, kind: Kind, n: nat)
    requires forall id :: id < n ==> (id in a <==> id in b) && (id in a ==> a[id] == b[id])
    ensures Owned(a, kind, n) == Owned(b, kind, n)
  {
    if n > 0 {
      OwnedAgrees(a, b, kind, n - 1);
    }
  }

  lemma OwnedByOther(contexts: map<Id, Entry>, kind: Kind, id: Id, k: Id)
    ensures OwnedBy(contexts - {id}, kind, k) == if k == id then multiset{} else OwnedBy(contexts, kind, k)
  {}

  lemma {:induction false} OwnedWithout(contexts: map<Id, Entry>, kind: Kind, id: Id, n: nat)
    requires id < n
    ensures Owned(contexts, kind, n) == Owned(contexts - {id}, kind, n) + OwnedBy(contexts, kind, id)
  {
    hide OwnedBy;
    OwnedByOther(contexts, kind, id, n - 1);
    var rest := contexts - {id};
    if n - 1 == id {
      OwnedAgrees(contexts, rest, kind, id);
      Nothing(Owned(rest, kind, id));
    } else {
      OwnedWithout(contexts, kind, id, n - 1);
      Exchange(Owned(rest, kind, n - 1), OwnedBy(contexts, kind, id), OwnedBy(contexts, kind, n - 1));
    }
  }

  lemma Nothing(a: multiset<Handle>)
    ensures a + multiset{} == a
  {}

  lemma Exchange(a: multiset<Handle>, b: multiset<Handle>, c: multiset<Handle>)
    ensures (a + b) + c == (a + c) + b
  {}

  lemma Interleave(a: multiset<Handle>, b: multiset<Handle>, c: multiset<Handle>, d: multiset<Handle>)
    ensures (a + b) + (c + d) == (a + c) + (b + d)
  {}

  lemma {:induction false} OwnedSplits(contexts: map<Id, Entry>, kind: Kind, now: Time, n: nat)
    ensures Owned(contexts, kind, n) == Owned(Unexpired(contexts, now), kind, n) + Owned(Expired(contexts, now), kind, n)
  {
    hide OwnedBy, Unexpired, Expired;
    if n > 0 {
      OwnedSplits(contexts, kind, now, n - 1);
      OwnedBySplits(contexts, kind, now, n - 1);
      Interleave(Owned(Unexpired(contexts, now), kind, n - 1), Owned(Expired(contexts, now), kind, n - 1),
                 OwnedBy(Unexpired(contexts, now), kind, n - 1), OwnedBy(Expired(contexts, now), kind, n - 1));
    }
  }

  lemma OwnedBySplits(contexts: map<Id, Entry>, kind: Kind, now: Time, id: Id)
    ensures OwnedBy(contexts, kind, id)
         == OwnedBy(Unexpired(contexts, now), kind, id) + OwnedBy(Expired(contexts, now), kind, id)
  {}

  lemma {:induction false} OwnedByNobody(kind: Kind, n: nat)
    ensures Owned(map[], kind, n) == multiset{}
  {
    if n > 0 {
      OwnedByNobody(kind, n - 1);
    }
  }

  lemma DestroyReleases(l: Ledger, e: Entry, kind: Kind)
    requires e.inUse
    ensures Released(Destroy(l, e), kind) == Released(l, kind) + multiset{HandleOf(e, kind)}
    ensures HandedOut(Destroy(l, e), kind) == HandedOut(l, kind)
  {}

  lemma DestroyAllReleases(l: Ledger, entries: map<Id, Entry>, n: nat, kind: Kind)
    ensures Released(DestroyAll(l, entries, n), kind) == Released(l, kind) + Owned(entries, kind, n)
    ensures HandedOut(DestroyAll(l, entries, n), kind) == HandedOut(l, kind)
  {}

  lemma CloseBalances(s: State, id: Id, kind: Kind)
    requires Inv(s) && Balanced(s, kind)
    ensures var s' := Close(s, id);
            Inv(s') && s'.nextId == s.nextId && Balanced(s', kind)
  {
    if id in s.contexts {
      OwnedWithout(s.contexts, kind, id, s.nextId);
      DestroyReleases(s.ledger, s.contexts[id], kind);
      hide Destroy, Released, HandedOut, Owned, AllBelow, HandleOf;
      var h := multiset{HandleOf(s.contexts[id], kind)};
      Exchange(Released(s.ledger, kind), Owned(s.contexts - {id}, kind, s.nextId), h);
      assert Released(s.ledger, kind) + (Owned(s.contexts - {id}, kind, s.nextId) + h)
          == (Released(s.ledger, kind) + Owned(s.contexts - {id}, kind, s.nextId)) + h;
    }
  }

  lemma AskedBalances(s: State, call: Call, kind: Kind)
    requires Inv(s) && Balanced(s, kind)
    ensures var s' := s.(ledger := Asked(s.ledger, call)); Inv(s') && Balanced(s', kind)
  {}

  lemma CreateBalances(s: State, spn: string, now: Time, answer: Answer, kind: Kind)
    requires Inv(s) && Balanced(s, kind)
    ensures var s' := Create(s, spn, now, answer).0; Inv(s') && Balanced(s', kind)
  {
    hide Owned, AllBelow, Released, HandedOut;
    var l := s.ledger;
    var asked := s.(ledger := Asked(l, Opening(l.credentials, MakeSpn(spn))));
    AskedBalances(s, Opening(l.credentials, MakeSpn(spn)), kind);
    if answer.acquired && answer.status == Failed {
      RefusedBalances(asked, kind);
    } else if answer.acquired {
      var e := Entry(l.credentials, l.contexts, spn, now, DEFAULT_TTL, true);
      StoredBalances(asked, e, kind);
    }
  }

  lemma RefusedBalances(s: State, kind: Kind)
    requires Balanced(s, kind)
    ensures var l := s.ledger;
            Balanced(s.(ledger := l.(credentials := l.credentials + 1, freed := l.freed + multiset{l.credentials})), kind)
  {
    hide Owned;
    var l := s.ledger;
    Exchange(l.freed, Owned(s.contexts, kind, s.nextId), multiset{l.credentials});
  }

  lemma OwnedWithNew(contexts: map<Id, Entry>, kind: Kind, n: Id, e: Entry)
    requires e.inUse && n !in contexts
    ensures Owned(contexts[n := e], kind, n + 1) == Owned(contexts, kind, n) + multiset{HandleOf(e, kind)}
  {
    OwnedAgrees(contexts, contexts[n := e], kind, n);
  }

  lemma StoredBalances(s: State, e: Entry, kind: Kind)
    requires Inv(s) && Balanced(s, kind)
    requires e.inUse && e.credentials == s.ledger.credentials && e.context == s.ledger.contexts
    ensures var l := s.ledger;
            Balanced(State(s.contexts[s.nextId := e], s.nextId + 1,
                           l.(credentials := l.credentials + 1, contexts := l.contexts + 1)), kind)
  {
    OwnedWithNew(s.contexts, kind, s.nextId, e);
    hide Owned;
    var released, owned := Released(s.ledger, kind), Owned(s.contexts, kind, s.nextId);
    Regroup(released, owned, multiset{HandleOf(e, kind)});
  }

  lemma Regroup(a: multiset<Handle>, b: multiset<Handle>, c: multiset<Handle>)
    ensures a + (b + c) == (a + b) + c
  {}

  lemma CleanupBalances(s: State, now: Time, kind: Kind)
    requires Inv(s) && Balanced(s, kind)
    ensures var s' := Step(s, Cleanup(now)).0; Inv(s') && Balanced(s', kind)
  {
    OwnedSplits(s.contexts, kind, now, s.nextId);
    DestroyAllReleases(s.ledger, Expired(s.contexts, now), s.nextId, kind);
    hide DestroyAll, Released, HandedOut, Owned, AllBelow;
  }

  lemma ShutdownBalances(s: State, kind: Kind)
    requires Inv(s) && Balanced(s, kind)
    ensures var s' := Step(s, Shutdown).0; Inv(s') && Balanced(s', kind)
  {
    OwnedByNobody(kind, s.nextId);
    DestroyAllReleases(s.ledger, s.contexts, s.nextId, kind);
    hide DestroyAll, Released, HandedOut, Owned, AllBelow;
  }

  lemma StepBalances(s: State, event: Event, kind: Kind)
    requires Inv(s) && Balanced(s, kind)
    ensures var s' := Step(s, event).0; Inv(s') && Balanced(s', kind)
  {
    hide Balanced, Create, Close;
    match event
    case Requested(CreateContext(Some(spn)), now, answer) =>
      CreateBalances(s, spn, now, answer, kind);
    case Requested(ContinueContext(Some((id, challenge))), now, answer) =>
      CloseBalances(s, id, kind);
      var l := s.ledger;
      if id in s.contexts && !IsExpired(s.contexts[id], now) {
        var call := Continuing(s.contexts[id].context, Base64.Decode(challenge));
        AskedBalances(s, call, kind);
        CloseBalances(s.(ledger := Asked(l, call)), id, kind);
      }
    case Requested(CloseContext(Some(id)), _, _) =>
      CloseBalances(s, id, kind);
    case Requested(_, _, _) =>
    case Cleanup(now) =>
      CleanupBalances(s, now, kind);
    case Shutdown =>
      ShutdownBalances(s, kind);
  }

  lemma {:induction false} RunBalances(s: State, events: seq<Event>, kind: Kind)
    requires Inv(s) && Balanced(s, kind)
    ensures Inv(Run(s, events)) && Balanced(Run(s, events), kind)
    decreases |events|
  {
    if events != [] {
      StepBalances(s, events[0], kind);
      RunBalances(Step(s, events[0]).0, events[1..], kind);
    }
  }

  lemma {:induction false} AllBelowOnce(n: nat, h: Handle)
    ensures AllBelow(n)[h] == if h < n then 1 else 0
    ensures |AllBelow(n)| == n
  {
    if n > 0 {
      AllBelowOnce(n - 1, h);
    }
  }

  ghost function IdsBelow(contexts: map<Id, Entry>, n: nat): set<Id> {
    set id | id in contexts && id < n
  }

  lemma IdsBelowStep(contexts: map<Id, Entry>, n: nat)
    requires n > 0
    ensures |IdsBelow(contexts, n)| == |IdsBelow(contexts, n - 1)| + if n - 1 in contexts then 1 else 0
  {
    if n - 1 in contexts {
      assert IdsBelow(contexts, n) == IdsBelow(contexts, n - 1) + {n - 1};
    } else {
      assert IdsBelow(contexts, n) == IdsBelow(contexts, n - 1);
    }
  }

  lemma {:induction false} OwnedSize(contexts: map<Id, Entry>, kind: Kind, n: nat)
    requires forall id :: id in contexts ==> contexts[id].inUse
    ensures |Owned(contexts, kind, n)| == |IdsBelow(contexts, n)|
  {
    hide OwnedBy, IdsBelow;
    if n == 0 {
      NoIds(contexts);
    } else {
      OwnedSize(contexts, kind, n - 1);
      IdsBelowStep(contexts, n);
      OwnedBySize(contexts, kind, n - 1);
      SizeOfSum(Owned(contexts, kind, n - 1), OwnedBy(contexts, kind, n - 1));
    }
  }

  lemma NoIds(contexts: map<Id, Entry>)
    ensures IdsBelow(contexts, 0) == {}
  {}

  lemma OwnedBySize(contexts: map<Id, Entry>, kind: Kind, id: Id)
    requires id in contexts ==> contexts[id].inUse
    ensures |OwnedBy(contexts, kind, id)| == if id in contexts then 1 else 0
  {}

  lemma SizeOfSum(a: multiset<Handle>, b: multiset<Handle>)
    ensures |a + b| == |a| + |b|
  {}

  /** The four ways in which a balanced ledger can be read. */
  ghost predicate Conserved(s: State, kind: Kind) {
    && (forall h :: Released(s.ledger, kind)[h] <= 1)
    && (forall h :: h in Released(s.ledger, kind) ==> h < HandedOut(s.ledger, kind))
    && (forall id :: id in s.contexts ==> HandleOf(s.contexts[id], kind) !in Released(s.ledger, kind))
    && HandedOut(s.ledger, kind) == |Released(s.ledger, kind)| + |s.contexts|
  }

  lemma ReleasedOnce(s: State, kind: Kind, h: Handle)
    requires Balanced(s, kind)
    ensures Released(s.ledger, kind)[h] + Owned(s.contexts, kind, s.nextId)[h] == if h < HandedOut(s.ledger, kind) then 1 else 0
  {
    hide Owned, Released, HandedOut, AllBelow;
    AllBelowOnce(HandedOut(s.ledger, kind), h);
    assert (Released(s.ledger, kind) + Owned(s.contexts, kind, s.nextId))[h]
        == Released(s.ledger, kind)[h] + Owned(s.contexts, kind, s.nextId)[h];
  }

  lemma OwnedIsNotReleased(s: State, kind: Kind, id: Id)
    requires Inv(s) && Balanced(s, kind) && id in s.contexts
    ensures HandleOf(s.contexts[id], kind) !in Released(s.ledger, kind)
  {
    hide Owned, Released, HandedOut, AllBelow, HandleOf, Balanced;
    var h := HandleOf(s.contexts[id], kind);
    ReleasedOnce(s, kind, h);
    OwnedWithout(s.contexts, kind, id, s.nextId);
    assert (Owned(s.contexts - {id}, kind, s.nextId) + multiset{h})[h] >= 1;
  }

  lemma BalancedSizes(s: State, kind: Kind)
    requires Inv(s) && Balanced(s, kind)
    ensures HandedOut(s.ledger, kind) == |Released(s.ledger, kind)| + |s.contexts|
  {
    OwnedSize(s.contexts, kind, s.nextId);
    assert IdsBelow(s.contexts, s.nextId) == s.contexts.Keys;
    hide Owned, Released, HandedOut, AllBelow, IdsBelow;
    AllBelowOnce(HandedOut(s.ledger, kind), 0);
    SizeOfSum(Released(s.ledger, kind), Owned(s.contexts, kind, s.nextId));
  }

  /** After every sequence of requests, cleanups and shutdowns, whatever the security package
      answered: no handle was released twice or before it was handed out, a handle owned by a
      stored entry has not been released, and handles handed out minus handles released are
      as many as the stored entries. */
  lemma HandlesAreConserved(events: seq<Event>, kind: Kind)
    ensures Conserved(Run(Initial, events), kind)
  {
    OwnedByNobody(kind, 1);
    RunBalances(Initial, events, kind);
    hide Owned, Released, HandedOut, AllBelow, HandleOf, Balanced, Run;
    var s := Run(Initial, events);
    forall h: Handle
      ensures Released(s.ledger, kind)[h] <= 1 && (h in Released(s.ledger, kind) ==> h < HandedOut(s.ledger, kind))
    {
      ReleasedOnce(s, kind, h);
    }
    forall id | id in s.contexts
      ensures HandleOf(s.contexts[id], kind) !in Released(s.ledger, kind)
    {
      OwnedIsNotReleased(s, kind, id);
    }
    BalancedSizes(s, kind);
  }

  /** Shutting down empties the store and releases every handle ever handed out, each exactly
      once. */
  lemma ShutdownReleasesEverything(events: seq<Event>, kind: Kind)
    ensures Run(Initial, events + [Shutdown]).contexts == map[]
    ensures Released(Run(Initial, events + [Shutdown]).ledger, kind)
         == AllBelow(HandedOut(Run(Initial, events).ledger, kind))
  {
    var s := Run(Initial, events);
    OwnedByNobody(kind, 1);
    RunBalances(Initial, events, kind);
    RunConcat(Initial, events, [Shutdown]);
    assert Run(s, [Shutdown]) == Step(s, Shutdown).0;
  }

  // ---- Ids ------------------------------------------------------------------------

  lemma NextIdGrows(s: State, event: Event)
    requires Inv(s)
    ensures var (s', reply) := Step(s, event);
            && Inv(s') && s.nextId <= s'.nextId
            && (reply.Some? && reply.value.Created? ==> reply.value.id == s.nextId && s'.nextId == s.nextId + 1)
            && forall id :: id in s'.contexts && id < s.nextId ==> id in s.contexts && s'.contexts[id] == s.contexts[id]
  {}

  lemma {:induction false} NextIdGrowsInRun(s: State, events: seq<Event>)
    requires Inv(s)
    ensures var s' := Run(s, events);
            && Inv(s') && s.nextId <= s'.nextId
            && forall id :: id in s'.contexts && id < s.nextId ==> id in s.contexts && s'.contexts[id] == s.contexts[id]
    decreases |events|
  {
    if events != [] {
      NextIdGrows(s, events[0]);
      NextIdGrowsInRun(Step(s, events[0]).0, events[1..]);
    }
  }

  ghost predicate CreatedAt(events: seq<Event>, i: nat, id: Id)
    requires i < |events|
  {
    var reply := Replies(Initial, events)[i];
    reply.Some? && reply.value.Created? && reply.value.id == id
  }

  /** Ids are issued in strictly increasing order, so none is ever issued twice. */
  lemma IdsAreStrictlyIncreasing(events: seq<Event>, i: nat, j: nat, a: Id, b: Id)
    requires i < j < |events| && CreatedAt(events, i, a) && CreatedAt(events, j, b)
    ensures a < b
  {
    var si := Run(Initial, events[..i]);
    ReplyAt(Initial, events, i);
    ReplyAt(Initial, events, j);
    NextIdGrowsInRun(Initial, events[..i]);
    NextIdGrows(si, events[i]);
    var between := events[i + 1..j];
    RunTo(events, i, j);
    NextIdGrowsInRun(Step(si, events[i]).0, between);
    NextIdGrowsInRun(Initial, events[..j]);
    NextIdGrows(Run(Initial, events[..j]), events[j]);
  }

  lemma RunTo(events: seq<Event>, i: nat, j: nat)
    requires i < j <= |events|
    ensures Run(Initial, events[..j]) == Run(Step(Run(Initial, events[..i]), events[i]).0, events[i + 1..j])
  {
    var si := Run(Initial, events[..i]);
    assert events[..j] == events[..i] + ([events[i]] + events[i + 1..j]);
    RunConcat(Initial, events[..i], [events[i]] + events[i + 1..j]);
    RunConcat(si, [events[i]], events[i + 1..j]);
    assert Run(si, [events[i]]) == Step(si, events[i]).0;
  }

  // ---- Liveness of an id ----------------------------------------------------------

  predicate IsLive(s: State, id: Id, now: Time) {
    id in s.contexts && !IsExpired(s.contexts[id], now)
  }

  predicate ContinuesId(event: Event, id: Id) {
    event.Requested? && event.request.ContinueContext? && event.request.params.Some? && event.request.params.value.0 == id
  }

  /** The id is live after a well-formed continue exactly when the reply asks for another
      round; it was live before exactly when the reply is not "not found". */
  lemma LiveIffAskedToContinue(s: State, event: Event, id: Id)
    requires Inv(s) && ContinuesId(event, id)
    ensures var (s', reply) := Step(s, event);
            && (id in s'.contexts <==> reply.value.Continued? && reply.value.more)
            && (reply.value == Error(NOT_FOUND) <==> !IsLive(s, id, event.now))
            && (reply.value.Continued? ==> event.now - s.contexts[id].createdAt <= s.contexts[id].ttl)
  {}

  lemma NotStoredNotFound(s: State, event: Event, id: Id)
    requires ContinuesId(event, id) && id !in s.contexts
    ensures Step(s, event).1 == Some(Error(NOT_FOUND))
  {}

  /** The reply ends the negotiation of its context. */
  predicate IsFinal(reply: Reply) {
    (reply.Continued? && !reply.more) || reply == Error(SSPI_FAILED)
  }

  /** Once a continue of an id is answered with a final token or a failure, every later one
      is answered "not found": an id ends at most once and never comes back. */
  lemma AtMostOneFinalReply(events: seq<Event>, i: nat, j: nat, id: Id)
    requires i < j < |events| && ContinuesId(events[i], id) && ContinuesId(events[j], id)
    requires Replies(Initial, events)[i].Some? && IsFinal(Replies(Initial, events)[i].value)
    ensures Replies(Initial, events)[j] == Some(Error(NOT_FOUND))
  {
    var si := Run(Initial, events[..i]);
    ReplyAt(Initial, events, i);
    ReplyAt(Initial, events, j);
    NextIdGrowsInRun(Initial, events[..i]);
    LiveIffAskedToContinue(si, events[i], id);
    NextIdGrows(si, events[i]);
    RunTo(events, i, j);
    NextIdGrowsInRun(Step(si, events[i]).0, events[i + 1..j]);
    NotStoredNotFound(Run(Initial, events[..j]), events[j], id);
  }

  /** An issued id that is not live at some time is not live at any later time either, whatever
      happens in between. */
  lemma DeadIdsStayDead(s: State, events: seq<Event>, id: Id, now: Time, later: Time)
    requires Inv(s) && id < s.nextId && !IsLive(s, id, now) && now <= later
    ensures !IsLive(Run(s, events), id, later)
  {
    NextIdGrowsInRun(s, events);
  }

  /** Every continue of an issued id after the first one answered "not found" is answered
      "not found" too. */
  lemma NotFoundIsForever(events: seq<Event>, i: nat, j: nat, id: Id)
    requires i < j < |events| && ContinuesId(events[i], id) && ContinuesId(events[j], id)
    requires id < Run(Initial, events[..i]).nextId
    requires Replies(Initial, events)[i] == Some(Error(NOT_FOUND))
    ensures Replies(Initial, events)[j] == Some(Error(NOT_FOUND))
  {
    var si := Run(Initial, events[..i]);
    ReplyAt(Initial, events, i);
    ReplyAt(Initial, events, j);
    NextIdGrowsInRun(Initial, events[..i]);
    LiveIffAskedToContinue(si, events[i], id);
    NextIdGrows(si, events[i]);
    RunTo(events, i, j);
    NextIdGrowsInRun(Step(si, events[i]).0, events[i + 1..j]);
    NotStoredNotFound(Run(Initial, events[..j]), events[j], id);
  }

  /** A token that reaches the service decodes to what the security package produced. */
  lemma TokensSurvive(s: State, event: Event)
    requires event.Requested?
    ensures var reply := Step(s, event).1.value;
            && (reply.Created? ==> Base64.Decode(reply.token) == event.answer.token)
            && (reply.Continued? ==> Base64.Decode(reply.token) == event.answer.token)
  {
    Base64Laws.RoundTrip(event.answer.token);
  }
}
