/** What each request is answered and what it leaves behind, in the terms of the protocol. */
module AuthReplies {
  import opened Options
  import opened Base64Tables
  import opened AuthProtocol
  import opened AuthLaws
  import Base64
  import Base64Laws

  /** The answer to every request: the result, or one of four error codes. */
  lemma ReplyTable(s: State, request: Request, now: Time, answer: Answer)
    ensures Step(s, Requested(request, now, answer)).1.Some?
    ensures var reply := Step(s, Requested(request, now, answer)).1.value;
            var more := answer.status == ContinueNeeded || answer.status == CompleteAndContinue;
            match request
            case Hello(version) => reply == if version.Some? then HelloReply(1) else Error(-32603)
            case Ping => reply == Pong
            case CreateContext(spn) =>
              reply == if spn.None? then Error(-32603)
                       else if !answer.acquired || answer.status == Failed then Error(-1)
                       else Created(s.nextId, Base64.Encode(answer.token), more)
            case ContinueContext(params) =>
              reply == if params.None? then Error(-32603)
                       else if params.value.0 !in s.contexts then Error(-2)
                       else if now > s.contexts[params.value.0].createdAt + s.contexts[params.value.0].ttl then Error(-2)
                       else if answer.status == Failed then Error(-1)
                       else Continued(Base64.Encode(answer.token), more)
            case CloseContext(id) => reply == if id.Some? then Closed else Error(-32603)
            case OtherMethod(_) => reply == Error(-32601)
  {}

  /** Exactly the two handles of `e` have newly been released. */
  predicate ReleasesBoth(before: Ledger, after: Ledger, e: Entry) {
    && after.freed == before.freed + multiset{e.credentials}
    && after.deleted == before.deleted + multiset{e.context}
    && after.credentials == before.credentials && after.contexts == before.contexts
  }

  predicate ReleasesNothing(before: Ledger, after: Ledger) {
    && after.freed == before.freed && after.deleted == before.deleted
    && after.credentials == before.credentials && after.contexts == before.contexts
  }

  /** A context that is created owns the two handles just handed out, lives from now for 1800
      seconds, and is stored under an id of its own; a refused one leaves nothing behind. */
  lemma CreateStores(s: State, spn: string, now: Time, answer: Answer)
    ensures var s' := Step(s, Requested(CreateContext(Some(spn)), now, answer)).0;
            if answer.acquired && answer.status != Failed then
              && s'.nextId == s.nextId + 1
              && s'.contexts == s.contexts[s.nextId :=
                   Entry(s.ledger.credentials, s.ledger.contexts, spn, now, 1_800_000_000_000, true)]
              && s'.ledger.credentials == s.ledger.credentials + 1 && s'.ledger.contexts == s.ledger.contexts + 1
              && s'.ledger.freed == s.ledger.freed && s'.ledger.deleted == s.ledger.deleted
            else
              && s'.nextId == s.nextId && s'.contexts == s.contexts
              && s'.ledger.contexts == s.ledger.contexts && s'.ledger.deleted == s.ledger.deleted
              && s'.ledger.credentials == s.ledger.credentials + (if answer.acquired then 1 else 0)
              && s'.ledger.freed == s.ledger.freed + if answer.acquired then multiset{s.ledger.credentials} else multiset{}
  {}

  /** A continue keeps its context exactly if the context is live and another round follows;
      otherwise the entry, if there was one, goes with both its handles. */
  lemma ContinueKeepsOrReleases(s: State, id: Id, challenge: string, now: Time, answer: Answer)
    requires Inv(s)
    ensures var s' := Step(s, Requested(ContinueContext(Some((id, challenge))), now, answer)).0;
            && s'.nextId == s.nextId
            && if id !in s.contexts then s'.contexts == s.contexts && ReleasesNothing(s.ledger, s'.ledger)
               else if now <= s.contexts[id].createdAt + s.contexts[id].ttl
                    && (answer.status == ContinueNeeded || answer.status == CompleteAndContinue)
               then s'.contexts == s.contexts && ReleasesNothing(s.ledger, s'.ledger)
               else s'.contexts == s.contexts - {id} && ReleasesBoth(s.ledger, s'.ledger, s.contexts[id])
  {}

  /** A close leaves the id unknown and every other entry as it was; if the id was stored,
      exactly its credential and its context handle have newly been released. */
  lemma CloseReleasesBothHandles(s: State, id: Id, now: Time, answer: Answer)
    requires Inv(s)
    ensures var (s', reply) := Step(s, Requested(CloseContext(Some(id)), now, answer));
            && reply == Some(Closed) && s'.nextId == s.nextId
            && id !in s'.contexts
            && (forall other :: other != id ==>
                  (other in s'.contexts <==> other in s.contexts)
                  && (other in s.contexts ==> s'.contexts[other] == s.contexts[other]))
            && if id in s.contexts then ReleasesBoth(s.ledger, s'.ledger, s.contexts[id])
               else ReleasesNothing(s.ledger, s'.ledger)
  {}

  /** Requests that name no context change nothing. */
  lemma OtherRequestsChangeNothing(s: State, request: Request, now: Time, answer: Answer)
    requires request.Hello? || request.Ping? || request.OtherMethod? || request == CreateContext(None)
          || request == ContinueContext(None) || request == CloseContext(None)
    ensures Step(s, Requested(request, now, answer)).0 == s
  {}

  predicate ClosesId(event: Event, id: Id) {
    event.Requested? && event.request == CloseContext(Some(id))
  }

  /** Over every run: once an issued id has been closed, every later continue of it is answered
      "not found". */
  lemma ClosedIsNotFoundForever(events: seq<Event>, i: nat, j: nat, id: Id)
    requires i < j < |events| && ClosesId(events[i], id) && ContinuesId(events[j], id)
    requires id < Run(Initial, events[..i]).nextId
    ensures Replies(Initial, events)[j] == Some(Error(-2))
  {
    var si := Run(Initial, events[..i]);
    NextIdGrowsInRun(Initial, events[..i]);
    CloseReleasesBothHandles(si, id, events[i].now, events[i].answer);
    NextIdGrows(si, events[i]);
    RunTo(events, i, j);
    hide Step, Run;
    NextIdGrowsInRun(Step(si, events[i]).0, events[i + 1..j]);
    NotStoredNotFound(Run(Initial, events[..j]), events[j], id);
    ReplyAt(Initial, events, j);
  }

  /** Over every run: a context created at `t` is live at `now` exactly if it is still stored and
      no more than 1800 seconds have passed since `t`; no later request prolongs it.  Right
      after its creation it is stored. */
  lemma LifetimeIsFixed(events: seq<Event>, i: nat, j: nat, id: Id, now: Time)
    requires i < j <= |events| && CreatedAt(events, i, id)
    ensures events[i].Requested?
    ensures var s := Run(Initial, events[..j]);
            && (IsLive(s, id, now) <==> id in s.contexts && now <= events[i].now + 1_800_000_000_000)
            && (j == i + 1 ==> id in s.contexts)
  {
    var si := Run(Initial, events[..i]);
    ReplyAt(Initial, events, i);
    NextIdGrowsInRun(Initial, events[..i]);
    RunTo(events, i, j);
    var event := events[i];
    CreatedBy(si, event);
    CreateStores(si, event.request.spn.value, event.now, event.answer);
    NextIdGrows(si, event);
    hide Step, Run;
    var s1 := Step(si, event).0;
    NextIdGrowsInRun(s1, events[i + 1..j]);
    if j == i + 1 {
      assert events[i + 1..j] == [];
      NoEvents(s1);
    }
  }

  lemma NoEvents(s: State)
    ensures Run(s, []) == s
  {}

  lemma CreatedBy(s: State, event: Event)
    requires Step(s, event).1.Some? && Step(s, event).1.value.Created?
    ensures event.Requested? && event.request.CreateContext? && event.request.spn.Some?
    ensures event.answer.acquired && event.answer.status != Failed && Step(s, event).1.value.id == s.nextId
  {}

  function CreatedCount(replies: seq<Option<Reply>>): nat {
    if replies == [] then 0
    else (if replies[0].Some? && replies[0].value.Created? then 1 else 0) + CreatedCount(replies[1..])
  }

  lemma {:induction false} IdsCountFrom(s: State, events: seq<Event>)
    requires Inv(s)
    ensures Run(s, events).nextId == s.nextId + CreatedCount(Replies(s, events))
    decreases |events|
  {
    if events != [] {
      NextIdGrows(s, events[0]);
      NextIdStep(s, events[0]);
      hide Step;
      IdsCountFrom(Step(s, events[0]).0, events[1..]);
    }
  }

  lemma NextIdStep(s: State, event: Event)
    ensures var (s', reply) := Step(s, event);
            s'.nextId == s.nextId + if reply.Some? && reply.value.Created? then 1 else 0
  {}

  /** The ids issued are 1, 2, 3 and so on. */
  lemma IdsAreConsecutive(events: seq<Event>, i: nat, id: Id)
    requires i < |events| && CreatedAt(events, i, id)
    ensures id == 1 + CreatedCount(Replies(Initial, events[..i]))
  {
    ReplyAt(Initial, events, i);
    CreatedBy(Run(Initial, events[..i]), events[i]);
    IdsCountFrom(Initial, events[..i]);
  }

  // ---- What the security package is asked for -------------------------------------

  /** The package is asked to open a negotiation for the HTTP service of the host named by a
      create, and to continue one with the stored context handle of the id and the decoded
      challenge of a continue; nothing else reaches it. */
  lemma PackageSees(s: State, event: Event)
    ensures var seen := Step(s, event).0.ledger.seen;
            if event.Requested? && event.request.CreateContext? && event.request.spn.Some? && event.answer.acquired then
              seen == s.ledger.seen + [Opening(s.ledger.credentials, "HTTP/" + event.request.spn.value)]
            else if event.Requested? && event.request.ContinueContext? && event.request.params.Some?
                    && IsLive(s, event.request.params.value.0, event.now) then
              seen == s.ledger.seen + [Continuing(s.contexts[event.request.params.value.0].context,
                                                  Base64.Decode(event.request.params.value.1))]
            else seen == s.ledger.seen
  {}

  /** Over every run: a challenge reaches the package byte for byte, for the context handle that
      was handed out when its id was created. */
  lemma ChallengeReachesItsContext(events: seq<Event>, i: nat, j: nat, id: Id, bytes: seq<Byte>)
    requires i < j < |events| && CreatedAt(events, i, id)
    requires ContinuesId(events[j], id) && events[j].request.params.value.1 == Base64.Encode(bytes)
    requires IsLive(Run(Initial, events[..j]), id, events[j].now)
    ensures var s := Run(Initial, events[..j]);
            Step(s, events[j]).0.ledger.seen
            == s.ledger.seen + [Continuing(Run(Initial, events[..i]).ledger.contexts, bytes)]
  {
    var si := Run(Initial, events[..i]);
    var event := events[i];
    ReplyAt(Initial, events, i);
    NextIdGrowsInRun(Initial, events[..i]);
    RunTo(events, i, j);
    CreatedBy(si, event);
    CreateStores(si, event.request.spn.value, event.now, event.answer);
    NextIdGrows(si, event);
    PackageSees(Run(Initial, events[..j]), events[j]);
    Base64Laws.RoundTrip(bytes);
    hide Step, Run;
    NextIdGrowsInRun(Step(si, event).0, events[i + 1..j]);
  }

  // ---- Cleanup --------------------------------------------------------------------

  lemma OneOwnerInPart(contexts: map<Id, Entry>, kind: Kind, id: Id, n: nat)
    requires id in contexts && contexts[id].inUse && id < n
    ensures HandleOf(contexts[id], kind) in Owned(contexts, kind, n)
  {
    OwnedWithout(contexts, kind, id, n);
    hide Owned, HandleOf;
    assert (Owned(contexts - {id}, kind, n) + multiset{HandleOf(contexts[id], kind)})[HandleOf(contexts[id], kind)] >= 1;
  }

  /** In every reachable state a cleanup keeps exactly the contexts that have not expired,
      unchanged, and of the handles stored entries own it releases exactly those of the
      expired ones. */
  lemma CleanupReleasesTheExpired(events: seq<Event>, now: Time, kind: Kind)
    ensures var s := Run(Initial, events);
            var s' := Step(s, Cleanup(now)).0;
            && (forall id :: id in s'.contexts <==>
                  id in s.contexts && now <= s.contexts[id].createdAt + s.contexts[id].ttl)
            && (forall id :: id in s'.contexts ==> s'.contexts[id] == s.contexts[id])
            && Released(s.ledger, kind) <= Released(s'.ledger, kind)
            && HandedOut(s'.ledger, kind) == HandedOut(s.ledger, kind)
            && forall id :: id in s.contexts ==>
                 (HandleOf(s.contexts[id], kind) in Released(s'.ledger, kind) <==>
                  now > s.contexts[id].createdAt + s.contexts[id].ttl)
  {
    var s := Run(Initial, events);
    var s' := Step(s, Cleanup(now)).0;
    OwnedByNobody(kind, 1);
    RunBalances(Initial, events, kind);
    CleanupBalances(s, now, kind);
    DestroyAllReleases(s.ledger, Expired(s.contexts, now), s.nextId, kind);
    assert s'.contexts == Unexpired(s.contexts, now);
    forall id | id in s.contexts
      ensures HandleOf(s.contexts[id], kind) in Released(s'.ledger, kind) <==>
              now > s.contexts[id].createdAt + s.contexts[id].ttl
    {
      if id in s'.contexts {
        OwnedIsNotReleased(s', kind, id);
      } else {
        OneOwnerInPart(Expired(s.contexts, now), kind, id, s.nextId);
      }
    }
  }
}
