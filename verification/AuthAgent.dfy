/** The auth agent's objects: the security package's handles, the context store and the
    request dispatcher, proved to be the step of module AuthProtocol. */
module AuthAgent {
  import opened Options
  import opened Base64Tables
  import opened AuthProtocol
  import Base64
  import AuthLaws

  /** Hands out handles and takes them back. */
  class SecurityPackage {
    var credentials: nat
    var contexts: nat
    var freed: multiset<Handle>
    var deleted: multiset<Handle>
    var seen: seq<Call>

    ghost function View(): Ledger
      reads this
    {
      Ledger(credentials, contexts, freed, deleted, seen)
    }

    constructor ()
      ensures View() == Initial.ledger
    {
      credentials, contexts, freed, deleted, seen := 0, 0, multiset{}, multiset{}, [];
    }

    method AcquireCredentials() returns (h: Handle)
      modifies this
      ensures h == old(credentials) && View() == old(View()).(credentials := h + 1)
    {
      h := credentials;
      credentials := credentials + 1;
    }

    /** The first step of a negotiation; it yields a handle unless it fails. */
    method InitializeContext(credentials: Handle, target: string, failed: bool) returns (h: Handle)
      modifies this
      ensures h == old(contexts)
      ensures View() == Asked(old(View()), Opening(credentials, target)).(contexts := if failed then h else h + 1)
    {
      h := contexts;
      seen := seen + [Opening(credentials, target)];
      if !failed {
        contexts := contexts + 1;
      }
    }

    method ContinueContext(context: Handle, challenge: seq<Byte>)
      modifies this
      ensures View() == Asked(old(View()), Continuing(context, challenge))
    {
      seen := seen + [Continuing(context, challenge)];
    }

    method FreeCredentials(h: Handle)
      modifies this
      ensures View() == old(View()).(freed := old(freed) + multiset{h})
    {
      freed := freed + multiset{h};
    }

    method DeleteContext(h: Handle)
      modifies this
      ensures View() == old(View()).(deleted := old(deleted) + multiset{h})
    {
      deleted := deleted + multiset{h};
    }
  }

  datatype StepResult = StepResult(success: bool, token: string, needsContinue: bool)

  class SspiEngine {
    const sspi: SecurityPackage

    constructor (sspi: SecurityPackage)
      ensures this.sspi == sspi
    {
      this.sspi := sspi;
    }

    /** On success the caller owns both handles, otherwise it owns none. */
    method CreateContext(spn: string, answer: Answer)
      returns (result: StepResult, credentials: Handle, context: Handle)
      modifies sspi
      ensures result.success <==> answer.acquired && answer.status != Failed
      ensures result.success ==>
                && result == StepResult(true, Base64.Encode(answer.token), MoreRounds(answer.status))
                && credentials == old(sspi.credentials) && context == old(sspi.contexts)
                && sspi.View() == old(sspi.View()).(credentials := credentials + 1, contexts := context + 1,
                                                    seen := old(sspi.seen) + [Opening(credentials, "HTTP/" + spn)])
      ensures !result.success ==>
                sspi.View() == if answer.acquired
                               then old(sspi.View()).(credentials := old(sspi.credentials) + 1,
                                                      freed := old(sspi.freed) + multiset{old(sspi.credentials)},
                                                      seen := old(sspi.seen) + [Opening(old(sspi.credentials), "HTTP/" + spn)])
                               else old(sspi.View())
    {
      result := StepResult(false, [], false);
      credentials, context := 0, 0;
      if !answer.acquired {
        return;
      }
      credentials := sspi.AcquireCredentials();
      context := sspi.InitializeContext(credentials, MakeSpn(spn), answer.status == Failed);
      if answer.status != Failed {
        var token := Base64.Base64Encode(answer.token);
        result := StepResult(true, token, MoreRounds(answer.status));
      } else {
        sspi.FreeCredentials(credentials);
      }
    }

    /** Neither acquires nor releases a handle; the package sees the decoded challenge. */
    method ContinueContext(context: Handle, challenge: string, answer: Answer) returns (result: StepResult)
      modifies sspi
      ensures sspi.View() == old(sspi.View()).(seen := old(sspi.seen) + [Continuing(context, Base64.Decode(challenge))])
      ensures result == if answer.status == Failed then StepResult(false, [], false)
                        else StepResult(true, Base64.Encode(answer.token), MoreRounds(answer.status))
    {
      var bytes := Base64.Base64Decode(challenge);
      sspi.ContinueContext(context, bytes);
      if answer.status == Failed {
        return StepResult(false, [], false);
      }
      var token := Base64.Base64Encode(answer.token);
      return StepResult(true, token, MoreRounds(answer.status));
    }
  }

  lemma ErasedExpired(contexts: map<Id, Entry>, id: Id, now: Time)
    requires id in contexts && IsExpired(contexts[id], now)
    ensures id in Expired(contexts, now) && Expired(contexts, now)[id] == contexts[id]
    ensures Expired(contexts - {id}, now) == Expired(contexts, now) - {id}
    ensures Unexpired(contexts - {id}, now) == Unexpired(contexts, now)
  {}

  lemma UnexpiredAre(contexts: map<Id, Entry>, now: Time)
    ensures forall id :: id in Unexpired(contexts, now) <==>
              id in contexts && now - contexts[id].createdAt <= contexts[id].ttl
    ensures forall id :: id in Unexpired(contexts, now) ==> Unexpired(contexts, now)[id] == contexts[id]
  {}

  lemma NothingExpired(contexts: map<Id, Entry>, now: Time)
    requires forall id :: id in contexts ==> !IsExpired(contexts[id], now)
    ensures Expired(contexts, now) == map[] && Unexpired(contexts, now) == contexts
  {}

  class ContextStore {
    const sspi: SecurityPackage
    var contexts: map<Id, Entry>
    var nextId: Id

    ghost predicate Valid()
      reads this
    {
      forall id :: id in contexts ==> id < nextId
    }

    ghost function View(): State
      reads this, sspi
    {
      State(contexts, nextId, sspi.View())
    }

    constructor (sspi: SecurityPackage)
      requires sspi.View() == Initial.ledger
      ensures Valid() && View() == Initial && this.sspi == sspi
    {
      this.sspi := sspi;
      contexts, nextId := map[], 1;
    }

    method Create(credentials: Handle, context: Handle, spn: string, now: Time, ttl: nat) returns (id: Id)
      requires Valid()
      modifies this
      ensures Valid()
      ensures id == old(nextId) && nextId == id + 1
      ensures contexts == old(contexts)[id := Entry(credentials, context, spn, now, ttl, true)]
    {
      id := nextId;
      nextId := nextId + 1;
      contexts := contexts[id := Entry(credentials, context, spn, now, ttl, true)];
    }

    method DestroyContext(id: Id)
      requires Valid() && id in contexts
      modifies this`contexts, sspi
      ensures Valid() && contexts == old(contexts)[id := old(contexts)[id].(inUse := false)]
      ensures sspi.View() == Destroy(old(sspi.View()), old(contexts)[id])
    {
      var entry := contexts[id];
      if entry.inUse {
        sspi.DeleteContext(entry.context);
        sspi.FreeCredentials(entry.credentials);
        contexts := contexts[id := entry.(inUse := false)];
      } else {
        assert contexts == contexts[id := entry.(inUse := false)];
      }
    }

    method Get(id: Id, now: Time) returns (entry: Option<Entry>)
      requires Valid()
      modifies this`contexts, sspi
      ensures Valid() && AuthProtocol.Get(old(View()), id, now) == (View(), entry)
    {
      if id !in contexts {
        return None;
      }
      if IsExpired(contexts[id], now) {
        Erase(id);
        return None;
      }
      return Some(contexts[id]);
    }

    method Erase(id: Id)
      requires Valid() && id in contexts
      modifies this`contexts, sspi
      ensures Valid() && View() == AuthProtocol.Close(old(View()), id)
      ensures contexts == old(contexts) - {id} && sspi.View() == Destroy(old(sspi.View()), old(contexts)[id])
    {
      DestroyContext(id);
      contexts := contexts - {id};
    }

    method Close(id: Id)
      requires Valid()
      modifies this`contexts, sspi
      ensures Valid() && View() == AuthProtocol.Close(old(View()), id)
    {
      if id !in contexts {
        return;
      }
      Erase(id);
    }

    /** Erases while iterating, in whatever order the table yields its entries. */
    method CleanupExpired(now: Time)
      requires Valid()
      modifies this`contexts, sspi
      ensures Valid() && View() == Step(old(View()), Cleanup(now)).0
      ensures forall id :: id in contexts <==>
                id in old(contexts) && now - old(contexts)[id].createdAt <= old(contexts)[id].ttl
      ensures forall id :: id in contexts ==> contexts[id] == old(contexts)[id]
    {
      hide Owned, Expired, Unexpired, DestroyAll, IsExpired;
      ghost var before, ledger := contexts, sspi.View();
      var todo := contexts.Keys;
      while todo != {}
        invariant Valid() && todo <= contexts.Keys
        invariant Unexpired(contexts, now) == Unexpired(before, now)
        invariant forall id :: id in contexts && id !in todo ==> !IsExpired(contexts[id], now)
        invariant DestroyAll(sspi.View(), Expired(contexts, now), nextId) == DestroyAll(ledger, Expired(before, now), nextId)
        decreases |todo|
      {
        var id :| id in todo;
        if IsExpired(contexts[id], now) {
          ErasedExpired(contexts, id, now);
          DestroyOneOfMany(sspi.View(), Expired(contexts, now), id, nextId);
          Erase(id);
        }
        todo := todo - {id};
      }
      NothingExpired(contexts, now);
      UnexpiredAre(before, now);
      DestroyNone(sspi.View(), nextId);
    }

    method Clear()
      requires Valid()
      modifies this`contexts, sspi
      ensures Valid() && View() == Step(old(View()), Shutdown).0
    {
      hide Owned;
      ghost var before, ledger := contexts, sspi.View();
      ghost var left := contexts;
      var todo := contexts.Keys;
      while todo != {}
        invariant Valid() && todo == left.Keys && todo <= contexts.Keys
        invariant forall id :: id in todo ==> contexts[id] == left[id]
        invariant forall id :: id in left ==> id < nextId
        invariant DestroyAll(sspi.View(), left, nextId) == DestroyAll(ledger, before, nextId)
        decreases |todo|
      {
        var id :| id in todo;
        DestroyOneOfMany(sspi.View(), left, id, nextId);
        DestroyContext(id);
        left := left - {id};
        todo := todo - {id};
      }
      assert left == map[];
      DestroyNone(sspi.View(), nextId);
      contexts := map[];
    }

    /** The security contexts still held: handles of either kind handed out and not released. */
    method Size() returns (n: nat)
      ensures n == |contexts|
      ensures forall kind :: AuthLaws.Conserved(View(), kind) ==>
                HandedOut(sspi.View(), kind) == |Released(sspi.View(), kind)| + n
    {
      return |contexts|;
    }
  }

  lemma DestroyNone(l: Ledger, n: nat)
    ensures DestroyAll(l, map[], n) == l
  {
    AuthLaws.OwnedByNobody(Credentials, n);
    AuthLaws.OwnedByNobody(Context, n);
  }

  /** Destroying one entry first and the others afterwards destroys them all. */
  lemma DestroyOneOfMany(l: Ledger, entries: map<Id, Entry>, id: Id, n: nat)
    requires id in entries && id < n
    ensures DestroyAll(Destroy(l, entries[id]), entries - {id}, n) == DestroyAll(l, entries, n)
  {
    AuthLaws.OwnedWithout(entries, Credentials, id, n);
    AuthLaws.OwnedWithout(entries, Context, id, n);
    hide Owned;
    AuthLaws.Exchange(l.freed, Owned(entries - {id}, Credentials, n), OwnedBy(entries, Credentials, id));
    AuthLaws.Regroup(l.freed, Owned(entries - {id}, Credentials, n), OwnedBy(entries, Credentials, id));
    AuthLaws.Exchange(l.deleted, Owned(entries - {id}, Context, n), OwnedBy(entries, Context, id));
    AuthLaws.Regroup(l.deleted, Owned(entries - {id}, Context, n), OwnedBy(entries, Context, id));
  }

  class AuthAgent {
    const engine: SspiEngine
    const store: ContextStore

    ghost predicate Valid()
      reads this, store
    {
      store.Valid() && store.sspi == engine.sspi
    }

    constructor ()
      ensures Valid() && store.View() == Initial
      ensures fresh(store) && fresh(store.sspi)
    {
      var sspi := new SecurityPackage();
      engine := new SspiEngine(sspi);
      store := new ContextStore(sspi);
    }

    method HandleRequest(request: Request, now: Time, answer: Answer) returns (reply: Reply)
      requires Valid()
      modifies store, store.sspi
      ensures Valid() && Respond(old(store.View()), request, now, answer) == (store.View(), reply)
    {
      match request
      case Hello(Some(_)) =>
        return HelloReply(1);
      case Ping =>
        return Pong;
      case CreateContext(Some(spn)) =>
        var result, credentials, context := engine.CreateContext(spn, answer);
        if !result.success {
          return Error(SSPI_FAILED);
        }
        var id := store.Create(credentials, context, spn, now, DEFAULT_TTL);
        return Created(id, result.token, result.needsContinue);
      case ContinueContext(Some((id, challenge))) =>
        var entry := store.Get(id, now);
        if entry.None? {
          return Error(NOT_FOUND);
        }
        var result := engine.ContinueContext(entry.value.context, challenge, answer);
        if !result.success {
          store.Close(id);
          return Error(SSPI_FAILED);
        }
        if !result.needsContinue {
          store.Close(id);
        }
        return Continued(result.token, result.needsContinue);
      case CloseContext(Some(id)) =>
        store.Close(id);
        return Closed;
      case OtherMethod(_) =>
        return Error(METHOD_NOT_FOUND);
      case _ =>
        return Error(INTERNAL_ERROR);
    }

    method HandleEvent(event: Event) returns (reply: Option<Reply>)
      requires Valid()
      modifies store, store.sspi
      ensures Valid() && Step(old(store.View()), event) == (store.View(), reply)
    {
      match event
      case Requested(request, now, answer) =>
        var r := HandleRequest(request, now, answer);
        return Some(r);
      case Cleanup(now) =>
        store.CleanupExpired(now);
        return None;
      case Shutdown =>
        store.Clear();
        return None;
    }

    /** Serves a whole sequence of requests, cleanups and shutdowns. */
    method Serve(events: seq<Event>) returns (replies: seq<Option<Reply>>)
      requires Valid()
      modifies store, store.sspi
      ensures Valid() && store.View() == Run(old(store.View()), events)
      ensures replies == Replies(old(store.View()), events)
      ensures old(store.View()) == Initial ==> forall kind :: AuthLaws.Conserved(store.View(), kind)
    {
      hide Step;
      ghost var start := store.View();
      replies := [];
      for i := 0 to |events|
        invariant Valid()
        invariant store.View() == Run(start, events[..i])
        invariant replies == Replies(start, events[..i])
      {
        RunSnoc(start, events[..i], events[i]);
        assert events[..i + 1] == events[..i] + [events[i]];
        var reply := HandleEvent(events[i]);
        replies := replies + [reply];
      }
      assert events[..|events|] == events;
      forall kind: Kind
        ensures start == Initial ==> AuthLaws.Conserved(Run(start, events), kind)
      {
        if start == Initial {
          AuthLaws.HandlesAreConserved(events, kind);
        }
      }
    }
  }

  lemma {:induction false} RunSnoc(s: State, events: seq<Event>, event: Event)
    ensures Run(s, events + [event]) == Step(Run(s, events), event).0
    ensures Replies(s, events + [event]) == Replies(s, events) + [Step(Run(s, events), event).1]
    decreases |events|
  {
    if events == [] {
      assert [event][1..] == [];
    } else {
      RunSnoc(Step(s, events[0]).0, events[1..], event);
      assert (events + [event])[1..] == events[1..] + [event];
    }
  }
}
