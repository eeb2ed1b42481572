/** The server's handlers as they are written, each running by itself over the shared maps.
    Every handler takes a run of `Registry` steps. */
module Servers {
  import opened Bytes
  import opened Registry
  import opened RegistryAgreement

  datatype Outcome = BadRequest | PortInUse | ListenFailed | SendFailed | Created

  datatype NewProxyRequest = NewProxyRequest(name: string, port: int)

  /** The state in which `cleanupClient` of `c` has closed the proxies under the keys `ks`: they
      and nothing else are marked closed, their ports and nothing else are gone from
      `s.proxies`, and the client's map is as it was. */
  ghost function Closed(s: State, c: ClientId, ks: set<Key>): State
    requires Known(s) && ks <= s.owned.Keys
  {
    s.(objects := map pid | pid in s.objects ::
         s.objects[pid].(closed := s.objects[pid].closed || exists k :: k in ks && s.owned[k] == pid),
       proxies := map p | p in s.proxies && !(exists k :: k in ks && s.objects[s.owned[k]].port == p) :: s.proxies[p],
       cleaning := s.cleaning[c := Cleaning(OfClient(s, c) - ks, None)])
  }

  /** The state after the clean-up: all the client's proxies are closed, and its map is empty. */
  ghost function Cleaned(s: State, c: ClientId): State
    requires Known(s)
  {
    Closed(s, c, OfClient(s, c)).(owned := s.owned - OfClient(s, c), cleaning := s.cleaning)
  }

  /** The state after `handleNewProxy` with each outcome. */
  function Handled(s: State, c: ClientId, name: string, port: int, pid: ProxyId, outcome: Outcome): State {
    match outcome
    case Created => Registered(s, c, name, port, pid)
    case SendFailed =>
      s.(objects := s.objects[pid := Proxy(name, port, c, false)], owned := s.owned - {(c, name)})
    case _ => s
  }

  /** What a clean-up leaves, entry by entry: the client's proxies are closed and their ports are
      gone, the client's map is empty, and everything else is as it was. */
  lemma CleanedExactly(s: State, c: ClientId)
    requires Known(s)
    ensures var t := Cleaned(s, c);
            && (forall pid :: pid in t.objects <==> pid in s.objects)
            && (forall pid | pid in s.objects ::
                  && t.objects[pid].(closed := false) == s.objects[pid].(closed := false)
                  && (t.objects[pid].closed <==> s.objects[pid].closed || exists name :: (c, name) in s.owned && s.owned[(c, name)] == pid))
            && (forall p :: p in t.proxies <==>
                  p in s.proxies && !(exists name :: (c, name) in s.owned && s.objects[s.owned[(c, name)]].port == p))
            && (forall p | p in t.proxies :: t.proxies[p] == s.proxies[p])
            && (forall k :: k in t.owned <==> k in s.owned && k.0 != c)
            && (forall k | k in t.owned :: t.owned[k] == s.owned[k])
            && t.clients == s.clients && t.admitted == s.admitted && t.pending == s.pending && t.running == s.running
  {
    var ks := OfClient(s, c);
    assert forall k | k in ks :: k == (c, k.1) && (c, k.1) in s.owned;
    assert forall name | (c, name) in s.owned :: (c, name) in ks;
  }

  lemma MoveOne<T>(all: set<T>, done: set<T>, todo: set<T>, x: T)
    requires done + todo == all && done !! todo && x in todo
    ensures (done + {x}) + (todo - {x}) == all && (done + {x}) !! (todo - {x})
    ensures |done + {x}| == |done| + 1
  {
  }

  lemma LockRun(s: State, c: ClientId)
    requires Known(s) && CanStep(s, Lock(c))
    ensures Next(s, Lock(c)) == Closed(s, c, {})
  {
    var t := Closed(s, c, {});
    assert t.proxies == s.proxies;
    assert t.objects == s.objects;
    assert OfClient(s, c) - {} == OfClient(s, c);
  }

  /** One round of the loop of `cleanupClient` is two steps. */
  lemma CloseRun(s: State, c: ClientId, ks: set<Key>, name: string)
    requires Known(s) && ks <= OfClient(s, c) && (c, name) in s.owned && (c, name) !in ks
    ensures var t := Closed(s, c, ks);
            && CanStep(t, Close(c, name)) && CanStep(Next(t, Close(c, name)), Delete(c))
            && Next(Next(t, Close(c, name)), Delete(c)) == Closed(s, c, ks + {(c, name)})
  {
    var k := (c, name);
    var t, u := Closed(s, c, ks), Closed(s, c, ks + {k});
    OneMoreClosed(s, c, ks, k);
    assert OfClient(s, c) - ks - {k} == OfClient(s, c) - (ks + {k});
    assert t.cleaning[c := Cleaning(OfClient(s, c) - (ks + {k}), None)] == u.cleaning;
    var v := Next(Next(t, Close(c, name)), Delete(c));
    assert v.cleaning == u.cleaning && v.proxies == u.proxies && v.objects == u.objects;
  }

  lemma OneMoreClosed(s: State, c: ClientId, ks: set<Key>, k: Key)
    requires Known(s) && ks <= s.owned.Keys && k in s.owned
    ensures var t, u, pid := Closed(s, c, ks), Closed(s, c, ks + {k}), s.owned[k];
            && u.objects == t.objects[pid := t.objects[pid].(closed := true)]
            && u.proxies == t.proxies - {s.objects[pid].port}
  {
    var t, u := Closed(s, c, ks), Closed(s, c, ks + {k});
    var objects := t.objects[s.owned[k] := t.objects[s.owned[k]].(closed := true)];
    assert k in ks + {k};
    forall pid | pid in s.objects ensures objects[pid] == u.objects[pid] {
    }
    assert objects == u.objects;
    assert t.proxies - {s.objects[s.owned[k]].port} == u.proxies;
  }

  lemma ExtendedByClose(s: State, c: ClientId, ks: set<Key>, name: string, es: seq<Event>)
    requires Known(s) && ks <= OfClient(s, c) && (c, name) in s.owned && (c, name) !in ks
    requires Runs(s, es) && Run(s, es) == Closed(s, c, ks)
    ensures var es' := es + [Close(c, name), Delete(c)];
            Runs(s, es') && Run(s, es') == Closed(s, c, ks + {(c, name)})
    ensures ks + {(c, name)} <= OfClient(s, c)
    ensures var pid := s.owned[(c, name)]; var t, u := Closed(s, c, ks), Closed(s, c, ks + {(c, name)});
            && u.objects == t.objects[pid := t.objects[pid].(closed := true)]
            && u.proxies == t.proxies - {s.objects[pid].port}
  {
    OneMoreClosed(s, c, ks, (c, name));
    CloseRun(s, c, ks, name);
    TwoSteps(Closed(s, c, ks), [Close(c, name), Delete(c)]);
    RunsAppend(s, es, [Close(c, name), Delete(c)]);
  }

  lemma UnlockRun(s: State, c: ClientId)
    requires Known(s) && c !in s.cleaning
    ensures var t := Closed(s, c, OfClient(s, c));
            CanStep(t, Unlock(c)) && Next(t, Unlock(c)) == Cleaned(s, c)
  {
    var t := Closed(s, c, OfClient(s, c));
    assert OfClient(s, c) - OfClient(s, c) == {};
    assert OfClient(t, c) == OfClient(s, c);
    assert t.cleaning - {c} == s.cleaning;
  }

  class Server {
    var clients: map<string, ClientId>
    var admitted: map<ClientId, string>
    var proxies: map<int, ProxyId>
    var owned: map<(ClientId, string), ProxyId>
    var objects: map<ProxyId, Proxy>
    ghost var pending: map<ClientId, Pending>
    ghost var cleaning: map<ClientId, Cleaning>
    var running: set<ProxyId>
    var activeProxies: int

    ghost function Now(): State
      reads this
    {
      State(clients, admitted, proxies, owned, objects, pending, cleaning, running)
    }

    /** Every id leads to a client that was admitted under it. */
    ghost predicate ClientsValid()
      reads this
    {
      forall id | id in clients :: clients[id] in admitted && admitted[clients[id]] == id
    }

    constructor ()
      ensures Now() == EMPTY && activeProxies == 0 && ClientsValid()
    {
      clients, admitted, proxies, owned, objects := map[], map[], map[], map[], map[];
      pending, cleaning, running, activeProxies := map[], map[], {}, 0;
    }

    /** `handleNewProxy`, with the results of decoding the request, of `net.Listen` and of
        sending the response. A failed response takes everything back, and also forgets an
        older proxy of the client that happened to have the same name. */
    method HandleNewProxy(c: ClientId, req: Option<NewProxyRequest>, pid: ProxyId, listens: bool, sends: bool)
      returns (outcome: Outcome, ghost es: seq<Event>)
      requires c in admitted && c !in pending && c !in cleaning && pid !in objects
      modifies this`proxies, this`owned, this`objects, this`running, this`activeProxies
      ensures outcome == if req == None then BadRequest
                         else if req.value.port in old(proxies) then PortInUse
                         else if !listens then ListenFailed
                         else if !sends then SendFailed else Created
      ensures if req == None then Now() == old(Now())
              else Now() == Handled(old(Now()), c, req.value.name, req.value.port, pid, outcome)
      ensures outcome == Created ==>
        var k := (c, req.value.name);
        && objects == old(objects)[pid := Proxy(req.value.name, req.value.port, c, false)]
        && proxies == old(proxies)[req.value.port := pid] && owned == old(owned)[k := pid]
        && running == old(running) + {pid}
      ensures outcome == SendFailed ==>
        && objects == old(objects)[pid := Proxy(req.value.name, req.value.port, c, false)]
        && proxies == old(proxies) && owned == old(owned) - {(c, req.value.name)} && running == old(running)
      ensures outcome != Created && outcome != SendFailed ==>
        objects == old(objects) && proxies == old(proxies) && owned == old(owned) && running == old(running)
      ensures activeProxies == old(activeProxies) + if outcome == Created then 1 else 0
      ensures Runs(old(Now()), es) && Now() == Run(old(Now()), es)
    {
      if req == None {
        outcome, es := BadRequest, [];
        return;
      }
      var NewProxyRequest(name, port) := req.value;
      if port in proxies {
        outcome, es := PortInUse, [Check(c, name, port)];
        OneStep(Now(), Check(c, name, port));
      } else if !listens {
        outcome, es := ListenFailed, [Check(c, name, port), Listen(c, false, pid)];
        ListenFailedRun(Now(), c, name, port, pid);
      } else {
        outcome, es := StoreProxy(c, name, port, pid, sends);
      }
    }

    /** `handleNewProxy` once the port is listened on. */
    method StoreProxy(c: ClientId, name: string, port: int, pid: ProxyId, sends: bool)
      returns (outcome: Outcome, ghost es: seq<Event>)
      requires CanRegister(Now(), c, port, pid)
      modifies this`proxies, this`owned, this`objects, this`running, this`activeProxies
      ensures outcome == if sends then Created else SendFailed
      ensures Now() == Handled(old(Now()), c, name, port, pid, outcome)
      ensures activeProxies == old(activeProxies) + if outcome == Created then 1 else 0
      ensures Runs(old(Now()), es) && Now() == Run(old(Now()), es)
    {
      outcome := if sends then Created else SendFailed;
      es := HandledRun(Now(), c, name, port, pid, outcome);
      objects := objects[pid := Proxy(name, port, c, false)];
      proxies := proxies[port := pid];
      owned := owned[(c, name) := pid];
      activeProxies := activeProxies + 1;
      if sends {
        running := running + {pid};
      } else {
        proxies := proxies - {port};
        owned := owned - {(c, name)};
        activeProxies := activeProxies - 1;
      }
    }

    /** The steps `es` from `s` on have closed the proxies under the keys `done`. */
    ghost predicate ClosedBy(s: State, c: ClientId, done: set<Key>, es: seq<Event>)
      reads this
    {
      && Known(s) && done <= OfClient(s, c)
      && Now() == Closed(s, c, done)
      && Runs(s, es) && Now() == Run(s, es)
    }

    /** One round of the loop of `cleanupClient`, of two accesses that others can come between;
        the keys `done` were handled before. */
    method CloseOwned(k: Key, ghost s: State, ghost done: set<Key>, ghost es: seq<Event>)
      returns (ghost es': seq<Event>)
      requires ClosedBy(s, k.0, done, es) && k in s.owned && k !in done
      modifies this`proxies, this`objects, this`cleaning, this`activeProxies
      ensures ClosedBy(s, k.0, done + {k}, es') && es' == es + [Close(k.0, k.1), Delete(k.0)]
      ensures activeProxies == old(activeProxies) - 1
    {
      ExtendedByClose(s, k.0, done, k.1, es);
      es' := es + [Close(k.0, k.1), Delete(k.0)];
      var pid := owned[k];
      objects := objects[pid := objects[pid].(closed := true)];
      proxies := proxies - {objects[pid].port};
      activeProxies := activeProxies - 1;
      cleaning := Closed(s, k.0, done + {k}).cleaning;
    }

    /** The loop of `cleanupClient`. */
    method CloseEach(c: ClientId, ghost s: State, ghost es: seq<Event>) returns (ghost es': seq<Event>)
      requires ClosedBy(s, c, {}, es)
      modifies this`proxies, this`objects, this`cleaning, this`activeProxies
      ensures ClosedBy(s, c, OfClient(s, c), es')
      ensures activeProxies == old(activeProxies) - |OfClient(s, c)|
    {
      var todo := set k | k in owned && k.0 == c;
      ghost var done: set<Key> := {};
      es' := es;
      while todo != {}
        invariant done + todo == OfClient(s, c) && done !! todo
        invariant ClosedBy(s, c, done, es')
        invariant activeProxies == old(activeProxies) - |done|
        decreases |todo|
      {
        var k :| k in todo;
        es' := CloseOwned(k, s, done, es');
        MoveOne(OfClient(s, c), done, todo, k);
        done := done + {k};
        todo := todo - {k};
      }
      assert done == OfClient(s, c);
    }

    /** `client.proxies = make(map[string]*Proxy)`, and the client's mutex is released. */
    method EmptyMap(c: ClientId, ghost s: State, ghost es: seq<Event>)
      requires c !in s.cleaning && ClosedBy(s, c, OfClient(s, c), es)
      modifies this`owned, this`cleaning
      ensures Now() == Cleaned(s, c)
      ensures Runs(s, es + [Unlock(c)]) && Now() == Run(s, es + [Unlock(c)])
    {
      UnlockRun(s, c);
      RunSnoc(s, es, Unlock(c));
      owned := map k | k in owned && k.0 != c :: owned[k];
      cleaning := s.cleaning;
      assert owned == s.owned - OfClient(s, c);
    }

    /** `cleanupClient` while it holds the client's mutex. */
    method CloseAll(c: ClientId) returns (ghost es: seq<Event>)
      requires c in admitted && c !in cleaning && Known(Now())
      modifies this`proxies, this`owned, this`objects, this`cleaning, this`activeProxies
      ensures Now() == Cleaned(old(Now()), c)
      ensures activeProxies == old(activeProxies) - |OfClient(old(Now()), c)|
      ensures Runs(old(Now()), es) && Now() == Run(old(Now()), es)
    {
      ghost var s := Now();
      LockRun(s, c);
      OneStep(s, Lock(c));
      cleaning := Next(s, Lock(c)).cleaning;
      es := CloseEach(c, s, [Lock(c)]);
      EmptyMap(c, s, es);
      es := es + [Unlock(c)];
    }

    /** `cleanupClient`: closes every proxy of the client, deletes their ports, empties the
        client's map and deletes the client's id, whichever client that id now leads to. */
    method CleanupClient(c: ClientId) returns (ghost es: seq<Event>)
      requires c in admitted && c !in cleaning && Known(Now())
      modifies this`clients, this`proxies, this`owned, this`objects, this`cleaning, this`activeProxies
      ensures Now() == Cleaned(old(Now()), c).(clients := old(clients) - {admitted[c]})
      ensures activeProxies == old(activeProxies) - |OfClient(old(Now()), c)|
      ensures Runs(old(Now()), es) && Now() == Run(old(Now()), es)
    {
      ghost var s := Now();
      es := CloseAll(c);
      RunSnoc(s, es, Leave(c));
      es := es + [Leave(c)];
      clients := clients - {admitted[c]};
    }

    /** The end of `runProxy`: the port is deleted, whoever has it by now. */
    method RunProxyExit(pid: ProxyId) returns (ghost es: seq<Event>)
      requires pid in running && pid in objects && objects[pid].closed
      modifies this`proxies, this`running, this`activeProxies
      ensures proxies == old(proxies) - {objects[pid].port} && running == old(running) - {pid}
      ensures activeProxies == old(activeProxies) - 1
      ensures Runs(old(Now()), es) && Now() == Run(old(Now()), es)
    {
      ghost var s := Now();
      proxies := proxies - {objects[pid].port};
      running := running - {pid};
      activeProxies := activeProxies - 1;
      es := [Exit(pid)];
      OneStep(s, Exit(pid));
    }

    /** The end of `handleAuth`: an older client with the same id is cleaned up first. */
    method Register(c: ClientId, id: string) returns (ghost es: seq<Event>)
      requires c !in admitted && ClientsValid() && Known(Now())
      requires id in clients ==> clients[id] !in cleaning
      modifies this`clients, this`admitted, this`proxies, this`owned, this`objects, this`cleaning, this`activeProxies
      ensures ClientsValid() && clients == old(clients)[id := c] && admitted == old(admitted)[c := id]
      ensures var s := old(Now());
              var kept := if id in s.clients then Cleaned(s, s.clients[id]) else s;
              Now() == kept.(clients := clients, admitted := admitted)
      ensures Runs(old(Now()), es) && Now() == Run(old(Now()), es)
    {
      ghost var s := Now();
      es := [];
      if id in clients {
        es := CleanupClient(clients[id]);
      }
      RunSnoc(s, es, Admit(c, id));
      clients, admitted := clients[id := c], admitted[c := id];
      es := es + [Admit(c, id)];
    }
  }

  lemma RunSnoc(s: State, es: seq<Event>, e: Event)
    requires Runs(s, es) && CanStep(Run(s, es), e)
    ensures Runs(s, es + [e]) && Run(s, es + [e]) == Next(Run(s, es), e)
  {
    var t := Run(s, es);
    assert [e][1..] == [] && Runs(t, [e]) && Run(t, [e]) == Next(t, e);
    RunsAppend(s, es, [e]);
  }

  lemma TwoSteps(s: State, es: seq<Event>)
    requires |es| == 2 && CanStep(s, es[0]) && CanStep(Next(s, es[0]), es[1])
    ensures Runs(s, es) && Run(s, es) == Next(Next(s, es[0]), es[1])
  {
    RunSnoc(s, [], es[0]);
    RunSnoc(s, [es[0]], es[1]);
    assert es == [es[0]] + [es[1]] && [] + [es[0]] == [es[0]];
  }

  lemma ListenFailedRun(s: State, c: ClientId, name: string, port: int, pid: ProxyId)
    requires CanRegister(s, c, port, pid)
    ensures var es := [Check(c, name, port), Listen(c, false, pid)];
            Runs(s, es) && Run(s, es) == s
  {
    var es := [Check(c, name, port), Listen(c, false, pid)];
    TwoSteps(s, es);
    assert Next(s, es[0]).pending - {c} == s.pending;
  }

  lemma HandledRun(s: State, c: ClientId, name: string, port: int, pid: ProxyId, outcome: Outcome) returns (es: seq<Event>)
    requires CanRegister(s, c, port, pid) && (outcome == Created || outcome == SendFailed)
    ensures Runs(s, es) && Run(s, es) == Handled(s, c, name, port, pid, outcome)
    ensures s.proxies[port := pid] - {port} == s.proxies
    ensures s.owned[(c, name) := pid] - {(c, name)} == s.owned - {(c, name)}
  {
    if outcome == Created {
      es := Registration(c, name, port, pid);
      RegistrationRuns(s, c, name, port, pid);
    } else {
      es := RolledBackRun(s, c, name, port, pid);
    }
  }

  /** A registration whose response cannot be sent. */
  lemma RolledBackRun(s: State, c: ClientId, name: string, port: int, pid: ProxyId) returns (es: seq<Event>)
    requires CanRegister(s, c, port, pid)
    ensures Runs(s, es) && Run(s, es) == Handled(s, c, name, port, pid, SendFailed)
  {
    es := [Check(c, name, port), Listen(c, true, pid)];
    TwoSteps(s, es);
    RunSnoc(s, es, Insert(c));
    es := es + [Insert(c)];
    RunSnoc(s, es, Reply(c, false));
    es := es + [Reply(c, false)];
    RunSnoc(s, es, Forget(c));
    es := es + [Forget(c)];
    var t := Run(s, es);
    assert t.proxies == s.proxies && t.owned == s.owned - {(c, name)} && t.pending == s.pending;
  }
}
