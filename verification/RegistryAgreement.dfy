/** Agreement of the server's two indexes over whole runs, and the exact condition for it. */
module RegistryAgreement {
  import opened Bytes
  import opened Registry
  import opened RegistrySteps

  ghost predicate DisciplinedRun(s: State, es: seq<Event>)
    requires Runs(s, es)
    decreases |es|
  {
    es != [] ==> Disciplined(s, es[0]) && DisciplinedRun(Next(s, es[0]), es[1..])
  }

  lemma {:induction false} RunKeeps(s: State, es: seq<Event>)
    requires Inv(s) && Runs(s, es) && DisciplinedRun(s, es)
    ensures Inv(Run(s, es))
    decreases |es|
  {
    if es != [] {
      StepKeeps(s, es[0]);
      RunKeeps(Next(s, es[0]), es[1..]);
    }
  }

  /** A proxy that ought to be in `s.proxies`: it is open, and in its client's map and not being
      rolled back, or its registration is about to put it there. */
  predicate Live(s: State, pid: ProxyId)
    requires pid in s.objects
  {
    var c := s.objects[pid].owner;
    !s.objects[pid].closed && ((Owns(s, pid) && !RollingBack(s, c, pid)) || InProgress(s, c, pid))
  }

  /** `s.proxies` is exactly the port-indexed union of the live proxies of the clients' maps, and
      of those that a clean-up has closed and is just deleting. */
  ghost predicate Agree(s: State) {
    && (forall p | p in s.proxies ::
          s.proxies[p] in s.objects && s.objects[s.proxies[p]].port == p
          && (Live(s, s.proxies[p]) || (s.objects[s.proxies[p]].closed && Closing(s, s.proxies[p]))))
    && (forall pid | pid in s.objects && Live(s, pid) :: At(s, s.objects[pid].port, pid))
  }

  lemma InvAgrees(s: State)
    requires Inv(s)
    ensures Agree(s)
  {
    forall p | p in s.proxies && !s.objects[s.proxies[p]].closed ensures Live(s, s.proxies[p]) {
      var pid := s.proxies[p];
      var c := s.objects[pid].owner;
      if c in s.pending {
        assert StageInv(s, c, s.pending[c]);
      }
    }
    forall pid | pid in s.objects && Live(s, pid) ensures At(s, s.objects[pid].port, pid) {
      var c := s.objects[pid].owner;
      if InProgress(s, c, pid) {
        assert StageInv(s, c, s.pending[c]);
      }
    }
  }

  /** Over whole runs: if registrations use new names and ports that are not busy, then after
      every interleaving of registrations, roll-backs, evictions, clean-ups and late runner
      exits the two indexes agree, and no two live proxies share a port. */
  lemma AgreementOverRuns(es: seq<Event>)
    requires Runs(EMPTY, es) && DisciplinedRun(EMPTY, es)
    ensures var s := Run(EMPTY, es);
            && Agree(s)
            && (forall x, y | x in s.objects && y in s.objects && Live(s, x) && Live(s, y) ::
                  s.objects[x].port == s.objects[y].port ==> x == y)
  {
    RunKeeps(EMPTY, es);
    InvAgrees(Run(EMPTY, es));
  }

  // ------------------------------------------------- the condition is exact

  /** The state after an uninterrupted registration. */
  function Registered(s: State, c: ClientId, name: string, port: int, pid: ProxyId): State {
    s.(objects := s.objects[pid := Proxy(name, port, c, false)], proxies := s.proxies[port := pid],
       owned := s.owned[(c, name) := pid], running := s.running + {pid})
  }

  predicate CanRegister(s: State, c: ClientId, port: int, pid: ProxyId) {
    c in s.admitted && c !in s.pending && c !in s.cleaning && port !in s.proxies && pid !in s.objects
  }

  /** The steps of `handleNewProxy` when all goes well. */
  function Registration(c: ClientId, name: string, port: int, pid: ProxyId): seq<Event> {
    [Check(c, name, port), Listen(c, true, pid), Insert(c), Reply(c, true)]
  }

  lemma RegistrationRuns(s: State, c: ClientId, name: string, port: int, pid: ProxyId)
    requires CanRegister(s, c, port, pid)
    ensures var es := Registration(c, name, port, pid);
            Runs(s, es) && Run(s, es) == Registered(s, c, name, port, pid)
    ensures Disciplined(s, Check(c, name, port)) ==> DisciplinedRun(s, Registration(c, name, port, pid))
  {
    var s1 := Next(s, Check(c, name, port));
    var s2 := Next(s1, Listen(c, true, pid));
    var s3 := Next(s2, Insert(c));
    assert Next(s3, Reply(c, true)).pending == s.pending;
    OneStep(s3, Reply(c, true));
    Prepend(s2, Insert(c), [Reply(c, true)]);
    Prepend(s1, Listen(c, true, pid), [Insert(c), Reply(c, true)]);
    Prepend(s, Check(c, name, port), [Listen(c, true, pid), Insert(c), Reply(c, true)]);
  }

  lemma Prepend(t: State, e: Event, es: seq<Event>)
    requires CanStep(t, e) && Runs(Next(t, e), es)
    ensures Runs(t, [e] + es) && Run(t, [e] + es) == Run(Next(t, e), es)
    ensures Disciplined(t, e) && DisciplinedRun(Next(t, e), es) ==> DisciplinedRun(t, [e] + es)
  {
    assert ([e] + es)[1..] == es;
  }

  /** Whatever the other handlers go on to do, the indexes agree, as long as no further
      registration breaks the discipline. */
  ghost predicate AgreesFrom(t: State) {
    forall es | Runs(t, es) && DisciplinedRun(t, es) :: Agree(Run(t, es))
  }

  /** The discipline is exactly what it takes. In any state that disciplined runs reach, with
      any handlers in progress: after a registration the indexes agree for good if and only if
      the registration was disciplined. */
  lemma DisciplineIsExact(s: State, c: ClientId, name: string, port: int, pid: ProxyId)
    requires Inv(s) && CanRegister(s, c, port, pid)
    ensures AgreesFrom(Registered(s, c, name, port, pid)) <==> Disciplined(s, Check(c, name, port))
  {
    var t := Registered(s, c, name, port, pid);
    RegistrationRuns(s, c, name, port, pid);
    if Disciplined(s, Check(c, name, port)) {
      RunKeeps(s, Registration(c, name, port, pid));
      forall es | Runs(t, es) && DisciplinedRun(t, es) ensures Agree(Run(t, es)) {
        RunKeeps(t, es);
        InvAgrees(Run(t, es));
      }
    } else {
      var es := Undoing(s, c, name, port, pid);
      assert !Agree(Run(t, es));
    }
  }

  /** How an undisciplined registration is undone: by a step, or a few, of the other handler. */
  lemma Undoing(s: State, c: ClientId, name: string, port: int, pid: ProxyId) returns (es: seq<Event>)
    requires Inv(s) && CanRegister(s, c, port, pid) && !Disciplined(s, Check(c, name, port))
    ensures var t := Registered(s, c, name, port, pid);
            Runs(t, es) && DisciplinedRun(t, es) && !Agree(Run(t, es))
  {
    var t := Registered(s, c, name, port, pid);
    if (c, name) in s.owned {
      es := [];
      var q := s.owned[(c, name)];
      assert At(t, s.objects[q].port, q) && !Live(t, q) && !t.objects[q].closed;
    } else if x :| Doomed(s, x) && s.objects[x].port == port {
      es := UndoneByDeletion(s, c, name, port, pid, x);
    } else {
      var d :| Touches(s, d) && s.pending[d].port == port;
      es := UndoneByRegistration(s, c, name, port, pid, d);
    }
  }

  /** A runner or a clean-up is still to delete the port. */
  lemma UndoneByDeletion(s: State, c: ClientId, name: string, port: int, pid: ProxyId, x: ProxyId) returns (es: seq<Event>)
    requires CanRegister(s, c, port, pid) && Doomed(s, x) && s.objects[x].port == port
    ensures var t := Registered(s, c, name, port, pid);
            Runs(t, es) && DisciplinedRun(t, es) && !Agree(Run(t, es))
  {
    var t := Registered(s, c, name, port, pid);
    var e := if x in s.running then Exit(x) else Delete(s.objects[x].owner);
    OneStep(t, e);
    Undone(t, Next(t, e), pid);
    es := [e];
  }

  lemma OneStep(t: State, e: Event)
    requires CanStep(t, e)
    ensures Runs(t, [e]) && Run(t, [e]) == Next(t, e) && (!e.Check? ==> DisciplinedRun(t, [e]))
  {
    assert [e][1..] == [];
  }

  /** A step that leaves a live proxy as it is, but not its entry, breaks the agreement. */
  lemma Undone(t: State, u: State, pid: ProxyId)
    requires pid in t.objects && pid in u.objects && Live(t, pid)
    requires u.objects[pid] == t.objects[pid] && Owns(t, pid) && Owns(u, pid) && t.objects[pid].owner !in u.pending
    requires !At(u, t.objects[pid].port, pid)
    ensures !Agree(u)
  {
    assert Live(u, pid);
  }

  /** The other handler has a registration of the same port in progress. */
  lemma UndoneByRegistration(s: State, c: ClientId, name: string, port: int, pid: ProxyId, d: ClientId) returns (es: seq<Event>)
    requires Inv(s) && CanRegister(s, c, port, pid) && (c, name) !in s.owned
    requires Touches(s, d) && s.pending[d].port == port
    ensures var t := Registered(s, c, name, port, pid);
            Runs(t, es) && DisciplinedRun(t, es) && !Agree(Run(t, es))
  {
    var t := Registered(s, c, name, port, pid);
    assert StageInv(s, d, s.pending[d]);
    match s.pending[d].stage
    case Checked =>
      var y := NewProxyId(t.objects.Keys);
      es := [Listen(d, true, y)];
      OneStep(t, es[0]);
      Undone(t, Next(t, es[0]), pid);
    case Stored(x) =>
      assert false;
    case Inserted(x) =>
      es := [Reply(d, false)];
      OneStep(t, es[0]);
      Undone(t, Next(t, es[0]), pid);
    case Removed(x) =>
      es := UndoneByCleanup(t, d, s.pending[d].name, pid);
  }

  lemma NewProxyId(used: set<ProxyId>) returns (y: ProxyId)
    ensures y !in used
  {
    y := 0;
    var left := used;
    while y in used
      invariant left <= used && forall x | x in used && x >= y :: x in left
      decreases |left|
    {
      left := left - {y};
      y := y + 1;
    }
  }

  /** The proxy of `d` is rolled back but still in its map, and `d` is cleaned up. */
  lemma UndoneByCleanup(t: State, d: ClientId, name: string, pid: ProxyId) returns (es: seq<Event>)
    requires d in t.admitted && (d, name) in t.owned && t.owned[(d, name)] in t.objects
    requires d in t.cleaning ==> (d, name) in t.cleaning[d].todo
    requires d in t.cleaning && t.cleaning[d].closing.Some? ==> t.cleaning[d].closing.value in t.objects
    requires pid in t.objects && Live(t, pid) && Owns(t, pid) && t.objects[pid].owner !in t.pending
    requires t.owned[(d, name)] != pid && t.objects[t.owned[(d, name)]].port == t.objects[pid].port
    ensures Runs(t, es) && DisciplinedRun(t, es) && !Agree(Run(t, es))
  {
    if d !in t.cleaning {
      es := Finished(Next(t, Lock(d)), d, name, pid);
      Prepend(t, Lock(d), es);
      es := [Lock(d)] + es;
    } else if t.cleaning[d].closing.Some? {
      es := Finished(Next(t, Delete(d)), d, name, pid);
      Prepend(t, Delete(d), es);
      es := [Delete(d)] + es;
    } else {
      es := Finished(t, d, name, pid);
    }
  }

  lemma Finished(t: State, d: ClientId, name: string, pid: ProxyId) returns (es: seq<Event>)
    requires d in t.cleaning && CanStep(t, Close(d, name))
    requires pid in t.objects && Live(t, pid) && Owns(t, pid) && t.objects[pid].owner !in t.pending
    requires t.owned[(d, name)] != pid && t.objects[t.owned[(d, name)]].port == t.objects[pid].port
    ensures Runs(t, es) && DisciplinedRun(t, es) && !Agree(Run(t, es))
  {
    var u := Next(t, Close(d, name));
    OneStep(u, Delete(d));
    Undone(t, Next(u, Delete(d)), pid);
    Prepend(t, Close(d, name), [Delete(d)]);
    es := [Close(d, name)] + [Delete(d)];
  }

  // ------------------------------------------------- why the two kinds of busy port matter

  /** Client `c` has looked the port up and is about to listen; `d` looks the same port up,
      and then both go through with their registrations. */
  function Overlapped(s: State, c: ClientId, x: ProxyId, d: ClientId, name: string, y: ProxyId): State
    requires c in s.pending && s.pending[c].stage.Checked? && s.pending[c].port !in s.proxies && c !in s.cleaning
    requires CanRegister(s, d, s.pending[c].port, y) && x !in s.objects && x != y
  {
    var looked := Next(s, Check(d, name, s.pending[c].port));
    var listening := Next(Next(looked, Listen(c, true, x)), Listen(d, true, y));
    Next(Next(Next(Next(listening, Insert(c)), Insert(d)), Reply(c, true)), Reply(d, true))
  }

  /** A registration in progress: whenever two registrations of one port overlap like this, both
      succeed (the port is listened on with address reuse), and two live proxies share it. */
  lemma OverlapBreaksAgreement(s: State, c: ClientId, x: ProxyId, d: ClientId, name: string, y: ProxyId)
    requires c in s.pending && s.pending[c].stage.Checked? && c !in s.cleaning
    requires CanRegister(s, d, s.pending[c].port, y) && x !in s.objects && x != y
    ensures var t := Overlapped(s, c, x, d, name, y);
            && !Agree(t)
            && Live(t, x) && Live(t, y) && t.objects[x].port == t.objects[y].port
  {
    var t := Overlapped(s, c, x, d, name, y);
    assert t.objects[x].port == t.objects[y].port == s.pending[c].port;
    assert At(t, s.pending[c].port, y);
    assert Live(t, x) && Live(t, y);
  }

  /** A clean-up between its two accesses: client 0 owns a proxy on the port, its clean-up has
      closed it, and the proxy's runner has deleted the port. No registration is in progress
      and no runner is left, but the clean-up is still to delete the port once more. */
  function HalfCleaned(name: string, port: int): State {
    State(map["a" := 0, "b" := 1], map[0 := "a", 1 := "b"], map[], map[(0, name) := 0],
          map[0 := Proxy(name, port, 0, true)], map[], map[0 := Cleaning({}, Some(0))], {})
  }

  /** That state is reached by a disciplined run; and a registration of the port in it goes
      through, and then loses its entry to the clean-up. */
  lemma ReuseBeforeDelete(name: string, port: int, other: string)
    ensures var es := Registration(0, name, port, 0) + [Admit(1, "b"), Lock(0), Close(0, name), Exit(0)];
            && Runs(EMPTY, [Admit(0, "a")] + es) && DisciplinedRun(EMPTY, [Admit(0, "a")] + es)
            && Run(EMPTY, [Admit(0, "a")] + es) == HalfCleaned(name, port)
    ensures var s := HalfCleaned(name, port);
            && CanRegister(s, 1, port, 1) && !Disciplined(s, Check(1, other, port))
            && (var t := Registered(s, 1, other, port, 1);
                Agree(t) && CanStep(t, Delete(0)) && !Agree(Next(t, Delete(0))))
  {
    var s1 := Next(EMPTY, Admit(0, "a"));
    var s2 := Registered(s1, 0, name, port, 0);
    RegistrationRuns(s1, 0, name, port, 0);
    CleanedHalfway(s2, name, port);
    RunsAppend(s1, Registration(0, name, port, 0), [Admit(1, "b"), Lock(0), Close(0, name), Exit(0)]);
    Prepend(EMPTY, Admit(0, "a"), Registration(0, name, port, 0) + [Admit(1, "b"), Lock(0), Close(0, name), Exit(0)]);
    LosesEntry(name, port, other);
  }

  lemma CleanedHalfway(s: State, name: string, port: int)
    requires s == Registered(Next(EMPTY, Admit(0, "a")), 0, name, port, 0)
    ensures var es := [Admit(1, "b"), Lock(0), Close(0, name), Exit(0)];
            Runs(s, es) && DisciplinedRun(s, es) && Run(s, es) == HalfCleaned(name, port)
  {
    var s1 := Next(s, Admit(1, "b"));
    assert OfClient(s1, 0) == {(0, name)};
    var s2 := Next(s1, Lock(0));
    ClosedAndExited(s2, name, port);
    Prepend(s1, Lock(0), [Close(0, name), Exit(0)]);
    Prepend(s, Admit(1, "b"), [Lock(0), Close(0, name), Exit(0)]);
  }

  lemma ClosedAndExited(s: State, name: string, port: int)
    requires s == State(map["a" := 0, "b" := 1], map[0 := "a", 1 := "b"], map[port := 0], map[(0, name) := 0],
                        map[0 := Proxy(name, port, 0, false)], map[], map[0 := Cleaning({(0, name)}, None)], {0})
    ensures var es := [Close(0, name), Exit(0)];
            Runs(s, es) && DisciplinedRun(s, es) && Run(s, es) == HalfCleaned(name, port)
  {
    var s1 := Next(s, Close(0, name));
    assert {(0, name)} - {(0, name)} == {};
    assert s1.cleaning == map[0 := Cleaning({}, Some(0))];
    assert s1.objects == map[0 := Proxy(name, port, 0, true)];
    var s2 := Next(s1, Exit(0));
    assert s2.proxies == map[] && s2.running == {};
    OneStep(s1, Exit(0));
    Prepend(s, Close(0, name), [Exit(0)]);
  }

  lemma LosesEntry(name: string, port: int, other: string)
    ensures var s := HalfCleaned(name, port);
            && CanRegister(s, 1, port, 1) && !Disciplined(s, Check(1, other, port))
            && (var t := Registered(s, 1, other, port, 1);
                Agree(t) && CanStep(t, Delete(0)) && !Agree(Next(t, Delete(0))))
  {
    var s := HalfCleaned(name, port);
    var t := Registered(s, 1, other, port, 1);
    assert Doomed(s, 0) && s.objects[0].port == port;
    assert Live(t, 1) && At(t, port, 1);
    Undone(t, Next(t, Delete(0)), 1);
  }

  lemma {:induction false} RunsAppend(s: State, xs: seq<Event>, ys: seq<Event>)
    requires Runs(s, xs) && Runs(Run(s, xs), ys)
    ensures Runs(s, xs + ys) && Run(s, xs + ys) == Run(Run(s, xs), ys)
    ensures DisciplinedRun(s, xs) && DisciplinedRun(Run(s, xs), ys) ==> DisciplinedRun(s, xs + ys)
    decreases |xs|
  {
    if xs == [] {
      assert xs + ys == ys;
    } else {
      assert (xs + ys)[1..] == xs[1..] + ys;
      RunsAppend(Next(s, xs[0]), xs[1..], ys);
    }
  }
}
