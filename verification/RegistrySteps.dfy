/** Every step of the registry keeps its invariant, one lemma for each step and part. */
module RegistrySteps {
  import opened Registry

  lemma AdmitKeeps(s: State, c: ClientId, id: string)
    requires Inv(s) && CanStep(s, Admit(c, id))
    ensures Inv(Next(s, Admit(c, id)))
  {
  }

  lemma CheckKeeps(s: State, c: ClientId, name: string, port: int)
    requires Inv(s) && CanStep(s, Check(c, name, port)) && Disciplined(s, Check(c, name, port))
    ensures Inv(Next(s, Check(c, name, port)))
  {
    CheckIndexes(s, c, name, port);
    CheckStages(s, c, name, port);
    CheckPorts(s, c, name, port);
  }

  lemma CheckIndexes(s: State, c: ClientId, name: string, port: int)
    requires Inv(s) && CanStep(s, Check(c, name, port)) && Disciplined(s, Check(c, name, port))
    ensures Indexes(Next(s, Check(c, name, port)))
  {
  }

  lemma CheckStages(s: State, c: ClientId, name: string, port: int)
    requires Inv(s) && CanStep(s, Check(c, name, port)) && Disciplined(s, Check(c, name, port))
    ensures PendingInv(Next(s, Check(c, name, port)))
  {
  }

  lemma CheckPorts(s: State, c: ClientId, name: string, port: int)
    requires Inv(s) && CanStep(s, Check(c, name, port)) && Disciplined(s, Check(c, name, port))
    ensures Ports(Next(s, Check(c, name, port)))
  {
  }

  lemma ListenStoresKeeps(s: State, c: ClientId, pid: ProxyId)
    requires Inv(s) && CanStep(s, Listen(c, true, pid))
    ensures Inv(Next(s, Listen(c, true, pid)))
  {
    ListenStoresIndexes(s, c, pid);
    ListenStoresStages(s, c, pid);
    ListenStoresPorts(s, c, pid);
  }

  lemma ListenStoresIndexes(s: State, c: ClientId, pid: ProxyId)
    requires Inv(s) && CanStep(s, Listen(c, true, pid))
    ensures Indexes(Next(s, Listen(c, true, pid)))
  {
  }

  lemma ListenStoresStages(s: State, c: ClientId, pid: ProxyId)
    requires Inv(s) && CanStep(s, Listen(c, true, pid))
    ensures PendingInv(Next(s, Listen(c, true, pid)))
  {
    var t := Next(s, Listen(c, true, pid));
    forall d | d in s.pending && d != c ensures StageInv(t, d, t.pending[d]) {
      ListenStoresOthers(s, c, pid, d);
    }
  }

  lemma ListenStoresOthers(s: State, c: ClientId, pid: ProxyId, d: ClientId)
    requires Inv(s) && CanStep(s, Listen(c, true, pid)) && d in s.pending && d != c
    ensures StageInv(Next(s, Listen(c, true, pid)), d, s.pending[d])
  {
    assert StageInv(s, d, s.pending[d]);
  }

  lemma ListenStoresPorts(s: State, c: ClientId, pid: ProxyId)
    requires Inv(s) && CanStep(s, Listen(c, true, pid))
    ensures Ports(Next(s, Listen(c, true, pid)))
  {
    ListenStoresPending(s, c, pid);
    ListenStoresDoomed(s, c, pid);
  }

  lemma ListenStoresPending(s: State, c: ClientId, pid: ProxyId)
    requires Inv(s) && CanStep(s, Listen(c, true, pid))
    ensures var t := Next(s, Listen(c, true, pid)); PortsInv(t)
  {
  }

  lemma ListenStoresDoomed(s: State, c: ClientId, pid: ProxyId)
    requires Inv(s) && CanStep(s, Listen(c, true, pid))
    ensures var t := Next(s, Listen(c, true, pid)); DoomedInv(t)
  {
  }

  lemma ListenFailsKeeps(s: State, c: ClientId, pid: ProxyId)
    requires Inv(s) && CanStep(s, Listen(c, false, pid))
    ensures Inv(Next(s, Listen(c, false, pid)))
  {
    ListenFailsIndexes(s, c, pid);
    ListenFailsStages(s, c, pid);
  }

  lemma ListenFailsIndexes(s: State, c: ClientId, pid: ProxyId)
    requires Inv(s) && CanStep(s, Listen(c, false, pid))
    ensures var t := Next(s, Listen(c, false, pid)); Indexes(t)
  {
  }

  lemma ListenFailsStages(s: State, c: ClientId, pid: ProxyId)
    requires Inv(s) && CanStep(s, Listen(c, false, pid))
    ensures var t := Next(s, Listen(c, false, pid)); PendingInv(t) && Ports(t)
  {
  }

  lemma InsertKeeps(s: State, c: ClientId)
    requires Inv(s) && CanStep(s, Insert(c))
    ensures Inv(Next(s, Insert(c)))
  {
    InsertIndexes(s, c);
    InsertStages(s, c);
    InsertPorts(s, c);
  }

  lemma InsertIndexes(s: State, c: ClientId)
    requires Inv(s) && CanStep(s, Insert(c))
    ensures Indexes(Next(s, Insert(c)))
  {
  }

  lemma InsertStages(s: State, c: ClientId)
    requires Inv(s) && CanStep(s, Insert(c))
    ensures PendingInv(Next(s, Insert(c)))
  {
  }

  lemma InsertPorts(s: State, c: ClientId)
    requires Inv(s) && CanStep(s, Insert(c))
    ensures Ports(Next(s, Insert(c)))
  {
  }

  lemma ReplyStartsKeeps(s: State, c: ClientId)
    requires Inv(s) && CanStep(s, Reply(c, true))
    ensures Inv(Next(s, Reply(c, true)))
  {
    ReplyStartsIndexes(s, c);
    ReplyStartsStages(s, c);
    ReplyStartsPorts(s, c);
  }

  lemma ReplyStartsIndexes(s: State, c: ClientId)
    requires Inv(s) && CanStep(s, Reply(c, true))
    ensures Indexes(Next(s, Reply(c, true)))
  {
  }

  lemma ReplyStartsStages(s: State, c: ClientId)
    requires Inv(s) && CanStep(s, Reply(c, true))
    ensures PendingInv(Next(s, Reply(c, true)))
  {
  }

  lemma ReplyStartsPorts(s: State, c: ClientId)
    requires Inv(s) && CanStep(s, Reply(c, true))
    ensures Ports(Next(s, Reply(c, true)))
  {
  }

  lemma ReplyFailsKeeps(s: State, c: ClientId)
    requires Inv(s) && CanStep(s, Reply(c, false))
    ensures Inv(Next(s, Reply(c, false)))
  {
    ReplyFailsIndexes(s, c);
    ReplyFailsStages(s, c);
    ReplyFailsPorts(s, c);
  }

  lemma ReplyFailsIndexes(s: State, c: ClientId)
    requires Inv(s) && CanStep(s, Reply(c, false))
    ensures Indexes(Next(s, Reply(c, false)))
  {
  }

  lemma ReplyFailsStages(s: State, c: ClientId)
    requires Inv(s) && CanStep(s, Reply(c, false))
    ensures PendingInv(Next(s, Reply(c, false)))
  {
  }

  lemma ReplyFailsPorts(s: State, c: ClientId)
    requires Inv(s) && CanStep(s, Reply(c, false))
    ensures Ports(Next(s, Reply(c, false)))
  {
  }

  lemma ForgetKeeps(s: State, c: ClientId)
    requires Inv(s) && CanStep(s, Forget(c))
    ensures Inv(Next(s, Forget(c)))
  {
    ForgetIndexes(s, c);
    ForgetStages(s, c);
    ForgetPorts(s, c);
  }

  lemma ForgetIndexes(s: State, c: ClientId)
    requires Inv(s) && CanStep(s, Forget(c))
    ensures Indexes(Next(s, Forget(c)))
  {
  }

  lemma ForgetStages(s: State, c: ClientId)
    requires Inv(s) && CanStep(s, Forget(c))
    ensures PendingInv(Next(s, Forget(c)))
  {
  }

  lemma ForgetPorts(s: State, c: ClientId)
    requires Inv(s) && CanStep(s, Forget(c))
    ensures Ports(Next(s, Forget(c)))
  {
  }

  lemma LockKeeps(s: State, c: ClientId)
    requires Inv(s) && CanStep(s, Lock(c))
    ensures Inv(Next(s, Lock(c)))
  {
    LockIndexes(s, c);
    LockStages(s, c);
    LockPorts(s, c);
  }

  lemma LockIndexes(s: State, c: ClientId)
    requires Inv(s) && CanStep(s, Lock(c))
    ensures Indexes(Next(s, Lock(c)))
  {
  }

  lemma LockStages(s: State, c: ClientId)
    requires Inv(s) && CanStep(s, Lock(c))
    ensures PendingInv(Next(s, Lock(c)))
  {
  }

  lemma LockPorts(s: State, c: ClientId)
    requires Inv(s) && CanStep(s, Lock(c))
    ensures Ports(Next(s, Lock(c)))
  {
  }

  lemma CloseKeeps(s: State, c: ClientId, name: string)
    requires Inv(s) && CanStep(s, Close(c, name))
    ensures Inv(Next(s, Close(c, name)))
  {
    CloseIndexes(s, c, name);
    CloseStages(s, c, name);
    ClosePorts(s, c, name);
  }

  lemma CloseIndexes(s: State, c: ClientId, name: string)
    requires Inv(s) && CanStep(s, Close(c, name))
    ensures Indexes(Next(s, Close(c, name)))
  {
    CloseOwners(s, c, name);
    CloseProxies(s, c, name);
  }

  lemma CloseOwners(s: State, c: ClientId, name: string)
    requires Inv(s) && CanStep(s, Close(c, name))
    ensures var t := Next(s, Close(c, name)); OwnedInv(t) && RunningInv(t)
  {
  }

  lemma CloseProxies(s: State, c: ClientId, name: string)
    requires Inv(s) && CanStep(s, Close(c, name))
    ensures var t := Next(s, Close(c, name)); CleaningInv(t) && ProxiesInv(t)
  {
  }

  lemma CloseStages(s: State, c: ClientId, name: string)
    requires Inv(s) && CanStep(s, Close(c, name))
    ensures PendingInv(Next(s, Close(c, name)))
  {
  }

  lemma ClosePorts(s: State, c: ClientId, name: string)
    requires Inv(s) && CanStep(s, Close(c, name))
    ensures Ports(Next(s, Close(c, name)))
  {
    ClosePending(s, c, name);
    CloseDoomed(s, c, name);
  }

  lemma ClosePending(s: State, c: ClientId, name: string)
    requires Inv(s) && CanStep(s, Close(c, name))
    ensures var t := Next(s, Close(c, name)); PortsInv(t)
  {
  }

  lemma CloseDoomed(s: State, c: ClientId, name: string)
    requires Inv(s) && CanStep(s, Close(c, name))
    ensures var t := Next(s, Close(c, name)); DoomedInv(t)
  {
  }

  lemma DeleteKeeps(s: State, c: ClientId)
    requires Inv(s) && CanStep(s, Delete(c))
    ensures Inv(Next(s, Delete(c)))
  {
    DeleteIndexes(s, c);
    DeleteStages(s, c);
    DeletePorts(s, c);
  }

  lemma DeleteIndexes(s: State, c: ClientId)
    requires Inv(s) && CanStep(s, Delete(c))
    ensures Indexes(Next(s, Delete(c)))
  {
  }

  lemma DeleteStages(s: State, c: ClientId)
    requires Inv(s) && CanStep(s, Delete(c))
    ensures PendingInv(Next(s, Delete(c)))
  {
  }

  lemma DeletePorts(s: State, c: ClientId)
    requires Inv(s) && CanStep(s, Delete(c))
    ensures Ports(Next(s, Delete(c)))
  {
  }

  lemma UnlockKeeps(s: State, c: ClientId)
    requires Inv(s) && CanStep(s, Unlock(c))
    ensures Inv(Next(s, Unlock(c)))
  {
    UnlockIndexes(s, c);
    UnlockStages(s, c);
    UnlockPorts(s, c);
  }

  lemma UnlockIndexes(s: State, c: ClientId)
    requires Inv(s) && CanStep(s, Unlock(c))
    ensures Indexes(Next(s, Unlock(c)))
  {
  }

  lemma UnlockStages(s: State, c: ClientId)
    requires Inv(s) && CanStep(s, Unlock(c))
    ensures PendingInv(Next(s, Unlock(c)))
  {
  }

  lemma UnlockPorts(s: State, c: ClientId)
    requires Inv(s) && CanStep(s, Unlock(c))
    ensures Ports(Next(s, Unlock(c)))
  {
  }

  lemma LeaveKeeps(s: State, c: ClientId)
    requires Inv(s) && CanStep(s, Leave(c))
    ensures Inv(Next(s, Leave(c)))
  {
  }

  lemma ExitKeeps(s: State, pid: ProxyId)
    requires Inv(s) && CanStep(s, Exit(pid))
    ensures Inv(Next(s, Exit(pid)))
  {
    ExitIndexes(s, pid);
    ExitStages(s, pid);
    ExitPorts(s, pid);
  }

  lemma ExitIndexes(s: State, pid: ProxyId)
    requires Inv(s) && CanStep(s, Exit(pid))
    ensures Indexes(Next(s, Exit(pid)))
  {
  }

  lemma ExitStages(s: State, pid: ProxyId)
    requires Inv(s) && CanStep(s, Exit(pid))
    ensures PendingInv(Next(s, Exit(pid)))
  {
  }

  lemma ExitPorts(s: State, pid: ProxyId)
    requires Inv(s) && CanStep(s, Exit(pid))
    ensures Ports(Next(s, Exit(pid)))
  {
  }

  lemma StepKeeps(s: State, e: Event)
    requires Inv(s) && CanStep(s, e) && Disciplined(s, e)
    ensures Inv(Next(s, e))
  {
    match e
    case Admit(c, id) => AdmitKeeps(s, c, id);
    case Check(c, name, port) => CheckKeeps(s, c, name, port);
    case Listen(c, ok, pid) => if ok { ListenStoresKeeps(s, c, pid); } else { ListenFailsKeeps(s, c, pid); }
    case Insert(c) => InsertKeeps(s, c);
    case Reply(c, ok) => if ok { ReplyStartsKeeps(s, c); } else { ReplyFailsKeeps(s, c); }
    case Forget(c) => ForgetKeeps(s, c);
    case Lock(c) => LockKeeps(s, c);
    case Close(c, name) => CloseKeeps(s, c, name);
    case Delete(c) => DeleteKeeps(s, c);
    case Unlock(c) => UnlockKeeps(s, c);
    case Leave(c) => LeaveKeeps(s, c);
    case Exit(pid) => ExitKeeps(s, pid);
  }
}
