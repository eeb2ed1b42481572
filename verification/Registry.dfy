/** The server's registry: `s.clients`, `s.proxies` and every `client.proxies`, changed by
    concurrent handlers. A step is one access of a handler to what others can see, so the
    handlers of different clients interleave between any two accesses. Only what happens
    under `client.mu` is invisible to the others that take it. */
module Registry {
  import opened Bytes

  type ClientId = nat   // the identity of a *Client object
  type ProxyId = nat    // the identity of a *Proxy object
  type Key = (ClientId, string)

  /** `closed` says that `Close` was called on the proxy. */
  datatype Proxy = Proxy(name: string, port: int, owner: ClientId, closed: bool)

  /** How far `handleNewProxy` of one client has come. */
  datatype Stage =
    | Checked                   // the port was not in `s.proxies`
    | Stored(pid: ProxyId)      // listening, and stored in `s.proxies`
    | Inserted(pid: ProxyId)    // stored in `client.proxies` too
    | Removed(pid: ProxyId)     // the response failed; deleted from `s.proxies` again

  datatype Pending = Pending(name: string, port: int, stage: Stage)

  /** `cleanupClient` holds the client's mutex: the keys it has not come to, and the proxy that
      it has closed but whose port it has not deleted. */
  datatype Cleaning = Cleaning(todo: set<Key>, closing: Option<ProxyId>)

  datatype State = State(
    clients: map<string, ClientId>,              // s.clients
    admitted: map<ClientId, string>,             // client.id of every client there ever was
    proxies: map<int, ProxyId>,                  // s.proxies
    owned: map<Key, ProxyId>,                    // client.proxies, of all clients
    objects: map<ProxyId, Proxy>,
    pending: map<ClientId, Pending>,             // handleNewProxy calls in progress
    cleaning: map<ClientId, Cleaning>,           // cleanupClient calls in progress
    running: set<ProxyId>)                       // runProxy goroutines

  const EMPTY := State(map[], map[], map[], map[], map[], map[], map[], {})

  datatype Event =
    | Admit(c: ClientId, id: string)                  // handleAuth stores a new client
    | Check(c: ClientId, name: string, port: int)     // handleNewProxy looks the port up
    | Listen(c: ClientId, ok: bool, pid: ProxyId)     // net.Listen, then s.proxies.Store
    | Insert(c: ClientId)                             // client.proxies[name] = proxy
    | Reply(c: ClientId, ok: bool)                    // the response; on failure s.proxies.Delete
    | Forget(c: ClientId)                             // delete(client.proxies, name)
    | Lock(c: ClientId)                               // cleanupClient takes client.mu
    | Close(c: ClientId, name: string)                // cleanupClient: proxy.Close()
    | Delete(c: ClientId)                             // cleanupClient: s.proxies.Delete
    | Unlock(c: ClientId)                             // cleanupClient empties the map
    | Leave(c: ClientId)                              // cleanupClient: s.clients.Delete
    | Exit(pid: ProxyId)                              // runProxy returns: s.proxies.Delete

  predicate CanStep(s: State, e: Event) {
    match e
    case Admit(c, _) => c !in s.admitted
    case Check(c, _, _) => c in s.admitted && c !in s.pending
    case Listen(c, _, pid) => c in s.pending && s.pending[c].stage.Checked? && pid !in s.objects
    case Insert(c) => c in s.pending && s.pending[c].stage.Stored? && c !in s.cleaning
    case Reply(c, _) => c in s.pending && s.pending[c].stage.Inserted?
    case Forget(c) => c in s.pending && s.pending[c].stage.Removed? && c !in s.cleaning
    case Lock(c) => c in s.admitted && c !in s.cleaning
    case Close(c, name) =>
      c in s.cleaning && s.cleaning[c].closing == None
      && (c, name) in s.cleaning[c].todo && (c, name) in s.owned && s.owned[(c, name)] in s.objects
    case Delete(c) => c in s.cleaning && s.cleaning[c].closing.Some? && s.cleaning[c].closing.value in s.objects
    case Unlock(c) => c in s.cleaning && s.cleaning[c] == Cleaning({}, None)
    case Leave(c) => c in s.admitted
    case Exit(pid) => pid in s.running && pid in s.objects && s.objects[pid].closed
  }

  /** The keys of `client.proxies` of one client. */
  function OfClient(s: State, c: ClientId): set<Key> {
    set k | k in s.owned && k.0 == c
  }

  function Next(s: State, e: Event): State
    requires CanStep(s, e)
  {
    match e
    case Admit(c, id) => s.(clients := s.clients[id := c], admitted := s.admitted[c := id])
    case Check(c, name, port) =>
      if port in s.proxies then s
      else s.(pending := s.pending[c := Pending(name, port, Checked)])
    case Listen(c, ok, pid) =>
      var p := s.pending[c];
      if !ok then s.(pending := s.pending - {c})
      else s.(objects := s.objects[pid := Proxy(p.name, p.port, c, false)],
              proxies := s.proxies[p.port := pid],
              pending := s.pending[c := p.(stage := Stored(pid))])
    case Insert(c) =>
      var p := s.pending[c];
      s.(owned := s.owned[(c, p.name) := p.stage.pid], pending := s.pending[c := p.(stage := Inserted(p.stage.pid))])
    case Reply(c, ok) =>
      var p := s.pending[c];
      if ok then s.(running := s.running + {p.stage.pid}, pending := s.pending - {c})
      else s.(proxies := s.proxies - {p.port}, pending := s.pending[c := p.(stage := Removed(p.stage.pid))])
    case Forget(c) =>
      s.(owned := s.owned - {(c, s.pending[c].name)}, pending := s.pending - {c})
    case Lock(c) => s.(cleaning := s.cleaning[c := Cleaning(OfClient(s, c), None)])
    case Close(c, name) =>
      var pid := s.owned[(c, name)];
      s.(objects := s.objects[pid := s.objects[pid].(closed := true)],
         cleaning := s.cleaning[c := Cleaning(s.cleaning[c].todo - {(c, name)}, Some(pid))])
    case Delete(c) =>
      s.(proxies := s.proxies - {s.objects[s.cleaning[c].closing.value].port},
         cleaning := s.cleaning[c := s.cleaning[c].(closing := None)])
    case Unlock(c) => s.(owned := s.owned - OfClient(s, c), cleaning := s.cleaning - {c})
    case Leave(c) => s.(clients := s.clients - {s.admitted[c]})
    case Exit(pid) => s.(running := s.running - {pid}, proxies := s.proxies - {s.objects[pid].port})
  }

  // ------------------------------------------------- what every interleaving keeps

  /** `cleanupClient` has closed the proxy and not yet deleted its port. */
  predicate Closing(s: State, pid: ProxyId)
    requires pid in s.objects
  {
    var c := s.objects[pid].owner;
    c in s.cleaning && s.cleaning[c].closing == Some(pid)
  }

  /** Every entry leads to an object, and back to the client that it is filed under. */
  ghost predicate Known(s: State) {
    OwnedKnown(s) && PendingKnown(s) && CleaningInv(s) && s.running <= s.objects.Keys
  }

  ghost predicate OwnedKnown(s: State) {
    forall k | k in s.owned :: s.owned[k] in s.objects && s.objects[s.owned[k]].owner == k.0
  }

  ghost predicate PendingKnown(s: State) {
    forall c | c in s.pending && !s.pending[c].stage.Checked? ::
      s.pending[c].stage.pid in s.objects && s.objects[s.pending[c].stage.pid].owner == c
  }

  ghost predicate CleaningInv(s: State) {
    TodoInv(s) && forall c | c in s.cleaning :: ClosingKnown(s, c, s.cleaning[c].closing)
  }

  ghost predicate TodoInv(s: State) {
    forall c | c in s.cleaning :: s.cleaning[c].todo <= OfClient(s, c)
  }

  predicate ClosingKnown(s: State, c: ClientId, closing: Option<ProxyId>) {
    closing.Some? ==>
      closing.value in s.objects && s.objects[closing.value].owner == c && s.objects[closing.value].closed
  }

  /** An entry of `s.proxies` is filed under its own port, and it is closed exactly while its
      deletion by the clean-up that closed it is still to come. */
  ghost predicate Filed(s: State) {
    && (forall p | p in s.proxies :: s.proxies[p] in s.objects && s.objects[s.proxies[p]].port == p)
    && (forall p | p in s.proxies :: s.objects[s.proxies[p]].closed <==> Closing(s, s.proxies[p]))
  }

  lemma StepKeepsKnown(s: State, e: Event)
    requires Known(s) && CanStep(s, e)
    ensures Known(Next(s, e))
  {
    StepKeepsOwnedKnown(s, e);
    if e.Listen? || e.Insert? || e.Reply? || e.Forget? {
      RegistrationKeepsPendingKnown(s, e);
      RegistrationKeepsCleaning(s, e);
    } else {
      OthersKeepPendingKnown(s, e);
      OthersKeepCleaning(s, e);
    }
  }

  lemma StepKeepsOwnedKnown(s: State, e: Event)
    requires OwnedKnown(s) && PendingKnown(s) && CanStep(s, e)
    ensures OwnedKnown(Next(s, e))
  {
  }

  lemma RegistrationKeepsPendingKnown(s: State, e: Event)
    requires PendingKnown(s) && CanStep(s, e) && (e.Listen? || e.Insert? || e.Reply? || e.Forget?)
    ensures PendingKnown(Next(s, e))
  {
  }

  lemma RegistrationKeepsCleaning(s: State, e: Event)
    requires Known(s) && CanStep(s, e) && (e.Listen? || e.Insert? || e.Reply? || e.Forget?)
    ensures CleaningInv(Next(s, e)) && Next(s, e).running <= Next(s, e).objects.Keys
  {
  }

  lemma OthersKeepPendingKnown(s: State, e: Event)
    requires PendingKnown(s) && CanStep(s, e) && !(e.Listen? || e.Insert? || e.Reply? || e.Forget?)
    ensures PendingKnown(Next(s, e))
  {
  }

  lemma OthersKeepCleaning(s: State, e: Event)
    requires Known(s) && CanStep(s, e) && !(e.Listen? || e.Insert? || e.Reply? || e.Forget?)
    ensures CleaningInv(Next(s, e)) && Next(s, e).running <= Next(s, e).objects.Keys
  {
  }

  lemma StepKeepsFiled(s: State, e: Event)
    requires Known(s) && Filed(s) && CanStep(s, e)
    ensures Filed(Next(s, e))
  {
    match e
    case Close(c, name) => CloseKeepsFiled(s, c, name);
    case Delete(c) => DeleteKeepsFiled(s, c);
    case Listen(c, ok, pid) => ListenKeepsFiled(s, c, ok, pid);
    case _ =>
  }

  lemma CloseKeepsFiled(s: State, c: ClientId, name: string)
    requires Known(s) && Filed(s) && CanStep(s, Close(c, name))
    ensures Filed(Next(s, Close(c, name)))
  {
  }

  lemma DeleteKeepsFiled(s: State, c: ClientId)
    requires Known(s) && Filed(s) && CanStep(s, Delete(c))
    ensures Filed(Next(s, Delete(c)))
  {
  }

  lemma ListenKeepsFiled(s: State, c: ClientId, ok: bool, pid: ProxyId)
    requires Known(s) && Filed(s) && CanStep(s, Listen(c, ok, pid))
    ensures Filed(Next(s, Listen(c, ok, pid)))
  {
  }

  ghost predicate Runs(s: State, es: seq<Event>)
    decreases |es|
  {
    es == [] || (CanStep(s, es[0]) && Runs(Next(s, es[0]), es[1..]))
  }

  function Run(s: State, es: seq<Event>): State
    requires Runs(s, es)
    decreases |es|
  {
    if es == [] then s else Run(Next(s, es[0]), es[1..])
  }

  /** In every run whatsoever, `s.proxies[p]` listens on port p, and it is a closed proxy if and
      only if the clean-up that closed it has not yet deleted the port. */
  lemma {:induction false} StaleIffClosing(s: State, es: seq<Event>)
    requires Known(s) && Filed(s) && Runs(s, es)
    ensures Known(Run(s, es)) && Filed(Run(s, es))
    decreases |es|
  {
    if es != [] {
      StepKeepsKnown(s, es[0]);
      StepKeepsFiled(s, es[0]);
      StaleIffClosing(Next(s, es[0]), es[1..]);
    }
  }

  // ------------------------------------------------- when the two indexes agree

  /** The registration in progress can still change what `s.proxies` has under its port. */
  predicate Touches(s: State, c: ClientId) {
    c in s.pending &&
    (var stage := s.pending[c].stage; stage.Removed? && stage.pid in s.objects ==> !s.objects[stage.pid].closed)
  }

  /** The proxy is closed, and its runner or the clean-up is still to delete its port. */
  predicate Doomed(s: State, pid: ProxyId) {
    pid in s.objects && s.objects[pid].closed && (pid in s.running || Closing(s, pid))
  }

  /** Another handler is still to store or delete something under the port. */
  ghost predicate PortBusy(s: State, port: int) {
    || (exists c :: Touches(s, c) && s.pending[c].port == port)
    || (exists pid :: Doomed(s, pid) && s.objects[pid].port == port)
  }

  /** A registration that is not refused uses a port that is not busy, and a name that the
      client does not have, or is about to lose to a clean-up. */
  ghost predicate Disciplined(s: State, e: Event) {
    e.Check? && e.port !in s.proxies ==>
      !PortBusy(s, e.port) && ((e.c, e.name) in s.owned ==> e.c in s.cleaning)
  }

  /** The proxy is being rolled back by its client's handler. */
  predicate RollingBack(s: State, c: ClientId, pid: ProxyId) {
    c in s.pending && s.pending[c].stage == Removed(pid)
  }

  predicate InProgress(s: State, c: ClientId, pid: ProxyId) {
    c in s.pending && s.pending[c].stage == Stored(pid)
  }

  predicate At(s: State, p: int, pid: ProxyId) {
    p in s.proxies && s.proxies[p] == pid
  }

  predicate FreeOrAt(s: State, p: int, pid: ProxyId) {
    p in s.proxies ==> s.proxies[p] == pid
  }

  /** Proxies in `client.proxies` belong to that client, under their names; they are in
      `s.proxies` unless they are being rolled back; only a clean-up that has come past them has
      closed them. */
  ghost predicate OwnedInv(s: State) {
    forall c, name | (c, name) in s.owned ::
      var pid := s.owned[(c, name)];
      && pid in s.objects && c in s.admitted
      && s.objects[pid].owner == c && s.objects[pid].name == name
      && (if s.objects[pid].closed then c in s.cleaning && (c, name) !in s.cleaning[c].todo
          else
            && (At(s, s.objects[pid].port, pid) || RollingBack(s, c, pid))
            && (c in s.cleaning ==> (c, name) in s.cleaning[c].todo))
  }

  ghost predicate PendingInv(s: State) {
    forall c | c in s.pending :: c in s.admitted && StageInv(s, c, s.pending[c])
  }

  /** No two registrations that still touch a port have the same one. */
  ghost predicate PortsInv(s: State) {
    forall c, d | Touches(s, c) && Touches(s, d) && c != d :: s.pending[c].port != s.pending[d].port
  }

  ghost predicate StageInv(s: State, c: ClientId, p: Pending) {
    var k := (c, p.name);
    match p.stage
    case Checked => p.port !in s.proxies && (k in s.owned ==> c in s.cleaning)
    case Stored(pid) =>
      Proposed(s, c, p, pid) && !s.objects[pid].closed && At(s, p.port, pid)
      && (k in s.owned ==> c in s.cleaning && s.owned[k] != pid)
    case Inserted(pid) =>
      Proposed(s, c, p, pid) && (k in s.owned ==> s.owned[k] == pid)
      && (if s.objects[pid].closed then FreeOrAt(s, p.port, pid) else k in s.owned)
    case Removed(pid) =>
      Proposed(s, c, p, pid) && (k in s.owned ==> s.owned[k] == pid)
      && (!s.objects[pid].closed ==> k in s.owned && p.port !in s.proxies)
  }

  ghost predicate Proposed(s: State, c: ClientId, p: Pending, pid: ProxyId) {
    && pid in s.objects && pid !in s.running
    && s.objects[pid].owner == c && s.objects[pid].name == p.name && s.objects[pid].port == p.port
  }

  /** Nobody else has, or is about to have, the port of a proxy that is still to be deleted. */
  ghost predicate DoomedInv(s: State) {
    && (forall pid | Doomed(s, pid) :: FreeOrAt(s, s.objects[pid].port, pid))
    && (forall pid, c | Doomed(s, pid) && Touches(s, c) && s.pending[c].port == s.objects[pid].port ::
          s.pending[c].stage == Inserted(pid))
  }

  predicate Owns(s: State, pid: ProxyId)
    requires pid in s.objects
  {
    var k := (s.objects[pid].owner, s.objects[pid].name);
    k in s.owned && s.owned[k] == pid
  }

  ghost predicate RunningInv(s: State) {
    forall pid | pid in s.running :: pid in s.objects && (s.objects[pid].closed || Owns(s, pid))
  }

  ghost predicate ProxiesInv(s: State) {
    forall p | p in s.proxies ::
      var pid := s.proxies[p];
      && pid in s.objects && s.objects[pid].port == p
      && (s.objects[pid].closed <==> Closing(s, pid))
      && (Owns(s, pid) || InProgress(s, s.objects[pid].owner, pid))
  }

  /** The maps agree with each other. */
  ghost predicate Indexes(s: State) {
    CleaningInv(s) && OwnedInv(s) && RunningInv(s) && ProxiesInv(s)
  }

  /** Handlers that are still to change a port do not meet. */
  ghost predicate Ports(s: State) {
    PortsInv(s) && DoomedInv(s)
  }

  ghost predicate Inv(s: State) {
    Indexes(s) && PendingInv(s) && Ports(s)
  }
}
