/** All interleavings of the hub's lock sections, with any number of SendToUser calls between their two halves.

    Connection ids are fresh uuids and a connection is registered once, so registering an id that was ever
    registered is not a possible event; impossible events leave the state as it is. */
module HubRuns {
  import opened HubModel
  import opened Wrappers

  datatype Event =
    | Registering(id: Id, user: User)
    | Unregistering(id: Id)
    | Broadcasting(message: Message)
    | ShuttingDown
    | LookingUp(call: nat, user: User)
    | Delivering(call: nat, message: Message)
    | Draining(id: Id)

  /** `calls` are the SendToUser calls between their halves: for whom, and the inner map they hold. */
  datatype Call = Call(user: User, held: nat)
  datatype System = System(hub: Hub, calls: map<nat, Call>)

  const START := System(NEW_HUB, map[])

  function Step(s: System, e: Event): System {
    match e
    case Registering(id, user) => if id in s.hub.conns then s else s.(hub := Register(s.hub, id, user))
    case Unregistering(id) => s.(hub := Unregister(s.hub, id))
    case Broadcasting(m) => s.(hub := Broadcast(s.hub, m))
    case ShuttingDown => s.(hub := Shutdown(s.hub))
    case LookingUp(call, user) =>
      if call in s.calls || user !in s.hub.users.refs then s
      else s.(calls := s.calls[call := Call(user, s.hub.users.refs[user])])
    case Delivering(call, m) =>
      if call !in s.calls then s
      else System(Deliver(s.hub, s.calls[call].held, m), s.calls - {call})
    case Draining(id) => s.(hub := Drain(s.hub, id))
  }

  function After(s: System, run: seq<Event>): System {
    if run == [] then s else Step(After(s, run[..|run| - 1]), run[|run| - 1])
  }

  ghost predicate SystemInv(s: System) {
    && Inv(s.hub)
    && forall c <- s.calls ::
         && s.calls[c].held < |s.hub.users.sets|
         && s.hub.users.sets[s.calls[c].held].user == s.calls[c].user
  }

  lemma StepExtends(s: System, e: Event)
    ensures Extends(s.hub, Step(s, e).hub)
  {
    hide Register, Unregister, SendTo;
    match e
    case Registering(id, user) =>
      if id !in s.hub.conns {
        RegisterExtends(s.hub, id, user);
      }
    case Unregistering(id) => UnregisterExtends(s.hub, id);
    case Broadcasting(m) => SendExtends(s.hub, s.hub.clients, m);
    case Delivering(call, m) =>
      if call in s.calls && s.calls[call].held < |s.hub.users.sets| {
        SendExtends(s.hub, s.hub.users.sets[s.calls[call].held].ids * s.hub.clients, m);
      }
    case _ =>
  }

  lemma StepKeepsHubInv(s: System, e: Event)
    requires SystemInv(s)
    ensures Inv(Step(s, e).hub)
  {
    match e
    case Registering(id, user) =>
      if id !in s.hub.conns {
        RegisterKeepsInv(s.hub, id, user);
      }
    case Unregistering(id) => UnregisterKeepsInv(s.hub, id);
    case Broadcasting(m) => SendKeepsInv(s.hub, s.hub.clients, m);
    case ShuttingDown => ShutdownKeepsInv(s.hub);
    case LookingUp(call, user) =>
    case Delivering(call, m) =>
      if call in s.calls {
        SendKeepsInv(s.hub, s.hub.users.sets[s.calls[call].held].ids * s.hub.clients, m);
      }
    case Draining(id) => DrainKeepsInv(s.hub, id);
  }

  lemma IndexPointsToUser(h: Hub, user: User)
    requires Inv(h) && user in h.users.refs
    ensures h.users.refs[user] < |h.users.sets| && h.users.sets[h.users.refs[user]].user == user
  {
  }

  lemma StepKeepsInv(s: System, e: Event)
    requires SystemInv(s)
    ensures SystemInv(Step(s, e))
  {
    StepKeepsHubInv(s, e);
    StepExtends(s, e);
    hide Inv, Register, Unregister, SendTo, Shutdown, Drain, Deliver, Broadcast;
    assert Inv(s.hub) && Inv(Step(s, e).hub);
    if e.LookingUp? && e.user in s.hub.users.refs {
      IndexPointsToUser(s.hub, e.user);
    }
  }

  lemma {:induction false} RunKeepsInv(s: System, run: seq<Event>)
    requires SystemInv(s)
    ensures SystemInv(After(s, run))
  {
    if run != [] {
      RunKeepsInv(s, run[..|run| - 1]);
      StepKeepsInv(After(s, run[..|run| - 1]), run[|run| - 1]);
    }
  }

  // ---------------------------------------------------------------- safety

  /** In every run: no send hits a closed channel and no channel is closed twice; a channel is open exactly
      while its connection is registered; at most 256 messages are buffered; and what a connection received,
      followed by what is buffered for it, is exactly what was accepted for it, in order. */
  lemma NoSendAfterClose(run: seq<Event>)
    ensures var h := After(START, run).hub;
            && !h.panicked
            && forall id <- h.conns ::
                 && (h.conns[id].channel.closed <==> id !in h.clients)
                 && |h.conns[id].channel.buffer| <= 256
                 && h.conns[id].channel.taken + h.conns[id].channel.buffer == Accepted(h.conns[id].channel.offers)
  {
    RunKeepsInv(START, run);
  }

  ghost function ConnectedUsers(h: Hub): set<User> {
    set id | id in h.clients && id in h.conns && h.conns[id].user != Anonymous :: h.conns[id].user
  }

  /** In every run the index lists, for every user, exactly the registered connections of that user; no inner
      map in it is empty; and GetConnectedUsers, its size, is the number of distinct users connected. */
  lemma IndexAgreesWithClients(run: seq<Event>)
    ensures var h := After(START, run).hub;
            && (forall u <- h.users.refs :: u != Anonymous && h.users.refs[u] < |h.users.sets|
                                       && h.users.sets[h.users.refs[u]].ids == ConnectionsOf(h, u) != {})
            && h.users.refs.Keys == ConnectedUsers(h) && |h.users.refs| == |ConnectedUsers(h)|
  {
    RunKeepsInv(START, run);
    var h := After(START, run).hub;
    forall u <- h.users.refs ensures u in ConnectedUsers(h) {
      var id :| id in ConnectionsOf(h, u);
      assert id in h.clients && h.conns[id].user == u;
    }
    assert h.users.refs.Keys == ConnectedUsers(h);
  }

  function Dropped(ch: Channel): int { |ch.offers| - |Accepted(ch.offers)| }

  lemma OfferDropsIffFull(ch: Channel, m: Message)
    requires |ch.buffer| <= CAPACITY
    ensures Dropped(Offer(ch, m)) == Dropped(ch) + if |ch.buffer| == CAPACITY then 1 else 0
  {
    assert Offer(ch, m).offers[..|ch.offers|] == ch.offers;
  }

  lemma BufferBounded(s: System, id: Id)
    requires SystemInv(s) && id in s.hub.conns
    ensures |s.hub.conns[id].channel.buffer| <= CAPACITY
  {
  }

  /** A step drops a message for a connection only if 256 messages are waiting for that connection. */
  lemma DropsOnlyWhenFull(run: seq<Event>, e: Event, id: Id)
    requires id in After(START, run).hub.conns && id in Step(After(START, run), e).hub.conns
    requires Dropped(Step(After(START, run), e).hub.conns[id].channel)
           > Dropped(After(START, run).hub.conns[id].channel)
    ensures |After(START, run).hub.conns[id].channel.buffer| == 256
  {
    hide After, SystemInv, Inv, Accepted, AddToIndex, RemoveFromIndex;
    StartInv();
    RunKeepsInv(START, run);
    var s := After(START, run);
    var ch := s.hub.conns[id].channel;
    BufferBounded(s, id);
    match e
    case Broadcasting(m) => OfferDropsIffFull(ch, m);
    case Delivering(call, m) => OfferDropsIffFull(ch, m);
    case _ =>
  }

  // ---------------------------------------------------------------- who is registered, and who is sent what

  /** Whether the run registered this connection and has neither unregistered it nor shut down since. A run
      registers a connection at most once, so what counts is the first time. */
  function Present(run: seq<Event>, id: Id): bool {
    if run == [] then false
    else
      var front, e := run[..|run| - 1], run[|run| - 1];
      match e
      case Registering(other, _) => Present(front, id) || (other == id && UserOf(front, id).None?)
      case Unregistering(other) => Present(front, id) && other != id
      case ShuttingDown => false
      case _ => Present(front, id)
  }

  /** The user a run first registered this connection for. */
  function UserOf(run: seq<Event>, id: Id): Option<User> {
    if run == [] then None
    else
      var front, e := run[..|run| - 1], run[|run| - 1];
      if UserOf(front, id).None? && e.Registering? && e.id == id then Some(e.user) else UserOf(front, id)
  }

  lemma {:induction false} RegistryFollowsRun(run: seq<Event>, id: Id)
    ensures var h := After(START, run).hub;
            && (id in h.clients <==> Present(run, id))
            && (id in h.conns <==> UserOf(run, id).Some?)
            && (id in h.conns ==> h.conns[id].user == UserOf(run, id).value)
            && (Present(run, id) ==> UserOf(run, id).Some?)
  {
    hide Offer, AddToIndex, RemoveFromIndex;
    if run != [] {
      RegistryFollowsRun(run[..|run| - 1], id);
    }
  }

  /** After a shutdown nobody is registered, both maps are empty, and every channel is closed. */
  lemma ShutdownClosesEverything(run: seq<Event>)
    ensures var h := After(START, run + [ShuttingDown]).hub;
            && h.clients == {} && h.users.refs == map[]
            && h.conns.Keys == After(START, run).hub.conns.Keys
            && forall id <- h.conns :: h.conns[id].channel.closed
  {
    hide After, Shutdown;
    var all := run + [ShuttingDown];
    assert all[..|run|] == run;
    forall id ensures id !in After(START, all).hub.clients {
      RegistryFollowsRun(all, id);
      assert !Present(all, id);
    }
    AfterSnoc(START, run, ShuttingDown);
    NoSendAfterClose(all);
    IndexAgreesWithClients(all);
    SameConnections(After(START, run).hub);
    assert ConnectedUsers(After(START, all).hub) == {};
  }

  lemma SameConnections(h: Hub)
    ensures Shutdown(h).conns.Keys == h.conns.Keys
  {
  }

  lemma AfterSnoc(s: System, run: seq<Event>, e: Event)
    ensures After(s, run + [e]) == Step(After(s, run), e)
  {
    hide Step;
    assert (run + [e])[..|run|] == run;
  }

  /** What a connection has waiting after a message was sent to those in `ids`. */
  ghost predicate SentTo(h: Hub, t: Hub, ids: set<Id>, m: Message) {
    && t.conns.Keys == h.conns.Keys && t.clients == h.clients && t.users == h.users
    && forall id <- h.conns ::
         && t.conns[id].user == h.conns[id].user && t.conns[id].channel.closed == h.conns[id].channel.closed
         && t.conns[id].channel.taken == h.conns[id].channel.taken
         && t.conns[id].channel.buffer
            == if id in ids && |h.conns[id].channel.buffer| < 256 then h.conns[id].channel.buffer + [m]
               else h.conns[id].channel.buffer
  }

  /** Broadcasting puts the message behind what waits for every registered connection, unless 256 wait already,
      and changes nothing else. */
  lemma BroadcastReachesEveryone(run: seq<Event>, m: Message)
    ensures SentTo(After(START, run).hub, After(START, run + [Broadcasting(m)]).hub, After(START, run).hub.clients, m)
  {
    hide After;
    AfterSnoc(START, run, Broadcasting(m));
  }

  // ---------------------------------------------------------------- SendToUser

  lemma {:induction false} RunExtends(s: System, run: seq<Event>)
    ensures Extends(s.hub, After(s, run).hub)
  {
    hide Step;
    if run != [] {
      RunExtends(s, run[..|run| - 1]);
      StepExtends(After(s, run[..|run| - 1]), run[|run| - 1]);
      ExtendsTransitive(s.hub, After(s, run[..|run| - 1]).hub, After(s, run).hub);
    }
  }

  lemma StepKeepsMember(s: System, e: Event, ref: nat, id: Id)
    requires ref < |s.hub.users.sets| && id in s.hub.users.sets[ref].ids && id in s.hub.conns
    requires id in Step(s, e).hub.clients
    ensures ref < |Step(s, e).hub.users.sets| && id in Step(s, e).hub.users.sets[ref].ids
  {
    hide Register, Unregister, SendTo;
    match e
    case Registering(other, user) =>
      if other !in s.hub.conns {
        RegistrationKeepsMembers(s.hub, other, user, ref, id);
      }
    case Unregistering(other) =>
      if other in s.hub.clients && other in s.hub.conns {
        UnregisteredLeaves(s.hub, other);
        RegistrationKeepsMembers(s.hub, other, Anonymous, ref, id);
      } else {
        UnregisteredLeaves(s.hub, other);
      }
    case _ => SameSets(s, e);
  }

  lemma UnregisteredLeaves(h: Hub, id: Id)
    ensures if id in h.clients && id in h.conns then id !in Unregister(h, id).clients else Unregister(h, id) == h
  {
  }

  lemma SameSets(s: System, e: Event)
    requires !e.Registering? && !e.Unregistering?
    ensures Step(s, e).hub.users.sets == s.hub.users.sets
  {
  }

  /** An inner map loses a connection only when that connection is unregistered, even after it was detached. */
  lemma {:induction false} InnerMapKeepsRegistered(s: System, run: seq<Event>, ref: nat, id: Id)
    requires ref < |s.hub.users.sets| && id in s.hub.users.sets[ref].ids && id in s.hub.conns
    requires id in After(s, run).hub.clients
    ensures ref < |After(s, run).hub.users.sets| && id in After(s, run).hub.users.sets[ref].ids
  {
    hide Step;
    if run != [] {
      var front, e := run[..|run| - 1], run[|run| - 1];
      RunExtends(s, front);
      StepExtends(After(s, front), e);
      InnerMapKeepsRegistered(s, front, ref, id);
      StepKeepsMember(After(s, front), e, ref, id);
    }
  }

  /** The run belongs to other calls: `call` is between its two halves, or has returned. */
  ghost predicate OthersOnly(run: seq<Event>, call: nat) {
    forall e <- run :: (e.Delivering? || e.LookingUp?) ==> e.call != call
  }

  lemma {:induction false} CallKeepsItsMap(s: System, run: seq<Event>, call: nat)
    requires OthersOnly(run, call)
    ensures call in After(s, run).calls <==> call in s.calls
    ensures call in s.calls ==> After(s, run).calls[call] == s.calls[call]
  {
    if run != [] {
      CallKeepsItsMap(s, run[..|run| - 1], call);
    }
  }

  /** The effect of the second half, holding an inner map that was made for `user`. */
  lemma DeliverEffect(h: Hub, ref: nat, m: Message)
    requires Inv(h) && ref < |h.users.sets|
    ensures var t := Deliver(h, ref, m);
            && SameRegistry(h, t)
            && forall id <- h.conns ::
                 && (h.conns[id].user != h.users.sets[ref].user ==> t.conns[id] == h.conns[id])
                 && (id in h.clients && id in h.users.sets[ref].ids ==>
                       t.conns[id].channel == Offer(h.conns[id].channel, m))
  {
    hide Offer, ConnsInv, IndexInv;
  }

  /** What was listed for the user at the first half and is still registered is still in the map held. */
  lemma HeldMapStillListsUser(s: System, run: seq<Event>, user: User, id: Id)
    requires SystemInv(s) && id in s.hub.clients && id in s.hub.conns && s.hub.conns[id].user == user != Anonymous
    requires id in After(s, run).hub.clients
    ensures user in s.hub.users.refs && var ref := s.hub.users.refs[user];
            ref < |After(s, run).hub.users.sets| && id in After(s, run).hub.users.sets[ref].ids
  {
    assert id in ConnectionsOf(s.hub, user);
    InnerMapKeepsRegistered(s, run, s.hub.users.refs[user], id);
  }

  /** SendToUser(user, m) as two steps with anything between them. Every connection of the user that is
      registered at both steps (and hence throughout) is offered m exactly once, and the connections of other
      users are left alone - also when the inner map held was emptied, detached or replaced in between. */
  lemma SendToUserReachesTheUser(before: seq<Event>, call: nat, user: User, between: seq<Event>, m: Message)
    requires call !in After(START, before).calls && OthersOnly(between, call)
    ensures var looked := Step(After(START, before), LookingUp(call, user));
            var s := After(looked, between);
            var t := Step(s, Delivering(call, m));
            && t.hub.conns.Keys == s.hub.conns.Keys && t.hub.clients == s.hub.clients
            && forall id <- s.hub.conns ::
                 && (s.hub.conns[id].user != user ==> t.hub.conns[id] == s.hub.conns[id])
                 && (s.hub.conns[id].user == user != Anonymous && id in looked.hub.clients && id in s.hub.clients ==>
                       t.hub.conns[id].channel == Offer(s.hub.conns[id].channel, m))
  {
    hide After, Deliver, Offer, SystemInv, Inv, Extends, SameRegistry;
    var start := After(START, before);
    var looked := Step(start, LookingUp(call, user));
    var s := After(looked, between);
    StartInv();
    RunKeepsInv(START, before);
    StepKeepsInv(start, LookingUp(call, user));
    RunKeepsInv(looked, between);
    CallKeepsItsMap(looked, between, call);
    if call in s.calls {
      CallHoldsItsUsersMap(s, call);
      DeliverEffect(s.hub, s.calls[call].held, m);
    }
    forall id | id in s.hub.conns && id in looked.hub.clients && id in s.hub.clients && s.hub.conns[id].user == user
      ensures user == Anonymous || (call in s.calls && id in s.hub.users.sets[s.calls[call].held].ids)
    {
      RegisteredThroughout(looked, between, id);
      if user != Anonymous {
        HeldMapStillListsUser(looked, between, user, id);
      }
    }
    SameRegistryMeans(s.hub, Step(s, Delivering(call, m)).hub);
  }

  lemma DeliverSends(h: Hub, ref: nat, m: Message)
    requires ref < |h.users.sets|
    ensures SentTo(h, Deliver(h, ref, m), h.users.sets[ref].ids * h.clients, m)
  {
  }

  /** The same for SendToUser, as the end of a run: the message joins what waits for the connections of the user
      that are registered, and were at the first half, unless 256 wait already; who of the user's connections
      came in between may get it, and nothing else changes. */
  lemma SendToUserFillsBuffers(before: seq<Event>, call: nat, user: User, between: seq<Event>, m: Message)
    requires call !in After(START, before).calls && OthersOnly(between, call) && user != Anonymous
    ensures var looked := Step(After(START, before), LookingUp(call, user));
            var s := After(looked, between);
            var t := Step(s, Delivering(call, m));
            exists ids: set<Id> ::
              && SentTo(s.hub, t.hub, ids, m)
              && ids <= ConnectionsOf(s.hub, user) && ConnectionsOf(looked.hub, user) * s.hub.clients <= ids
  {
    hide After, Deliver, Offer, SystemInv, Inv, SentTo;
    var start := After(START, before);
    var looked := Step(start, LookingUp(call, user));
    var s := After(looked, between);
    StartInv();
    RunKeepsInv(START, before);
    StepKeepsInv(start, LookingUp(call, user));
    RunKeepsInv(looked, between);
    CallKeepsItsMap(looked, between, call);
    forall id | id in ConnectionsOf(looked.hub, user) * s.hub.clients
      ensures call in s.calls && id in s.hub.users.sets[s.calls[call].held].ids
    {
      HeldMapStillListsUser(looked, between, user, id);
    }
    if call in s.calls {
      var ref := s.calls[call].held;
      CallHoldsItsUsersMap(s, call);
      DeliverSends(s.hub, ref, m);
      MapListsItsUser(s.hub, ref);
      assert s.calls[call] == looked.calls[call] == Call(user, ref);
      assert SentTo(s.hub, Step(s, Delivering(call, m)).hub, s.hub.users.sets[ref].ids * s.hub.clients, m);
    } else {
      SentToNobody(s.hub, m);
      assert Step(s, Delivering(call, m)) == s;
      assert ConnectionsOf(looked.hub, user) * s.hub.clients == {};
      assert SentTo(s.hub, Step(s, Delivering(call, m)).hub, {}, m);
    }
  }

  lemma SentToNobody(h: Hub, m: Message)
    ensures SentTo(h, h, {}, m)
  {
  }

  lemma MapListsItsUser(h: Hub, ref: nat)
    requires Inv(h) && ref < |h.users.sets|
    ensures h.users.sets[ref].ids * h.clients <= ConnectionsOf(h, h.users.sets[ref].user)
  {
  }

  lemma StartInv()
    ensures SystemInv(START)
  {
  }

  lemma SameRegistryMeans(h: Hub, t: Hub)
    ensures SameRegistry(h, t) ==> t.conns.Keys == h.conns.Keys && t.clients == h.clients
  {
  }

  lemma CallHoldsItsUsersMap(s: System, call: nat)
    requires SystemInv(s) && call in s.calls
    ensures Inv(s.hub) && s.calls[call].held < |s.hub.users.sets|
    ensures s.hub.users.sets[s.calls[call].held].user == s.calls[call].user
  {
  }

  lemma RegisteredThroughout(s: System, run: seq<Event>, id: Id)
    requires SystemInv(s) && id in s.hub.clients
    ensures id in s.hub.conns && id in After(s, run).hub.conns
    ensures After(s, run).hub.conns[id].user == s.hub.conns[id].user
  {
    RunExtends(s, run);
  }
}
