/** The WebSocket hub of internal/websocket/hub.go as a state machine over its lock sections.

    The inner maps of userClients have identity: SendToUser keeps a reference to one of them between its two
    lock sections, and by then the hub may have emptied, detached or replaced it. `sets` is the heap of all
    inner maps ever made; `refs` is userClients and holds references into it. */
module HubModel {
  /** A connection's uuid. */
  type Id = nat
  /** The authenticated user; Anonymous where the source has the empty string. */
  datatype User = Anonymous | Named(name: string)
  type Message = string

  const CAPACITY: nat := 256

  /** A client's send channel. `offers` records every attempted send and whether it was accepted; `taken`
      what WritePump has received. Both are history only. */
  datatype Channel = Channel(buffer: seq<Message>, closed: bool, offers: seq<(Message, bool)>, taken: seq<Message>)

  datatype Conn = Conn(user: User, channel: Channel)

  datatype Inner = Inner(user: User, ids: set<Id>)

  /** userClients, with the heap its inner maps live in. */
  datatype Index = Index(refs: map<User, nat>, sets: seq<Inner>)

  /** `conns` are all connections ever registered, `clients` those registered now. `panicked` would be set by
      a send on a closed channel or a second close. */
  datatype Hub = Hub(conns: map<Id, Conn>, clients: set<Id>, users: Index, panicked: bool)

  const EMPTY_CHANNEL := Channel([], false, [], [])
  const NEW_HUB := Hub(map[], {}, Index(map[], []), false)

  /** select { case send <- m: default: } on an open channel. */
  function Offer(ch: Channel, m: Message): Channel {
    if |ch.buffer| < CAPACITY then ch.(buffer := ch.buffer + [m], offers := ch.offers + [(m, true)])
    else ch.(offers := ch.offers + [(m, false)])
  }

  function OfferTo(conns: map<Id, Conn>, ids: set<Id>, m: Message): map<Id, Conn> {
    map id | id in conns :: if id in ids then conns[id].(channel := Offer(conns[id].channel, m)) else conns[id]
  }

  function CloseIn(conns: map<Id, Conn>, ids: set<Id>): map<Id, Conn> {
    map id | id in conns ::
      if id in ids then conns[id].(channel := conns[id].channel.(closed := true)) else conns[id]
  }

  predicate AnyClosed(conns: map<Id, Conn>, ids: set<Id>) {
    exists id <- ids :: id in conns && conns[id].channel.closed
  }

  function SendTo(h: Hub, ids: set<Id>, m: Message): Hub {
    h.(conns := OfferTo(h.conns, ids, m), panicked := h.panicked || AnyClosed(h.conns, ids))
  }

  function CloseAll(h: Hub, ids: set<Id>): Hub {
    h.(conns := CloseIn(h.conns, ids), panicked := h.panicked || AnyClosed(h.conns, ids))
  }

  function AddToIndex(ix: Index, id: Id, user: User): Index {
    if user == Anonymous then ix
    else if user in ix.refs && ix.refs[user] < |ix.sets| then
      var ref := ix.refs[user];
      ix.(sets := ix.sets[ref := ix.sets[ref].(ids := ix.sets[ref].ids + {id})])
    else
      Index(ix.refs[user := |ix.sets|], ix.sets + [Inner(user, {id})])
  }

  function RemoveFromIndex(ix: Index, id: Id, user: User): Index {
    if user == Anonymous || user !in ix.refs || ix.refs[user] >= |ix.sets| then ix
    else
      var ref := ix.refs[user];
      var left := ix.sets[ref].ids - {id};
      Index(if left == {} then ix.refs - {user} else ix.refs, ix.sets[ref := ix.sets[ref].(ids := left)])
  }

  function Register(h: Hub, id: Id, user: User): Hub {
    h.(conns := h.conns[id := Conn(user, EMPTY_CHANNEL)], clients := h.clients + {id},
       users := AddToIndex(h.users, id, user))
  }

  function Unregister(h: Hub, id: Id): Hub {
    if id !in h.clients || id !in h.conns then h
    else
      CloseAll(h, {id}).(clients := h.clients - {id}, users := RemoveFromIndex(h.users, id, h.conns[id].user))
  }

  function Broadcast(h: Hub, m: Message): Hub { SendTo(h, h.clients, m) }

  function Shutdown(h: Hub): Hub {
    CloseAll(h, h.clients).(clients := {}, users := h.users.(refs := map[]))
  }

  /** The second lock section of SendToUser, holding the inner map `ref`. */
  function Deliver(h: Hub, ref: nat, m: Message): Hub {
    if ref < |h.users.sets| then SendTo(h, h.users.sets[ref].ids * h.clients, m) else h
  }

  function Drain(h: Hub, id: Id): Hub {
    if id !in h.conns || h.conns[id].channel.buffer == [] then h
    else
      var ch := h.conns[id].channel;
      h.(conns := h.conns[id := h.conns[id].(channel := ch.(buffer := ch.buffer[1..],
                                                             taken := ch.taken + [ch.buffer[0]]))])
  }

  // ---------------------------------------------------------------- what every step keeps

  ghost function ConnectionsOf(h: Hub, user: User): set<Id> {
    set id | id in h.clients && id in h.conns && h.conns[id].user == user
  }

  function Accepted(offers: seq<(Message, bool)>): seq<Message> {
    if offers == [] then []
    else
      var last := offers[|offers| - 1];
      Accepted(offers[..|offers| - 1]) + if last.1 then [last.0] else []
  }

  /** What was received, followed by what is buffered, is what was accepted, in order. */
  ghost predicate ChannelInv(ch: Channel) {
    |ch.buffer| <= CAPACITY && ch.taken + ch.buffer == Accepted(ch.offers)
  }

  ghost predicate ConnsInv(h: Hub) {
    && h.clients <= h.conns.Keys
    && (forall id <- h.conns :: id in h.clients <==> !h.conns[id].channel.closed)
    && (forall id <- h.conns :: ChannelInv(h.conns[id].channel))
  }

  ghost predicate IndexInv(h: Hub) {
    && (forall u <- h.users.refs ::
          u != Anonymous && h.users.refs[u] < |h.users.sets| && h.users.sets[h.users.refs[u]].user == u)
    && (forall u <- h.users.refs :: h.users.sets[h.users.refs[u]].ids == ConnectionsOf(h, u) != {})
    && (forall id <- h.clients :: id in h.conns && (h.conns[id].user == Anonymous || h.conns[id].user in h.users.refs))
  }

  ghost predicate SetsInv(h: Hub) {
    forall r, id | 0 <= r < |h.users.sets| && id in h.users.sets[r].ids ::
      id in h.conns && h.conns[id].user == h.users.sets[r].user
  }

  ghost predicate Inv(h: Hub) {
    !h.panicked && ConnsInv(h) && SetsInv(h) && IndexInv(h)
  }

  lemma OfferKeepsInv(ch: Channel, m: Message)
    requires ChannelInv(ch)
    ensures ChannelInv(Offer(ch, m))
  {
    var offered := Offer(ch, m);
    assert offered.offers[..|ch.offers|] == ch.offers;
    assert ch.taken + (ch.buffer + [m]) == ch.taken + ch.buffer + [m];
  }

  /** Only channels differ: the same connections of the same users are registered, and the index is the same. */
  ghost predicate SameRegistry(h: Hub, t: Hub) {
    && t.clients == h.clients && t.users == h.users && t.conns.Keys == h.conns.Keys
    && (forall id <- h.conns :: t.conns[id].user == h.conns[id].user)
  }

  lemma RegistryFrame(h: Hub, t: Hub)
    requires SameRegistry(h, t) && h.clients <= h.conns.Keys && SetsInv(h) && IndexInv(h)
    ensures SetsInv(t) && IndexInv(t)
  {
    forall u ensures ConnectionsOf(t, u) == ConnectionsOf(h, u) {
    }
  }

  lemma SendKeepsInv(h: Hub, ids: set<Id>, m: Message)
    requires Inv(h) && ids <= h.clients
    ensures Inv(SendTo(h, ids, m))
  {
    var t := SendTo(h, ids, m);
    assert SameRegistry(h, t);
    RegistryFrame(h, t);
    assert ConnsInv(t) by {
      hide SetsInv, IndexInv, ChannelInv;
      forall id <- h.conns ensures ChannelInv(t.conns[id].channel) {
        OfferKeepsInv(h.conns[id].channel, m);
      }
    }
  }

  lemma DrainKeepsInv(h: Hub, id: Id)
    requires Inv(h)
    ensures Inv(Drain(h, id))
  {
    if id in h.conns && h.conns[id].channel.buffer != [] {
      var t := Drain(h, id);
      assert SameRegistry(h, t);
      RegistryFrame(h, t);
      assert ConnsInv(t) by {
        hide SetsInv, IndexInv;
        var ch := h.conns[id].channel;
        assert ch.taken + [ch.buffer[0]] + ch.buffer[1..] == ch.taken + ch.buffer;
      }
    }
  }

  lemma RegisterKeepsConns(h: Hub, id: Id, user: User)
    requires ConnsInv(h) && id !in h.conns
    ensures ConnsInv(Register(h, id, user))
  {
    var t := Register(h, id, user);
    assert t.conns == h.conns[id := Conn(user, EMPTY_CHANNEL)];
    assert ChannelInv(EMPTY_CHANNEL);
  }

  lemma RegisterKeepsSets(h: Hub, id: Id, user: User)
    requires SetsInv(h) && IndexInv(h) && id !in h.conns
    ensures SetsInv(Register(h, id, user))
  {
    hide ConnectionsOf;
    var t := Register(h, id, user);
    forall r, c | 0 <= r < |t.users.sets| && c in t.users.sets[r].ids
      ensures c in t.conns && t.conns[c].user == t.users.sets[r].user
    {
      if c != id {
        assert r < |h.users.sets| && c in h.users.sets[r].ids;
      }
    }
  }

  lemma RegisterGrowsUser(h: Hub, id: Id, user: User, u: User)
    requires id !in h.conns
    ensures ConnectionsOf(Register(h, id, user), u)
         == if u == user then ConnectionsOf(h, u) + {id} else ConnectionsOf(h, u)
  {
  }

  lemma RegisterKeepsIndex(h: Hub, id: Id, user: User)
    requires h.clients <= h.conns.Keys && SetsInv(h) && IndexInv(h) && id !in h.conns
    ensures IndexInv(Register(h, id, user))
  {
    var t := Register(h, id, user);
    if user != Anonymous && user !in h.users.refs {
      assert ConnectionsOf(h, user) == {};
    }
    forall u <- t.users.refs
      ensures u != Anonymous && t.users.refs[u] < |t.users.sets| && t.users.sets[t.users.refs[u]].user == u
      ensures t.users.sets[t.users.refs[u]].ids == ConnectionsOf(t, u) != {}
    {
      RegisterGrowsUser(h, id, user, u);
      assert u != user ==>
          && u in h.users.refs && t.users.refs[u] == h.users.refs[u]
          && t.users.sets[t.users.refs[u]] == h.users.sets[h.users.refs[u]];
    }
  }

  lemma RegisterKeepsInv(h: Hub, id: Id, user: User)
    requires Inv(h) && id !in h.conns
    ensures Inv(Register(h, id, user))
  {
    RegisterKeepsConns(h, id, user);
    RegisterKeepsSets(h, id, user);
    RegisterKeepsIndex(h, id, user);
  }

  lemma UnregisterKeepsConns(h: Hub, id: Id)
    requires !h.panicked && ConnsInv(h) && id in h.clients
    ensures !Unregister(h, id).panicked && ConnsInv(Unregister(h, id))
  {
  }

  lemma UnregisterKeepsSets(h: Hub, id: Id)
    requires SetsInv(h) && id in h.clients && id in h.conns
    ensures SetsInv(Unregister(h, id))
  {
    var t := Unregister(h, id);
    forall r, c | 0 <= r < |t.users.sets| && c in t.users.sets[r].ids
      ensures c in t.conns && t.conns[c].user == t.users.sets[r].user
    {
      assert c in h.users.sets[r].ids;
    }
  }

  lemma UnregisterShrinksUser(h: Hub, id: Id, u: User)
    requires id in h.clients && id in h.conns
    ensures ConnectionsOf(Unregister(h, id), u) == ConnectionsOf(h, u) - {id}
  {
  }

  lemma UnregisterKeepsIndex(h: Hub, id: Id)
    requires h.clients <= h.conns.Keys && SetsInv(h) && IndexInv(h) && id in h.clients
    ensures IndexInv(Unregister(h, id))
  {
    var t := Unregister(h, id);
    var user := h.conns[id].user;
    forall u <- t.users.refs
      ensures u != Anonymous && t.users.refs[u] < |t.users.sets| && t.users.sets[t.users.refs[u]].user == u
      ensures t.users.sets[t.users.refs[u]].ids == ConnectionsOf(t, u) != {}
    {
      UnregisterShrinksUser(h, id, u);
      assert u in h.users.refs && t.users.refs[u] == h.users.refs[u];
      assert u != user ==> id !in ConnectionsOf(h, u) && t.users.sets[t.users.refs[u]] == h.users.sets[h.users.refs[u]];
    }
    forall other <- t.clients ensures t.conns[other].user == Anonymous || t.conns[other].user in t.users.refs {
      UnregisterShrinksUser(h, id, user);
      assert t.conns[other].user == user ==> other in ConnectionsOf(t, user);
    }
  }

  lemma UnregisterKeepsInv(h: Hub, id: Id)
    requires Inv(h)
    ensures Inv(Unregister(h, id))
  {
    if id in h.clients {
      UnregisterKeepsConns(h, id);
      UnregisterKeepsSets(h, id);
      UnregisterKeepsIndex(h, id);
    }
  }

  lemma ShutdownKeepsInv(h: Hub)
    requires Inv(h)
    ensures Inv(Shutdown(h))
  {
  }

  // ---------------------------------------------------------------- what no step takes away

  /** Connections keep their user, inner maps keep theirs, and no connection comes back. */
  ghost predicate Extends(h: Hub, t: Hub) {
    && (forall id <- h.conns :: id in t.conns && t.conns[id].user == h.conns[id].user)
    && (forall id | id in h.conns && id in t.clients :: id in h.clients)
    && |h.users.sets| <= |t.users.sets|
    && (forall r | 0 <= r < |h.users.sets| :: t.users.sets[r].user == h.users.sets[r].user)
  }

  lemma ExtendsTransitive(h: Hub, t: Hub, u: Hub)
    requires Extends(h, t) && Extends(t, u)
    ensures Extends(h, u)
  {
  }

  lemma SendExtends(h: Hub, ids: set<Id>, m: Message)
    ensures Extends(h, SendTo(h, ids, m))
  {
    hide Offer;
  }

  lemma RegisterExtends(h: Hub, id: Id, user: User)
    requires id !in h.conns
    ensures Extends(h, Register(h, id, user))
  {
  }

  lemma UnregisterExtends(h: Hub, id: Id)
    ensures Extends(h, Unregister(h, id))
  {
  }

  /** Unregistering one connection takes no other out of any inner map; the same holds for registering. */
  lemma RegistrationKeepsMembers(h: Hub, changed: Id, user: User, ref: nat, id: Id)
    requires ref < |h.users.sets| && id in h.users.sets[ref].ids && id != changed
    ensures |h.users.sets| <= |Register(h, changed, user).users.sets|
    ensures id in Register(h, changed, user).users.sets[ref].ids
    ensures |h.users.sets| == |Unregister(h, changed).users.sets| && id in Unregister(h, changed).users.sets[ref].ids
  {
  }
}
