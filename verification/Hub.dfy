/** The hub's objects: clients with their channels, the inner maps, and the two maps of the hub, updated in
    place. Every method is proved to perform the step of HubModel that bears its name; the preconditions of
    Channel.Send and Channel.Close say that neither is ever used on a closed channel. */
module Hubs {
  import M = HubModel
  import opened HubModel

  class SendChannel {
    ghost const owner: Id
    var buffer: seq<Message>
    var closed: bool
    ghost var offers: seq<(Message, bool)>
    ghost var taken: seq<Message>

    ghost function View(): Channel
      reads this
    {
      Channel(buffer, closed, offers, taken)
    }

    constructor (ghost owner: Id)
      ensures this.owner == owner && View() == EMPTY_CHANNEL
    {
      this.owner := owner;
      buffer, closed, offers, taken := [], false, [], [];
    }

    method Send(m: Message)
      requires !closed
      modifies this
      ensures View() == Offer(old(View()), m)
    {
      if |buffer| < CAPACITY {
        buffer := buffer + [m];
        offers := offers + [(m, true)];
      } else {
        offers := offers + [(m, false)];
      }
    }

    method Close()
      requires !closed
      modifies this
      ensures View() == old(View()).(closed := true)
    {
      closed := true;
    }
  }

  class Client {
    const id: Id
    const userID: User
    const send: SendChannel

    constructor (id: Id, userID: User)
      ensures this.id == id && this.userID == userID && fresh(send) && send.owner == id && send.View() == EMPTY_CHANNEL
    {
      this.id, this.userID := id, userID;
      send := new SendChannel(id);
    }
  }

  /** An inner map of userClients; `user` and `ref` are its identity in the model. */
  class InnerMap {
    var ids: set<Id>
    ghost const user: User
    ghost const ref: nat

    constructor (ghost user: User, ghost ref: nat)
      ensures ids == {} && this.user == user && this.ref == ref
    {
      ids := {};
      this.user, this.ref := user, ref;
    }
  }

  class Hub {
    var clients: map<Id, Client>
    var userClients: map<User, InnerMap>
    /** Every connection ever registered with the state of its channel, and every inner map ever made. */
    ghost var conns: map<Id, Conn>
    ghost var users: Index
    ghost var known: map<Id, Client>
    ghost var arena: seq<InnerMap>
    /** The objects these are made of. */
    ghost var channels: set<object>
    ghost var innerMaps: set<object>

    /** The hub as HubModel sees it. */
    ghost function Model(): M.Hub
      reads this`conns, this`clients, this`users
    {
      M.Hub(conns, clients.Keys, users, false)
    }

    /** The client map and the channels are those of the model, each channel that of one connection. */
    ghost predicate ConnsAgree()
      reads this`clients, this`known, this`channels, this`conns, channels
    {
      && known.Keys == conns.Keys
      && (forall id <- clients :: id in known && clients[id] == known[id])
      && (forall id <- known ::
            var c := known[id];
            c.id == c.send.owner == id && c.send in channels && Conn(c.userID, c.send.View()) == conns[id])
    }

    /** The inner maps are those of the model, and userClients refers to them as its index does. */
    ghost predicate IndexAgrees()
      reads this`userClients, this`arena, this`innerMaps, this`users, innerMaps
    {
      && |arena| == |users.sets|
      && (forall i | 0 <= i < |arena| ::
            arena[i].ref == i && arena[i] in innerMaps && Inner(arena[i].user, arena[i].ids) == users.sets[i])
      && userClients.Keys == users.refs.Keys
      && (forall u <- userClients ::
            userClients[u].ref == users.refs[u] < |arena| && arena[userClients[u].ref] == userClients[u])
    }

    ghost predicate Separate()
      reads this`channels, this`innerMaps
    {
      channels !! innerMaps && this !in channels && this !in innerMaps
    }

    ghost predicate Valid()
      reads this, channels, innerMaps
    {
      Separate() && ConnsAgree() && IndexAgrees() && Inv(Model())
    }

    constructor ()
      ensures Valid() && Model() == NEW_HUB
    {
      clients, userClients := map[], map[];
      conns, users, known, arena, channels, innerMaps := map[], Index(map[], []), map[], [], {}, {};
    }

    /** The client with this id is known, and its channel is open. */
    ghost predicate OpenClient(id: Id)
      reads this`clients, this`known, this`channels, channels
    {
      && id in clients && id in known && clients[id] == known[id] && clients[id].id == id
      && clients[id].send in channels && !clients[id].send.closed
    }

    lemma OpenInModelIsOpen(id: Id)
      requires ConnsAgree() && id in clients && OpenIn(conns, id)
      ensures OpenClient(id) && id in conns && conns[id].user == clients[id].userID
    {
    }

    lemma KnownAreConns()
      requires ConnsAgree()
      ensures known.Keys == conns.Keys
    {
    }

    method AddUser(client: Client)
      requires IndexAgrees() && Separate()
      modifies this`userClients, this`arena, this`innerMaps, this`users, innerMaps
      ensures IndexAgrees() && users == AddToIndex(old(users), client.id, client.userID)
      ensures fresh(innerMaps - old(innerMaps))
    {
      if client.userID != Anonymous {
        if client.userID !in userClients {
          var inner := new InnerMap(client.userID, |arena|);
          arena := arena + [inner];
          innerMaps := innerMaps + {inner};
          userClients := userClients[client.userID := inner];
        }
        var inner := userClients[client.userID];
        inner.ids := inner.ids + {client.id};
      }
      users := AddToIndex(users, client.id, client.userID);
    }

    method RemoveUser(client: Client)
      requires IndexAgrees() && Separate()
      modifies this`userClients, this`users, innerMaps
      ensures IndexAgrees() && users == RemoveFromIndex(old(users), client.id, client.userID)
    {
      if client.userID != Anonymous {
        if client.userID in userClients {
          var inner := userClients[client.userID];
          inner.ids := inner.ids - {client.id};
          if inner.ids == {} {
            userClients := userClients - {client.userID};
          }
        }
      }
      users := RemoveFromIndex(users, client.id, client.userID);
    }

    method AddClient(client: Client)
      requires ConnsAgree() && client.id !in known && client.send.View() == EMPTY_CHANNEL
      requires client.send.owner == client.id
      modifies this`clients, this`known, this`channels, this`conns
      ensures ConnsAgree() && known == old(known)[client.id := client] && channels == old(channels) + {client.send}
      ensures conns == old(conns)[client.id := Conn(client.userID, EMPTY_CHANNEL)]
      ensures clients == old(clients)[client.id := client]
    {
      clients := clients[client.id := client];
      known := known[client.id := client];
      channels := channels + {client.send};
      conns := conns[client.id := Conn(client.userID, EMPTY_CHANNEL)];
    }

    method RemoveClient(client: Client)
      requires ConnsAgree()
      modifies this`clients
      ensures ConnsAgree() && clients == old(clients) - {client.id}
    {
      clients := clients - {client.id};
    }

    method SendOne(id: Id, message: Message)
      requires ConnsAgree() && OpenClient(id)
      modifies this`conns, clients[id].send
      ensures ConnsAgree() && OpenClient(id) && conns == OfferTo(old(conns), {id}, message)
    {
      conns := OfferTo(conns, {id}, message);
      clients[id].send.Send(message);
    }

    method CloseOne(client: Client)
      requires ConnsAgree() && client.id in known && known[client.id] == client && !client.send.closed
      modifies this`conns, client.send
      ensures ConnsAgree() && conns == CloseIn(old(conns), {client.id})
    {
      conns := CloseIn(conns, {client.id});
      client.send.Close();
    }

    method RegisterClient(client: Client)
      requires Valid() && client.id !in known && client.send.View() == EMPTY_CHANNEL
      requires client.send.owner == client.id && client.send !in innerMaps
      modifies this, innerMaps
      ensures Valid() && Model() == Register(old(Model()), client.id, client.userID)
      ensures known == old(known)[client.id := client] && channels == old(channels) + {client.send}
      ensures fresh(innerMaps - old(innerMaps))
    {
      hide Inv, AddToIndex, ConnsAgree, IndexAgrees;
      ghost var before := Model();
      KnownAreConns();
      RegisterKeepsInv(before, client.id, client.userID);
      AddClient(client);
      AddUser(client);
      assert clients.Keys == before.clients + {client.id};
      assert Model() == Register(before, client.id, client.userID);
    }

    method UnregisterClient(client: Client)
      requires Valid() && (client.id in known ==> known[client.id] == client)
      modifies this`clients, this`userClients, this`conns, this`users, channels, innerMaps
      ensures Valid() && Model() == Unregister(old(Model()), client.id)
    {
      hide Inv, CloseIn, AnyClosed, RemoveFromIndex, ConnsAgree, IndexAgrees, OpenIn;
      ghost var before := Model();
      if client.id !in clients {
        return;
      }
      RegisteredAreOpen(before);
      OpenInModelIsOpen(client.id);
      UnregisterKeepsInv(before, client.id);
      NeverPanicked(Unregister(before, client.id));
      Detach(client);
      CloseOne(client);
      assert Model() == Unregister(before, client.id);
    }

    /** The deletions of unregisterClient. */
    method Detach(client: Client)
      requires ConnsAgree() && IndexAgrees() && Separate() && OpenClient(client.id) && clients[client.id] == client
      modifies this`clients, this`userClients, this`users, innerMaps
      ensures ConnsAgree() && IndexAgrees() && !client.send.closed
      ensures clients.Keys == old(clients).Keys - {client.id}
      ensures users == RemoveFromIndex(old(users), client.id, client.userID)
    {
      hide ConnsAgree, IndexAgrees, RemoveFromIndex;
      RemoveClient(client);
      RemoveUser(client);
    }

    /** The loop over h.clients in broadcastMessage, and over a held inner map in the second half of SendToUser. */
    method SendToAll(ids: set<Id>, message: Message)
      requires Valid()
      modifies this`conns, channels
      ensures Valid() && Model() == SendTo(old(Model()), ids * clients.Keys, message)
    {
      hide Inv, OfferTo, AnyClosed, ConnsAgree, IndexAgrees, Progress, OpenIn, OpenClient;
      ghost var before := Model();
      FirstStep(ids, clients.Keys);
      SendKeepsInv(before, ids * clients.Keys, message);
      NeverPanicked(SendTo(before, ids * clients.Keys, message));
      RegisteredAreOpen(before);
      OfferToNone(conns, message);
      var todo := ids;
      ghost var done: set<Id> := {};
      while todo != {}
        invariant Progress(ids, clients.Keys, todo, done)
        invariant ConnsAgree() && conns == OfferTo(before.conns, done, message)
        decreases todo
      {
        var id :| id in todo;
        AnotherStep(ids, clients.Keys, todo, done, id);
        if id in clients {
          OfferToKeepsOpen(before.conns, done, message, id);
          OpenInModelIsOpen(id);
          OfferToOneMore(before.conns, done, id, message);
          SendOne(id, message);
          done := done + {id};
        }
        todo := todo - {id};
      }
      assert done == ids * clients.Keys by { AllDone(ids, clients.Keys, done); }
    }

    method BroadcastMessage(message: Message)
      requires Valid()
      modifies this`conns, channels
      ensures Valid() && Model() == Broadcast(old(Model()), message)
    {
      assert clients.Keys * clients.Keys == clients.Keys;
      SendToAll(clients.Keys, message);
    }

    /** First half of SendToUser: a reference to the inner map, or null. */
    method LookupUser(userID: User) returns (held: InnerMap?)
      requires Valid()
      ensures held == null <==> userID !in Model().users.refs
      ensures held != null ==> held in arena && held.ref == Model().users.refs[userID]
    {
      held := if userID in userClients then userClients[userID] else null;
    }

    /** Second half, any time later, with an inner map looked up earlier. */
    method DeliverTo(held: InnerMap, message: Message)
      requires Valid() && held in arena
      modifies this`conns, channels
      ensures Valid() && Model() == Deliver(old(Model()), held.ref, message)
    {
      assert Model().users.sets[held.ref].ids == held.ids;
      SendToAll(held.ids, message);
    }

    method GetConnectedUsers() returns (n: nat)
      requires Valid()
      ensures n == |Model().users.refs|
    {
      assert Model().users.refs.Keys == userClients.Keys;
      n := |userClients|;
    }

    method ShutdownAll()
      requires Valid()
      modifies this`clients, this`userClients, this`conns, this`users, channels
      ensures Valid() && Model() == Shutdown(old(Model()))
    {
      hide Inv, CloseIn, AnyClosed, ConnsAgree, IndexAgrees;
      ghost var before := Model();
      ShutdownKeepsInv(before);
      NeverPanicked(Shutdown(before));
      CloseEveryClient();
      MakeFreshMaps();
      assert Model() == Shutdown(before);
    }

    method MakeFreshMaps()
      requires ConnsAgree() && IndexAgrees()
      modifies this`clients, this`userClients, this`users
      ensures ConnsAgree() && IndexAgrees() && clients == map[] && users == old(users).(refs := map[])
    {
      clients := map[];
      userClients := map[];
      users := users.(refs := map[]);
    }

    method CloseEveryClient()
      requires Valid()
      modifies this`conns, channels
      ensures ConnsAgree() && IndexAgrees() && conns == CloseIn(old(conns), clients.Keys)
    {
      hide Inv, CloseIn, ConnsAgree, IndexAgrees, OpenIn;
      ghost var before := conns;
      RegisteredAreOpen(Model());
      CloseInNone(conns);
      var todo := clients.Keys;
      ghost var done: set<Id> := {};
      while todo != {}
        invariant todo !! done && clients.Keys == done + todo
        invariant ConnsAgree() && conns == CloseIn(before, done)
        decreases todo
      {
        var id :| id in todo;
        CloseInKeepsOthers(before, done, id);
        OpenInModelIsOpen(id);
        CloseInOneMore(before, done, id);
        CloseOne(clients[id]);
        done := done + {id};
        todo := todo - {id};
      }
      assert done == clients.Keys;
    }
  }

  lemma NeverPanicked(h: M.Hub)
    requires Inv(h)
    ensures !h.panicked
  {
  }

  /** A loop over ids that handles those in keys has `todo` left and has handled `done`. */
  ghost predicate Progress(ids: set<Id>, keys: set<Id>, todo: set<Id>, done: set<Id>) {
    todo <= ids && todo !! done && done == (ids - todo) * keys
  }

  lemma FirstStep(ids: set<Id>, keys: set<Id>)
    ensures Progress(ids, keys, ids, {})
  {
  }

  lemma AnotherStep(ids: set<Id>, keys: set<Id>, todo: set<Id>, done: set<Id>, id: Id)
    requires Progress(ids, keys, todo, done) && id in todo
    ensures id !in done && Progress(ids, keys, todo - {id}, if id in keys then done + {id} else done)
  {
  }

  lemma AllDone(ids: set<Id>, keys: set<Id>, done: set<Id>)
    requires Progress(ids, keys, {}, done)
    ensures done == ids * keys
  {
  }

  predicate OpenIn(conns: map<Id, Conn>, id: Id) {
    id in conns && !conns[id].channel.closed
  }

  lemma RegisteredAreOpen(h: M.Hub)
    requires Inv(h)
    ensures forall id <- h.clients :: OpenIn(h.conns, id)
  {
  }

  lemma OfferToKeepsOpen(conns: map<Id, Conn>, ids: set<Id>, m: Message, id: Id)
    requires OpenIn(conns, id)
    ensures OpenIn(OfferTo(conns, ids, m), id)
  {
  }

  lemma CloseInKeepsOthers(conns: map<Id, Conn>, ids: set<Id>, id: Id)
    requires OpenIn(conns, id) && id !in ids
    ensures OpenIn(CloseIn(conns, ids), id)
  {
  }

  lemma OfferToNone(conns: map<Id, Conn>, m: Message)
    ensures OfferTo(conns, {}, m) == conns
  {
  }

  lemma OfferToOneMore(conns: map<Id, Conn>, done: set<Id>, id: Id, m: Message)
    requires id !in done
    ensures OfferTo(OfferTo(conns, done, m), {id}, m) == OfferTo(conns, done + {id}, m)
  {
  }

  lemma CloseInNone(conns: map<Id, Conn>)
    ensures CloseIn(conns, {}) == conns
  {
  }

  lemma CloseInOneMore(conns: map<Id, Conn>, done: set<Id>, id: Id)
    ensures CloseIn(CloseIn(conns, done), {id}) == CloseIn(conns, done + {id})
  {
  }
}
