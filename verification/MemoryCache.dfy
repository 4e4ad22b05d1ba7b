/** The objects of internal/cache/memory.go: items updated in place, values in byte slices. Every method is
    proved to perform the operation of TimedMaps that bears its name, and to keep its slices to itself. */
module MemoryCaches {
  import opened Wrappers
  import opened Decimals
  import opened TimedMaps

  method Copy(s: seq<byte>) returns (a: array<byte>)
    ensures fresh(a) && a[..] == s
  {
    a := new byte[|s|](i requires 0 <= i < |s| => s[i]);
  }

  class Item {
    var value: array<byte>
    var expiresAt: int
    var hasExpiry: bool
    ghost const key: string

    ghost function View(): Entry
      reads this, value
    {
      Entry(value[..], if hasExpiry then Some(expiresAt) else None)
    }

    constructor (ghost key: string, value: array<byte>, deadline: Option<int>)
      ensures this.key == key && this.value == value
      ensures View() == Entry(value[..], deadline)
    {
      this.key, this.value := key, value;
      hasExpiry := deadline.Some?;
      expiresAt := if deadline.Some? then deadline.value else 0;
    }

    method SetDeadline(deadline: Option<int>)
      modifies this`expiresAt, this`hasExpiry
      ensures View() == old(View()).(deadline := deadline)
    {
      if deadline.Some? {
        expiresAt := deadline.value;
      }
      hasExpiry := deadline.Some?;
    }

    predicate IsExpired(now: int)
      reads this
    {
      hasExpiry && now > expiresAt
    }
  }

  class MemoryCache {
    var items: map<string, Item>
    /** What the items say, the item objects, and the slices that hold the values. */
    ghost var store: Store
    ghost var cells: set<object>
    ghost var buffers: set<object>

    ghost predicate Valid()
      reads this, cells, buffers
    {
      && cells !! buffers && this !in cells && this !in buffers
      && items.Keys == store.Keys
      && (forall k <- items ::
            items[k].key == k && items[k] in cells && items[k].value in buffers && items[k].View() == store[k])
    }

    lemma SameKeys()
      requires Valid()
      ensures items.Keys == store.Keys
    {
    }

    lemma ItemSays(key: string)
      requires Valid() && key in store
      ensures key in items && items[key].View() == store[key]
    {
    }

    constructor ()
      ensures Valid() && store == map[] && buffers == {}
    {
      items, store, cells, buffers := map[], map[], {}, {};
    }

    /** The slice returned is a new one. */
    method Get(key: string, now: int) returns (r: Option<array<byte>>)
      requires Valid()
      ensures Valid() && (r.Some? ==> fresh(r.value) && r.value !in buffers)
      ensures (if r.Some? then Bytes(r.value[..]) else NotFound) == Apply(store, TimedMaps.Get(key), now, now).1
    {
      if key !in items || items[key].IsExpired(now) {
        return None;
      }
      var result := Copy(items[key].value[..]);
      return Some(result);
    }

    method Exists(key: string, now: int) returns (found: bool)
      requires Valid()
      ensures Flag(found) == Apply(store, TimedMaps.Exists(key), now, now).1
    {
      found := key in items && !items[key].IsExpired(now);
    }

    /** items[key] becomes a new item that owns the slice. */
    method Put(key: string, value: array<byte>, deadline: Option<int>)
      requires Valid() && value !in buffers && value !in cells
      modifies this
      ensures Valid() && store == old(store)[key := Entry(value[..], deadline)]
      ensures buffers == old(buffers) + {value} && fresh(cells - old(cells))
    {
      var item := new Item(key, value, deadline);
      items := items[key := item];
      store := store[key := Entry(value[..], deadline)];
      cells := cells + {item};
      buffers := buffers + {value};
    }

    /** items[key].value becomes another slice. */
    method Replace(key: string, value: array<byte>)
      requires Valid() && key in items && value !in buffers && value !in cells
      modifies this`store, this`buffers, items[key]
      ensures Valid() && store == old(store)[key := old(store)[key].(value := value[..])]
      ensures buffers == old(buffers) + {value}
    {
      items[key].value := value;
      store := store[key := store[key].(value := value[..])];
      buffers := buffers + {value};
    }

    /** items[key] gets another deadline, or none. */
    method Redate(key: string, deadline: Option<int>)
      requires Valid() && key in items
      modifies this`store, items[key]
      ensures Valid() && store == old(store)[key := old(store)[key].(deadline := deadline)]
    {
      items[key].SetDeadline(deadline);
      store := store[key := store[key].(deadline := deadline)];
    }

    /** The caller's slice is copied: it does not become one of the cache's. */
    method Set(key: string, value: array<byte>, ttl: int, later: int)
      requires Valid()
      modifies this
      ensures Valid() && store == Apply(old(store), TimedMaps.Set(key, value[..], ttl), later, later).0
      ensures fresh(buffers - old(buffers)) && fresh(cells - old(cells))
    {
      var valueCopy := Copy(value[..]);
      Put(key, valueCopy, Deadline(ttl, later));
    }

    method Delete(key: string)
      requires Valid()
      modifies this`items, this`store
      ensures Valid() && store == Apply(old(store), TimedMaps.Delete(key), 0, 0).0
    {
      items := items - {key};
      store := store - {key};
    }

    method DeleteMany(keys: seq<string>)
      requires Valid()
      modifies this`items, this`store
      ensures Valid() && store == Apply(old(store), TimedMaps.DeleteMany(keys), 0, 0).0
    {
      hide Without, Valid;
      ghost var gone: set<string> := {};
      for i := 0 to |keys|
        invariant Valid() && store == old(store) - gone
        invariant forall k :: k in gone <==> k in keys[..i]
      {
        Delete(keys[i]);
        gone := gone + {keys[i]};
      }
      RemovedIsWithout(old(store), gone, k => k in keys);
    }

    method DeleteByPrefix(prefix: string)
      requires Valid()
      modifies this`items, this`store
      ensures Valid() && store == Apply(old(store), TimedMaps.DeleteByPrefix(prefix), 0, 0).0
    {
      hide Without, Valid;
      SameKeys();
      var todo := items.Keys;
      ghost var gone: set<string> := {};
      while todo != {}
        invariant Valid() && todo <= old(store).Keys
        invariant store == old(store) - gone
        invariant forall k <- old(store) :: k in gone <==> k !in todo && HasPrefix(k, prefix)
        decreases todo
      {
        var key :| key in todo;
        if |key| >= |prefix| && key[..|prefix|] == prefix {
          Delete(key);
          gone := gone + {key};
        }
        todo := todo - {key};
      }
      RemovedIsWithout(old(store), gone, k => HasPrefix(k, prefix));
    }

    /** The body shared by Increment and Decrement; overflow wraps. None is the parse error. */
    method Add(key: string, delta: int, now: int) returns (r: Option<int>)
      requires Valid() && -1 <= delta <= 1
      modifies this, cells
      ensures Valid() && store == AddTo(old(store), key, delta, now).0
      ensures (if r.Some? then Number(r.value) else ParseError) == AddTo(old(store), key, delta, now).1
      ensures fresh(buffers - old(buffers)) && fresh(cells - old(cells))
    {
      hide Print, Parse, Wrap;
      if key !in items || items[key].IsExpired(now) {
        var first := Copy(Print(delta));
        Put(key, first, None);
        return Some(delta);
      }
      var was := Parse(items[key].value[..]);
      if was.None? {
        return None;
      }
      var v := Wrap(was.value + delta);
      var text := Copy(Print(v));
      Replace(key, text);
      return Some(v);
    }

    method Increment(key: string, now: int) returns (r: Option<int>)
      requires Valid()
      modifies this, cells
      ensures Valid() && store == Apply(old(store), TimedMaps.Increment(key), now, now).0
      ensures (if r.Some? then Number(r.value) else ParseError)
           == Apply(old(store), TimedMaps.Increment(key), now, now).1
      ensures fresh(buffers - old(buffers)) && fresh(cells - old(cells))
    {
      r := Add(key, 1, now);
    }

    method Decrement(key: string, now: int) returns (r: Option<int>)
      requires Valid()
      modifies this, cells
      ensures Valid() && store == Apply(old(store), TimedMaps.Decrement(key), now, now).0
      ensures (if r.Some? then Number(r.value) else ParseError)
           == Apply(old(store), TimedMaps.Decrement(key), now, now).1
      ensures fresh(buffers - old(buffers)) && fresh(cells - old(cells))
    {
      r := Add(key, -1, now);
    }

    method Expire(key: string, ttl: int, now: int, later: int) returns (found: bool)
      requires Valid()
      modifies this`store, cells
      ensures Valid() && store == Apply(old(store), TimedMaps.Expire(key, ttl), now, later).0
      ensures (if found then Done else NotFound) == Apply(old(store), TimedMaps.Expire(key, ttl), now, later).1
    {
      hide Apply;
      ExpireSays(store, key, ttl, now, later);
      if key !in items || items[key].IsExpired(now) {
        return false;
      }
      Redate(key, Deadline(ttl, later));
      return true;
    }

    method Close()
      requires Valid()
      modifies this`items, this`store
      ensures Valid() && store == Apply(old(store), TimedMaps.Close, 0, 0).0
    {
      items, store := map[], map[];
    }

    /** `reading(k)` is the clock when item k is inspected, somewhere between start and end. */
    method DeleteExpired(reading: string -> int, ghost start: int, ghost end: int)
      requires Valid() && forall k :: start <= reading(k) <= end
      modifies this`items, this`store
      ensures Valid() && exists doomed :: store == Cleanup(old(store), doomed, end)
      ensures forall k <- store :: !Expired(store[k], start)
    {
      hide Cleanup, Valid;
      ghost var doomed: set<string> := {};
      SameKeys();
      var todo := items.Keys;
      while todo != {}
        invariant Valid() && todo <= store.Keys
        invariant doomed <= old(store).Keys && store == old(store) - doomed
        invariant forall k <- doomed :: Expired(old(store)[k], end)
        invariant forall k <- store :: k in todo || !Expired(store[k], start)
        decreases todo
      {
        var key :| key in todo;
        ItemSays(key);
        if items[key].IsExpired(reading(key)) {
          doomed := doomed + {key};
          Delete(key);
        }
        todo := todo - {key};
      }
      RemovedIsCleanup(old(store), doomed, end);
    }
  }

  lemma ExpireSays(m: Store, key: string, ttl: int, now: int, later: int)
    ensures Apply(m, Expire(key, ttl), now, later)
         == if !Live(m, key, now) then (m, NotFound)
            else (m[key := m[key].(deadline := Deadline(ttl, later))], Done)
  {
  }

  lemma RemovedIsWithout(m: Store, gone: set<string>, dead: string -> bool)
    requires forall k <- m :: k in gone <==> dead(k)
    ensures m - gone == Without(m, dead)
  {
  }

  lemma RemovedIsCleanup(m: Store, doomed: set<string>, now: int)
    requires forall k <- doomed :: k in m ==> Expired(m[k], now)
    ensures m - doomed == Cleanup(m, doomed, now)
  {
  }

  /** No slice is shared: a caller may overwrite the slice it gave to Set and the slice it got from Get, and the
      cache still holds, and returns, what was set. */
  method CallersMayScribble(cache: MemoryCache, key: string, mine: array<byte>, junk: byte, now: int)
    requires cache.Valid() && mine !in cache.buffers && mine !in cache.cells
    modifies cache, mine
    ensures cache.Valid() && mine !in cache.buffers
    ensures cache.store == old(cache.store)[key := Entry(old(mine[..]), None)]
  {
    hide AddTo, Without, MemoryCache.Valid;
    cache.Set(key, mine, 0, now);
    for i := 0 to mine.Length
      modifies mine
    {
      mine[i] := junk;
    }
    var got := cache.Get(key, now);
    assert got.Some? && got.value[..] == old(mine[..]);
    for i := 0 to got.value.Length
      modifies got.value
    {
      got.value[i] := junk;
    }
  }
}
