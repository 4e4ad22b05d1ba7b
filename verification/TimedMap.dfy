/** What the operations of MemoryCache (internal/cache/memory.go) do to its items, as a function of the clock.

    Each operation holds the lock, so it is one step. It reads the clock at most twice: `now` in isExpired,
    `later` when a deadline is set. An expired item may stay in the map until the cleanup removes it. */
module TimedMaps {
  import opened Wrappers
  import opened Decimals

  datatype Entry = Entry(value: seq<byte>, deadline: Option<int>)

  type Store = map<string, Entry>

  datatype Op =
    | Get(key: string)
    | Exists(key: string)
    | Set(key: string, value: seq<byte>, ttl: int)
    | Delete(key: string)
    | DeleteMany(keys: seq<string>)
    | DeleteByPrefix(prefix: string)
    | Increment(key: string)
    | Decrement(key: string)
    | Expire(key: string, ttl: int)
    | Close

  datatype Reply = NotFound | Bytes(bytes: seq<byte>) | Flag(flag: bool) | Number(number: int) | Done | ParseError

  predicate Expired(e: Entry, now: int) { e.deadline.Some? && now > e.deadline.value }

  predicate Live(m: Store, key: string, now: int) { key in m && !Expired(m[key], now) }

  function Deadline(ttl: int, later: int): Option<int> { if ttl > 0 then Some(later + ttl) else None }

  predicate HasPrefix(s: string, prefix: string) { |s| >= |prefix| && s[..|prefix|] == prefix }

  /** The operation does not write the item under key. */
  predicate LeavesAlone(op: Op, key: string) {
    match op
    case Get(_) => true
    case Exists(_) => true
    case Set(k, _, _) => k != key
    case Delete(k) => k != key
    case DeleteMany(keys) => key !in keys
    case DeleteByPrefix(prefix) => !(prefix <= key)
    case Increment(k) => k != key
    case Decrement(k) => k != key
    case Expire(k, _) => k != key
    case Close => false
  }

  /** The operation takes the item under key out. */
  predicate Removes(op: Op, key: string) {
    match op
    case Delete(k) => k == key
    case DeleteMany(keys) => key in keys
    case DeleteByPrefix(prefix) => prefix <= key
    case Close => true
    case _ => false
  }

  /** Increment and Decrement: a missing or expired counter starts over, without a deadline. */
  function AddTo(m: Store, key: string, delta: int, now: int): (Store, Reply) {
    if !Live(m, key, now) then (m[key := Entry(Print(delta), None)], Number(delta))
    else
      var was := Parse(m[key].value);
      if was.None? then (m, ParseError)
      else
        var v := Wrap(was.value + delta);
        (m[key := m[key].(value := Print(v))], Number(v))
  }

  function Without(m: Store, gone: string -> bool): Store {
    map k | k in m && !gone(k) :: m[k]
  }

  function Apply(m: Store, op: Op, now: int, later: int): (Store, Reply) {
    match op
    case Get(key) => (m, if Live(m, key, now) then Bytes(m[key].value) else NotFound)
    case Exists(key) => (m, Flag(Live(m, key, now)))
    case Set(key, value, ttl) => (m[key := Entry(value, Deadline(ttl, later))], Done)
    case Delete(key) => (m - {key}, Done)
    case DeleteMany(keys) => (Without(m, k => k in keys), Done)
    case DeleteByPrefix(prefix) => (Without(m, k => HasPrefix(k, prefix)), Done)
    case Increment(key) => AddTo(m, key, 1, now)
    case Decrement(key) => AddTo(m, key, -1, now)
    case Expire(key, ttl) =>
      if !Live(m, key, now) then (m, NotFound)
      else (m[key := m[key].(deadline := Deadline(ttl, later))], Done)
    case Close => (map[], Done)
  }

  /** deleteExpired, finished at `now`: it removes some of the items expired by then. Which ones depends on the
      clock readings of its loop; `doomed` says. */
  function Cleanup(m: Store, doomed: set<string>, now: int): Store {
    map k | k in m && !(k in doomed && Expired(m[k], now)) :: m[k]
  }

  // ---------------------------------------------------------------- the reference: a map with deadlines

  function Purge(m: Store, now: int): Store {
    map k | k in m && !Expired(m[k], now) :: m[k]
  }

  /** The same operations on a plain map: deadlines are kept, never looked at. */
  function PlainApply(m: Store, op: Op, later: int): (Store, Reply) {
    match op
    case Get(key) => (m, if key in m then Bytes(m[key].value) else NotFound)
    case Exists(key) => (m, Flag(key in m))
    case Set(key, value, ttl) => (m[key := Entry(value, Deadline(ttl, later))], Done)
    case Delete(key) => (m - {key}, Done)
    case DeleteMany(keys) => (Without(m, k => k in keys), Done)
    case DeleteByPrefix(prefix) => (Without(m, k => HasPrefix(k, prefix)), Done)
    case Increment(key) => PlainAdd(m, key, 1)
    case Decrement(key) => PlainAdd(m, key, -1)
    case Expire(key, ttl) =>
      if key !in m then (m, NotFound) else (m[key := m[key].(deadline := Deadline(ttl, later))], Done)
    case Close => (map[], Done)
  }

  function PlainAdd(m: Store, key: string, delta: int): (Store, Reply) {
    if key !in m then (m[key := Entry(Print(delta), None)], Number(delta))
    else
      var was := Parse(m[key].value);
      if was.None? then (m, ParseError)
      else
        var v := Wrap(was.value + delta);
        (m[key := m[key].(value := Print(v))], Number(v))
  }

  // ---------------------------------------------------------------- runs

  datatype Event =
    | Operating(op: Op, wait: nat, skew: nat)
    | Cleaning(doomed: set<string>, wait: nat)

  datatype Timed = Timed(store: Store, clock: int, replies: seq<Reply>)

  /** The cache as it is, with the cleanup at any moment. */
  function Step(s: Timed, e: Event): Timed {
    match e
    case Operating(op, wait, skew) =>
      var (m, reply) := Apply(s.store, op, s.clock + wait, s.clock + wait + skew);
      Timed(m, s.clock + wait + skew, s.replies + [reply])
    case Cleaning(doomed, wait) => Timed(Cleanup(s.store, doomed, s.clock + wait), s.clock + wait, s.replies)
  }

  /** The reference: every item disappears the moment it expires, and there is no cleanup. */
  function IdealStep(s: Timed, e: Event): Timed {
    match e
    case Operating(op, wait, skew) =>
      var (m, reply) := PlainApply(Purge(s.store, s.clock + wait), op, s.clock + wait + skew);
      Timed(m, s.clock + wait + skew, s.replies + [reply])
    case Cleaning(doomed, wait) => s.(clock := s.clock + wait)
  }

  function After(s: Timed, run: seq<Event>): Timed {
    if run == [] then s else Step(After(s, run[..|run| - 1]), run[|run| - 1])
  }

  function IdealAfter(s: Timed, run: seq<Event>): Timed {
    if run == [] then s else IdealStep(IdealAfter(s, run[..|run| - 1]), run[|run| - 1])
  }

  // ---------------------------------------------------------------- refinement

  lemma PurgeLater(m: Store, now: int, later: int)
    requires now <= later
    ensures Purge(Purge(m, now), later) == Purge(m, later)
  {
  }

  lemma CleanupUnseen(m: Store, doomed: set<string>, now: int)
    ensures Purge(Cleanup(m, doomed, now), now) == Purge(m, now)
  {
  }

  lemma LiveAfterPurge(m: Store, key: string, now: int)
    ensures Live(m, key, now) <==> key in Purge(m, now)
    ensures Live(m, key, now) ==> key in m && Purge(m, now)[key] == m[key]
  {
  }

  lemma SetLikePlain(m: Store, key: string, e: Entry, now: int, later: int)
    requires now <= later
    ensures Purge(m[key := e], later) == Purge(Purge(m, now)[key := e], later)
  {
  }

  lemma DeleteLikePlain(m: Store, key: string, now: int, later: int)
    requires now <= later
    ensures Purge(m - {key}, later) == Purge(Purge(m, now) - {key}, later)
  {
  }

  lemma WithoutLikePlain(m: Store, gone: string -> bool, now: int, later: int)
    requires now <= later
    ensures Purge(Without(m, gone), later) == Purge(Without(Purge(m, now), gone), later)
  {
  }

  lemma AddLikePlain(m: Store, key: string, delta: int, now: int, later: int)
    requires now <= later
    ensures AddTo(m, key, delta, now).1 == PlainAdd(Purge(m, now), key, delta).1
    ensures Purge(AddTo(m, key, delta, now).0, later) == Purge(PlainAdd(Purge(m, now), key, delta).0, later)
  {
    hide Print, Parse, Wrap;
  }

  /** Looking at deadlines lazily gives the replies of a map purged beforehand, and the same items later. */
  lemma ApplyLikePlain(m: Store, op: Op, now: int, later: int)
    requires now <= later
    ensures Apply(m, op, now, later).1 == PlainApply(Purge(m, now), op, later).1
    ensures Purge(Apply(m, op, now, later).0, later) == Purge(PlainApply(Purge(m, now), op, later).0, later)
  {
    hide AddTo, PlainAdd, HasPrefix, Purge, Live, Without;
    PurgeLater(m, now, later);
    match op
    case Get(key) => LiveAfterPurge(m, key, now);
    case Exists(key) => LiveAfterPurge(m, key, now);
    case Set(key, value, ttl) => SetLikePlain(m, key, Entry(value, Deadline(ttl, later)), now, later);
    case Delete(key) => DeleteLikePlain(m, key, now, later);
    case DeleteMany(keys) => WithoutLikePlain(m, k => k in keys, now, later);
    case DeleteByPrefix(prefix) => WithoutLikePlain(m, k => HasPrefix(k, prefix), now, later);
    case Increment(key) => AddLikePlain(m, key, 1, now, later);
    case Decrement(key) => AddLikePlain(m, key, -1, now, later);
    case Expire(key, ttl) =>
      LiveAfterPurge(m, key, now);
      if Live(m, key, now) {
        SetLikePlain(m, key, m[key].(deadline := Deadline(ttl, later)), now, later);
      }
    case Close =>
  }

  /** Two stores that agree on the live items behave alike from now on. */
  ghost predicate Agree(s: Timed, t: Timed) {
    s.clock == t.clock && s.replies == t.replies && Purge(s.store, s.clock) == Purge(t.store, t.clock)
  }

  lemma StepAgrees(s: Timed, t: Timed, e: Event)
    requires Agree(s, t)
    ensures Agree(Step(s, e), IdealStep(t, e))
  {
    hide Apply, PlainApply, Cleanup, Purge;
    var now := s.clock + e.wait;
    PurgeLater(s.store, s.clock, now);
    PurgeLater(t.store, s.clock, now);
    match e
    case Operating(op, wait, skew) => ApplyLikePlain(s.store, op, now, now + skew);
    case Cleaning(doomed, wait) => CleanupUnseen(s.store, doomed, now);
  }

  lemma {:induction false} RunAgrees(s: Timed, t: Timed, run: seq<Event>)
    requires Agree(s, t)
    ensures Agree(After(s, run), IdealAfter(t, run))
  {
    if run != [] {
      RunAgrees(s, t, run[..|run| - 1]);
      StepAgrees(After(s, run[..|run| - 1]), IdealAfter(t, run[..|run| - 1]), run[|run| - 1]);
    }
  }

  /** MemoryCache refines a map from keys to values with deadlines: in every run every reply is the one of the
      reference, whatever moments the cleanup runs at and whichever expired items it happens to remove. */
  lemma CacheRefinesTimedMap(store: Store, now: int, run: seq<Event>)
    ensures var s := Timed(store, now, []); After(s, run).replies == IdealAfter(s, run).replies
  {
    RunAgrees(Timed(store, now, []), Timed(store, now, []), run);
  }

}
