/** When an outbox entry is handed over, in all runs of the relay: any number of publishers, failures and stops
    between any two steps, new entries at any time (internal/outbox/outbox.go:87-150, 217-252).

    Rows are only ever appended, so an entry is known by its place j in the table. */
module RelayDrain {
  import opened Outboxes
  import opened OutboxDrain
  import opened Relays

  /** The undecodable entries older than the entry at j. */
  function GarbageBefore(rows: seq<Row>, j: nat): nat
    requires j <= |rows|
  {
    |Garbage(rows[..j])|
  }

  /** The decodable entries older than the entry at j that are still unpublished. */
  function WaitingBefore(rows: seq<Row>, j: nat): nat
    requires j <= |rows|
  {
    |Decodable(Unpublished(rows[..j]))|
  }

  // ---------------------------------------------------------------- what every reachable state satisfies

  /** The table holds this entry, which was unpublished when it was read. */
  ghost predicate Known(rows: seq<Row>, b: Row) {
    exists i | 0 <= i < |rows| :: rows[i].(published := false) == b
  }

  ghost predicate InProgress(rows: seq<Row>, local: Publishing) {
    && local.next <= |local.batch| && local.ids == Ids(Decodable(local.batch[..local.next]))
    && (forall b <- local.batch :: Known(rows, b))
  }

  ghost predicate Sound(s: Relay) {
    && UniqueIds(s.rows)
    && (forall r <- s.rows | r.published :: r.payload.Object?)
    && (forall p <- s.publishing :: InProgress(s.rows, s.publishing[p]))
  }

  /** More entries at the end, and perhaps some marked. */
  ghost predicate Evolved(a: seq<Row>, b: seq<Row>) {
    |a| <= |b| && forall i | 0 <= i < |a| :: b[i] == a[i] || b[i] == a[i].(published := true)
  }

  lemma StepEvolves(s: Relay, e: Event)
    ensures Evolved(s.rows, Step(s, e).rows)
  {
  }

  lemma EvolvedTransitive(a: seq<Row>, b: seq<Row>, c: seq<Row>)
    requires Evolved(a, b) && Evolved(b, c)
    ensures Evolved(a, c)
  {
  }

  lemma {:induction false} RunEvolves(s: Relay, run: seq<Event>)
    ensures Evolved(s.rows, After(s, run).rows)
  {
    hide Step;
    if run != [] {
      RunEvolves(s, run[..|run| - 1]);
      StepEvolves(After(s, run[..|run| - 1]), run[|run| - 1]);
    }
  }

  lemma KnownStays(a: seq<Row>, b: seq<Row>, r: Row)
    requires Known(a, r) && Evolved(a, b)
    ensures Known(b, r)
  {
    var i :| 0 <= i < |a| && a[i].(published := false) == r;
    assert b[i].(published := false) == r;
  }

  lemma InProgressStays(a: seq<Row>, b: seq<Row>, local: Publishing)
    requires InProgress(a, local) && Evolved(a, b)
    ensures InProgress(b, local)
  {
    hide Known, Evolved, Decodable;
    forall r <- local.batch ensures Known(b, r) {
      KnownStays(a, b, r);
    }
  }

  lemma BatchIsKnown(rows: seq<Row>, limit: nat)
    ensures InProgress(rows, Publishing(Batch(rows, limit), 0, []))
  {
    var batch := Batch(rows, limit);
    forall b <- batch ensures Known(rows, b) {
      FilterMembers(rows, b);
      var i :| 0 <= i < |rows| && rows[i] == b;
      assert rows[i].(published := false) == b;
    }
    assert Ids(Decodable(batch[..0])) == [];
  }

  lemma OneMoreHanded(rows: seq<Row>, local: Publishing)
    requires InProgress(rows, local) && local.next < |local.batch|
    ensures var row := local.batch[local.next];
            InProgress(rows, local.(next := local.next + 1,
                                    ids := if row.payload.Object? then local.ids + [row.id] else local.ids))
  {
    hide Known;
    var batch, n := local.batch, local.next;
    assert batch[..n + 1][..n] == batch[..n];
    CallsGrow(Decodable(batch[..n]), batch[n]);
    if !batch[n].payload.Object? {
      assert Decodable(batch[..n + 1]) == Decodable(batch[..n]);
    }
  }

  lemma AppendKeepsUnique(rows: seq<Row>, r: Row)
    requires UniqueIds(rows) && r.id !in Ids(rows)
    ensures UniqueIds(rows + [r])
  {
    forall i | 0 <= i < |rows| ensures rows[i].id != r.id {
      assert Ids(rows)[i] == rows[i].id;
    }
  }

  /** An id to be marked is that of a decodable row. */
  lemma MarkedIsDecodable(rows: seq<Row>, local: Publishing, r: Row)
    requires UniqueIds(rows) && InProgress(rows, local) && r in rows && r.id in local.ids
    ensures r.payload.Object?
  {
    var done := local.batch[..local.next];
    IdsOf(Decodable(done), r.id);
    var b :| b in Decodable(done) && b.id == r.id;
    FilterMembers(done, b);
    assert b in local.batch && Known(rows, b);
    var i :| 0 <= i < |rows| && rows[i].(published := false) == b;
    var k :| 0 <= k < |rows| && rows[k] == r;
    assert rows[i].id == rows[k].id;
  }

  lemma MarkKeepsRowsSound(rows: seq<Row>, local: Publishing)
    requires UniqueIds(rows) && InProgress(rows, local) && forall r <- rows | r.published :: r.payload.Object?
    ensures UniqueIds(Marked(rows, local.ids))
    ensures forall r <- Marked(rows, local.ids) | r.published :: r.payload.Object?
  {
    hide InProgress;
    forall r <- Marked(rows, local.ids) | r.published ensures r.payload.Object? {
      var i :| 0 <= i < |rows| && Marked(rows, local.ids)[i] == r;
      assert rows[i] in rows;
      if rows[i].id in local.ids {
        MarkedIsDecodable(rows, local, rows[i]);
      }
    }
  }

  lemma StepKeepsRowsSound(s: Relay, e: Event)
    requires Sound(s)
    ensures UniqueIds(Step(s, e).rows) && forall r <- Step(s, e).rows | r.published :: r.payload.Object?
  {
    hide InProgress, UniqueIds, Marked, Publish;
    match e
    case Committing(id, name, payload) =>
      if id !in Ids(s.rows) {
        AppendKeepsUnique(s.rows, Row(id, name, payload, false));
      }
    case Marking(p, ok) =>
      if p in s.publishing {
        MarkKeepsRowsSound(s.rows, s.publishing[p]);
      }
    case Handing(p, marshals) => HandingKeepsRows(s, p, marshals);
    case _ =>
  }

  lemma HandingKeepsRows(s: Relay, p: nat, marshals: bool)
    ensures Hand(s, p, marshals).rows == s.rows
  {
  }

  lemma StepKeepsSound(s: Relay, e: Event)
    requires Sound(s)
    ensures Sound(Step(s, e))
  {
    StepKeepsRowsSound(s, e);
    StepEvolves(s, e);
    var t := Step(s, e);
    hide UniqueIds, Evolved, InProgress, Batch, Marked, Stored;
    forall p <- s.publishing ensures InProgress(t.rows, s.publishing[p]) {
      InProgressStays(s.rows, t.rows, s.publishing[p]);
    }
    match e
    case Polling(p, limit) => BatchIsKnown(s.rows, limit);
    case Handing(p, marshals) =>
      if p in s.publishing && s.publishing[p].next < |s.publishing[p].batch| {
        OneMoreHanded(s.rows, s.publishing[p]);
      }
    case _ =>
  }

  lemma {:induction false} RunKeepsSound(s: Relay, run: seq<Event>)
    requires Sound(s) && PublishedWereHanded(s)
    ensures Sound(After(s, run)) && PublishedWereHanded(After(s, run))
  {
    hide Sound, PublishedWereHanded, Step;
    if run != [] {
      var t := After(s, run[..|run| - 1]);
      RunKeepsSound(s, run[..|run| - 1]);
      StepKeepsSound(t, run[|run| - 1]);
      StepKeepsPublishedHanded(t, run[|run| - 1]);
    }
  }

  /** In every run ids stay unique, only decodable entries are published, and every batch in progress consists
      of rows of the table. */
  lemma ReachableIsSound(run: seq<Event>)
    ensures Sound(After(START, run)) && PublishedWereHanded(After(START, run))
  {
    RunKeepsSound(START, run);
  }

  lemma {:induction false} RunKeepsHanded(s: Relay, run: seq<Event>, id: Id)
    requires WasHanded(s, id)
    ensures WasHanded(After(s, run), id)
  {
    hide WasHanded, Step;
    if run != [] {
      RunKeepsHanded(s, run[..|run| - 1], id);
      HandedGrows(After(s, run[..|run| - 1]), run[|run| - 1]);
    }
  }

  // ---------------------------------------------------------------- counting

  /** Where the first `limit` unpublished entries end. */
  lemma {:induction false} Cut(rows: seq<Row>, limit: nat) returns (k: nat)
    requires limit <= |Unpublished(rows)|
    ensures k <= |rows| && Unpublished(rows[..k]) == Unpublished(rows)[..limit]
  {
    if limit == |Unpublished(rows)| {
      k := |rows|;
      assert rows[..k] == rows;
    } else {
      var front := rows[..|rows| - 1];
      k := Cut(front, limit);
      assert front[..k] == rows[..k];
    }
  }

  lemma {:induction false} FewerWaiting(a: seq<Row>, b: seq<Row>)
    requires Evolved(a, b) && |a| == |b|
    ensures |Decodable(Unpublished(b))| <= |Decodable(Unpublished(a))| && |Garbage(b)| == |Garbage(a)|
  {
    hide Unpublished, Decodable, Garbage;
    if a != [] {
      var last := |a| - 1;
      FewerWaiting(a[..last], b[..last]);
      CountsAppend(a[..last], a[last]);
      CountsAppend(b[..last], b[last]);
      assert a == a[..last] + [a[last]] && b == b[..last] + [b[last]];
    }
  }

  lemma CountsAppend(rows: seq<Row>, r: Row)
    ensures |Decodable(Unpublished(rows + [r]))|
         == |Decodable(Unpublished(rows))| + if !r.published && r.payload.Object? then 1 else 0
    ensures |Garbage(rows + [r])| == |Garbage(rows)| + if r.payload.Object? then 0 else 1
  {
    assert (rows + [r])[..|rows|] == rows;
    DecodableAppend(Unpublished(rows), r);
    assert r.published ==> Unpublished(rows + [r]) == Unpublished(rows);
  }

  lemma DecodableAppend(rows: seq<Row>, r: Row)
    ensures Decodable(rows + [r]) == Decodable(rows) + if r.payload.Object? then [r] else []
  {
    assert (rows + [r])[..|rows|] == rows;
  }

  lemma {:induction false} GarbageIsUnpublished(rows: seq<Row>)
    requires forall r <- rows | r.published :: r.payload.Object?
    ensures |Garbage(Unpublished(rows))| == |Garbage(rows)|
    ensures |Unpublished(rows)| == |Decodable(Unpublished(rows))| + |Garbage(rows)|
  {
    FilterSizes(Unpublished(rows));
    if rows != [] {
      var front, r := rows[..|rows| - 1], rows[|rows| - 1];
      GarbageIsUnpublished(front);
      assert r in rows;
      if r.published {
        assert Unpublished(rows) == Unpublished(front);
      } else {
        assert (Unpublished(front) + [r])[..|Unpublished(front)|] == Unpublished(front);
      }
    }
  }

  lemma NoneWaiting(rows: seq<Row>)
    requires forall r <- rows :: r.published || r.payload.Undecodable?
    ensures Decodable(Unpublished(rows)) == []
  {
    if Decodable(Unpublished(rows)) != [] {
      var r := Decodable(Unpublished(rows))[0];
      FilterMembers(Unpublished(rows), r);
      FilterMembers(rows, r);
    }
  }

  /** Later steps neither add to what waits before j nor change the undecodable entries there. */
  lemma BeforeStays(a: seq<Row>, b: seq<Row>, j: nat)
    requires Evolved(a, b) && j <= |a|
    ensures WaitingBefore(b, j) <= WaitingBefore(a, j) && GarbageBefore(b, j) == GarbageBefore(a, j)
  {
    FewerWaiting(a[..j], b[..j]);
  }

  /** The entry at j is in the batch unless that many older ones are unpublished. */
  lemma InBatch(rows: seq<Row>, limit: nat, j: nat)
    requires j < |rows| && !rows[j].published && |Unpublished(rows[..j])| < limit
    ensures rows[j] in Batch(rows, limit)
  {
    FiltersConcat(rows[..j], rows[j..]);
    assert rows == rows[..j] + rows[j..];
    FiltersConcat([rows[j]], rows[j + 1..]);
    assert rows[j..] == [rows[j]] + rows[j + 1..];
    assert Unpublished([rows[j]]) == [rows[j]] by { assert [rows[j]][..0] == []; }
    var n := |Unpublished(rows[..j])|;
    assert Unpublished(rows)[n] == rows[j] && Batch(rows, limit)[n] == rows[j];
  }

  lemma BatchIsOlder(rows: seq<Row>, limit: nat, j: nat)
    requires j <= |rows| && limit <= |Unpublished(rows[..j])|
    ensures Batch(rows, limit) == Unpublished(rows[..j])[..limit]
  {
    FiltersConcat(rows[..j], rows[j..]);
    assert rows == rows[..j] + rows[j..];
  }

  // ---------------------------------------------------------------- one completed Process among other steps

  /** `before` the poll of publisher p, and between its poll and its successful mark, anything may happen. */
  datatype Round = Round(before: seq<Event>, p: nat, during: seq<Event>)

  predicate LeavesAlone(e: Event, p: nat) {
    (e.Polling? || e.Marking? || e.Stopping?) ==> e.p != p
  }

  function Polled(s: Relay, r: Round, limit: nat): Relay { Step(After(s, r.before), Polling(r.p, limit)) }

  function Worked(s: Relay, r: Round, limit: nat): Relay { After(Polled(s, r, limit), r.during) }

  function AfterRound(s: Relay, r: Round, limit: nat): Relay { Step(Worked(s, r, limit), Marking(r.p, true)) }

  /** Publisher p is free at the poll, is not stopped, and gets through its batch. */
  ghost predicate Completes(s: Relay, r: Round, limit: nat) {
    && r.p !in After(s, r.before).publishing
    && (forall e <- r.during :: LeavesAlone(e, r.p))
    && var t := Worked(s, r, limit);
       r.p in t.publishing ==> t.publishing[r.p].next >= |t.publishing[r.p].batch|
  }

  lemma {:induction false} BatchKept(s: Relay, run: seq<Event>, p: nat)
    requires p in s.publishing && forall e <- run :: LeavesAlone(e, p)
    ensures p in After(s, run).publishing && After(s, run).publishing[p].batch == s.publishing[p].batch
  {
    if run != [] {
      BatchKept(s, run[..|run| - 1], p);
      assert LeavesAlone(run[|run| - 1], p);
    }
  }

  /** The entries of a batch that was handed over and marked no longer wait. */
  lemma MarkedNoLongerWait(rows: seq<Row>, later: seq<Row>, k: nat, batch: seq<Row>)
    requires k <= |rows| && Unpublished(rows[..k]) == batch && Evolved(rows, later)
    ensures Decodable(Unpublished(Marked(later, Ids(Decodable(batch)))[..k])) == []
  {
    var ids := Ids(Decodable(batch));
    var marked := Marked(later, ids);
    hide Unpublished, Decodable;
    forall i | 0 <= i < k ensures marked[i].published || marked[i].payload.Undecodable? {
      if !later[i].published && later[i].payload.Object? {
        UnpublishedIsMarked(rows[..k], batch, rows[i]);
      }
    }
    NoneWaiting(marked[..k]);
  }

  lemma UnpublishedIsMarked(rows: seq<Row>, batch: seq<Row>, r: Row)
    requires Unpublished(rows) == batch && r in rows && !r.published && r.payload.Object?
    ensures r.id in Ids(Decodable(batch))
  {
    FilterMembers(rows, r);
    FilterMembers(batch, r);
    IdsOf(Decodable(batch), r.id);
  }

  /** A batch of `limit` older entries: marking them takes all but the undecodable ones out of the way. */
  lemma MarkingMakesProgress(rows: seq<Row>, later: seq<Row>, limit: nat, j: nat)
    requires j <= |rows| && limit <= |Unpublished(rows[..j])| && Evolved(rows, later)
    requires forall r <- rows | r.published :: r.payload.Object?
    ensures var marked := Marked(later, Ids(Decodable(Batch(rows, limit))));
            WaitingBefore(marked, j) + limit <= WaitingBefore(rows, j) + GarbageBefore(rows, j)
  {
    hide Evolved, Unpublished, Decodable, Garbage;
    var batch := Batch(rows, limit);
    BatchIsOlder(rows, limit, j);
    var k := Cut(rows[..j], limit);
    assert rows[..j][..k] == rows[..k];
    var marked := Marked(later, Ids(Decodable(batch)));
    MarkedNoLongerWait(rows, later, k, batch);
    LengthGrows(rows, later);
    SplitWaiting(marked, k, j);
    SplitWaiting(rows, k, j);
    FilterSizes(batch);
    GarbageIsUnpublished(rows[..k]);
    TailEvolves(rows, later, Ids(Decodable(batch)), k, j);
    FewerWaiting(rows[k..j], marked[k..j]);
  }

  lemma LengthGrows(a: seq<Row>, b: seq<Row>)
    requires Evolved(a, b)
    ensures |a| <= |b|
  {
  }

  lemma TailEvolves(rows: seq<Row>, later: seq<Row>, ids: seq<Id>, k: nat, j: nat)
    requires k <= j <= |rows| && Evolved(rows, later)
    ensures Evolved(rows[k..j], Marked(later, ids)[k..j])
  {
  }

  lemma SplitWaiting(rows: seq<Row>, k: nat, j: nat)
    requires k <= j <= |rows|
    ensures WaitingBefore(rows, j) == |Decodable(Unpublished(rows[..k]))| + |Decodable(Unpublished(rows[k..j]))|
    ensures |Garbage(rows[..k])| <= GarbageBefore(rows, j)
  {
    assert rows[..j] == rows[..k] + rows[k..j];
    FiltersConcat(rows[..k], rows[k..j]);
    FiltersConcat(Unpublished(rows[..k]), Unpublished(rows[k..j]));
  }

  /** What a publisher that is through its batch has handed over. */
  lemma ThroughMeansHanded(s: Relay, p: nat)
    requires Sound(s) && PublishedWereHanded(s) && p in s.publishing
    requires s.publishing[p].next >= |s.publishing[p].batch|
    ensures s.publishing[p].ids == Ids(Decodable(s.publishing[p].batch))
    ensures forall b <- s.publishing[p].batch | b.payload.Object? :: WasHanded(s, b.id)
  {
    var local := s.publishing[p];
    assert local.batch[..local.next] == local.batch;
    forall b <- local.batch | b.payload.Object? ensures WasHanded(s, b.id) {
      FilterMembers(local.batch, b);
      IdsOf(Decodable(local.batch), b.id);
    }
  }

  lemma PublishedWasHanded(s: Relay, j: nat)
    requires PublishedWereHanded(s) && j < |s.rows| && s.rows[j].published
    ensures WasHanded(s, s.rows[j].id)
  {
    assert s.rows[j] in s.rows;
  }

  lemma EntryStays(a: seq<Row>, b: seq<Row>, j: nat)
    requires Evolved(a, b) && j < |a|
    ensures j < |b| && b[j].id == a[j].id && b[j].payload == a[j].payload
  {
  }

  lemma RowsAreDecodable(s: Relay)
    requires Sound(s)
    ensures forall r <- s.rows | r.published :: r.payload.Object?
  {
  }

  /** With the poll at u and the mark after v: the entry has been handed over, or limit minus the undecodable
      entries before it fewer wait before it. */
  lemma PollToMark(u: Relay, v: Relay, p: nat, limit: nat, j: nat)
    requires Sound(u) && PublishedWereHanded(u) && Sound(v) && PublishedWereHanded(v) && Evolved(u.rows, v.rows)
    requires j < |u.rows| && u.rows[j].payload.Object? && u.handed <= v.handed
    requires p in v.publishing && v.publishing[p].batch == Batch(u.rows, limit)
    requires v.publishing[p].next >= |v.publishing[p].batch|
    ensures var rows := Mark(v, p, true).rows;
            && j <= |rows|
            && (WasHanded(v, u.rows[j].id)
                || WaitingBefore(rows, j) + limit <= WaitingBefore(u.rows, j) + GarbageBefore(u.rows, j))
  {
    hide Sound, PublishedWereHanded, Evolved, Batch, WasHanded, Unpublished, Decodable, Garbage;
    RowsAreDecodable(u);
    ThroughMeansHanded(v, p);
    LengthGrows(u.rows, v.rows);
    if u.rows[j].published {
      PublishedWasHanded(u, j);
      HandedStays(u, v, u.rows[j].id);
    } else if |Unpublished(u.rows[..j])| < limit {
      InBatch(u.rows, limit, j);
    } else {
      MarkingMakesProgress(u.rows, v.rows, limit, j);
    }
  }

  lemma HandedStays(s: Relay, t: Relay, id: Id)
    requires s.handed <= t.handed && WasHanded(s, id)
    ensures WasHanded(t, id)
  {
    var h :| 0 <= h < |s.handed| && s.handed[h].id == id;
    assert t.handed[h].id == id;
  }

  lemma {:induction false} RunHandsMore(s: Relay, run: seq<Event>)
    ensures s.handed <= After(s, run).handed
  {
    hide Step;
    if run != [] {
      RunHandsMore(s, run[..|run| - 1]);
      HandedGrows(After(s, run[..|run| - 1]), run[|run| - 1]);
    }
  }

  lemma PollSets(s: Relay, p: nat, limit: nat)
    requires p !in s.publishing
    ensures var t := Step(s, Polling(p, limit));
            && t.rows == s.rows && t.handed == s.handed
            && p in t.publishing && t.publishing[p].batch == Batch(s.rows, limit)
  {
  }

  /** One completed Process, with anything before and during it. */
  lemma RoundProgress(s: Relay, r: Round, limit: nat, j: nat)
    requires Sound(s) && PublishedWereHanded(s) && Completes(s, r, limit)
    requires j < |s.rows| && s.rows[j].payload.Object?
    ensures var t := AfterRound(s, r, limit);
            && Sound(t) && PublishedWereHanded(t) && Evolved(s.rows, t.rows) && j < |t.rows|
            && (WasHanded(t, s.rows[j].id)
                || WaitingBefore(t.rows, j) + limit <= WaitingBefore(s.rows, j) + GarbageBefore(s.rows, j))
  {
    hide Sound, PublishedWereHanded, Evolved, Batch, WasHanded, WaitingBefore, GarbageBefore, After, Step;
    var u, t := After(s, r.before), AfterRound(s, r, limit);
    var polled, v := Polled(s, r, limit), Worked(s, r, limit);
    RunKeepsSound(s, r.before);
    RunEvolves(s, r.before);
    EntryStays(s.rows, u.rows, j);
    BeforeStays(s.rows, u.rows, j);
    PollSets(u, r.p, limit);
    StepKeepsSound(u, Polling(r.p, limit));
    StepKeepsPublishedHanded(u, Polling(r.p, limit));
    RunKeepsSound(polled, r.during);
    RunEvolves(polled, r.during);
    RunHandsMore(polled, r.during);
    BatchKept(polled, r.during, r.p);
    StepKeepsSound(v, Marking(r.p, true));
    StepKeepsPublishedHanded(v, Marking(r.p, true));
    StepEvolves(v, Marking(r.p, true));
    EvolvedTransitive(s.rows, u.rows, v.rows);
    EvolvedTransitive(s.rows, v.rows, t.rows);
    EntryStays(s.rows, t.rows, j);
    PollToMark(u, v, r.p, limit, j);
    MarkIsStep(v, r.p);
    HandedGrows(v, Marking(r.p, true));
  }

  lemma MarkIsStep(s: Relay, p: nat)
    ensures Step(s, Marking(p, true)) == Mark(s, p, true)
  {
  }

  // ---------------------------------------------------------------- handed over in time

  function AfterRounds(s: Relay, rounds: seq<Round>, limit: nat): Relay
    decreases |rounds|
  {
    if rounds == [] then s else AfterRounds(AfterRound(s, rounds[0], limit), rounds[1..], limit)
  }

  ghost predicate AllComplete(s: Relay, rounds: seq<Round>, limit: nat)
    decreases |rounds|
  {
    rounds != [] ==> Completes(s, rounds[0], limit) && AllComplete(AfterRound(s, rounds[0], limit), rounds[1..], limit)
  }

  function Events(r: Round, limit: nat): seq<Event> {
    r.before + [Polling(r.p, limit)] + r.during + [Marking(r.p, true)]
  }

  /** The run that the rounds make up. */
  function Flat(rounds: seq<Round>, limit: nat): seq<Event> {
    if rounds == [] then [] else Events(rounds[0], limit) + Flat(rounds[1..], limit)
  }

  lemma AfterSnoc(s: Relay, xs: seq<Event>, e: Event)
    ensures After(s, xs + [e]) == Step(After(s, xs), e)
  {
    hide Step;
    assert (xs + [e])[..|xs|] == xs;
  }

  lemma RoundIsRun(s: Relay, r: Round, limit: nat)
    ensures After(s, Events(r, limit)) == AfterRound(s, r, limit)
  {
    hide After, Step;
    AfterSnoc(s, r.before, Polling(r.p, limit));
    AfterConcat(s, r.before + [Polling(r.p, limit)], r.during);
    AfterSnoc(s, r.before + [Polling(r.p, limit)] + r.during, Marking(r.p, true));
  }

  lemma {:induction false} RoundsAreRun(s: Relay, rounds: seq<Round>, limit: nat)
    ensures After(s, Flat(rounds, limit)) == AfterRounds(s, rounds, limit)
    decreases |rounds|
  {
    hide AfterRound, Events, Step;
    if rounds != [] {
      RoundIsRun(s, rounds[0], limit);
      AfterConcat(s, Events(rounds[0], limit), Flat(rounds[1..], limit));
      RoundsAreRun(AfterRound(s, rounds[0], limit), rounds[1..], limit);
    }
  }

  lemma {:induction false} EntryHandedAfterRounds(s: Relay, rounds: seq<Round>, limit: nat, j: nat)
    requires Sound(s) && PublishedWereHanded(s) && AllComplete(s, rounds, limit)
    requires j < |s.rows| && s.rows[j].payload.Object? && GarbageBefore(s.rows, j) < limit
    requires |rounds| * (limit - GarbageBefore(s.rows, j)) > WaitingBefore(s.rows, j)
    ensures WasHanded(AfterRounds(s, rounds, limit), s.rows[j].id)
    decreases |rounds|
  {
    hide Sound, PublishedWereHanded, Evolved, WasHanded, WaitingBefore, GarbageBefore, Completes, AfterRound, After;
    var n, gain := |rounds|, limit - GarbageBefore(s.rows, j);
    if n > 0 {
      var t := AfterRound(s, rounds[0], limit);
      RoundProgress(s, rounds[0], limit, j);
      if WasHanded(t, s.rows[j].id) {
        RoundsAreRun(t, rounds[1..], limit);
        RunKeepsHanded(t, Flat(rounds[1..], limit), s.rows[j].id);
      } else {
        EntryStays(s.rows, t.rows, j);
        BeforeStays(s.rows, t.rows, j);
        assert n * gain == (n - 1) * gain + gain;
        EntryHandedAfterRounds(t, rounds[1..], limit, j);
      }
    }
  }

  /** At-least-once hand-over with a bound, in every run: a decodable entry with g undecodable entries and d
      waiting decodable ones before it, g < limit, has been handed over after ceil((d + 1) / (limit - g)) completed
      calls of Process, one after the other, by whichever publishers - whatever other publishers, failures,
      stops and new entries come before, between and during them. */
  lemma EntryHandedInTime(run: seq<Event>, rounds: seq<Round>, limit: nat, j: nat)
    requires j < |After(START, run).rows| && After(START, run).rows[j].payload.Object?
    requires AllComplete(After(START, run), rounds, limit)
    requires var rows := After(START, run).rows;
             GarbageBefore(rows, j) < limit && |rounds| * (limit - GarbageBefore(rows, j)) > WaitingBefore(rows, j)
    ensures WasHanded(After(START, run + Flat(rounds, limit)), After(START, run).rows[j].id)
  {
    hide After, Sound, PublishedWereHanded, AllComplete, GarbageBefore, WaitingBefore, WasHanded;
    ReachableIsSound(run);
    EntryHandedAfterRounds(After(START, run), rounds, limit, j);
    RoundsAreRun(After(START, run), rounds, limit);
    AfterConcat(START, run, Flat(rounds, limit));
  }

  // ---------------------------------------------------------------- never handed over

  ghost predicate PollsWithin(run: seq<Event>, limit: nat) {
    forall e <- run | e.Polling? :: e.limit <= limit
  }

  /** A batch in progress is yet to come to this entry. */
  ghost predicate Held(s: Relay, id: Id) {
    exists p <- s.publishing ::
      exists k | s.publishing[p].next <= k < |s.publishing[p].batch| :: s.publishing[p].batch[k].id == id
  }

  ghost predicate HandedSince(s: Relay, t: Relay, id: Id) {
    exists h | |s.handed| <= h < |t.handed| :: t.handed[h].id == id
  }

  lemma StepCannotReach(s: Relay, e: Event, limit: nat, j: nat)
    requires Sound(s) && j < |s.rows| && GarbageBefore(s.rows, j) >= limit && !Held(s, s.rows[j].id)
    requires e.Polling? ==> e.limit <= limit
    ensures !Held(Step(s, e), s.rows[j].id) && !HandedSince(s, Step(s, e), s.rows[j].id)
  {
    hide UniqueIds, InProgress, GarbageBefore, Batch, Marked, Stored;
    if e.Polling? {
      BatchMisses(s.rows, e.limit, limit, j);
      RowsAreDecodable(s);
    }
  }

  lemma BatchMisses(rows: seq<Row>, l: nat, limit: nat, j: nat)
    requires UniqueIds(rows) && forall r <- rows | r.published :: r.payload.Object?
    requires j < |rows| && GarbageBefore(rows, j) >= limit >= l
    ensures forall b <- Batch(rows, l) :: b.id != rows[j].id
  {
    assert forall r <- rows[..j] | r.published :: r in rows;
    GarbageIsUnpublished(rows[..j]);
    BatchIsOlder(rows, l, j);
    forall b <- Batch(rows, l) ensures b.id != rows[j].id {
      FilterMembers(rows[..j], b);
      var i :| 0 <= i < j && rows[..j][i] == b;
      assert rows[i].id != rows[j].id;
    }
  }

  /** With `limit` or more undecodable entries before it, an entry that no batch in progress holds is not handed
      over any more, in any run whose polls read at most `limit` entries. */
  lemma {:induction false} EntryStuckFrom(s: Relay, rest: seq<Event>, limit: nat, j: nat)
    requires Sound(s) && PublishedWereHanded(s) && PollsWithin(rest, limit)
    requires j < |s.rows| && GarbageBefore(s.rows, j) >= limit && !Held(s, s.rows[j].id)
    ensures var t := After(s, rest);
            !Held(t, s.rows[j].id) && !HandedSince(s, t, s.rows[j].id)
  {
    hide Sound, PublishedWereHanded, GarbageBefore, Held, Step, Evolved;
    if rest != [] {
      var front, e := rest[..|rest| - 1], rest[|rest| - 1];
      EntryStuckFrom(s, front, limit, j);
      var t := After(s, front);
      RunKeepsSound(s, front);
      RunEvolves(s, front);
      EntryStays(s.rows, t.rows, j);
      BeforeStays(s.rows, t.rows, j);
      StepCannotReach(t, e, limit, j);
      HandedGrows(t, e);
    }
  }

  lemma EntryStuck(run: seq<Event>, rest: seq<Event>, limit: nat, j: nat)
    requires PollsWithin(rest, limit) && j < |After(START, run).rows|
    requires GarbageBefore(After(START, run).rows, j) >= limit
    requires !Held(After(START, run), After(START, run).rows[j].id)
    ensures var s := After(START, run); !HandedSince(s, After(s, rest), s.rows[j].id)
  {
    hide After, Sound, PublishedWereHanded, GarbageBefore, Held, HandedSince;
    ReachableIsSound(run);
    EntryStuckFrom(After(START, run), rest, limit, j);
  }

  // ---------------------------------------------------------------- exactly when an entry is handed over

  function Handings(p: nat, n: nat): seq<Event> { seq(n, _ => Handing(p, true)) }

  lemma {:induction false} HandingsAdvance(s: Relay, p: nat, n: nat)
    requires p in s.publishing && s.publishing[p].next + n <= |s.publishing[p].batch|
    ensures var t := After(s, Handings(p, n));
            && p in t.publishing && t.publishing[p].batch == s.publishing[p].batch
            && t.publishing[p].next == s.publishing[p].next + n
  {
    if n > 0 {
      HandingsAdvance(s, p, n - 1);
      assert Handings(p, n)[..n - 1] == Handings(p, n - 1);
    }
  }

  /** Publisher 0 starts afresh and is not interrupted. */
  function Alone(s: Relay, limit: nat): Round {
    Round([Stopping(0)], 0, Handings(0, |Batch(s.rows, limit)|))
  }

  lemma AloneCompletes(s: Relay, limit: nat)
    ensures Completes(s, Alone(s, limit), limit) && PollsWithin(Events(Alone(s, limit), limit), limit)
  {
    var u := Step(s, Stopping(0));
    assert [Stopping(0)][..0] == [];
    assert After(s, []) == s;
    assert After(s, [Stopping(0)]) == u;
    PollSets(u, 0, limit);
    HandingsAdvance(Step(u, Polling(0, limit)), 0, |Batch(s.rows, limit)|);
  }

  function AloneRounds(s: Relay, limit: nat, n: nat): seq<Round>
    decreases n
  {
    if n == 0 then []
    else [Alone(s, limit)] + AloneRounds(AfterRound(s, Alone(s, limit), limit), limit, n - 1)
  }

  lemma {:induction false} AloneRoundsComplete(s: Relay, limit: nat, n: nat)
    ensures var rounds := AloneRounds(s, limit, n);
            |rounds| == n && AllComplete(s, rounds, limit) && PollsWithin(Flat(rounds, limit), limit)
    decreases n
  {
    hide Completes, AfterRound, Alone, Events;
    if n > 0 {
      AloneCompletes(s, limit);
      AloneRoundsComplete(AfterRound(s, Alone(s, limit), limit), limit, n - 1);
      assert AloneRounds(s, limit, n)[1..] == AloneRounds(AfterRound(s, Alone(s, limit), limit), limit, n - 1);
    }
  }

  /** An entry held by a batch in progress can still be handed over. */
  lemma HeldCanBeHanded(s: Relay, j: nat) returns (rest: seq<Event>)
    requires Sound(s) && PublishedWereHanded(s)
    requires j < |s.rows| && s.rows[j].payload.Object? && Held(s, s.rows[j].id)
    ensures PollsWithin(rest, 0) && WasHanded(After(s, rest), s.rows[j].id)
  {
    var id := s.rows[j].id;
    var p :| p in s.publishing &&
      exists k | s.publishing[p].next <= k < |s.publishing[p].batch| :: s.publishing[p].batch[k].id == id;
    var k :| s.publishing[p].next <= k < |s.publishing[p].batch| && s.publishing[p].batch[k].id == id;
    var batch := s.publishing[p].batch;
    assert InProgress(s.rows, s.publishing[p]);
    HeldIsDecodable(s.rows, batch[k], j);
    rest := Handings(p, |batch| - s.publishing[p].next);
    hide Sound, PublishedWereHanded, WasHanded, Held;
    HandingsAdvance(s, p, |batch| - s.publishing[p].next);
    RunKeepsSound(s, rest);
    ThroughMeansHanded(After(s, rest), p);
  }

  lemma HeldIsDecodable(rows: seq<Row>, b: Row, j: nat)
    requires UniqueIds(rows) && Known(rows, b) && j < |rows| && rows[j].id == b.id
    ensures b.payload == rows[j].payload
  {
    var i :| 0 <= i < |rows| && rows[i].(published := false) == b;
    assert i == j;
  }

  lemma ReachableCanBeHanded(s: Relay, limit: nat, j: nat) returns (rest: seq<Event>)
    requires Sound(s) && PublishedWereHanded(s)
    requires j < |s.rows| && s.rows[j].payload.Object? && GarbageBefore(s.rows, j) < limit
    ensures PollsWithin(rest, limit) && WasHanded(After(s, rest), s.rows[j].id)
  {
    hide Sound, PublishedWereHanded, WasHanded, AllComplete, GarbageBefore, WaitingBefore, PollsWithin, After;
    var n := WaitingBefore(s.rows, j) + 1;
    AloneRoundsComplete(s, limit, n);
    MulAtLeast(n, limit - GarbageBefore(s.rows, j));
    var rounds := AloneRounds(s, limit, n);
    EntryHandedAfterRounds(s, rounds, limit, j);
    RoundsAreRun(s, rounds, limit);
    rest := Flat(rounds, limit);
  }

  lemma MulAtLeast(n: nat, m: nat)
    requires m >= 1
    ensures n * m >= n
  {
  }

  /** Exactly when a decodable entry has been or can be handed over by publishers with this batch size: it was
      handed over already, a batch in progress holds it, or fewer than `limit` undecodable entries are older. */
  lemma EntryHandedIffFewGarbageAhead(run: seq<Event>, limit: nat, j: nat)
    requires j < |After(START, run).rows| && After(START, run).rows[j].payload.Object?
    ensures var s := After(START, run);
            (exists rest :: PollsWithin(rest, limit) && WasHanded(After(s, rest), s.rows[j].id))
            <==> WasHanded(s, s.rows[j].id) || Held(s, s.rows[j].id) || GarbageBefore(s.rows, j) < limit
  {
    hide Sound, PublishedWereHanded, WasHanded, Held, GarbageBefore, HandedSince;
    var s := After(START, run);
    var id := s.rows[j].id;
    ReachableIsSound(run);
    if WasHanded(s, id) {
      assert PollsWithin([], limit) && After(s, []) == s;
    } else if Held(s, id) {
      var rest := HeldCanBeHanded(s, j);
      assert PollsWithin(rest, limit);
    } else if GarbageBefore(s.rows, j) < limit {
      var rest := ReachableCanBeHanded(s, limit, j);
    } else {
      forall rest | PollsWithin(rest, limit) ensures !WasHanded(After(s, rest), id) {
        EntryStuckFrom(s, rest, limit, j);
        if WasHanded(After(s, rest), id) {
          HandedOrSince(s, rest, id);
        }
      }
    }
  }

  lemma HandedOrSince(s: Relay, rest: seq<Event>, id: Id)
    requires WasHanded(After(s, rest), id)
    ensures WasHanded(s, id) || HandedSince(s, After(s, rest), id)
  {
    hide After;
    RunHandsMore(s, rest);
    var h :| 0 <= h < |After(s, rest).handed| && After(s, rest).handed[h].id == id;
    if h < |s.handed| {
      assert s.handed[h].id == id;
    }
  }

  // ---------------------------------------------------------------- blocked for good

  /** No batch in progress is yet to come to a decodable entry. */
  ghost predicate NothingInProgress(s: Relay) {
    forall p <- s.publishing ::
      forall k | s.publishing[p].next <= k < |s.publishing[p].batch| :: s.publishing[p].batch[k].payload.Undecodable?
  }

  /** The oldest `limit` unpublished entries are all undecodable. */
  ghost predicate Blocked(s: Relay, limit: nat) {
    && NothingInProgress(s)
    && limit <= |Unpublished(s.rows)|
    && forall i | 0 <= i < limit :: Unpublished(s.rows)[i].payload.Undecodable?
  }

  /** The same, in terms of the first k rows. */
  ghost predicate BlockedBefore(s: Relay, limit: nat, k: nat) {
    && NothingInProgress(s) && k <= |s.rows|
    && WaitingBefore(s.rows, k) == 0 && GarbageBefore(s.rows, k) >= limit
  }

  lemma BlockedHasEnd(s: Relay, limit: nat) returns (k: nat)
    requires Sound(s) && Blocked(s, limit)
    ensures BlockedBefore(s, limit, k)
  {
    k := Cut(s.rows, limit);
    var first := Unpublished(s.rows[..k]);
    assert forall r <- s.rows[..k] | r.published :: r in s.rows;
    GarbageIsUnpublished(s.rows[..k]);
    if Decodable(first) != [] {
      var r := Decodable(first)[0];
      FilterMembers(first, r);
    }
  }

  lemma BlockedBatch(s: Relay, limit: nat, k: nat, l: nat)
    requires Sound(s) && BlockedBefore(s, limit, k) && l <= limit
    ensures forall b <- Batch(s.rows, l) :: b.payload.Undecodable?
  {
    assert forall r <- s.rows[..k] | r.published :: r in s.rows;
    GarbageIsUnpublished(s.rows[..k]);
    BatchIsOlder(s.rows, l, k);
    var first := Unpublished(s.rows[..k]);
    forall b <- Batch(s.rows, l) ensures b.payload.Undecodable? {
      assert b in first;
      FilterMembers(first, b);
    }
  }

  lemma StepStaysBlocked(s: Relay, e: Event, limit: nat, k: nat)
    requires Sound(s) && BlockedBefore(s, limit, k) && (e.Polling? ==> e.limit <= limit)
    ensures BlockedBefore(Step(s, e), limit, k) && Step(s, e).handed == s.handed
  {
    StepEvolves(s, e);
    BeforeStays(s.rows, Step(s, e).rows, k);
    if e.Polling? {
      BlockedBatch(s, limit, k, e.limit);
    }
    hide Sound, WaitingBefore, GarbageBefore, Batch, Marked, Stored, Publish;
  }

  lemma {:induction false} RunStaysBlocked(s: Relay, rest: seq<Event>, limit: nat, k: nat)
    requires Sound(s) && PublishedWereHanded(s) && BlockedBefore(s, limit, k) && PollsWithin(rest, limit)
    ensures BlockedBefore(After(s, rest), limit, k) && After(s, rest).handed == s.handed
  {
    hide Sound, PublishedWereHanded, BlockedBefore, Step;
    if rest != [] {
      var front := rest[..|rest| - 1];
      RunStaysBlocked(s, front, limit, k);
      RunKeepsSound(s, front);
      StepStaysBlocked(After(s, front), rest[|rest| - 1], limit, k);
    }
  }

  /** Handing over the rest of a batch that has a decodable entry left hands over something. */
  lemma {:induction false} HandingsHand(s: Relay, p: nat, n: nat, k: nat)
    requires p in s.publishing && s.publishing[p].next + n <= |s.publishing[p].batch|
    requires s.publishing[p].next <= k < s.publishing[p].next + n && s.publishing[p].batch[k].payload.Object?
    ensures |After(s, Handings(p, n)).handed| > |s.handed|
  {
    HandingsAdvance(s, p, n - 1);
    assert Handings(p, n)[..n - 1] == Handings(p, n - 1);
    RunHandsMore(s, Handings(p, n - 1));
    if k < s.publishing[p].next + n - 1 {
      HandingsHand(s, p, n - 1, k);
    }
  }

  lemma BatchCanBeHanded(s: Relay, limit: nat) returns (rest: seq<Event>)
    requires exists b <- Batch(s.rows, limit) :: b.payload.Object?
    ensures PollsWithin(rest, limit) && |After(s, rest).handed| > |s.handed|
  {
    var batch := Batch(s.rows, limit);
    var u := Step(s, Stopping(0));
    var polled := Step(u, Polling(0, limit));
    PollSets(u, 0, limit);
    rest := [Stopping(0), Polling(0, limit)] + Handings(0, |batch|);
    AfterTwo(s, Stopping(0), Polling(0, limit));
    AfterConcat(s, [Stopping(0), Polling(0, limit)], Handings(0, |batch|));
    var k :| 0 <= k < |batch| && batch[k].payload.Object?;
    HandingsHand(polled, 0, |batch|, k);
  }

  lemma AfterTwo(s: Relay, e: Event, f: Event)
    ensures After(s, [e]) == Step(s, e) && After(s, [e, f]) == Step(Step(s, e), f)
  {
    hide Step;
    assert [e][..0] == [] && [e, f][..1] == [e];
    assert After(s, []) == s;
  }

  lemma {:induction false} FreshId(rows: seq<Row>) returns (id: Id)
    ensures forall r <- rows :: r.id < id
  {
    id := 0;
    if rows != [] {
      var below := FreshId(rows[..|rows| - 1]);
      var last := rows[|rows| - 1].id;
      id := if last < below then below else last + 1;
    }
  }

  /** When fewer than `limit` entries are unpublished, a new one gets into the next batch. */
  lemma CommitCanBeHanded(s: Relay, limit: nat) returns (rest: seq<Event>)
    requires |Unpublished(s.rows)| < limit
    ensures PollsWithin(rest, limit) && |After(s, rest).handed| > |s.handed|
  {
    var id := FreshId(s.rows);
    IdsOf(s.rows, id);
    var e := Committing(id, "", Object(map[]));
    var t := Step(s, e);
    assert t.rows[..|s.rows|] == s.rows;
    InBatch(t.rows, limit, |s.rows|);
    var more := BatchCanBeHanded(t, limit);
    rest := [e] + more;
    AfterTwo(s, e, e);
    AfterConcat(s, [e], more);
  }

  lemma UnblockedCanHand(s: Relay, limit: nat) returns (rest: seq<Event>)
    requires !Blocked(s, limit)
    ensures PollsWithin(rest, limit) && |After(s, rest).handed| > |s.handed|
  {
    hide After, Step, Unpublished;
    if !NothingInProgress(s) {
      var p :| p in s.publishing && exists k | s.publishing[p].next <= k < |s.publishing[p].batch| ::
                                      s.publishing[p].batch[k].payload.Object?;
      var k :| s.publishing[p].next <= k < |s.publishing[p].batch| && s.publishing[p].batch[k].payload.Object?;
      var n := |s.publishing[p].batch| - s.publishing[p].next;
      HandingsHand(s, p, n, k);
      rest := Handings(p, n);
    } else if |Unpublished(s.rows)| < limit {
      rest := CommitCanBeHanded(s, limit);
    } else {
      var i :| 0 <= i < limit && Unpublished(s.rows)[i].payload.Object?;
      assert Batch(s.rows, limit)[i] == Unpublished(s.rows)[i];
      rest := BatchCanBeHanded(s, limit);
    }
  }

  /** Exactly when publishers with this batch size never hand over anything again, whatever is stored later and
      whoever polls: no batch in progress has a decodable entry left, and the oldest `limit` unpublished entries
      exist and are all undecodable. */
  lemma BlockedForGoodIff(run: seq<Event>, limit: nat)
    ensures var s := After(START, run);
            (forall rest | PollsWithin(rest, limit) :: After(s, rest).handed == s.handed) <==> Blocked(s, limit)
  {
    hide Sound, PublishedWereHanded, Blocked, BlockedBefore, PollsWithin;
    var s := After(START, run);
    ReachableIsSound(run);
    if Blocked(s, limit) {
      var k := BlockedHasEnd(s, limit);
      forall rest | PollsWithin(rest, limit) ensures After(s, rest).handed == s.handed {
        RunStaysBlocked(s, rest, limit, k);
      }
    } else {
      var rest := UnblockedCanHand(s, limit);
      assert After(s, rest).handed != s.handed;
    }
  }
}
