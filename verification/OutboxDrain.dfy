/** How repeated polls of one publisher, without failures and without new entries, drain the outbox in order.
    What holds with other publishers, failures and new entries in between is in RelayDrain. */
module OutboxDrain {
  import opened Wrappers
  import opened Outboxes

  /** The table after n polls, and everything they handed over. */
  function Rows(rows: seq<Row>, limit: nat, n: nat): seq<Row>
    decreases n
  {
    if n == 0 then rows else Rows(Processed(rows, limit), limit, n - 1)
  }

  function Handed(rows: seq<Row>, limit: nat, n: nat): seq<Row>
    decreases n
  {
    if n == 0 then [] else HandedOver(rows, limit) + Handed(Processed(rows, limit), limit, n - 1)
  }

  // ---------------------------------------------------------------- filters

  lemma {:induction false} FiltersConcat(a: seq<Row>, b: seq<Row>)
    ensures Unpublished(a + b) == Unpublished(a) + Unpublished(b)
    ensures Decodable(a + b) == Decodable(a) + Decodable(b)
    ensures Garbage(a + b) == Garbage(a) + Garbage(b)
  {
    if b == [] {
      assert a + b == a;
    } else {
      var last := |b| - 1;
      assert (a + b)[..|a + b| - 1] == a + b[..last];
      FiltersConcat(a, b[..last]);
    }
  }

  lemma {:induction false} FilterSizes(rows: seq<Row>)
    ensures |Decodable(rows)| + |Garbage(rows)| == |rows|
  {
    if rows != [] {
      FilterSizes(rows[..|rows| - 1]);
    }
  }

  lemma {:induction false} FilterMembers(rows: seq<Row>, r: Row)
    ensures r in Decodable(rows) <==> r in rows && r.payload.Object?
    ensures r in Unpublished(rows) <==> r in rows && !r.published
  {
    if rows != [] {
      FilterMembers(rows[..|rows| - 1], r);
      assert rows == rows[..|rows| - 1] + [rows[|rows| - 1]];
    }
  }

  lemma {:induction false} GarbageStaysGarbage(rows: seq<Row>)
    ensures Decodable(Garbage(rows)) == [] && Garbage(Garbage(rows)) == Garbage(rows)
  {
    if rows != [] {
      var front, r := rows[..|rows| - 1], rows[|rows| - 1];
      GarbageStaysGarbage(front);
      if !r.payload.Object? {
        assert (Garbage(front) + [r])[..|Garbage(front)|] == Garbage(front);
      } else {
        assert Garbage(front) + [] == Garbage(front);
      }
    }
  }

  lemma TakeDrop(rows: seq<Row>, limit: nat)
    ensures Take(rows, limit) + Drop(rows, limit) == rows
  {
  }

  // ---------------------------------------------------------------- one poll on the unpublished entries

  /** What stays unpublished: the undecodable entries of the batch, and everything after the batch. */
  function Left(unpublished: seq<Row>, limit: nat): seq<Row> {
    Garbage(Take(unpublished, limit)) + Drop(unpublished, limit)
  }

  function Keep(rows: seq<Row>, ids: seq<Id>): seq<Row> {
    if rows == [] then []
    else Keep(rows[..|rows| - 1], ids) + if rows[|rows| - 1].id in ids then [] else [rows[|rows| - 1]]
  }

  lemma {:induction false} KeepConcat(a: seq<Row>, b: seq<Row>, ids: seq<Id>)
    ensures Keep(a + b, ids) == Keep(a, ids) + Keep(b, ids)
  {
    if b == [] {
      assert a + b == a;
    } else {
      var last := |b| - 1;
      assert (a + b)[..|a + b| - 1] == a + b[..last];
      KeepConcat(a, b[..last], ids);
    }
  }

  /** Marking takes exactly the marked ids out of the unpublished entries. */
  lemma {:induction false} UnpublishedAfterMarking(rows: seq<Row>, ids: seq<Id>)
    ensures Unpublished(Marked(rows, ids)) == Keep(Unpublished(rows), ids)
  {
    if rows != [] {
      var front, r := rows[..|rows| - 1], rows[|rows| - 1];
      UnpublishedAfterMarking(front, ids);
      assert Marked(rows, ids)[..|rows| - 1] == Marked(front, ids);
      KeepConcat(Unpublished(front), if r.published then [] else [r], ids);
      assert Keep([r], ids) == (if r.id in ids then [] else [r]) by { assert [r][..0] == []; }
    }
  }

  lemma {:induction false} KeepNone(rows: seq<Row>, ids: seq<Id>)
    requires forall r <- rows :: r.id !in ids
    ensures Keep(rows, ids) == rows
  {
    if rows != [] {
      var front, r := rows[..|rows| - 1], rows[|rows| - 1];
      KeepNone(front, ids);
      assert Keep(rows, ids) == front + [r];
    }
  }

  lemma {:induction false} KeepGarbage(rows: seq<Row>, ids: seq<Id>)
    requires forall r <- rows :: r.id in ids <==> r.payload.Object?
    ensures Keep(rows, ids) == Garbage(rows)
  {
    if rows != [] {
      KeepGarbage(rows[..|rows| - 1], ids);
    }
  }

  lemma {:induction false} UnpublishedUnique(rows: seq<Row>)
    requires UniqueIds(rows)
    ensures UniqueIds(Unpublished(rows))
  {
    if rows != [] {
      var front, r := rows[..|rows| - 1], rows[|rows| - 1];
      UnpublishedUnique(front);
      forall s <- Unpublished(front) ensures s.id != r.id {
        FilterMembers(front, s);
      }
    }
  }

  lemma IdsOf(rows: seq<Row>, id: Id)
    ensures id in Ids(rows) <==> exists r <- rows :: r.id == id
  {
    if id in Ids(rows) {
      var k :| 0 <= k < |rows| && Ids(rows)[k] == id;
      assert rows[k] in rows;
    }
    if r :| r in rows && r.id == id {
      var k :| 0 <= k < |rows| && rows[k] == r;
      assert Ids(rows)[k] == id;
    }
  }

  /** Among entries with unique ids, the ids of the decodable ones name just these. */
  lemma DecodableIds(entries: seq<Row>, batch: seq<Row>, r: Row)
    requires UniqueIds(entries) && r in entries && forall b <- batch :: b in entries
    ensures r.id in Ids(Decodable(batch)) <==> r in batch && r.payload.Object?
  {
    IdsOf(Decodable(batch), r.id);
    FilterMembers(batch, r);
    if s :| s in Decodable(batch) && s.id == r.id {
      FilterMembers(batch, s);
      assert s == r;
    }
  }

  lemma ProcessedLeaves(rows: seq<Row>, limit: nat)
    requires UniqueIds(rows)
    ensures UniqueIds(Processed(rows, limit))
    ensures Unpublished(Processed(rows, limit)) == Left(Unpublished(rows), limit)
  {
    hide Unpublished, Decodable, Garbage, Keep;
    var u := Unpublished(rows);
    var batch, rest := Take(u, limit), Drop(u, limit);
    var ids := Ids(Decodable(batch));
    UnpublishedUnique(rows);
    TakeDrop(u, limit);
    UnpublishedAfterMarking(rows, ids);
    KeepConcat(batch, rest, ids);
    forall r <- batch ensures r.id in ids <==> r.payload.Object? {
      DecodableIds(u, batch, r);
    }
    KeepGarbage(batch, ids);
    forall r <- rest ensures r.id !in ids {
      DecodableIds(u, batch, r);
    }
    KeepNone(rest, ids);
  }

  /** What a poll does to the two kinds of unpublished entries. */
  lemma PollSplits(rows: seq<Row>, limit: nat)
    requires UniqueIds(rows)
    ensures var u, v := Unpublished(rows), Unpublished(Processed(rows, limit));
            && HandedOver(rows, limit) + Decodable(v) == Decodable(u) && Garbage(v) == Garbage(u)
            && |HandedOver(rows, limit)| >= Min(|Decodable(u)|, limit - |Garbage(u)|)
  {
    hide Unpublished, Decodable, Garbage;
    var u := Unpublished(rows);
    ProcessedLeaves(rows, limit);
    TakeDrop(u, limit);
    FiltersConcat(Take(u, limit), Drop(u, limit));
    FiltersConcat(Garbage(Take(u, limit)), Drop(u, limit));
    GarbageStaysGarbage(Take(u, limit));
    FilterSizes(Take(u, limit));
    FilterSizes(u);
  }

  // ---------------------------------------------------------------- the drain bound

  /** After any number of polls, what was handed over followed by what is still to be handed over is what was
      to be handed over at the start: in created_at order, each entry exactly once. */
  lemma {:induction false} HandedInOrder(rows: seq<Row>, limit: nat, n: nat)
    requires UniqueIds(rows)
    ensures Handed(rows, limit, n) + Decodable(Unpublished(Rows(rows, limit, n))) == Decodable(Unpublished(rows))
    ensures Garbage(Unpublished(Rows(rows, limit, n))) == Garbage(Unpublished(rows))
    decreases n
  {
    hide Unpublished, Decodable, Garbage, HandedOver, Processed;
    if n > 0 {
      PollSplits(rows, limit);
      ProcessedLeaves(rows, limit);
      HandedInOrder(Processed(rows, limit), limit, n - 1);
    }
  }

  /** With p undecodable unpublished entries, p < limit, every poll hands over limit - p decodable entries, or
      all that are left. */
  lemma {:induction false} DrainProgress(rows: seq<Row>, limit: nat, n: nat)
    requires UniqueIds(rows) && |Garbage(Unpublished(rows))| < limit
    ensures |Handed(rows, limit, n)|
         >= Min(|Decodable(Unpublished(rows))|, n * (limit - |Garbage(Unpublished(rows))|))
    decreases n
  {
    hide Unpublished, Decodable, Garbage, HandedOver, Processed;
    if n > 0 {
      var p := |Garbage(Unpublished(rows))|;
      PollSplits(rows, limit);
      ProcessedLeaves(rows, limit);
      DrainProgress(Processed(rows, limit), limit, n - 1);
      assert n * (limit - p) == (n - 1) * (limit - p) + (limit - p);
    }
  }

  /** The drain bound: d decodable entries are all handed over, in order and exactly once each, within
      ceil(d / (limit - p)) polls. */
  lemma DrainBound(rows: seq<Row>, limit: nat, n: nat)
    requires UniqueIds(rows) && |Garbage(Unpublished(rows))| < limit
    requires n * (limit - |Garbage(Unpublished(rows))|) >= |Decodable(Unpublished(rows))|
    ensures Handed(rows, limit, n) == Decodable(Unpublished(rows))
    ensures Decodable(Unpublished(Rows(rows, limit, n))) == []
  {
    HandedInOrder(rows, limit, n);
    DrainProgress(rows, limit, n);
  }
}
