/** The outbox table and one publisher poll (internal/outbox/outbox.go).

    Rows are kept in created_at order, which is taken to be the order of the commits; ids are the primary key. */
module Outboxes {
  import opened Wrappers

  /** A stored payload either decodes into a JSON object or it does not. */
  datatype Payload = Object(fields: map<string, string>) | Undecodable

  /** The nanosecond timestamp that makes up an entry's id. */
  type Id = int

  datatype Row = Row(id: Id, name: string, payload: Payload, published: bool)

  function Ids(rows: seq<Row>): seq<Id> { seq(|rows|, i requires 0 <= i < |rows| => rows[i].id) }

  predicate UniqueIds(rows: seq<Row>) {
    forall i, j | 0 <= i < j < |rows| :: rows[i].id != rows[j].id
  }

  /** INSERT; a duplicate id violates the primary key. */
  function Stored(rows: seq<Row>, id: Id, name: string, payload: Payload): Option<seq<Row>> {
    if id in Ids(rows) then None else Some(rows + [Row(id, name, payload, false)])
  }

  function Unpublished(rows: seq<Row>): seq<Row> {
    if rows == [] then []
    else Unpublished(rows[..|rows| - 1]) + if rows[|rows| - 1].published then [] else [rows[|rows| - 1]]
  }

  function Decodable(rows: seq<Row>): seq<Row> {
    if rows == [] then []
    else Decodable(rows[..|rows| - 1]) + if rows[|rows| - 1].payload.Object? then [rows[|rows| - 1]] else []
  }

  function Garbage(rows: seq<Row>): seq<Row> {
    if rows == [] then []
    else Garbage(rows[..|rows| - 1]) + if rows[|rows| - 1].payload.Object? then [] else [rows[|rows| - 1]]
  }

  function Take(rows: seq<Row>, limit: nat): seq<Row> { if |rows| <= limit then rows else rows[..limit] }

  function Drop(rows: seq<Row>, limit: nat): seq<Row> { if |rows| <= limit then [] else rows[limit..] }

  function MarkOne(row: Row, ids: seq<Id>): Row { if row.id in ids then row.(published := true) else row }

  function Marked(rows: seq<Row>, ids: seq<Id>): seq<Row> {
    seq(|rows|, i requires 0 <= i < |rows| => MarkOne(rows[i], ids))
  }

  /** One poll: the entries handed over, in order, and the table afterwards. */
  function Batch(rows: seq<Row>, limit: nat): seq<Row> { Take(Unpublished(rows), limit) }

  function HandedOver(rows: seq<Row>, limit: nat): seq<Row> { Decodable(Batch(rows, limit)) }

  function Processed(rows: seq<Row>, limit: nat): seq<Row> { Marked(rows, Ids(HandedOver(rows, limit))) }

  // ---------------------------------------------------------------- the objects

  class Table {
    var rows: seq<Row>

    constructor ()
      ensures rows == []
    {
      rows := [];
    }

    /** `fails` is a failure to marshal or to execute. */
    method Store(id: Id, name: string, payload: Payload, fails: bool) returns (ok: bool)
      modifies this
      ensures ok <==> !fails && Stored(old(rows), id, name, payload).Some?
      ensures ok ==> rows == Stored(old(rows), id, name, payload).value == old(rows) + [Row(id, name, payload, false)]
      ensures !ok ==> rows == old(rows)
    {
      if fails || id in Ids(rows) {
        return false;
      }
      rows := rows + [Row(id, name, payload, false)];
      return true;
    }

    /** SELECT ... WHERE published_at IS NULL ORDER BY created_at LIMIT limit. */
    method GetUnpublished(limit: nat, fails: bool) returns (entries: Option<seq<Row>>)
      ensures entries == if fails then None else Some(Batch(rows, limit))
    {
      if fails {
        return None;
      }
      var found: seq<Row> := [];
      for i := 0 to |rows|
        invariant found == Take(Unpublished(rows[..i]), limit)
      {
        assert rows[..i + 1][..i] == rows[..i];
        if !rows[i].published && |found| < limit {
          found := found + [rows[i]];
        }
      }
      assert rows[..|rows|] == rows;
      return Some(found);
    }

    method MarkPublished(ids: seq<Id>, fails: bool) returns (ok: bool)
      modifies this
      ensures ok == (ids == [] || !fails)
      ensures rows == if ids == [] || fails then old(rows) else Marked(old(rows), ids)
    {
      if ids == [] {
        return true;
      }
      if fails {
        return false;
      }
      rows := Marked(rows, ids);
      return true;
    }
  }

  /** The PublisherFunc: it returns nothing, so the publisher cannot learn that a hand-over failed. */
  class PublisherFunc {
    var received: seq<(string, Payload)>

    method Call(name: string, payload: Payload)
      modifies this
      ensures received == old(received) + [(name, payload)]
    {
      received := received + [(name, payload)];
    }
  }

  function Calls(rows: seq<Row>): seq<(string, Payload)> {
    seq(|rows|, i requires 0 <= i < |rows| => (rows[i].name, rows[i].payload))
  }

  lemma CallsGrow(rows: seq<Row>, row: Row)
    ensures Calls(rows + [row]) == Calls(rows) + [(row.name, row.payload)]
    ensures Ids(rows + [row]) == Ids(rows) + [row.id]
  {
  }

  datatype ProcessError = NoError | GetFailed | MarkFailed

  class Publisher {
    const repo: Table
    const publisher: PublisherFunc
    var batchSize: nat

    constructor (repo: Table, publisher: PublisherFunc)
      ensures this.repo == repo && this.publisher == publisher && batchSize == 100
    {
      this.repo, this.publisher, batchSize := repo, publisher, 100;
    }

    /** What is handed over does not depend on whether marking succeeds afterwards. */
    method Process(getFails: bool, markFails: bool) returns (err: ProcessError)
      modifies repo, publisher
      ensures err.GetFailed? <==> getFails
      ensures getFails ==> repo.rows == old(repo.rows) && publisher.received == old(publisher.received)
      ensures !getFails ==>
                publisher.received == old(publisher.received) + Calls(HandedOver(old(repo.rows), batchSize))
      ensures !getFails ==>
                forall i | 0 <= i < |HandedOver(old(repo.rows), batchSize)| ::
                  && |publisher.received| > |old(publisher.received)| + i
                  && var entry := HandedOver(old(repo.rows), batchSize)[i];
                     publisher.received[|old(publisher.received)| + i] == (entry.name, entry.payload)
      ensures err.MarkFailed? <==> !getFails && markFails && HandedOver(old(repo.rows), batchSize) != []
      ensures repo.rows == if err.NoError? then Processed(old(repo.rows), batchSize) else old(repo.rows)
    {
      var polled := repo.GetUnpublished(batchSize, getFails);
      if polled.None? {
        return GetFailed;
      }
      var entries := polled.value;
      NothingToMark(repo.rows);
      var publishedIDs: seq<Id> := [];
      for i := 0 to |entries|
        invariant publishedIDs == Ids(Decodable(entries[..i])) && repo.rows == old(repo.rows)
        invariant publisher.received == old(publisher.received) + Calls(Decodable(entries[..i]))
      {
        assert entries[..i + 1][..i] == entries[..i];
        if entries[i].payload.Object? {
          CallsGrow(Decodable(entries[..i]), entries[i]);
          publisher.Call(entries[i].name, entries[i].payload);
          publishedIDs := publishedIDs + [entries[i].id];
        }
      }
      assert entries[..|entries|] == entries;
      if publishedIDs != [] {
        var ok := repo.MarkPublished(publishedIDs, markFails);
        if !ok {
          return MarkFailed;
        }
      }
      return NoError;
    }
  }

  lemma NothingToMark(rows: seq<Row>)
    ensures Marked(rows, []) == rows
  {
  }
}
