/**
 The hub's mail table: rows in the order they were inserted, each with the row
 id the table gave it, which is one more than the largest id present.
 */
module Mail {
  import opened Bytes
  import opened Wrappers
  import opened Wire
  import opened Filters

  /** A sealed envelope. `content` is what opens for the recipient, or nothing if it does not open. */
  datatype Envelope = Envelope(sender: Key, recipient: Key, content: Option<Frame>)

  datatype Row = Row(id: int, recipient: Key, sender: Key, receivedMs: int, envelope: Envelope)

  function To(recipient: Key): Row -> bool {
    (row: Row) => row.recipient == recipient
  }

  function FromTo(sender: Key, recipient: Key): Row -> bool {
    (row: Row) => row.sender == sender && row.recipient == recipient
  }

  function NotExpired(cutoff: int): Row -> bool {
    (row: Row) => row.receivedMs >= cutoff
  }

  function NotDeleted(recipient: Key, ids: seq<int>): Row -> bool {
    (row: Row) => !(row.recipient == recipient && row.id in ids)
  }

  function NotRow(recipient: Key, id: int): Row -> bool {
    (row: Row) => !(row.recipient == recipient && row.id == id)
  }

  // ----- row ids -----

  function MaxId(rows: seq<Row>): int {
    if rows == [] then 0
    else
      var m := MaxId(rows[1..]);
      if rows[0].id > m then rows[0].id else m
  }

  /** `INTEGER PRIMARY KEY` without AUTOINCREMENT. */
  function NextRowId(rows: seq<Row>): int {
    MaxId(rows) + 1
  }

  function PutMail(rows: seq<Row>, sender: Key, recipient: Key, now: int, e: Envelope): seq<Row> {
    rows + [Row(NextRowId(rows), recipient, sender, now, e)]
  }

  /** Ids increase in arrival order. */
  ghost predicate InArrivalOrder(rows: seq<Row>) {
    && (forall i, j :: 0 <= i < j < |rows| ==> rows[i].id < rows[j].id)
    && (forall i :: 0 <= i < |rows| ==> rows[i].id >= 1)
  }

  lemma {:induction false} MaxIdBounds(rows: seq<Row>)
    ensures forall row :: row in rows ==> row.id <= MaxId(rows)
    ensures MaxId(rows) >= 0
  {
    if rows != [] {
      MaxIdBounds(rows[1..]);
      assert forall row :: row in rows <==> row == rows[0] || row in rows[1..];
    }
  }

  lemma {:induction false} MaxIdIsSomeRow(rows: seq<Row>)
    ensures MaxId(rows) == 0 || exists row :: row in rows && row.id == MaxId(rows)
  {
    if rows != [] {
      MaxIdIsSomeRow(rows[1..]);
      assert rows[0] in rows;
      if MaxId(rows) == MaxId(rows[1..]) && MaxId(rows) != 0 && rows[0].id != MaxId(rows) {
        var row :| row in rows[1..] && row.id == MaxId(rows[1..]);
        assert row in rows;
      }
    }
  }

  /** Two present rows with the same id are the same row. */
  lemma IdNamesRow(rows: seq<Row>, a: Row, b: Row)
    requires InArrivalOrder(rows) && a in rows && b in rows && a.id == b.id
    ensures a == b
  {
    var i :| 0 <= i < |rows| && rows[i] == a;
    var j :| 0 <= j < |rows| && rows[j] == b;
  }

  lemma PutKeepsOrder(rows: seq<Row>, sender: Key, recipient: Key, now: int, e: Envelope)
    requires InArrivalOrder(rows)
    ensures InArrivalOrder(PutMail(rows, sender, recipient, now, e))
  {
    MaxIdBounds(rows);
    forall i | 0 <= i < |rows|
      ensures rows[i].id < NextRowId(rows)
    {
      assert rows[i] in rows;
    }
  }

  lemma {:induction false} FilterKeepsOrder(rows: seq<Row>, p: Row -> bool)
    requires InArrivalOrder(rows)
    ensures InArrivalOrder(Filter(rows, p))
  {
    if rows != [] {
      FilterKeepsOrder(rows[1..], p);
      var rest := Filter(rows[1..], p);
      forall row | row in rest
        ensures rows[0].id < row.id
      {
        FilterIn(rows[1..], p, row);
      }
      PrependKeepsOrder(rows[0], rest);
    }
  }

  lemma PrependKeepsOrder(row: Row, rest: seq<Row>)
    requires row.id >= 1 && InArrivalOrder(rest) && forall r :: r in rest ==> row.id < r.id
    ensures InArrivalOrder([row] + rest)
  {
  }

  // ----- `ORDER BY id` -----

  function InsertById(rows: seq<Row>, row: Row): seq<Row> {
    if rows == [] || rows[|rows| - 1].id <= row.id then rows + [row]
    else InsertById(rows[..|rows| - 1], row) + [rows[|rows| - 1]]
  }

  function SortById(rows: seq<Row>): seq<Row> {
    if rows == [] then [] else InsertById(SortById(rows[..|rows| - 1]), rows[|rows| - 1])
  }

  ghost predicate SortedById(rows: seq<Row>) {
    forall i, j :: 0 <= i < j < |rows| ==> rows[i].id <= rows[j].id
  }

  lemma {:induction false} InsertByIdHolds(rows: seq<Row>, row: Row)
    ensures multiset(InsertById(rows, row)) == multiset(rows) + multiset{row}
  {
    if rows != [] && rows[|rows| - 1].id > row.id {
      var n := |rows| - 1;
      InsertByIdHolds(rows[..n], row);
      assert rows == rows[..n] + [rows[n]];
    }
  }

  lemma {:induction false} InsertByIdSorts(rows: seq<Row>, row: Row)
    requires SortedById(rows)
    ensures SortedById(InsertById(rows, row))
  {
    if rows != [] && rows[|rows| - 1].id > row.id {
      var n := |rows| - 1;
      InsertByIdSorts(rows[..n], row);
      var part := InsertById(rows[..n], row);
      InsertByIdHolds(rows[..n], row);
      forall i | 0 <= i < |part|
        ensures part[i].id <= rows[n].id
      {
        assert part[i] in multiset(part);
        assert part[i] == row || part[i] in rows[..n];
      }
    }
  }

  lemma {:induction false} SortByIdSorts(rows: seq<Row>)
    ensures SortedById(SortById(rows)) && multiset(SortById(rows)) == multiset(rows)
  {
    if rows != [] {
      var n := |rows| - 1;
      SortByIdSorts(rows[..n]);
      InsertByIdSorts(SortById(rows[..n]), rows[n]);
      InsertByIdHolds(SortById(rows[..n]), rows[n]);
      assert rows == rows[..n] + [rows[n]];
    }
  }

  lemma SortByIdSnoc(rows: seq<Row>, row: Row)
    ensures SortById(rows + [row]) == InsertById(SortById(rows), row)
  {
    assert (rows + [row])[..|rows|] == rows;
  }

  /** First in, first out: reading in id order is reading in arrival order. */
  lemma {:induction false} IdOrderIsArrivalOrder(rows: seq<Row>)
    requires InArrivalOrder(rows)
    ensures SortById(rows) == rows
  {
    if rows != [] {
      var n := |rows| - 1;
      IdOrderIsArrivalOrder(rows[..n]);
      assert rows == rows[..n] + [rows[n]];
    }
  }

  lemma SortingIsReading(rows: seq<Row>)
    requires InArrivalOrder(rows)
    ensures SortById(rows) == rows && SortedById(rows)
  {
    IdOrderIsArrivalOrder(rows);
    SortByIdSorts(rows);
  }
}
