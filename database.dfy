/** The `uploads` table behind the history (src-tauri/src/modules/database.rs),
    kept abstractly: its rows in insertion order, `id` the primary key. */
module Database {
  import opened Wrappers
  import opened Models

  /** No two rows share an id. */
  predicate UniqueIds(rows: seq<HistoryItem>) {
    forall i, j :: 0 <= i < j < |rows| ==> rows[i].id != rows[j].id
  }

  /** Some row has this id. */
  predicate HasId(rows: seq<HistoryItem>, id: string) {
    exists k :: 0 <= k < |rows| && rows[k].id == id
  }

  /** Newest first: `created_at` never increases along the list. */
  predicate NewestFirst(rows: seq<HistoryItem>) {
    forall i, j :: 0 <= i < j < |rows| ==> rows[i].createdAt >= rows[j].createdAt
  }

  /** `x` put into a newest-first list at its place, after the rows at least as new. */
  function InsertNewestFirst(x: HistoryItem, sorted: seq<HistoryItem>): (r: seq<HistoryItem>)
    requires NewestFirst(sorted)
    ensures NewestFirst(r)
    ensures multiset(r) == multiset(sorted) + multiset{x}
    ensures forall y :: y in r <==> y == x || y in sorted
    decreases |sorted|
  {
    if sorted == [] || x.createdAt >= sorted[0].createdAt then [x] + sorted
    else
      var head, rest := sorted[0], sorted[1..];
      assert sorted == [head] + rest;
      var tail := InsertNewestFirst(x, rest);
      HeadIsNewest(sorted);
      assert forall k :: 0 <= k < |tail| ==> tail[k].createdAt <= head.createdAt by {
        forall k | 0 <= k < |tail| ensures tail[k].createdAt <= head.createdAt {
          assert tail[k] in tail;
        }
      }
      PrependNewest(head, tail);
      assert multiset([head] + tail) == multiset{head} + multiset(tail);
      [head] + tail
  }

  /** A row at least as new as every row of a newest-first list can go in
      front of it. */
  lemma PrependNewest(head: HistoryItem, tail: seq<HistoryItem>)
    requires NewestFirst(tail)
    requires forall k :: 0 <= k < |tail| ==> tail[k].createdAt <= head.createdAt
    ensures NewestFirst([head] + tail)
  {
    var r := [head] + tail;
    forall i, j | 0 <= i < j < |r| ensures r[i].createdAt >= r[j].createdAt {
      if i > 0 {
        assert r[i] == tail[i - 1] && r[j] == tail[j - 1];
      } else {
        assert r[j] == tail[j - 1];
      }
    }
  }

  /** In a newest-first list no row is newer than the first. */
  lemma HeadIsNewest(sorted: seq<HistoryItem>)
    requires NewestFirst(sorted) && |sorted| > 0
    ensures forall y :: y in sorted ==> y.createdAt <= sorted[0].createdAt
  {
    forall y | y in sorted ensures y.createdAt <= sorted[0].createdAt {
      var m :| 0 <= m < |sorted| && sorted[m] == y;
    }
  }

  /** Inserting a row whose id is new keeps the ids unique. */
  lemma {:induction false} InsertKeepsIdsUnique(x: HistoryItem, sorted: seq<HistoryItem>)
    requires NewestFirst(sorted) && UniqueIds(sorted) && !HasId(sorted, x.id)
    ensures UniqueIds(InsertNewestFirst(x, sorted))
    decreases |sorted|
  {
    if sorted != [] && x.createdAt < sorted[0].createdAt {
      var tail := sorted[1..];
      assert forall k :: 0 <= k < |tail| ==> tail[k] == sorted[k + 1];
      InsertKeepsIdsUnique(x, tail);
      var r := InsertNewestFirst(x, sorted);
      assert r == [sorted[0]] + InsertNewestFirst(x, tail);
      forall k | 1 <= k < |r| ensures r[k].id != sorted[0].id {
        assert r[k] in InsertNewestFirst(x, tail);
      }
    }
  }

  /** A row that is in a permutation of `rows` is in `rows`, so a permutation of
      rows free of an id is free of it too. */
  lemma PermutationHasNoNewId(a: seq<HistoryItem>, b: seq<HistoryItem>, id: string)
    requires multiset(a) == multiset(b) && !HasId(b, id)
    ensures !HasId(a, id)
  {
    forall k | 0 <= k < |a| ensures a[k].id != id {
      assert a[k] in multiset(b);
    }
  }

  /** `ORDER BY created_at DESC` over the rows: every row, each once, newest first.
      Rows with equal `created_at` keep their insertion order here; SQLite leaves
      their order open. */
  function OrderByCreatedDesc(rows: seq<HistoryItem>): (r: seq<HistoryItem>)
    ensures NewestFirst(r)
    ensures multiset(r) == multiset(rows)
    ensures UniqueIds(rows) ==> UniqueIds(r)
    decreases |rows|
  {
    if rows == [] then []
    else
      assert rows == [rows[0]] + rows[1..];
      var rest := OrderByCreatedDesc(rows[1..]);
      UniqueTailLacksHead(rows);
      if UniqueIds(rows) then
        PermutationHasNoNewId(rest, rows[1..], rows[0].id);
        InsertKeepsIdsUnique(rows[0], rest);
        InsertNewestFirst(rows[0], rest)
      else InsertNewestFirst(rows[0], rest)
  }

  /** With unique ids, the first row's id is absent from the others and they are unique. */
  lemma UniqueTailLacksHead(rows: seq<HistoryItem>)
    requires |rows| >= 1
    ensures UniqueIds(rows) ==> !HasId(rows[1..], rows[0].id) && UniqueIds(rows[1..])
  {
    if UniqueIds(rows) {
      forall k | 0 <= k < |rows| - 1 ensures rows[1..][k].id != rows[0].id {
        assert rows[1..][k] == rows[k + 1];
      }
    }
  }

  /** The rows without the one whose id is `id`, in the same order. */
  function WithoutId(rows: seq<HistoryItem>, id: string): (r: seq<HistoryItem>)
    ensures forall x :: x in r <==> x in rows && x.id != id
    ensures !HasId(r, id)
    ensures UniqueIds(rows) ==> UniqueIds(r)
    ensures !HasId(rows, id) ==> r == rows
    decreases |rows|
  {
    if rows == [] then []
    else
      var rest := WithoutId(rows[1..], id);
      assert rows == [rows[0]] + rows[1..];
      if rows[0].id == id then rest else [rows[0]] + rest
  }

  /** Deleting twice is deleting once. */
  lemma DeleteIdempotent(rows: seq<HistoryItem>, id: string)
    ensures WithoutId(WithoutId(rows, id), id) == WithoutId(rows, id)
  {
  }

  /** With unique ids, deleting a present id takes away exactly one row. */
  lemma {:induction false} DeleteRemovesOneRow(rows: seq<HistoryItem>, id: string)
    requires UniqueIds(rows) && HasId(rows, id)
    ensures |WithoutId(rows, id)| == |rows| - 1
    decreases |rows|
  {
    assert rows == [rows[0]] + rows[1..];
    UniqueTailLacksHead(rows);
    if rows[0].id != id {
      var k :| 0 <= k < |rows| && rows[k].id == id;
      assert rows[1..][k - 1].id == id;
      DeleteRemovesOneRow(rows[1..], id);
    }
  }

  /** The message SQLite gives when an insert repeats a primary key. */
  const PrimaryKeyViolation := "UNIQUE constraint failed: uploads.id"

  /** Where a history query can fail inside SQLite, each with SQLite's message. */
  datatype QueryFault = PrepareFailed(msg: string) | QueryFailed(msg: string) | CollectFailed(msg: string)

  /** The error `get_history` reports for a fault. */
  function QueryFaultMessage(f: QueryFault): (m: string)
    ensures |m| > |f.msg| && m[|m| - |f.msg|..] == f.msg
    ensures f.PrepareFailed? <==> m[..|m| - |f.msg|] == "Failed to prepare statement: "
    ensures f.QueryFailed? <==> m[..|m| - |f.msg|] == "Failed to query history: "
    ensures f.CollectFailed? <==> m[..|m| - |f.msg|] == "Failed to collect results: "
  {
    match f
    case PrepareFailed(m) => "Failed to prepare statement: " + m
    case QueryFailed(m) => "Failed to query history: " + m
    case CollectFailed(m) => "Failed to collect results: " + m
  }

  class Database {
    /** The rows, in insertion order. */
    var rows: seq<HistoryItem>

    /** The primary key holds. */
    ghost predicate Valid()
      reads this
    {
      UniqueIds(rows)
    }

    /** The table `CREATE TABLE IF NOT EXISTS` makes on first use: empty. */
    constructor ()
      ensures Valid() && rows == []
    {
      rows := [];
    }

    /** `insert_history`: adds the row unless its id is taken. `fault` is a
        failure of SQLite itself (a locked or unwritable file), its message. */
    method InsertHistory(item: HistoryItem, fault: Option<string>) returns (r: Result<(), string>)
      requires Valid()
      modifies this
      ensures Valid()
      ensures r.Success? <==> fault.None? && !HasId(old(rows), item.id)
      ensures r.Success? ==> rows == old(rows) + [item]
      ensures r.Failure? ==> rows == old(rows)
      ensures r.Failure? ==>
        r.error == "Failed to insert history: " + (if fault.Some? then fault.value else PrimaryKeyViolation)
    {
      if fault.Some? {
        return Failure("Failed to insert history: " + fault.value);
      }
      if HasId(rows, item.id) {
        return Failure("Failed to insert history: " + PrimaryKeyViolation);
      }
      rows := rows + [item];
      r := Success(());
    }

    /** `get_history`: every row, newest first, or the query's error. */
    function GetHistory(fault: Option<QueryFault>): (r: Result<seq<HistoryItem>, string>)
      reads this
      ensures fault.None? ==> r.Success? && NewestFirst(r.value) && multiset(r.value) == multiset(rows)
      ensures fault.None? && UniqueIds(rows) ==> UniqueIds(r.value)
      ensures fault.Some? ==> r == Failure(QueryFaultMessage(fault.value))
    {
      if fault.Some? then Failure(QueryFaultMessage(fault.value))
      else Success(OrderByCreatedDesc(rows))
    }

    /** `delete_history`: removes the row with this id, if there is one; an
        absent id is not an error. */
    method DeleteHistory(id: string, fault: Option<string>) returns (r: Result<(), string>)
      requires Valid()
      modifies this
      ensures Valid()
      ensures fault.None? ==> r == Success(()) && rows == WithoutId(old(rows), id)
      ensures fault.Some? ==> r == Failure("Failed to delete history: " + fault.value) && rows == old(rows)
    {
      if fault.Some? {
        return Failure("Failed to delete history: " + fault.value);
      }
      rows := WithoutId(rows, id);
      r := Success(());
    }
  }

  /** After a successful insert the listing holds the row with all six fields. */
  lemma InsertedRowIsListed(rows: seq<HistoryItem>, item: HistoryItem)
    ensures item in OrderByCreatedDesc(rows + [item])
  {
    assert item in multiset(rows + [item]);
  }
}
