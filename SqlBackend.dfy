/**
 * The relational server variant: one `entries` table whose id is an
 * AUTOINCREMENT primary key. The table is kept as its rows in rowid order
 * plus the table's sqlite_sequence counter (the largest id ever handed out).
 */
module SqlBackend {
  import opened Wrappers
  import opened Text
  import opened Seqs
  import opened Guestbook

  /** The 201 body of this variant: the inserted fields, without the id. */
  datatype CreatedBody = CreatedBody(name: string, message: string, createdAt: string)

  /** Ids strictly increase along s. */
  predicate IdsAscending(s: seq<Entry>) {
    forall i, j :: 0 <= i < j < |s| ==> s[i].id < s[j].id
  }

  /** Ids strictly decrease along s. */
  predicate IdsDescending(s: seq<Entry>) {
    forall i, j :: 0 <= i < j < |s| ==> s[i].id > s[j].id
  }

  /** Ids never increase from one element to the next. */
  predicate NonIncreasing(s: seq<Entry>) {
    forall i :: 0 < i < |s| ==> s[i - 1].id >= s[i].id
  }

  /** Puts e into a list sorted by id, descending, before the first row whose id is not larger. */
  function InsertById(e: Entry, s: seq<Entry>): (r: seq<Entry>)
    requires NonIncreasing(s)
    ensures NonIncreasing(r)
    ensures multiset(r) == multiset(s) + multiset{e}
    ensures r[0] == e || (s != [] && r[0] == s[0])
  {
    if s == [] || s[0].id <= e.id then [e] + s
    else
      var rest := InsertById(e, s[1..]);
      assert s == [s[0]] + s[1..];
      [s[0]] + rest
  }

  /** `ORDER BY id DESC`: the same rows, sorted by id from largest to smallest. */
  function OrderByIdDesc(rows: seq<Entry>): (r: seq<Entry>)
    ensures NonIncreasing(r)
    ensures multiset(r) == multiset(rows)
  {
    if rows == [] then []
    else
      assert rows == [rows[0]] + rows[1..];
      InsertById(rows[0], OrderByIdDesc(rows[1..]))
  }

  /** An entry with a smaller id than all of a sorted list goes to its end. */
  lemma {:induction false} InsertSmallest(e: Entry, s: seq<Entry>)
    requires NonIncreasing(s)
    requires forall k :: 0 <= k < |s| ==> s[k].id > e.id
    ensures InsertById(e, s) == s + [e]
  {
    if s != [] {
      InsertSmallest(e, s[1..]);
      assert [s[0]] + (s[1..] + [e]) == s + [e];
    }
  }

  /** Over rows in ascending id order, the descending listing is the insertion order reversed. */
  lemma {:induction false} OrderOfAscendingIsReverse(rows: seq<Entry>)
    requires IdsAscending(rows)
    ensures OrderByIdDesc(rows) == Reverse(rows)
  {
    if rows != [] {
      var rest := rows[1..];
      OrderOfAscendingIsReverse(rest);
      InsertSmallest(rows[0], Reverse(rest));
      ReverseCons(rows[0], rest);
      assert [rows[0]] + rest == rows;
    }
  }

  /** A strictly ascending sequence read backwards strictly descends. */
  lemma {:induction false} ReverseOfAscending(s: seq<Entry>)
    requires IdsAscending(s)
    ensures IdsDescending(Reverse(s))
  {
  }

  /** The guestbook database file. */
  class Database {
    /** Whether `CREATE TABLE entries` has run. */
    var hasTable: bool
    /** The table's rows in rowid order. */
    var rows: seq<Entry>
    /** The AUTOINCREMENT counter: the largest id ever assigned (0 before the first insert). */
    var lastId: nat

    ghost predicate Valid()
      reads this
    {
      (!hasTable ==> rows == [] && lastId == 0) &&
      IdsAscending(rows) &&
      (forall k :: 0 <= k < |rows| ==> 1 <= rows[k].id <= lastId) &&
      (forall k :: 0 <= k < |rows| ==> WellFormed(rows[k]))
    }

    /** A database file that has no table yet. */
    constructor ()
      ensures Valid() && !hasTable && rows == [] && lastId == 0
    {
      hasTable, rows, lastId := false, [], 0;
    }

    /** `CREATE TABLE IF NOT EXISTS`: creates an empty table once; on an existing table changes nothing. */
    method CreateTable()
      requires Valid()
      modifies this
      ensures Valid() && hasTable
      ensures rows == old(rows) && lastId == old(lastId)
    {
      hasTable := true;
    }

    /**
     * GET /api/entries: every row, highest id first. Without the table the
     * SELECT raises and the request fails (None).
     */
    method GetEntries() returns (listing: Option<seq<Entry>>)
      requires Valid()
      ensures !hasTable ==> listing == None
      ensures hasTable ==> listing == Some(OrderByIdDesc(rows))
      ensures hasTable ==> multiset(listing.value) == multiset(rows) && IdsDescending(listing.value)
      ensures hasTable ==> listing.value == Reverse(rows)
    {
      if !hasTable {
        return None;
      }
      var sorted := OrderByIdDesc(rows);
      OrderOfAscendingIsReverse(rows);
      ReverseOfAscending(rows);
      listing := Some(sorted);
    }

    /**
     * POST /api/entries with the clock's ISO timestamp as a parameter. A
     * blank message is refused before the database is opened; without the
     * table the INSERT raises (500); otherwise one row is appended under the
     * next id and its fields, without the id, are answered.
     */
    method AddEntry(req: Request, createdAt: string) returns (resp: Response<CreatedBody>)
      requires Valid()
      modifies this
      ensures Valid() && hasTable == old(hasTable)
      ensures IsBlank(RawMessage(req)) ==>
        resp == BadRequest(MessageRequired) && rows == old(rows) && lastId == old(lastId)
      ensures !IsBlank(RawMessage(req)) && !hasTable ==>
        resp == ServerError && rows == old(rows) && lastId == old(lastId)
      ensures !IsBlank(RawMessage(req)) && hasTable ==>
        var s := Validate(req).value;
        lastId == old(lastId) + 1 &&
        (forall k :: 0 <= k < |old(rows)| ==> old(rows)[k].id < lastId) &&
        rows == old(rows) + [Entry(lastId, s.name, s.message, createdAt)] &&
        resp == Created(CreatedBody(s.name, s.message, createdAt))
    {
      var v := Validate(req);
      if v.Failure? {
        return BadRequest(v.error);
      }
      if !hasTable {
        return ServerError;
      }
      var id := lastId + 1;
      rows := rows + [Entry(id, v.value.name, v.value.message, createdAt)];
      lastId := id;
      resp := Created(CreatedBody(v.value.name, v.value.message, createdAt));
    }
  }
}
