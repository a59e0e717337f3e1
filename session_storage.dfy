/** The session storage adapter that backs the auth plugin: five callbacks over
    the `Session` table. The table is the sequence of its rows in table order;
    each callback's query becomes a function over that sequence, and the record
    each callback hands back is shaped by a pure function of the rows the query
    returned. */
module SessionStorage {
  import opened JsValues

  /** `JSON.stringify({})`. */
  const EmptyObject: string := "{}"

  /** The properties `getSession` computes itself instead of copying them. */
  const ComputedByGet: set<string> := {"expiresAt", "privateData", "publicData", "handle"}

  /** The columns `createSession` names in its INSERT. */
  const InsertColumns: set<string> := {"handle", "expiresAt", "antiCSRFToken", "hashedSessionToken", "userId"}

  // ---------------------------------------------------------------------------
  // Record shaping

  /** `String(v ? v : JSON.stringify({}))` for `privateData` and `publicData`. */
  function OrEmptyObject(v: Option<Cell>): (s: string)
    ensures !Truthy(v) ==> s == EmptyObject
    ensures Truthy(v) ==> s == ToStr(v)
    ensures s != ""
  {
    ToStr(if Truthy(v) then v else Some(Text(EmptyObject)))
  }

  /** The record `getSession(handle)` resolves to, given the first row the
      SELECT returned (`None` when it returned none) and the current time as
      the text `new Date().toISOString()` gives. */
  function ShapeGet(row: Option<Row>, handle: string, now: string): (r: Record)
    ensures r.Keys == Spread(row).Keys + ComputedByGet
    ensures r["handle"] == Stored(Text(handle))
    ensures Nullish(Get(row, "expiresAt")) ==> r["expiresAt"] == DateFrom(now)
    ensures !Nullish(Get(row, "expiresAt")) ==> r["expiresAt"] == DateFrom(ToStr(Get(row, "expiresAt")))
    ensures !Truthy(Get(row, "privateData")) ==> r["privateData"] == Stored(Text(EmptyObject))
    ensures Truthy(Get(row, "privateData")) ==> r["privateData"] == Stored(Text(ToStr(Get(row, "privateData"))))
    ensures !Truthy(Get(row, "publicData")) ==> r["publicData"] == Stored(Text(EmptyObject))
    ensures Truthy(Get(row, "publicData")) ==> r["publicData"] == Stored(Text(ToStr(Get(row, "publicData"))))
    ensures forall k :: k in r && k !in ComputedByGet ==> row.Some? && k in row.value && r[k] == Stored(row.value[k])
    ensures row.None? ==> r == map["expiresAt" := DateFrom(now), "privateData" := Stored(Text(EmptyObject)),
                                   "publicData" := Stored(Text(EmptyObject)), "handle" := Stored(Text(handle))]
  {
    var expiry := Get(row, "expiresAt");
    Spread(row) + map[
      "expiresAt" := DateFrom(ToStr(if Nullish(expiry) then Some(Text(now)) else expiry)),
      "privateData" := Stored(Text(OrEmptyObject(Get(row, "privateData")))),
      "publicData" := Stored(Text(OrEmptyObject(Get(row, "publicData")))),
      "handle" := Stored(Text(handle))
    ]
  }

  /** `{ ...rows[0], handle }`, the record `createSession`, `updateSession` and
      `deleteSession` resolve to, given the first row the statement returned. */
  function ShapeReturned(row: Option<Row>, handle: string): (r: Record)
    ensures r.Keys == Spread(row).Keys + {"handle"}
    ensures r["handle"] == Stored(Text(handle))
    ensures forall k :: k in r && k != "handle" ==> row.Some? && k in row.value && r[k] == Stored(row.value[k])
    ensures row.None? ==> r == map["handle" := Stored(Text(handle))]
  {
    Spread(row)["handle" := Stored(Text(handle))]
  }

  /** `{ ...row, handle: String(row.handle) }`, one element of what `getSessions`
      resolves to. */
  function ListedRecord(row: Row): (r: Record)
    ensures r.Keys == row.Keys + {"handle"}
    ensures r["handle"] == Stored(Text(ToStr(Get(Some(row), "handle"))))
    ensures "handle" in row && row["handle"].Text? ==> r["handle"] == Stored(row["handle"])
    ensures forall k :: k in row && k != "handle" ==> r[k] == Stored(row[k])
  {
    Spread(Some(row))["handle" := Stored(Text(ToStr(Get(Some(row), "handle"))))]
  }

  /** `rows.map(row => ({ ...row, handle: String(row.handle) }))`. */
  function ShapeList(rows: seq<Row>): (r: seq<Record>)
    ensures |r| == |rows|
    ensures forall i :: 0 <= i < |rows| ==> r[i] == ListedRecord(rows[i])
  {
    if rows == [] then [] else [ListedRecord(rows[0])] + ShapeList(rows[1..])
  }

  // ---------------------------------------------------------------------------
  // The queries over the Session table

  /** `WHERE handle = '<handle>'`. */
  predicate HasHandle(row: Row, handle: string) {
    "handle" in row && row["handle"] == Text(handle)
  }

  /** The `WHERE` clauses the five callbacks use; `Not` gives the rows a
      DELETE leaves behind. */
  datatype Where =
    | HandleIs(handle: string)
    | OwnerIs(owns: (Row, string) -> bool, userId: string)
    | Not(clause: Where)

  predicate Selects(w: Where, row: Row) {
    match w
    case HandleIs(h) => HasHandle(row, h)
    case OwnerIs(owns, u) => owns(row, u)
    case Not(c) => !Selects(c, row)
  }

  /** The rows a `WHERE` clause selects, in table order. */
  function Filter(rows: seq<Row>, w: Where): (r: seq<Row>)
    ensures |r| <= |rows|
    ensures forall row :: row in r <==> row in rows && Selects(w, row)
  {
    if rows == [] then []
    else if Selects(w, rows[0]) then [rows[0]] + Filter(rows[1..], w)
    else Filter(rows[1..], w)
  }

  /** `SELECT * FROM Session WHERE handle = '<handle>'`. */
  function Matching(rows: seq<Row>, handle: string): (r: seq<Row>)
    ensures forall row :: row in r <==> row in rows && HasHandle(row, handle)
  {
    Filter(rows, HandleIs(handle))
  }

  /** `SELECT * FROM Session WHERE data->>'userId' = '<userId>'`; the JSON
      extraction is the ownership predicate `owns`. */
  function Owned(rows: seq<Row>, owns: (Row, string) -> bool, userId: string): (r: seq<Row>)
    ensures forall row :: row in r <==> row in rows && owns(row, userId)
  {
    Filter(rows, OwnerIs(owns, userId))
  }

  /** `rows[0]`. */
  function First(rows: seq<Row>): (r: Option<Row>)
    ensures r.None? <==> rows == []
    ensures r.Some? ==> r.value == rows[0]
  {
    if rows == [] then None else Some(rows[0])
  }

  /** The caller's session as the INSERT's template literal renders each of
      the five values it interpolates. */
  datatype NewSession = NewSession(handle: string, expiresAt: string, antiCSRFToken: string,
                                   hashedSessionToken: string, userId: string)

  /** The row `INSERT INTO Session (...) VALUES (...)` adds; a column the INSERT
      does not name takes the value `defaults` gives it (the schema's default). */
  function InsertedRow(s: NewSession, defaults: Row): (row: Row)
    ensures row.Keys == defaults.Keys + InsertColumns
    ensures HasHandle(row, s.handle)
    ensures row["expiresAt"] == Text(s.expiresAt) && row["antiCSRFToken"] == Text(s.antiCSRFToken)
    ensures row["hashedSessionToken"] == Text(s.hashedSessionToken) && row["userId"] == Text(s.userId)
    ensures forall k :: k in defaults && k !in InsertColumns ==> row[k] == defaults[k]
  {
    defaults + map["handle" := Text(s.handle), "expiresAt" := Text(s.expiresAt),
                   "antiCSRFToken" := Text(s.antiCSRFToken),
                   "hashedSessionToken" := Text(s.hashedSessionToken), "userId" := Text(s.userId)]
  }

  /** `UPDATE Session SET data = '<data>' WHERE handle = '<handle>'`: the table
      afterwards. Only the `data` column of the matching rows changes. */
  function WithData(rows: seq<Row>, handle: string, data: string): (r: seq<Row>)
    ensures |r| == |rows|
    ensures forall i :: 0 <= i < |rows| && !HasHandle(rows[i], handle) ==> r[i] == rows[i]
    ensures forall i :: 0 <= i < |rows| && HasHandle(rows[i], handle) ==>
              r[i].Keys == rows[i].Keys + {"data"} && r[i]["data"] == Text(data) &&
              HasHandle(r[i], handle)
    ensures forall i, k :: 0 <= i < |rows| && k in rows[i] && k != "data" ==> r[i][k] == rows[i][k]
  {
    if rows == [] then []
    else [if HasHandle(rows[0], handle) then rows[0]["data" := Text(data)] else rows[0]]
         + WithData(rows[1..], handle, data)
  }

  /** `DELETE FROM Session WHERE handle = '<handle>'`: the table afterwards. */
  function Without(rows: seq<Row>, handle: string): (r: seq<Row>)
    ensures forall row :: row in r <==> row in rows && !HasHandle(row, handle)
  {
    var r := Filter(rows, Not(HandleIs(handle)));
    assert forall row :: Selects(Not(HandleIs(handle)), row) == !HasHandle(row, handle);
    r
  }

  /** No two rows of the table share a handle, as the auth plugin's freshly
      generated handles ensure. */
  ghost predicate UniqueHandles(rows: seq<Row>) {
    forall i, j, h :: 0 <= i < |rows| && 0 <= j < |rows| && i != j && HasHandle(rows[i], h) ==>
      !HasHandle(rows[j], h)
  }

  // ---------------------------------------------------------------------------
  // The table and its five callbacks

  class SessionTable {
    /** The rows of the `Session` table, in table order. */
    var rows: seq<Row>

    constructor (initial: seq<Row>)
      ensures rows == initial
    {
      rows := initial;
    }

    /** `getSession(handle)`; `now` is the current time the callback would read
        from the clock. */
    method GetSession(handle: string, now: string) returns (r: Record)
      ensures r == ShapeGet(First(Matching(rows, handle)), handle, now)
      ensures r["handle"] == Stored(Text(handle))
      ensures Matching(rows, handle) == [] ==> r.Keys == ComputedByGet
    {
      var selected := Matching(rows, handle);
      var session := First(selected);
      r := ShapeGet(session, handle, now);
    }

    /** `createSession(session)`. */
    method CreateSession(s: NewSession, defaults: Row) returns (r: Record)
      modifies this
      ensures rows == old(rows) + [InsertedRow(s, defaults)]
      ensures r == ShapeReturned(Some(InsertedRow(s, defaults)), s.handle)
    {
      var row := InsertedRow(s, defaults);
      rows := rows + [row];
      r := ShapeReturned(Some(row), s.handle);
    }

    /** `updateSession(handle, data)`. */
    method UpdateSession(handle: string, data: string) returns (r: Record)
      modifies this
      ensures rows == WithData(old(rows), handle, data)
      ensures r == ShapeReturned(First(Matching(rows, handle)), handle)
    {
      rows := WithData(rows, handle, data);
      var returned := Matching(rows, handle);
      r := ShapeReturned(First(returned), handle);
    }

    /** `deleteSession(handle)`: the deleted rows are what RETURNING gives back. */
    method DeleteSession(handle: string) returns (r: Record)
      modifies this
      ensures rows == Without(old(rows), handle)
      ensures r == ShapeReturned(First(Matching(old(rows), handle)), handle)
    {
      var returned := Matching(rows, handle);
      rows := Without(rows, handle);
      r := ShapeReturned(First(returned), handle);
    }

    /** `getSessions(userId)`. */
    method GetSessions(owns: (Row, string) -> bool, userId: string) returns (r: seq<Record>)
      ensures r == ShapeList(Owned(rows, owns, userId))
      ensures |r| == |Owned(rows, owns, userId)|
    {
      var selected := Owned(rows, owns, userId);
      r := ShapeList(selected);
    }
  }

  // ---------------------------------------------------------------------------
  // Properties

  /** A WHERE clause splits over a concatenation of tables. */
  lemma {:induction false} FilterAppend(a: seq<Row>, b: seq<Row>, w: Where)
    ensures Filter(a + b, w) == Filter(a, w) + Filter(b, w)
  {
    if a == [] {
      assert a + b == b;
    } else {
      assert (a + b)[1..] == a[1..] + b;
      FilterAppend(a[1..], b, w);
    }
  }

  /** A WHERE clause every row satisfies selects the whole table. */
  lemma {:induction false} FilterAll(rows: seq<Row>, w: Where)
    requires forall row :: row in rows ==> Selects(w, row)
    ensures Filter(rows, w) == rows
  {
    if rows != [] {
      FilterAll(rows[1..], w);
    }
  }

  /** A WHERE clause no row satisfies selects nothing. */
  lemma {:induction false} FilterNone(rows: seq<Row>, w: Where)
    requires forall row :: row in rows ==> !Selects(w, row)
    ensures Filter(rows, w) == []
  {
    if rows != [] {
      FilterNone(rows[1..], w);
    }
  }

  /** After `createSession` with a handle no row holds yet, `getSession` of that
      handle finds the inserted row: the handle, the tokens, the owner and the
      expiry text are the ones the caller gave. */
  lemma CreateThenGet(rows: seq<Row>, s: NewSession, defaults: Row, now: string)
    requires Matching(rows, s.handle) == []
    ensures First(Matching(rows + [InsertedRow(s, defaults)], s.handle)) == Some(InsertedRow(s, defaults))
    ensures var r := ShapeGet(Some(InsertedRow(s, defaults)), s.handle, now);
            && r["handle"] == Stored(Text(s.handle))
            && r["expiresAt"] == DateFrom(s.expiresAt)
            && r["antiCSRFToken"] == Stored(Text(s.antiCSRFToken))
            && r["hashedSessionToken"] == Stored(Text(s.hashedSessionToken))
            && r["userId"] == Stored(Text(s.userId))
  {
    var row := InsertedRow(s, defaults);
    FindsInserted(rows, row, s.handle);
    ReadsInsertedExpiry(s, defaults, now);
    ReadsInsertedTokens(s, defaults, now);
  }

  /** A row appended to a table where no row holds `handle` is the first row
      that holds it afterwards, if it holds it. */
  lemma FindsInserted(rows: seq<Row>, row: Row, handle: string)
    requires Matching(rows, handle) == [] && HasHandle(row, handle)
    ensures First(Matching(rows + [row], handle)) == Some(row)
  {
    FilterAppend(rows, [row], HandleIs(handle));
    FilterAll([row], HandleIs(handle));
  }

  /** `getSession` of an inserted row reads back the expiry the INSERT wrote. */
  lemma ReadsInsertedExpiry(s: NewSession, defaults: Row, now: string)
    ensures ShapeGet(Some(InsertedRow(s, defaults)), s.handle, now)["expiresAt"] == DateFrom(s.expiresAt)
  {
  }

  /** `getSession` of an inserted row reads back the tokens and the owner the
      INSERT wrote. */
  lemma ReadsInsertedTokens(s: NewSession, defaults: Row, now: string)
    ensures var r := ShapeGet(Some(InsertedRow(s, defaults)), s.handle, now);
            && r["antiCSRFToken"] == Stored(Text(s.antiCSRFToken))
            && r["hashedSessionToken"] == Stored(Text(s.hashedSessionToken))
            && r["userId"] == Stored(Text(s.userId))
  {
  }

  /** The first row `WithData` selects is the first row the handle selected
      before, with its `data` replaced. */
  lemma {:induction false} FirstUpdated(rows: seq<Row>, handle: string, data: string)
    requires Matching(rows, handle) != []
    ensures First(Matching(WithData(rows, handle, data), handle))
            == Some(First(Matching(rows, handle)).value["data" := Text(data)])
  {
    assert rows != [];
    var tail := WithData(rows[1..], handle, data);
    assert WithData(rows, handle, data)[1..] == tail;
    if !HasHandle(rows[0], handle) {
      FirstUpdated(rows[1..], handle, data);
    }
  }

  /** After `updateSession(handle, data)` on a handle some row holds, the
      callback's record and a following `getSession(handle)` both carry `data`. */
  lemma UpdateThenGet(rows: seq<Row>, handle: string, data: string, now: string)
    requires Matching(rows, handle) != []
    ensures var m := First(Matching(WithData(rows, handle, data), handle));
            && m.Some? && "data" in m.value
            && ShapeReturned(m, handle)["data"] == Stored(Text(data))
            && ShapeGet(m, handle, now)["data"] == Stored(Text(data))
  {
    FirstUpdated(rows, handle, data);
  }

  /** After `deleteSession(handle)` no row holds the handle, so `getSession`
      of it gives the defaulted record holding only the handle, the current
      time and two empty objects. */
  lemma DeleteThenGet(rows: seq<Row>, handle: string, now: string)
    ensures Matching(Without(rows, handle), handle) == []
    ensures ShapeGet(First(Matching(Without(rows, handle), handle)), handle, now)
            == map["expiresAt" := DateFrom(now), "privateData" := Stored(Text(EmptyObject)),
                   "publicData" := Stored(Text(EmptyObject)), "handle" := Stored(Text(handle))]
  {
    FilterNone(Without(rows, handle), HandleIs(handle));
  }

  /** With unique handles, `updateSession` changes exactly one row: the one at
      index `i` that holds the handle gets the new `data`, every other row
      stays as it was. */
  lemma UpdateTouchesOneRow(rows: seq<Row>, handle: string, data: string, i: nat)
    requires UniqueHandles(rows)
    requires i < |rows| && HasHandle(rows[i], handle)
    ensures WithData(rows, handle, data) == rows[i := rows[i]["data" := Text(data)]]
  {
    var r := WithData(rows, handle, data);
    forall j | 0 <= j < |rows|
      ensures r[j] == rows[i := rows[i]["data" := Text(data)]][j]
    {
      if j == i {
        assert r[j].Keys == rows[i]["data" := Text(data)].Keys;
      } else {
        assert !HasHandle(rows[j], handle);
      }
    }
  }

  /** With unique handles, `deleteSession` removes exactly the row at index
      `i` that holds the handle and leaves the rest in order. */
  lemma DeleteRemovesOneRow(rows: seq<Row>, handle: string, i: nat)
    requires UniqueHandles(rows)
    requires i < |rows| && HasHandle(rows[i], handle)
    ensures Without(rows, handle) == rows[..i] + rows[i + 1..]
  {
    var keep := Not(HandleIs(handle));
    var before, after := rows[..i], rows[i + 1..];
    OnlyOneHolds(rows, handle, i);
    assert rows == before + ([rows[i]] + after);
    FilterAppend(before, [rows[i]] + after, keep);
    FilterAppend([rows[i]], after, keep);
    FilterNone([rows[i]], keep);
    FilterAll(before, keep);
    FilterAll(after, keep);
  }

  /** With unique handles, only the row at `i` holds that row's handle: every
      row before it and every row after it does not. */
  lemma OnlyOneHolds(rows: seq<Row>, handle: string, i: nat)
    requires UniqueHandles(rows)
    requires i < |rows| && HasHandle(rows[i], handle)
    ensures forall row :: row in rows[..i] ==> !HasHandle(row, handle)
    ensures forall row :: row in rows[i + 1..] ==> !HasHandle(row, handle)
  {
  }

  /** `updateSession` keeps the handles unique: it never writes `handle`. */
  lemma UpdateKeepsHandlesUnique(rows: seq<Row>, handle: string, data: string)
    requires UniqueHandles(rows)
    ensures UniqueHandles(WithData(rows, handle, data))
  {
  }

  /** A row whose handle no row of `rows` holds can be put in front of `rows`
      without breaking uniqueness. */
  lemma UniqueCons(row: Row, rows: seq<Row>)
    requires UniqueHandles(rows)
    requires forall h, other :: other in rows && HasHandle(row, h) ==> !HasHandle(other, h)
    ensures UniqueHandles([row] + rows)
  {
    var t := [row] + rows;
    forall i, j, h | 0 <= i < |t| && 0 <= j < |t| && i != j && HasHandle(t[i], h)
      ensures !HasHandle(t[j], h)
    {
      if i == 0 {
        assert t[j] == rows[j - 1] && t[j] in rows;
      } else if j == 0 {
        assert t[i] == rows[i - 1] && t[i] in rows;
      } else {
        assert t[i] == rows[i - 1] && t[j] == rows[j - 1];
      }
    }
  }

  /** Selecting rows never breaks handle uniqueness. */
  lemma {:induction false} FilterKeepsHandlesUnique(rows: seq<Row>, w: Where)
    requires UniqueHandles(rows)
    ensures UniqueHandles(Filter(rows, w))
  {
    if rows != [] {
      var rest := rows[1..];
      assert UniqueHandles(rest) by {
        forall i, j, h | 0 <= i < |rest| && 0 <= j < |rest| && i != j && HasHandle(rest[i], h)
          ensures !HasHandle(rest[j], h)
        {
          assert rest[i] == rows[i + 1] && rest[j] == rows[j + 1];
        }
      }
      FilterKeepsHandlesUnique(rest, w);
      if Selects(w, rows[0]) {
        forall h, other | other in Filter(rest, w) && HasHandle(rows[0], h)
          ensures !HasHandle(other, h)
        {
          var k :| 0 <= k < |rest| && rest[k] == other;
          assert other == rows[k + 1];
        }
        UniqueCons(rows[0], Filter(rest, w));
      }
    }
  }

  /** `deleteSession` keeps the handles unique. */
  lemma DeleteKeepsHandlesUnique(rows: seq<Row>, handle: string)
    requires UniqueHandles(rows)
    ensures UniqueHandles(Without(rows, handle))
  {
    FilterKeepsHandlesUnique(rows, Not(HandleIs(handle)));
  }

  /** `createSession` with a handle no row holds yet keeps the handles unique. */
  lemma CreateKeepsHandlesUnique(rows: seq<Row>, s: NewSession, defaults: Row)
    requires UniqueHandles(rows)
    requires Matching(rows, s.handle) == []
    ensures UniqueHandles(rows + [InsertedRow(s, defaults)])
  {
    var row := InsertedRow(s, defaults);
    var t := rows + [row];
    forall i, j, h | 0 <= i < |t| && 0 <= j < |t| && i != j && HasHandle(t[i], h)
      ensures !HasHandle(t[j], h)
    {
      if i == |rows| {
        assert h == s.handle;
        assert t[j] == rows[j] && rows[j] in rows;
      } else if j == |rows| {
        assert t[i] == rows[i] && rows[i] in rows;
      } else {
        assert t[i] == rows[i] && t[j] == rows[j];
      }
    }
  }

  /** `getSessions(userId)` gives one record per row the ownership predicate
      selects, in table order, each keeping its own stored handle as text, and
      the rows selected are exactly the table's rows that `userId` owns. */
  lemma ListedSessions(rows: seq<Row>, owns: (Row, string) -> bool, userId: string)
    ensures forall row :: row in Owned(rows, owns, userId) <==> row in rows && owns(row, userId)
    ensures var owned := Owned(rows, owns, userId);
            var r := ShapeList(owned);
            && |r| == |owned|
            && forall i :: 0 <= i < |owned| ==> r[i]["handle"] == Stored(Text(ToStr(Get(Some(owned[i]), "handle"))))
  {
  }

  /** `getSession` defaults the expiry at read time: two reads of a row with no
      stored `expiresAt` at different times disagree, while a stored expiry
      reads the same every time. */
  lemma ExpiryDefaultsAtReadTime(row: Option<Row>, handle: string, now1: string, now2: string)
    ensures Nullish(Get(row, "expiresAt")) && now1 != now2 ==>
              ShapeGet(row, handle, now1) != ShapeGet(row, handle, now2)
    ensures !Nullish(Get(row, "expiresAt")) ==>
              ShapeGet(row, handle, now1) == ShapeGet(row, handle, now2)
  {
  }
}
