/**
 * The webhook request handler of main.go and the `gitlab_webhooks` table it
 * appends to. The table is an append-only sequence of rows whose ids come
 * from an AUTOINCREMENT counter; the handler builds the event record step by
 * step, recovers the body and inserts one row when the body is non-empty.
 */
module Webhook {
  import opened Base64
  import opened Headers
  import opened Event

  /** What the handler sees of a request: its header map and the body already read. */
  datatype Request = Request(header: Header, body: seq<byte>)

  /** A row of `gitlab_webhooks`: the store-assigned id and the eight inserted columns. */
  datatype StoredRow = StoredRow(id: nat, columns: InsertParams)

  /**
   * How one request ends: nothing written for an empty body, one row
   * written, or the panic of an absent header (net/http recovers it and
   * drops the request).
   */
  datatype Outcome = NoBody | Inserted(id: nat) | Panicked

  /** Row ids grow strictly from the first row to the last. */
  ghost predicate IdsIncreasing(rows: seq<StoredRow>)
  {
    forall k, l | 0 <= k < l < |rows| :: rows[k].id < rows[l].id
  }

  /**
   * The columns the handler writes for a non-empty body: every header field
   * empty, the recovered body as payload, and `gotAllHeaders` false.
   */
  function HandlerColumns(body: seq<byte>): (p: InsertParams)
    ensures p == BindEvent(ZeroEvent.(payload := body))
  {
    InsertParams("", "", "", "", "", body, "", false)
  }

  class EventStore {
    /** The rows of `gitlab_webhooks`, oldest first. */
    var rows: seq<StoredRow>
    /** The id the next insert receives (AUTOINCREMENT starts at 1). */
    var nextId: nat

    ghost predicate Valid()
      reads this
    {
      && nextId >= 1
      && (forall k | 0 <= k < |rows| :: 1 <= rows[k].id < nextId)
      && IdsIncreasing(rows)
    }

    /**
     * In a valid table no two rows share an id, so the primary key
     * (`id INTEGER PRIMARY KEY AUTOINCREMENT`, with `ON CONFLICT FAIL`) never
     * rejects an insert.
     */
    lemma IdsDistinct(k: nat, l: nat)
      requires Valid()
      requires k < |rows| && l < |rows| && k != l
      ensures rows[k].id != rows[l].id
    {
      if k < l {
        assert rows[k].id < rows[l].id;
      } else {
        assert rows[l].id < rows[k].id;
      }
    }

    /** No stored row claims that all headers were present. */
    ghost predicate NoRowHasAllHeaders()
      reads this
    {
      forall k | 0 <= k < |rows| :: !rows[k].columns.gotAllHeaders
    }

    /** A freshly created table: empty, the first id to hand out is 1. */
    constructor ()
      ensures Valid() && NoRowHasAllHeaders()
      ensures rows == [] && nextId == 1
    {
      rows := [];
      nextId := 1;
    }

    /**
     * The prepared insert: appends one row with the next id; earlier rows
     * are untouched.
     */
    method Insert(p: InsertParams) returns (id: nat)
      requires Valid()
      modifies this
      ensures Valid()
      ensures id == old(nextId) && nextId == old(nextId) + 1
      ensures rows == old(rows) + [StoredRow(id, p)]
      ensures forall k | 0 <= k < |old(rows)| :: old(rows)[k].id != id
    {
      id := nextId;
      rows := rows + [StoredRow(id, p)];
      nextId := nextId + 1;
    }

    /**
     * The request handler. An empty body leaves the table as it was; a
     * non-empty body appends exactly one row, whose header fields are empty
     * (the header check never passes), whose payload is the body, and whose
     * `gotAllHeaders` is false.
     */
    method Handle(req: Request) returns (outcome: Outcome)
      requires Valid()
      modifies this
      ensures Valid()
      ensures old(NoRowHasAllHeaders()) ==> NoRowHasAllHeaders()
      ensures |req.body| == 0 ==> outcome == NoBody && rows == old(rows) && nextId == old(nextId)
      ensures |req.body| > 0 ==>
        && outcome == Inserted(old(nextId))
        && nextId == old(nextId) + 1
        && rows == old(rows) + [StoredRow(old(nextId), HandlerColumns(req.body))]
    {
      var event := ZeroEvent;
      var headers := SearchedHeaderList(|req.header|);
      var found := ContainsValuesInArray(GitlabHeaderNames, headers);
      GitlabHeadersNeverFound(|req.header|);
      if found {
        match EventFromHeaders(req.header)
        case None =>
          return Panicked;
        case Some(e) =>
          event := e;
      }

      if |req.body| > 0 {
        var bodyJson := MarshalBytes(req.body);
        var str1 := bodyJson[1..|bodyJson| - 1];
        var x := Decode(str1);
        PayloadRecovered(req.body);
        event := event.(payload := x.bytes);
        var id := Insert(BindEvent(event));
        outcome := Inserted(id);
      } else {
        outcome := NoBody;
      }
    }
  }

  /**
   * Delivering the same request twice to any table appends two rows with
   * equal columns and different ids: the table does not deduplicate by event
   * UUID or by anything else. An empty body leaves the table as it was.
   */
  method DuplicateDeliveryStoredTwice(store: EventStore, req: Request) returns (first: Outcome, second: Outcome)
    requires store.Valid()
    modifies store
    ensures store.Valid()
    ensures |req.body| > 0 ==>
      && first.Inserted? && second.Inserted? && first.id != second.id
      && exists r1, r2 ::
           && store.rows == old(store.rows) + [r1, r2]
           && r1.columns == r2.columns && r1.id != r2.id
    ensures |req.body| == 0 ==> first == NoBody && second == NoBody && store.rows == old(store.rows)
  {
    first := store.Handle(req);
    second := store.Handle(req);
    if |req.body| > 0 {
      var r1 := StoredRow(first.id, HandlerColumns(req.body));
      var r2 := StoredRow(second.id, HandlerColumns(req.body));
      assert store.rows == old(store.rows) + [r1, r2];
    }
  }
}
