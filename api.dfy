/** The API server's request gate and its log stream: how an Authorization
    header becomes the token that is validated, and how the WebSocket log
    stream of one run walks the run's log table with a `lastLogID` cursor. */
module Api {
  import opened Common

  // ---------------------------------------------------------------------
  // Authorization header handling (authMiddleware).

  const BearerPrefix: string := "Bearer "

  /** The token that is validated for a non-empty header: the header with a
      leading "Bearer " removed when something follows it, else the header
      itself. */
  function StripBearer(header: string): (token: string)
    ensures token == header || header == BearerPrefix + token
    ensures token == "" <==> header == ""
    ensures header == BearerPrefix + token ==> token != ""
  {
    if |header| > 7 && header[..7] == BearerPrefix then header[7..] else header
  }

  /** "Bearer t" yields t for every non-empty t; a header without the prefix,
      and the bare prefix itself, are passed through unchanged; only one
      prefix is ever removed. */
  lemma StripBearerCases(t: string)
    ensures t != "" ==> StripBearer(BearerPrefix + t) == t
    ensures StripBearer(BearerPrefix) == BearerPrefix
    ensures !(|t| >= 7 && t[..7] == BearerPrefix) ==> StripBearer(t) == t
    ensures t != "" ==> StripBearer(BearerPrefix + BearerPrefix + t) == BearerPrefix + t
  {
    if t != "" {
      assert (BearerPrefix + t)[..7] == BearerPrefix;
      assert (BearerPrefix + t)[7..] == t;
      assert (BearerPrefix + BearerPrefix + t)[..7] == BearerPrefix;
      assert (BearerPrefix + BearerPrefix + t)[7..] == BearerPrefix + t;
    }
  }

  datatype User = User(id: nat, username: string)

  /** What the middleware decides: reject a missing header (no token is
      validated), reject a token that validation refuses, or accept the
      request on behalf of the user validation returns. */
  datatype AuthOutcome =
    | MissingToken
    | InvalidToken(token: string)
    | Authorized(token: string, user: User)

  /** The HTTP 401 message of a rejection, or None when the request proceeds. */
  function Rejection(outcome: AuthOutcome): (message: Option<string>)
    ensures message.None? <==> outcome.Authorized?
    ensures outcome.MissingToken? ==> message == Some("Missing authorization token")
    ensures outcome.InvalidToken? ==> message == Some("Invalid token")
  {
    match outcome
    case MissingToken => Some("Missing authorization token")
    case InvalidToken(_) => Some("Invalid token")
    case Authorized(_, _) => None
  }

  /** authMiddleware: the empty header is refused before `validate` is
      consulted, else the prefix is stripped and the resulting token is the
      one validated. `validate` stands for the token service. */
  method AuthMiddleware(header: string, validate: string -> Option<User>) returns (outcome: AuthOutcome)
    ensures outcome.MissingToken? <==> header == ""
    ensures !outcome.MissingToken? ==> outcome.token == StripBearer(header)
    ensures outcome.Authorized? <==> header != "" && validate(StripBearer(header)).Some?
    ensures outcome.Authorized? ==> validate(outcome.token) == Some(outcome.user)
  {
    var token := header;
    if token == "" {
      return MissingToken;
    }
    if |token| > 7 && token[..7] == BearerPrefix {
      token := token[7..];
    }
    var user := validate(token);
    match user
    case None => outcome := InvalidToken(token);
    case Some(u) => outcome := Authorized(token, u);
  }

  // ---------------------------------------------------------------------
  // Log streaming (streamLogs).

  /** A row of the run's log table as the query returns it. */
  datatype LogRow = LogRow(id: nat, content: string, level: string)

  /** One tick of the stream's ticker: the query failed, or it saw the run's
      log table as it then was, in primary-key order. */
  datatype Poll = FetchFailed | Fetched(table: seq<LogRow>)

  /** Strictly increasing ids: a table read in primary-key order, and the
      order in which a stream must deliver. */
  predicate Ascending(rows: seq<LogRow>) {
    forall i, j :: 0 <= i < j < |rows| ==> rows[i].id < rows[j].id
  }

  /** The query `logs.id > cursor ORDER BY logs.id ASC`: exactly the rows
      above the cursor, in ascending order. */
  function Fetch(table: seq<LogRow>, cursor: nat): (rows: seq<LogRow>)
    ensures Ascending(table) ==> Ascending(rows)
    ensures forall i :: 0 <= i < |rows| ==> rows[i] in table && rows[i].id > cursor
    ensures |rows| <= |table|
    decreases |table|
  {
    if table == [] then []
    else if table[0].id > cursor then [table[0]] + Fetch(table[1..], cursor)
    else Fetch(table[1..], cursor)
  }

  /** The cursor a stream holds after delivering `rows`: 0 before the first
      delivery, afterwards the id of the last row written. */
  function LastId(rows: seq<LogRow>): nat {
    if rows == [] then 0 else rows[|rows| - 1].id
  }

  /** Log rows are only ever appended: every table a later tick sees extends
      the table an earlier tick saw. */
  predicate Grows(polls: seq<Poll>) {
    forall u, v :: 0 <= u < v < |polls| && polls[u].Fetched? && polls[v].Fetched? ==>
      polls[u].table <= polls[v].table
  }

  /** The table seen by the last successful fetch, or the empty table. */
  function LastTable(polls: seq<Poll>): seq<LogRow>
    decreases |polls|
  {
    if polls == [] then []
    else if polls[|polls| - 1].Fetched? then polls[|polls| - 1].table
    else LastTable(polls[..|polls| - 1])
  }

  predicate AllAscending(polls: seq<Poll>) {
    forall t :: 0 <= t < |polls| && polls[t].Fetched? ==> Ascending(polls[t].table)
  }

  /** `row` was in the table of some successful fetch. */
  predicate Seen(row: LogRow, polls: seq<Poll>) {
    exists t :: 0 <= t < |polls| && polls[t].Fetched? && row in polls[t].table
  }

  /** Every row in `rows` was in the table of some successful fetch. */
  predicate Sourced(rows: seq<LogRow>, polls: seq<Poll>) {
    forall i :: 0 <= i < |rows| ==> Seen(rows[i], polls)
  }

  /** streamLogs after the WebSocket is open: on each tick, fetch the rows
      above the cursor and write them in order, moving the cursor to each row
      written; a failed fetch changes nothing, a failed write ends the
      stream. `failAt` is the index of the first write attempt the connection
      refuses. Each tick is `OnTick`. */
  method StreamLogs(polls: seq<Poll>, failAt: Option<nat>)
    returns (delivered: seq<LogRow>, cursor: nat, ended: bool)
    requires AllAscending(polls)
    // delivery order, and the cursor is at the last row written
    ensures Ascending(delivered)
    ensures cursor == LastId(delivered)
    // only a refused write ends the stream, and nothing after it is written
    ensures ended ==> failAt.Some? && failAt.value == |delivered|
    ensures !ended ==> failAt.None? || failAt.value >= |delivered|
    // every row delivered was in the table
    ensures Sourced(delivered, polls)
    // with an append-only table, no gaps and no duplicates: the whole table
    // when the stream stays open, a prefix of it when a write is refused
    ensures !ended && Grows(polls) ==> delivered == Fetch(LastTable(polls), 0)
    ensures ended && Grows(polls) ==> delivered <= Fetch(LastTable(polls), 0)
  {
    delivered, cursor, ended := [], 0, false;
    var t := 0;
    ghost var grows := Grows(polls);
    ghost var last: seq<LogRow> := [];
    assert polls[..0] == [];
    while t < |polls| && !ended
      invariant 0 <= t <= |polls|
      invariant Ascending(delivered) && cursor == LastId(delivered)
      invariant ended ==> failAt.Some? && failAt.value == |delivered|
      invariant failAt.None? || failAt.value >= |delivered|
      invariant Sourced(delivered, polls[..t])
      invariant last == LastTable(polls[..t])
      invariant grows && !ended ==> delivered == Fetch(last, 0)
      invariant grows ==> delivered <= Fetch(last, 0)
      decreases |polls| - t
    {
      ghost var sent, before := delivered, cursor;
      var written;
      delivered, cursor, ended, written := OnTick(polls[t], delivered, cursor, failAt);
      SourcedStep(sent, before, written, delivered, polls, t);
      LastTableStep(polls, t);
      if polls[t].Fetched? {
        AscendingBatch(sent, Fetch(polls[t].table, before), written, before);
        if grows {
          LastTableIsPrefix(polls, t);
          CompleteStep(last, polls[t].table, sent, before, written, delivered);
        }
        last := polls[t].table;
      }
      t := t + 1;
    }
    SourcedPrefix(delivered, polls, t);
    if !ended {
      assert polls[..t] == polls;
    }
    if grows {
      LastTableGrows(polls, t);
      FetchPrefix(last, LastTable(polls), 0);
      PrefixTrans(delivered, Fetch(last, 0), Fetch(LastTable(polls), 0));
    }
  }

  /** The rows a tick adds were in its table, so what was delivered stays
      sourced from the ticks so far. */
  lemma SourcedStep(sent: seq<LogRow>, cursor: nat, written: nat, delivered: seq<LogRow>, polls: seq<Poll>, t: nat)
    requires t < |polls| && Sourced(sent, polls[..t])
    requires polls[t].FetchFailed? ==> delivered == sent
    requires polls[t].Fetched? ==>
      written <= |Fetch(polls[t].table, cursor)| && delivered == sent + Fetch(polls[t].table, cursor)[..written]
    ensures Sourced(delivered, polls[..t + 1])
  {
    var ps := polls[..t + 1];
    if polls[t].Fetched? {
      BatchFromTable(polls[t].table, cursor, sent, written);
    }
    forall i | 0 <= i < |delivered|
      ensures Seen(delivered[i], ps)
    {
      if i < |sent| {
        assert delivered[i] == sent[i];
        var u :| 0 <= u < t && polls[..t][u].Fetched? && sent[i] in polls[..t][u].table;
        assert ps[u] == polls[..t][u];
        assert ps[u].Fetched? && delivered[i] in ps[u].table;
      } else {
        assert ps[t] == polls[t];
        assert ps[t].Fetched? && delivered[i] in ps[t].table;
      }
    }
  }

  /** Rows sourced from the first ticks are sourced from all of them. */
  lemma SourcedPrefix(rows: seq<LogRow>, polls: seq<Poll>, t: nat)
    requires t <= |polls| && Sourced(rows, polls[..t])
    ensures Sourced(rows, polls)
  {
    forall i | 0 <= i < |rows|
      ensures Seen(rows[i], polls)
    {
      var u :| 0 <= u < t && polls[..t][u].Fetched? && rows[i] in polls[..t][u].table;
      assert polls[..t][u] == polls[u];
      assert polls[u].Fetched? && rows[i] in polls[u].table;
    }
  }

  /** The last table after tick t is the one tick t fetched, if it fetched. */
  lemma LastTableStep(polls: seq<Poll>, t: nat)
    requires t < |polls|
    ensures LastTable(polls[..t + 1]) == if polls[t].Fetched? then polls[t].table else LastTable(polls[..t])
  {
    assert polls[..t + 1][..t] == polls[..t];
  }

  /** A tick that writes rows above the cursor left by a complete read of
      `prev`, on a table that extends `prev`, delivers a prefix of the read of
      the table, and the whole read when it writes every row: no row is
      skipped and none is sent twice. */
  lemma CompleteStep(prev: seq<LogRow>, table: seq<LogRow>, sent: seq<LogRow>, cursor: nat, written: nat, delivered: seq<LogRow>)
    requires Ascending(table) && prev <= table && sent == Fetch(prev, 0) && cursor == LastId(sent)
    requires written <= |Fetch(table, cursor)| && delivered == sent + Fetch(table, cursor)[..written]
    ensures delivered <= Fetch(table, 0)
    ensures written == |Fetch(table, cursor)| ==> delivered == Fetch(table, 0)
  {
    var rows := Fetch(table, cursor);
    FetchExtends(prev, table);
    assert (sent + rows)[..|delivered|] == delivered;
    if written == |rows| {
      assert rows[..written] == rows;
    }
  }

  /** One tick of the stream: a failed fetch changes nothing; otherwise the
      rows above the cursor are written in order until the connection refuses
      one, and `written` says how many were. */
  method OnTick(poll: Poll, sent: seq<LogRow>, cursor: nat, failAt: Option<nat>)
    returns (delivered: seq<LogRow>, newCursor: nat, ended: bool, written: nat)
    requires failAt.None? || failAt.value >= |sent|
    ensures poll.FetchFailed? ==> delivered == sent && newCursor == cursor && !ended && written == 0
    ensures poll.Fetched? ==>
      var rows := Fetch(poll.table, cursor);
      && written <= |rows| && delivered == sent + rows[..written]
      && newCursor == (if written == 0 then cursor else rows[written - 1].id)
      && (!ended ==> written == |rows|)
    ensures ended ==> failAt.Some? && failAt.value == |delivered|
    ensures !ended ==> failAt.None? || failAt.value >= |delivered|
  {
    if poll.FetchFailed? {
      delivered, newCursor, ended, written := sent, cursor, false, 0;
    } else {
      var rows := Fetch(poll.table, cursor);
      delivered, newCursor, ended, written := WriteBatch(rows, sent, cursor, failAt);
    }
  }

  /** A batch written after `sent` holds rows of the table above the cursor. */
  lemma BatchFromTable(table: seq<LogRow>, cursor: nat, sent: seq<LogRow>, written: nat)
    requires written <= |Fetch(table, cursor)|
    ensures var d := sent + Fetch(table, cursor)[..written];
      && |sent| <= |d| && d[..|sent|] == sent
      && (forall i :: |sent| <= i < |d| ==> d[i] in table && d[i].id > cursor)
  {
    var rows := Fetch(table, cursor);
    var d := sent + rows[..written];
    assert d[..|sent|] == sent;
    forall i | |sent| <= i < |d| ensures d[i] in table && d[i].id > cursor {
      assert d[i] == rows[i - |sent|];
    }
  }

  /** The inner loop of one tick: write `rows` in order, moving the cursor to
      each row written, until the connection refuses a write. */
  method WriteBatch(rows: seq<LogRow>, sent: seq<LogRow>, cursor: nat, failAt: Option<nat>)
    returns (delivered: seq<LogRow>, newCursor: nat, ended: bool, written: nat)
    requires failAt.None? || failAt.value >= |sent|
    ensures written <= |rows| && delivered == sent + rows[..written]
    ensures newCursor == if written == 0 then cursor else rows[written - 1].id
    ensures ended ==> failAt.Some? && failAt.value == |delivered|
    ensures !ended ==> written == |rows| && (failAt.None? || failAt.value >= |delivered|)
  {
    delivered, newCursor, ended, written := sent, cursor, false, 0;
    assert sent + rows[..0] == sent;
    while written < |rows| && !ended
      invariant written <= |rows| && delivered == sent + rows[..written]
      invariant newCursor == if written == 0 then cursor else rows[written - 1].id
      invariant ended ==> failAt.Some? && failAt.value == |delivered|
      invariant failAt.None? || failAt.value >= |delivered|
      decreases |rows| - written, if ended then 0 else 1
    {
      if failAt == Some(|delivered|) {
        ended := true;
      } else {
        TakeSnoc(rows, written);
        delivered := delivered + [rows[written]];
        newCursor := rows[written].id;
        written := written + 1;
      }
    }
  }

  /** Rows above the cursor, written in order after an ascending delivery
      that ends at the cursor, keep it ascending and leave the cursor at the
      last row written. */
  lemma AscendingBatch(sent: seq<LogRow>, rows: seq<LogRow>, n: nat, cursor: nat)
    requires Ascending(rows) && Ascending(sent) && cursor == LastId(sent)
    requires forall i :: 0 <= i < |rows| ==> rows[i].id > cursor
    requires n <= |rows|
    ensures Ascending(sent + rows[..n])
    ensures LastId(sent + rows[..n]) == if n == 0 then cursor else rows[n - 1].id
  {
    var s := sent + rows[..n];
    forall i, j | 0 <= i < j < |s| ensures s[i].id < s[j].id {
      if j >= |sent| {
        assert s[j] == rows[j - |sent|];
        if i < |sent| {
          assert sent[i].id <= sent[|sent| - 1].id;
        } else {
          assert s[i] == rows[i - |sent|];
        }
      }
    }
    if n == 0 {
      assert s == sent;
    } else {
      assert s[|s| - 1] == rows[n - 1];
    }
  }

  // ---------------------------------------------------------------------
  // Lemmas about the query, used for the no-gap, no-duplicate property.

  /** The query returns exactly the rows of the table above the cursor. */
  lemma FetchMembers(table: seq<LogRow>, cursor: nat)
    ensures forall r :: r in Fetch(table, cursor) <==> r in table && r.id > cursor
  {
    forall r | r in table && r.id > cursor ensures r in Fetch(table, cursor) {
      FetchKeeps(table, cursor, r);
    }
  }

  lemma {:induction false} FetchKeeps(table: seq<LogRow>, cursor: nat, r: LogRow)
    requires r in table && r.id > cursor
    ensures r in Fetch(table, cursor)
    decreases |table|
  {
    if table[0] != r {
      FetchKeeps(table[1..], cursor, r);
    }
  }

  /** Filtering distributes over concatenation. */
  lemma {:induction false} FetchAppend(a: seq<LogRow>, b: seq<LogRow>, cursor: nat)
    ensures Fetch(a + b, cursor) == Fetch(a, cursor) + Fetch(b, cursor)
    decreases |a|
  {
    if a != [] {
      assert (a + b)[1..] == a[1..] + b;
      FetchAppend(a[1..], b, cursor);
    } else {
      assert a + b == b;
    }
  }

  /** Two cursors that split the table the same way fetch the same rows. */
  lemma {:induction false} FetchSameSplit(s: seq<LogRow>, c: nat, d: nat)
    requires forall i :: 0 <= i < |s| ==> (s[i].id > c <==> s[i].id > d)
    ensures Fetch(s, c) == Fetch(s, d)
    decreases |s|
  {
    if s != [] {
      FetchSameSplit(s[1..], c, d);
    }
  }

  /** A fetch above a cursor past every row returns nothing. */
  lemma {:induction false} FetchNone(s: seq<LogRow>, c: nat)
    requires forall i :: 0 <= i < |s| ==> s[i].id <= c
    ensures Fetch(s, c) == []
    decreases |s|
  {
    if s != [] {
      FetchNone(s[1..], c);
    }
  }

  /** After a complete read of a non-empty table the cursor is the id of
      its last row. */
  lemma LastIdOfFetch(prev: seq<LogRow>)
    requires Ascending(prev) && prev != []
    ensures LastId(Fetch(prev, 0)) == prev[|prev| - 1].id
  {
    var init, l := prev[..|prev| - 1], prev[|prev| - 1];
    SplitLast(prev);
    FetchAppend(init, [l], 0);
    if init == [] {
      assert Fetch(init, 0) == [];
    } else {
      assert l.id > init[0].id;
      assert Fetch([l], 0) == [l] + Fetch([], 0);
    }
  }

  /** A prefix of an ascending table lies at or below its last row, and the
      rest of the table lies above it. */
  lemma SplitAtPrefix(prev: seq<LogRow>, table: seq<LogRow>)
    requires Ascending(table) && prev <= table && prev != []
    ensures Ascending(prev)
    ensures forall i :: 0 <= i < |prev| ==> prev[i].id <= prev[|prev| - 1].id
    ensures forall i :: |prev| <= i < |table| ==> table[i].id > prev[|prev| - 1].id
  {
    forall i | 0 <= i < |prev| ensures prev[i] == table[i] {
    }
  }

  /** Resuming from the cursor left by a complete read of `prev` delivers
      exactly what a read of the longer table from 0 adds to it. */
  lemma FetchExtends(prev: seq<LogRow>, table: seq<LogRow>)
    requires Ascending(table) && prev <= table
    ensures Fetch(prev, 0) + Fetch(table, LastId(Fetch(prev, 0))) == Fetch(table, 0)
  {
    if prev != [] {
      var rest := table[|prev|..];
      PrefixSplit(prev, table);
      SplitAtPrefix(prev, table);
      LastIdOfFetch(prev);
      var c := prev[|prev| - 1].id;
      FetchAppend(prev, rest, 0);
      FetchAppend(prev, rest, c);
      FetchNone(prev, c);
      forall i | 0 <= i < |rest| ensures rest[i].id > c {
        assert rest[i] == table[|prev| + i];
      }
      FetchSameSplit(rest, c, 0);
      assert Fetch(table, c) == Fetch(rest, 0);
      assert Fetch(table, 0) == Fetch(prev, 0) + Fetch(rest, 0);
    }
  }

  /** Under append-only growth, the table of the last successful fetch
      before tick t is a prefix of the table tick t sees. */
  lemma LastTableIsPrefix(polls: seq<Poll>, t: nat)
    requires t < |polls| && polls[t].Fetched? && Grows(polls)
    ensures LastTable(polls[..t]) <= polls[t].table
  {
    LastTableFetched(polls, t);
  }

  /** Under append-only growth, the table of the last successful fetch
      before tick t is a prefix of the table of the last successful fetch. */
  lemma LastTableGrows(polls: seq<Poll>, t: nat)
    requires t <= |polls| && Grows(polls)
    ensures LastTable(polls[..t]) <= LastTable(polls)
  {
    LastTableFetched(polls, t);
    if LastTable(polls[..t]) != [] {
      var u :| 0 <= u < t && polls[u].Fetched? && LastTable(polls[..t]) == polls[u].table;
      LastTableAfter(polls, u);
    }
  }

  /** A successful fetch at tick u is followed by the last successful fetch:
      the last table is the one of some tick at or after u. */
  lemma {:induction false} LastTableAfter(polls: seq<Poll>, u: nat)
    requires u < |polls| && polls[u].Fetched?
    ensures exists v :: u <= v < |polls| && polls[v].Fetched? && LastTable(polls) == polls[v].table
    decreases |polls|
  {
    var n := |polls|;
    if polls[n - 1].Fetched? {
      assert LastTable(polls) == polls[n - 1].table;
    } else {
      var init := polls[..n - 1];
      assert init[u] == polls[u];
      LastTableAfter(init, u);
      var v :| u <= v < |init| && init[v].Fetched? && LastTable(init) == init[v].table;
      assert init[v] == polls[v];
    }
  }

  /** The query on a prefix of a table returns a prefix of its answer. */
  lemma FetchPrefix(a: seq<LogRow>, b: seq<LogRow>, cursor: nat)
    requires a <= b
    ensures Fetch(a, cursor) <= Fetch(b, cursor)
  {
    PrefixSplit(a, b);
    FetchAppend(a, b[|a|..], cursor);
    var x, y := Fetch(a, cursor), Fetch(b[|a|..], cursor);
    assert (x + y)[..|x|] == x;
  }

  /** The last table before tick t is empty or is one that an earlier tick
      fetched. */
  lemma {:induction false} LastTableFetched(polls: seq<Poll>, t: nat)
    requires t <= |polls|
    ensures LastTable(polls[..t]) == [] ||
      exists u :: 0 <= u < t && polls[u].Fetched? && LastTable(polls[..t]) == polls[u].table
    decreases t
  {
    if t > 0 {
      assert polls[..t][..t - 1] == polls[..t - 1];
      LastTableFetched(polls, t - 1);
    }
  }
}
