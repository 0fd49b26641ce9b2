/** The three read-only queries: one user's summary, the leaderboard and one
    user's transaction history. */
module Queries {
  import opened Config
  import opened Ledger

  /** A row of the summary and of the leaderboard. */
  datatype UserRow = UserRow(schoolId: string, points: int, bottlesTotal: int)

  /** The aggregated row of an existing user: its points and the bottles
      summed over its transactions (the LEFT JOIN ... GROUP BY). */
  function RowOf(tb: Tables, schoolId: string): (row: UserRow)
    requires schoolId in tb.users
  {
    UserRow(schoolId, tb.users[schoolId], BottlesOf(tb.txs, schoolId))
  }

  // ------------------------------------------------------------ summary

  /** `GET /api/user/:school_id`: NotFound exactly when there is no user row;
      otherwise the user's points and the bottles its transactions sum to. */
  function UserSummary(tb: Tables, schoolId: string): (r: Result<UserRow>)
    ensures r.Err? <==> schoolId !in tb.users
    ensures r.Err? ==> r.error == NotFound
    ensures r.Ok? ==> r.value.schoolId == schoolId && r.value.points == tb.users[schoolId]
    ensures r.Ok? ==> r.value.bottlesTotal == SumBottles(Filter(tb.txs, schoolId))
  {
    BottlesOfFiltered(tb.txs, schoolId);
    if schoolId in tb.users then Ok(RowOf(tb, schoolId)) else Err(NotFound)
  }

  /** In a valid store a found summary is reconciled: its points are the
      bottles times `POINTS_PER_BOTTLE`, and neither is negative. */
  lemma SummaryReconciled(tb: Tables, schoolId: string)
    requires Valid(tb)
    ensures var r := UserSummary(tb, schoolId);
      r.Ok? ==> r.value.points == POINTS_PER_BOTTLE * r.value.bottlesTotal && r.value.bottlesTotal >= 0
  {
    if schoolId in tb.users {
      Reconciled(tb, schoolId);
    }
  }

  // -------------------------------------------------------- leaderboard

  /** `a` may be listed before `b`: more bottles, or as many bottles and at
      least as many points (`ORDER BY bottles_total DESC, u.points DESC`). */
  predicate RanksAbove(a: UserRow, b: UserRow)
  {
    a.bottlesTotal > b.bottlesTotal || (a.bottlesTotal == b.bottlesTotal && a.points >= b.points)
  }

  predicate Ranked(rows: seq<UserRow>)
  {
    forall i, j :: 0 <= i < j < |rows| ==> RanksAbove(rows[i], rows[j])
  }

  predicate DistinctIds(rows: seq<UserRow>)
  {
    forall i, j :: 0 <= i < j < |rows| ==> rows[i].schoolId != rows[j].schoolId
  }

  /** The rows of the given users, in an order the SQL leaves open. */
  ghost function RowsOf(tb: Tables, ids: set<string>): (r: seq<UserRow>)
    requires ids <= tb.users.Keys
    ensures |r| == |ids|
    ensures DistinctIds(r)
    ensures forall row :: row in r <==> row.schoolId in ids && row == RowOf(tb, row.schoolId)
    decreases ids
  {
    if ids == {} then []
    else
      var id :| id in ids;
      [RowOf(tb, id)] + RowsOf(tb, ids - {id})
  }

  /** Inserts a row into a ranked sequence. */
  function Insert(row: UserRow, rows: seq<UserRow>): (r: seq<UserRow>)
    requires Ranked(rows)
    ensures Ranked(r)
    ensures |r| == |rows| + 1
    ensures multiset(r) == multiset(rows) + multiset{row}
    ensures forall x :: x in r <==> x in rows || x == row
    ensures DistinctIds(rows) && (forall x :: x in rows ==> x.schoolId != row.schoolId) ==> DistinctIds(r)
  {
    if rows == [] then [row]
    else if RanksAbove(row, rows[0]) then [row] + rows
    else
      var tail := Insert(row, rows[1..]);
      InsertBehindHead(row, rows, tail);
      DistinctBehindHead(row, rows, tail);
      MembersOf([rows[0]] + tail, rows, row);
      [rows[0]] + tail
  }

  /** The step of `Insert` that keeps the head: the head ranks above the row
      and, the input being ranked, above everything behind it. */
  lemma InsertBehindHead(row: UserRow, rows: seq<UserRow>, tail: seq<UserRow>)
    requires rows != [] && Ranked(rows) && !RanksAbove(row, rows[0])
    requires Ranked(tail)
    requires multiset(tail) == multiset(rows[1..]) + multiset{row}
    ensures Ranked([rows[0]] + tail)
    ensures multiset([rows[0]] + tail) == multiset(rows) + multiset{row}
  {
    HeadLeads(row, rows, tail);
    assert rows == [rows[0]] + rows[1..];
    assert multiset([rows[0]] + tail) == multiset{rows[0]} + multiset(tail);
  }

  /** The same step keeps school ids distinct when the row's id is new. */
  lemma DistinctBehindHead(row: UserRow, rows: seq<UserRow>, tail: seq<UserRow>)
    requires rows != [] && Ranked(rows) && !RanksAbove(row, rows[0])
    requires multiset(tail) == multiset(rows[1..]) + multiset{row}
    requires DistinctIds(rows[1..]) && (forall x :: x in rows[1..] ==> x.schoolId != row.schoolId) ==> DistinctIds(tail)
    ensures DistinctIds(rows) && (forall x :: x in rows ==> x.schoolId != row.schoolId) ==> DistinctIds([rows[0]] + tail)
  {
    if DistinctIds(rows) && (forall x :: x in rows ==> x.schoolId != row.schoolId) {
      HeadLeads(row, rows, tail);
      assert DistinctIds(rows[1..]);
    }
  }

  /** Rows with the multiset of `rows` plus `row` hold exactly their members. */
  lemma MembersOf(r: seq<UserRow>, rows: seq<UserRow>, row: UserRow)
    requires multiset(r) == multiset(rows) + multiset{row}
    ensures forall x :: x in r <==> x in rows || x == row
  {
    forall x ensures x in r <==> x in rows || x == row {
      assert x in r <==> x in multiset(r);
      assert x in rows <==> x in multiset(rows);
    }
  }

  /** Every entry behind the head is the inserted row or came from behind the
      head, and the head ranks above it. */
  lemma HeadLeads(row: UserRow, rows: seq<UserRow>, tail: seq<UserRow>)
    requires rows != [] && Ranked(rows) && !RanksAbove(row, rows[0])
    requires multiset(tail) == multiset(rows[1..]) + multiset{row}
    ensures forall k :: 0 <= k < |tail| ==>
      RanksAbove(rows[0], tail[k]) && (tail[k] == row || tail[k] in rows[1..])
  {
    forall k | 0 <= k < |tail|
      ensures RanksAbove(rows[0], tail[k]) && (tail[k] == row || tail[k] in rows[1..])
    {
      assert tail[k] in multiset(tail);
      if tail[k] != row {
        assert tail[k] in multiset(rows[1..]);
        var m :| 0 <= m < |rows| - 1 && rows[1..][m] == tail[k];
        assert rows[m + 1] == tail[k];
      }
    }
  }

  /** Insertion sort by rank. */
  function Sort(rows: seq<UserRow>): (r: seq<UserRow>)
    ensures Ranked(r)
    ensures |r| == |rows|
    ensures multiset(r) == multiset(rows)
    ensures forall x :: x in r <==> x in rows
    ensures DistinctIds(rows) ==> DistinctIds(r)
  {
    if rows == [] then []
    else
      assert rows == [rows[0]] + rows[1..];
      Insert(rows[0], Sort(rows[1..]))
  }

  /** `GET /api/leaderboard`: every user ranked, the first
      `LEADERBOARD_LIMIT` rows kept. */
  ghost function Leaderboard(tb: Tables): (r: seq<UserRow>)
    ensures |r| == if |tb.users| < LEADERBOARD_LIMIT then |tb.users| else LEADERBOARD_LIMIT
    ensures Ranked(r)
    ensures DistinctIds(r)
    ensures forall row :: row in r ==> row.schoolId in tb.users && row == RowOf(tb, row.schoolId)
  {
    var all := Sort(RowsOf(tb, tb.users.Keys));
    assert |tb.users| == |tb.users.Keys|;
    if |all| <= LEADERBOARD_LIMIT then all else all[..LEADERBOARD_LIMIT]
  }

  /** The leaderboard keeps the best: a user it leaves out ranks no higher
      than anyone on it, and it leaves nobody out while there are at most
      `LEADERBOARD_LIMIT` users. */
  lemma LeaderboardKeepsTheBest(tb: Tables, schoolId: string)
    requires schoolId in tb.users
    requires forall row :: row in Leaderboard(tb) ==> row.schoolId != schoolId
    ensures |tb.users| > LEADERBOARD_LIMIT
    ensures forall row :: row in Leaderboard(tb) ==> RanksAbove(row, RowOf(tb, schoolId))
  {
    var all := Sort(RowsOf(tb, tb.users.Keys));
    var mine := RowOf(tb, schoolId);
    assert mine in all;
    var j :| 0 <= j < |all| && all[j] == mine;
    assert |tb.users| == |tb.users.Keys|;
    if |all| <= LEADERBOARD_LIMIT {
      assert false;
    } else {
      var top := all[..LEADERBOARD_LIMIT];
      assert top == Leaderboard(tb);
      if j < LEADERBOARD_LIMIT {
        assert false;
      }
      forall row | row in top ensures RanksAbove(row, mine) {
        var i :| 0 <= i < |top| && top[i] == row;
      }
    }
  }

  // ------------------------------------------------------------ history

  function Reverse(s: seq<Tx>): (r: seq<Tx>)
    ensures |r| == |s|
    ensures forall i :: 0 <= i < |s| ==> r[i] == s[|s| - 1 - i]
  {
    if s == [] then [] else Reverse(s[1..]) + [s[0]]
  }

  /** `GET /api/user/:school_id/transactions`: the user's transactions,
      newest (largest id) first, at most `HISTORY_LIMIT` of them. An unknown
      school id simply has none. */
  function History(txs: seq<Tx>, schoolId: string): (r: seq<Tx>)
    requires Ascending(txs)
    ensures |r| == if |Filter(txs, schoolId)| < HISTORY_LIMIT then |Filter(txs, schoolId)| else HISTORY_LIMIT
    ensures forall t :: t in r ==> t in txs && t.schoolId == schoolId
    ensures forall i, j :: 0 <= i < j < |r| ==> r[i].id > r[j].id
  {
    var newestFirst := Reverse(Filter(txs, schoolId));
    if |newestFirst| <= HISTORY_LIMIT then newestFirst else newestFirst[..HISTORY_LIMIT]
  }

  /** The history keeps the newest: a transaction of the user is listed, or
      the user has more than `HISTORY_LIMIT` transactions and it is older than
      every one listed. */
  lemma HistoryKeepsTheNewest(txs: seq<Tx>, schoolId: string, t: Tx)
    requires Ascending(txs)
    requires t in txs && t.schoolId == schoolId
    ensures || t in History(txs, schoolId)
            || (&& |Filter(txs, schoolId)| > HISTORY_LIMIT
                && forall x :: x in History(txs, schoolId) ==> t.id < x.id)
  {
    var mine := Filter(txs, schoolId);
    assert t in mine;
    var k :| 0 <= k < |mine| && mine[k] == t;
    var h := History(txs, schoolId);
    NewestPrefix(mine, k);
    if t !in h {
      forall x | x in h ensures t.id < x.id {
        var i :| 0 <= i < |h| && h[i] == x;
      }
    }
  }

  /** The same fact for the first entries of any ascending log reversed. */
  lemma NewestPrefix(mine: seq<Tx>, k: nat)
    requires Ascending(mine)
    requires k < |mine|
    ensures var h := Reverse(mine);
      var top := if |h| <= HISTORY_LIMIT then h else h[..HISTORY_LIMIT];
      || mine[k] in top
      || (|mine| > HISTORY_LIMIT && forall i :: 0 <= i < |top| ==> mine[k].id < top[i].id)
  {
    var n := |mine|;
    var h := Reverse(mine);
    var top := if |h| <= HISTORY_LIMIT then h else h[..HISTORY_LIMIT];
    assert forall i :: 0 <= i < |top| ==> top[i] == mine[n - 1 - i];
    if n - 1 - k < |top| {
      assert top[n - 1 - k] == mine[k];
    }
  }

  // ------------------------------------------------ queries after a write

  /** After a deposit the user's summary shows the credited points and
      bottles. */
  lemma SummaryAfterCredit(tb: Tables, schoolId: string, bottleCount: int, deviceId: string)
    ensures UserSummary(Credit(tb, schoolId, bottleCount, deviceId), schoolId)
         == Ok(UserRow(schoolId, PriorPoints(tb, schoolId) + bottleCount * POINTS_PER_BOTTLE,
                       BottlesOf(tb.txs, schoolId) + bottleCount))
  {
    CreditEffect(tb, schoolId, bottleCount, deviceId);
  }

  /** After a deposit the user's history starts with the row just logged. */
  lemma HistoryAfterCredit(tb: Tables, schoolId: string, bottleCount: int, deviceId: string)
    requires Valid(tb)
    ensures var r := Credit(tb, schoolId, bottleCount, deviceId);
      && Ascending(r.txs)
      && History(r.txs, schoolId) != []
      && History(r.txs, schoolId)[0] == Tx(tb.nextId, schoolId, bottleCount, bottleCount * POINTS_PER_BOTTLE, deviceId)
  {
    var r := Credit(tb, schoolId, bottleCount, deviceId);
    var t := r.txs[|tb.txs|];
    assert r.txs == tb.txs + [t];
    assert Ascending(r.txs);
    FilterAppend(tb.txs, t, schoolId);
    var mine := Filter(r.txs, schoolId);
    assert mine[|mine| - 1] == t;
    assert Reverse(mine)[0] == t;
  }

  /** In a valid store an unknown school id has an empty history (the
      history query answers with no rows rather than NotFound). */
  lemma HistoryOfUnknownUser(tb: Tables, schoolId: string)
    requires Valid(tb)
    requires schoolId !in tb.users
    ensures History(tb.txs, schoolId) == []
  {
    NothingFiltered(tb.txs, schoolId);
  }

  /** After an admin reset every user still has a summary, with 0 points and
      0 bottles, and an empty history; the leaderboard lists only zeros. */
  lemma QueriesAfterReset(tb: Tables)
    requires Valid(tb)
    ensures var r := Zeroed(tb);
      && (forall u :: u in tb.users ==> UserSummary(r, u) == Ok(UserRow(u, 0, 0)))
      && (forall u :: History(r.txs, u) == [])
      && (forall row :: row in Leaderboard(r) ==> row.points == 0 && row.bottlesTotal == 0)
  {
  }
}
