/** The two tables as abstract values: the users (school id to points) and the
    transaction log, with the id the next logged transaction receives. */
module Ledger {
  import opened Config

  /** One row of the transaction log. */
  datatype Tx = Tx(id: nat, schoolId: string, bottleCount: int, pointsAdded: int, deviceId: string)

  /** Both tables. `nextId` is the AUTOINCREMENT counter: larger than every id
      ever handed out, and never lowered, not even when the log is emptied. */
  datatype Tables = Tables(users: map<string, int>, txs: seq<Tx>, nextId: nat)

  /** The empty store a fresh database starts from. */
  const EMPTY: Tables := Tables(map[], [], 1)

  /** The transactions of one school id, in log order (`WHERE school_id = ?`). */
  function Filter(txs: seq<Tx>, schoolId: string): (r: seq<Tx>)
    ensures |r| <= |txs|
    ensures forall t :: t in r <==> t in txs && t.schoolId == schoolId
    ensures Ascending(txs) ==> Ascending(r)
  {
    if txs == [] then []
    else if txs[0].schoolId == schoolId then [txs[0]] + Filter(txs[1..], schoolId)
    else Filter(txs[1..], schoolId)
  }

  /** Ids strictly increase along the log. */
  predicate Ascending(txs: seq<Tx>)
  {
    forall i, j :: 0 <= i < j < |txs| ==> txs[i].id < txs[j].id
  }

  /** `IFNULL(SUM(t.bottle_count), 0)` over one user's rows of the log. */
  function BottlesOf(txs: seq<Tx>, schoolId: string): (bottles: int)
  {
    if txs == [] then 0
    else (if txs[0].schoolId == schoolId then txs[0].bottleCount else 0) + BottlesOf(txs[1..], schoolId)
  }

  /** The points logged for one user. */
  function PointsOf(txs: seq<Tx>, schoolId: string): (points: int)
  {
    if txs == [] then 0
    else (if txs[0].schoolId == schoolId then txs[0].pointsAdded else 0) + PointsOf(txs[1..], schoolId)
  }

  function SumBottles(txs: seq<Tx>): (bottles: int)
  {
    if txs == [] then 0 else txs[0].bottleCount + SumBottles(txs[1..])
  }

  /** A log row as a successful deposit writes it. */
  predicate WellFormed(t: Tx)
  {
    t.bottleCount > 0 && t.pointsAdded == t.bottleCount * POINTS_PER_BOTTLE
  }

  /** The invariant the deposit and reset handlers keep: ids are increasing and
      below the counter, every row is well formed and belongs to an existing
      user, and every user's points equal the points logged for that user. */
  predicate Valid(tb: Tables)
  {
    && Ascending(tb.txs)
    && (forall i :: 0 <= i < |tb.txs| ==> tb.txs[i].id < tb.nextId)
    && (forall i :: 0 <= i < |tb.txs| ==> WellFormed(tb.txs[i]) && tb.txs[i].schoolId in tb.users)
    && (forall u :: u in tb.users ==> tb.users[u] == PointsOf(tb.txs, u))
  }

  /** The points a user holds before a deposit: 0 for an id not yet in the
      table (what `INSERT OR IGNORE ... VALUES (?, 0)` creates). */
  function PriorPoints(tb: Tables, schoolId: string): int
  {
    if schoolId in tb.users then tb.users[schoolId] else 0
  }

  /** The state after one accepted deposit: the user exists, is credited
      `bottleCount * POINTS_PER_BOTTLE`, and one row is logged with the next id. */
  function Credit(tb: Tables, schoolId: string, bottleCount: int, deviceId: string): (r: Tables)
  {
    var pointsAdded := bottleCount * POINTS_PER_BOTTLE;
    Tables(tb.users[schoolId := PriorPoints(tb, schoolId) + pointsAdded],
           tb.txs + [Tx(tb.nextId, schoolId, bottleCount, pointsAdded, deviceId)],
           tb.nextId + 1)
  }

  /** The state after an admin reset: no transactions, every user kept with 0
      points, the id counter untouched. */
  function Zeroed(tb: Tables): (r: Tables)
  {
    Tables(map u | u in tb.users :: 0, [], tb.nextId)
  }

  // ---------------------------------------------------------------- lemmas

  /** The aggregate is the plain sum over the user's own rows, as the
      history lists them. */
  lemma {:induction false} BottlesOfFiltered(txs: seq<Tx>, schoolId: string)
    ensures BottlesOf(txs, schoolId) == SumBottles(Filter(txs, schoolId))
  {
    if txs != [] {
      BottlesOfFiltered(txs[1..], schoolId);
    }
  }

  lemma {:induction false} BottlesOfAppend(txs: seq<Tx>, t: Tx, schoolId: string)
    ensures BottlesOf(txs + [t], schoolId)
            == BottlesOf(txs, schoolId) + (if t.schoolId == schoolId then t.bottleCount else 0)
  {
    if txs == [] {
      assert txs + [t] == [t];
    } else {
      assert (txs + [t])[1..] == txs[1..] + [t];
      BottlesOfAppend(txs[1..], t, schoolId);
    }
  }

  lemma {:induction false} PointsOfAppend(txs: seq<Tx>, t: Tx, schoolId: string)
    ensures PointsOf(txs + [t], schoolId)
            == PointsOf(txs, schoolId) + (if t.schoolId == schoolId then t.pointsAdded else 0)
  {
    if txs == [] {
      assert txs + [t] == [t];
    } else {
      assert (txs + [t])[1..] == txs[1..] + [t];
      PointsOfAppend(txs[1..], t, schoolId);
    }
  }

  /** Over well-formed rows, the points logged for a user are the bottles
      logged for it times the rate, and both are non-negative. */
  lemma {:induction false} PointsAreBottlesTimesRate(txs: seq<Tx>, schoolId: string)
    requires forall i :: 0 <= i < |txs| ==> WellFormed(txs[i])
    ensures PointsOf(txs, schoolId) == POINTS_PER_BOTTLE * BottlesOf(txs, schoolId)
    ensures BottlesOf(txs, schoolId) >= 0
  {
    if txs != [] {
      assert WellFormed(txs[0]);
      PointsAreBottlesTimesRate(txs[1..], schoolId);
    }
  }

  /** A user with no rows in the log has nothing logged. */
  lemma {:induction false} NothingLogged(txs: seq<Tx>, schoolId: string)
    requires forall i :: 0 <= i < |txs| ==> txs[i].schoolId != schoolId
    ensures BottlesOf(txs, schoolId) == 0 && PointsOf(txs, schoolId) == 0
  {
    if txs != [] {
      NothingLogged(txs[1..], schoolId);
    }
  }

  /** A user with no rows in the log has no rows to list either. */
  lemma {:induction false} NothingFiltered(txs: seq<Tx>, schoolId: string)
    requires forall i :: 0 <= i < |txs| ==> txs[i].schoolId != schoolId
    ensures Filter(txs, schoolId) == []
  {
    if txs != [] {
      NothingFiltered(txs[1..], schoolId);
    }
  }

  lemma {:induction false} FilterAppend(txs: seq<Tx>, t: Tx, schoolId: string)
    ensures Filter(txs + [t], schoolId)
            == Filter(txs, schoolId) + (if t.schoolId == schoolId then [t] else [])
  {
    if txs == [] {
      assert txs + [t] == [t];
    } else {
      assert (txs + [t])[1..] == txs[1..] + [t];
      FilterAppend(txs[1..], t, schoolId);
    }
  }

  /** Reconciliation: in a valid store every user's points are exactly
      `POINTS_PER_BOTTLE` times the bottles logged for that user. */
  lemma Reconciled(tb: Tables, schoolId: string)
    requires Valid(tb)
    requires schoolId in tb.users
    ensures tb.users[schoolId] == POINTS_PER_BOTTLE * BottlesOf(tb.txs, schoolId)
    ensures tb.users[schoolId] >= 0
  {
    PointsAreBottlesTimesRate(tb.txs, schoolId);
  }

  /** No orphans: a school id with no user row has nothing logged. */
  lemma NoOrphans(tb: Tables, schoolId: string)
    requires Valid(tb)
    requires schoolId !in tb.users
    ensures BottlesOf(tb.txs, schoolId) == 0 && PointsOf(tb.txs, schoolId) == 0
  {
    NothingLogged(tb.txs, schoolId);
  }

  /** A deposit of a positive count keeps the store valid. */
  lemma CreditKeepsValid(tb: Tables, schoolId: string, bottleCount: int, deviceId: string)
    requires Valid(tb)
    requires bottleCount > 0
    ensures Valid(Credit(tb, schoolId, bottleCount, deviceId))
  {
    var r := Credit(tb, schoolId, bottleCount, deviceId);
    var t := r.txs[|tb.txs|];
    assert r.txs == tb.txs + [t];
    assert Ascending(r.txs);
    assert forall i :: 0 <= i < |r.txs| ==> WellFormed(r.txs[i]) && r.txs[i].schoolId in r.users;
    forall u | u in r.users ensures r.users[u] == PointsOf(r.txs, u) {
      PointsOfAppend(tb.txs, t, u);
      if u !in tb.users { NoOrphans(tb, u); }
    }
  }

  /** What a deposit does to the user summaries: the depositing user gains
      `bottleCount * POINTS_PER_BOTTLE` points and `bottleCount` bottles on top
      of what it held (nothing, if it is new); every other user keeps its row
      and its bottles. */
  lemma CreditEffect(tb: Tables, schoolId: string, bottleCount: int, deviceId: string)
    ensures var r := Credit(tb, schoolId, bottleCount, deviceId);
      && r.users.Keys == tb.users.Keys + {schoolId}
      && r.users[schoolId] == PriorPoints(tb, schoolId) + bottleCount * POINTS_PER_BOTTLE
      && BottlesOf(r.txs, schoolId) == BottlesOf(tb.txs, schoolId) + bottleCount
      && (forall u :: u in tb.users && u != schoolId ==>
            r.users[u] == tb.users[u] && BottlesOf(r.txs, u) == BottlesOf(tb.txs, u))
  {
    var r := Credit(tb, schoolId, bottleCount, deviceId);
    var t := r.txs[|tb.txs|];
    assert r.txs == tb.txs + [t];
    BottlesOfAppend(tb.txs, t, schoolId);
    forall u | u in tb.users && u != schoolId
      ensures BottlesOf(r.txs, u) == BottlesOf(tb.txs, u)
    {
      BottlesOfAppend(tb.txs, t, u);
    }
  }

  /** A deposit logs exactly one new row, after every earlier row, whose id
      exceeds every earlier id; earlier rows are untouched. */
  lemma CreditAppendsFreshRow(tb: Tables, schoolId: string, bottleCount: int, deviceId: string)
    requires Valid(tb)
    ensures var r := Credit(tb, schoolId, bottleCount, deviceId);
      && |r.txs| == |tb.txs| + 1
      && r.txs[..|tb.txs|] == tb.txs
      && r.txs[|tb.txs|] == Tx(tb.nextId, schoolId, bottleCount, bottleCount * POINTS_PER_BOTTLE, deviceId)
      && (forall i :: 0 <= i < |tb.txs| ==> tb.txs[i].id < r.txs[|tb.txs|].id)
      && r.nextId > r.txs[|tb.txs|].id
  {
  }

  /** Credits for one school id, one per bottle count, in order. */
  function CreditAll(tb: Tables, schoolId: string, counts: seq<int>, deviceId: string): (r: Tables)
    decreases |counts|
  {
    if counts == [] then tb
    else CreditAll(Credit(tb, schoolId, counts[0], deviceId), schoolId, counts[1..], deviceId)
  }

  function Sum(counts: seq<int>): (total: int)
  {
    if counts == [] then 0 else counts[0] + Sum(counts[1..])
  }

  /** No lost update: after deposits of `counts` for one school id, applied one
      after another, its points have grown by `Sum(counts) * POINTS_PER_BOTTLE`,
      the log by one row per deposit, and the store is still valid. */
  lemma {:induction false} CreditAllAccumulates(tb: Tables, schoolId: string, counts: seq<int>, deviceId: string)
    requires Valid(tb)
    requires forall c :: c in counts ==> c > 0
    ensures var r := CreditAll(tb, schoolId, counts, deviceId);
      && Valid(r)
      && |r.txs| == |tb.txs| + |counts|
      && (counts != [] ==>
            schoolId in r.users &&
            r.users[schoolId] == PriorPoints(tb, schoolId) + Sum(counts) * POINTS_PER_BOTTLE)
    decreases |counts|
  {
    if counts != [] {
      var next := Credit(tb, schoolId, counts[0], deviceId);
      assert counts[0] in counts;
      CreditKeepsValid(tb, schoolId, counts[0], deviceId);
      assert forall c :: c in counts[1..] ==> c in counts;
      CreditAllAccumulates(next, schoolId, counts[1..], deviceId);
    }
  }

  /** An admin reset keeps the store valid and leaves every user, and only
      those, with 0 points and 0 bottles; the id counter is unchanged, so ids
      issued afterwards still exceed every id issued before. */
  lemma ZeroedEffect(tb: Tables)
    requires Valid(tb)
    ensures var r := Zeroed(tb);
      && Valid(r)
      && r.txs == []
      && r.users.Keys == tb.users.Keys
      && (forall u :: u in r.users ==> r.users[u] == 0 && BottlesOf(r.txs, u) == 0)
      && r.nextId == tb.nextId
  {
  }
}
