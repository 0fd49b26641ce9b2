/** The two writing handlers, deposit and admin reset, over a database object
    that holds both tables and changes them in place. */
module Server {
  import opened Json
  import opened Config
  import opened Devices
  import opened Ledger
  import Queries

  /** The fields of a `POST /api/deposit` body; a missing body has every
      field `Absent`. */
  datatype DepositRequest = DepositRequest(schoolId: Value, bottleCount: Value, deviceId: Value, apiKey: Value)

  /** A deposit that passed every check. */
  datatype Deposit = Deposit(schoolId: string, bottleCount: int, deviceId: string)

  /** The success body: `{school_id, points_added, total_points}`. */
  datatype DepositReply = DepositReply(schoolId: string, pointsAdded: int, totalPoints: int)

  /** `!school_id || typeof school_id !== "string"` rejects. */
  predicate SchoolIdAccepted(v: Value)
  {
    Truthy(v) && v.Str?
  }

  /** `!Number.isInteger(bottle_count) || bottle_count <= 0` rejects. */
  predicate BottleCountAccepted(v: Value)
  {
    v.Int? && v.n > 0
  }

  /** The checks of the deposit handler, in the handler's order: the school id,
      then the bottle count, then the device credentials. Nothing here reads or
      writes the tables. */
  function ValidateDeposit(req: DepositRequest): (r: Result<Deposit>)
    ensures !SchoolIdAccepted(req.schoolId) ==> r == Err(InvalidRequest(MISSING_SCHOOL_ID))
    ensures SchoolIdAccepted(req.schoolId) && !BottleCountAccepted(req.bottleCount) ==>
      r == Err(InvalidRequest(BAD_BOTTLE_COUNT))
    ensures SchoolIdAccepted(req.schoolId) && BottleCountAccepted(req.bottleCount) ==>
      (r.Err? <==> !Registered(req.deviceId, req.apiKey)) && (r.Err? ==> r.error == Unauthorized)
    ensures r.Ok? ==>
      && req.schoolId == Str(r.value.schoolId) && r.value.schoolId != ""
      && req.bottleCount == Int(r.value.bottleCount) && r.value.bottleCount > 0
      && req.deviceId == Str(r.value.deviceId) && r.value.deviceId in DEVICES
      && req.apiKey == Str(DEVICES[r.value.deviceId])
  {
    if !SchoolIdAccepted(req.schoolId) then
      Err(InvalidRequest(MISSING_SCHOOL_ID))
    else if !BottleCountAccepted(req.bottleCount) then
      Err(InvalidRequest(BAD_BOTTLE_COUNT))
    else if !Truthy(req.deviceId) || !Truthy(req.apiKey) || !AuthDevice(req.deviceId, req.apiKey) then
      GuardedAuthIsRegistry(req.deviceId, req.apiKey);
      Err(Unauthorized)
    else
      GuardedAuthIsRegistry(req.deviceId, req.apiKey);
      Ok(Deposit(req.schoolId.s, req.bottleCount.n, req.deviceId.s))
  }

  /** The database: the `users` table (school id to points), the
      `transactions` table in id order, and the AUTOINCREMENT counter. */
  class Database {
    var users: map<string, int>
    var txs: seq<Tx>
    var nextId: nat

    function State(): Tables
      reads this
    {
      Tables(users, txs, nextId)
    }

    ghost predicate Valid()
      reads this
    {
      Ledger.Valid(State())
    }

    /** A fresh database: both tables empty, the first id to hand out is 1. */
    constructor ()
      ensures Valid() && State() == EMPTY
    {
      users, txs, nextId := map[], [], 1;
    }

    /** `POST /api/deposit`. A rejected request changes nothing; an accepted
        one creates the user if absent, adds `bottle_count * POINTS_PER_BOTTLE`
        to its points, logs one transaction and answers with the new total. */
    method Deposit(req: DepositRequest) returns (r: Result<DepositReply>)
      requires Valid()
      modifies this
      ensures Valid()
      ensures ValidateDeposit(req).Err? ==>
        r == Err(ValidateDeposit(req).error) && State() == old(State())
      ensures ValidateDeposit(req).Ok? ==>
        var d := ValidateDeposit(req).value;
        && State() == Credit(old(State()), d.schoolId, d.bottleCount, d.deviceId)
        && r == Ok(DepositReply(d.schoolId, d.bottleCount * POINTS_PER_BOTTLE, users[d.schoolId]))
        && r.value.totalPoints == PriorPoints(old(State()), d.schoolId) + r.value.pointsAdded
    {
      var checked := ValidateDeposit(req);
      if checked.Err? {
        return Err(checked.error);
      }
      var d := checked.value;
      ghost var before := State();
      ghost var prior := PriorPoints(before, d.schoolId);
      var pointsAdded := d.bottleCount * POINTS_PER_BOTTLE;
      // create the user if it does not exist (INSERT OR IGNORE)
      if d.schoolId !in users {
        users := users[d.schoolId := 0];
      }
      assert users[d.schoolId] == prior;
      // add the points
      users := users[d.schoolId := users[d.schoolId] + pointsAdded];
      // log the transaction under the next id
      txs := txs + [Tx(nextId, d.schoolId, d.bottleCount, pointsAdded, d.deviceId)];
      nextId := nextId + 1;
      // read back the total
      r := Ok(DepositReply(d.schoolId, pointsAdded, users[d.schoolId]));
      assert users == before.users[d.schoolId := prior + pointsAdded];
      assert txs == before.txs + [Tx(before.nextId, d.schoolId, d.bottleCount, pointsAdded, d.deviceId)];
      assert State() == Credit(before, d.schoolId, d.bottleCount, d.deviceId);
      CreditKeepsValid(before, d.schoolId, d.bottleCount, d.deviceId);
    }

    /** `POST /api/admin/reset`. A key other than `ADMIN_KEY` changes
        nothing; the right key deletes every transaction and zeroes every
        user's points, keeping the users and the id counter. */
    method AdminReset(key: Value) returns (r: Result<()>)
      requires Valid()
      modifies this
      ensures Valid()
      ensures key != Str(ADMIN_KEY) ==> r == Err(Unauthorized) && State() == old(State())
      ensures key == Str(ADMIN_KEY) ==> r == Ok(()) && State() == Zeroed(old(State()))
    {
      if key != Str(ADMIN_KEY) {
        return Err(Unauthorized);
      }
      ZeroedEffect(State());
      txs := [];
      users := map u | u in users :: 0;
      r := Ok(());
    }
  }

  /** Five bottles from BIN-01 earn 50 points; the same deposit again brings
      the total to 100. */
  method RepeatedDepositScenario() returns (first: Result<DepositReply>, second: Result<DepositReply>)
    ensures first == Ok(DepositReply("S1", 50, 50))
    ensures second == Ok(DepositReply("S1", 50, 100))
  {
    var db := new Database();
    var deposit := DepositRequest(Str("S1"), Int(5), Str("BIN-01"), Str("BIN01SECRET"));
    assert ValidateDeposit(deposit) == Ok(Deposit("S1", 5, "BIN-01"));
    first := db.Deposit(deposit);
    second := db.Deposit(deposit);
  }

  /** Zero bottles and a wrong key are refused and change nothing; an unknown
      user is not found. */
  method RefusalScenario() returns (zeroBottles: Result<DepositReply>, wrongKey: Result<DepositReply>,
                                    unknown: Result<Queries.UserRow>)
    ensures zeroBottles == Err(InvalidRequest(BAD_BOTTLE_COUNT))
    ensures wrongKey == Err(Unauthorized)
    ensures unknown == Err(NotFound)
  {
    var db := new Database();
    zeroBottles := db.Deposit(DepositRequest(Str("S1"), Int(0), Str("BIN-01"), Str("BIN01SECRET")));
    wrongKey := db.Deposit(DepositRequest(Str("S1"), Int(5), Str("BIN-01"), Str("WRONG")));
    unknown := Queries.UserSummary(db.State(), "UNKNOWN");
  }

  /** A wrong admin key leaves the balance alone; the right one zeroes it and
      the bottles with it, keeping the user. */
  method ResetScenario() returns (afterWrongKey: Result<Queries.UserRow>, afterReset: Result<Queries.UserRow>)
    ensures afterWrongKey == Ok(Queries.UserRow("S1", 50, 5))
    ensures afterReset == Ok(Queries.UserRow("S1", 0, 0))
  {
    var db := new Database();
    var deposit := DepositRequest(Str("S1"), Int(5), Str("BIN-01"), Str("BIN01SECRET"));
    assert ValidateDeposit(deposit) == Ok(Deposit("S1", 5, "BIN-01"));
    var credited := db.Deposit(deposit);
    var refused := db.AdminReset(Str("WRONG"));
    afterWrongKey := Queries.UserSummary(db.State(), "S1");
    Queries.SummaryReconciled(db.State(), "S1");
    ZeroedEffect(db.State());
    var done := db.AdminReset(Str(ADMIN_KEY));
    afterReset := Queries.UserSummary(db.State(), "S1");
  }
}
