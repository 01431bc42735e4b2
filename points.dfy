/**
 * The points system: the per-user ledger of point transactions that
 * `award_points` and `spend_points` write, and the validity rule of
 * referral codes.
 */
module Points {
  import opened Wrappers
  import Users

  // ---------------------------------------------------------------------------
  // Point transactions
  // ---------------------------------------------------------------------------

  datatype TransactionType =
    | EarnedListing | EarnedSwap | EarnedReferral | EarnedBadge | EarnedBonus
    | SpentRedemption | SpentPremium | AdminAdjustment | Expired

  /** The optional keyword arguments a caller may pass along to the record it creates. */
  datatype Related = Related(
    itemId: Option<nat>,
    swapId: Option<nat>,
    badgeId: Option<nat>,
    createdBy: Option<nat>,
    adminNotes: string)

  /** What a caller of `award_points` or `spend_points` passes besides the user and the amount. */
  datatype Request = Request(transactionType: TransactionType, description: string, related: Related)

  /**
   * One immutable ledger record: the signed amount (negative for spending)
   * and the balance just before and just after it.
   */
  datatype PointTransaction = PointTransaction(
    transactionType: TransactionType,
    points: int,
    description: string,
    related: Related,
    balanceBefore: nat,
    balanceAfter: nat)

  datatype PointsError =
    | InsufficientPoints   // the ValueError("Insufficient points") of spend_points
    | NegativeBalance      // the database refuses a negative value for the non-negative balance column

  /** A record whose closing balance is its opening balance plus its amount. */
  predicate Balanced(t: PointTransaction) {
    t.balanceAfter == t.balanceBefore + t.points
  }

  /**
   * The record `award_points` writes when the user holds `balance` points:
   * the requested amount as given, the old balance and the new one. The code
   * has no guard of its own; a total below zero is refused by the storage.
   */
  function AwardRecord(balance: nat, points: int, request: Request): (r: Result<PointTransaction, PointsError>)
    ensures r.Success? <==> balance + points >= 0
    ensures r.Failure? ==> r.error == NegativeBalance
    ensures r.Success? ==>
      && Balanced(r.value)
      && r.value.points == points
      && r.value.balanceBefore == balance
      && r.value.transactionType == request.transactionType
      && r.value.description == request.description
      && r.value.related == request.related
  {
    if balance + points < 0 then Failure(NegativeBalance)
    else
      var after := balance + points;
      Success(PointTransaction(request.transactionType, points, request.description, request.related, balance, after))
  }

  /**
   * The record `spend_points` writes: it refuses when the balance is below
   * the amount, and otherwise records the negated amount.
   */
  function SpendRecord(balance: nat, points: int, request: Request): (r: Result<PointTransaction, PointsError>)
    ensures r.Failure? <==> balance < points
    ensures r.Failure? ==> r.error == InsufficientPoints
    ensures r.Success? ==>
      && Balanced(r.value)
      && r.value.points == -points
      && r.value.balanceBefore == balance
      && r.value.balanceAfter == balance - points
      && r.value.transactionType == request.transactionType
      && r.value.description == request.description
      && r.value.related == request.related
  {
    if balance < points then Failure(InsufficientPoints)
    else
      var after := balance - points;
      Success(PointTransaction(request.transactionType, -points, request.description, request.related, balance, after))
  }

  /** Past its guard, spending an amount writes the very record that awarding its negation writes. */
  lemma SpendIsNegatedAward(balance: nat, points: int, request: Request)
    requires balance >= points
    ensures SpendRecord(balance, points, request) == AwardRecord(balance, -points, request)
  {
  }

  /** Awarding back what a successful spend took restores the balance the spend started from. */
  lemma AwardUndoesSpend(balance: nat, points: int, spend: Request, refund: Request)
    requires SpendRecord(balance, points, spend).Success?
    ensures AwardRecord(SpendRecord(balance, points, spend).value.balanceAfter, points, refund).Success?
    ensures AwardRecord(SpendRecord(balance, points, spend).value.balanceAfter, points, refund).value.balanceAfter == balance
  {
  }

  /**
   * The ledger invariant: starting from `opening`, each record opens at the
   * balance the previous one closed at and is balanced, and the last one
   * closes at the live `balance` (which is `opening` when there is none).
   */
  predicate Chained(opening: nat, records: seq<PointTransaction>, balance: nat)
    decreases |records|
  {
    if records == [] then balance == opening
    else
      && records[0].balanceBefore == opening
      && Balanced(records[0])
      && Chained(records[0].balanceAfter, records[1..], balance)
  }

  /** The sum of the signed amounts of the records. */
  function Sum(records: seq<PointTransaction>): int {
    if records == [] then 0 else records[0].points + Sum(records[1..])
  }

  /** Appending a balanced record that opens at the live balance keeps the chain, now closing where it does. */
  lemma {:induction false} ChainedAppend(opening: nat, records: seq<PointTransaction>, balance: nat, t: PointTransaction)
    requires Chained(opening, records, balance)
    requires t.balanceBefore == balance && Balanced(t)
    ensures Chained(opening, records + [t], t.balanceAfter)
    decreases |records|
  {
    if records != [] {
      assert (records + [t])[1..] == records[1..] + [t];
      ChainedAppend(records[0].balanceAfter, records[1..], balance, t);
    }
  }

  /**
   * A chained ledger reconciles: every record is balanced, the first opens
   * at the opening balance, the last closes at the live balance, and the live
   * balance is the opening balance plus the sum of all recorded amounts.
   */
  lemma {:induction false} ChainedReconciles(opening: nat, records: seq<PointTransaction>, balance: nat)
    requires Chained(opening, records, balance)
    ensures balance == opening + Sum(records)
    ensures forall i :: 0 <= i < |records| ==> Balanced(records[i])
    ensures records != [] ==> records[0].balanceBefore == opening && records[|records| - 1].balanceAfter == balance
    decreases |records|
  {
    if records != [] {
      ChainedReconciles(records[0].balanceAfter, records[1..], balance);
      assert forall i :: 1 <= i < |records| ==> records[i] == records[1..][i - 1];
    }
  }

  /** A chained ledger determines its live balance: the opening balance plus the recorded amounts. */
  lemma ChainedDeterminesBalance(opening: nat, records: seq<PointTransaction>, b1: nat, b2: nat)
    requires Chained(opening, records, b1) && Chained(opening, records, b2)
    ensures b1 == b2
  {
    ChainedReconciles(opening, records, b1);
    ChainedReconciles(opening, records, b2);
  }

  /**
   * `award_points` as the code runs it: the new balance is saved first and
   * the record is inserted afterwards, with no transaction around the two.
   * `inserted` says whether that insert succeeded; when it raises, the saved
   * balance stays and no record exists. Yields the balance and the records
   * left behind.
   */
  function AwardAsWritten(balance: nat, records: seq<PointTransaction>, points: int, request: Request, inserted: bool)
    : (r: Result<(nat, seq<PointTransaction>), PointsError>)
    ensures r.Failure? <==> balance + points < 0
    ensures r.Success? ==> r.value.0 == balance + points
    ensures r.Success? ==> r.value.1 == if inserted then records + [AwardRecord(balance, points, request).value] else records
  {
    var record := AwardRecord(balance, points, request);
    if record.Failure? then Failure(record.error)
    else Success((balance + points, if inserted then records + [record.value] else records))
  }

  /** `spend_points` as the code runs it: the same save-then-insert order, after the balance check. */
  function SpendAsWritten(balance: nat, records: seq<PointTransaction>, points: int, request: Request, inserted: bool)
    : (r: Result<(nat, seq<PointTransaction>), PointsError>)
    ensures r.Failure? <==> balance < points
    ensures r.Success? ==> r.value.0 == balance - points
    ensures r.Success? ==> r.value.1 == if inserted then records + [SpendRecord(balance, points, request).value] else records
  {
    var record := SpendRecord(balance, points, request);
    if record.Failure? then Failure(record.error)
    else Success((record.value.balanceAfter, if inserted then records + [record.value] else records))
  }

  /** When the insert succeeds, the code as written keeps the ledger chained. */
  lemma InsertedWriteKeepsChain(opening: nat, records: seq<PointTransaction>, balance: nat, points: int, request: Request)
    requires Chained(opening, records, balance)
    ensures var r := AwardAsWritten(balance, records, points, request, true);
      r.Success? ==> Chained(opening, r.value.1, r.value.0)
    ensures var r := SpendAsWritten(balance, records, points, request, true);
      r.Success? ==> Chained(opening, r.value.1, r.value.0)
  {
    var award := AwardRecord(balance, points, request);
    if award.Success? {
      ChainedAppend(opening, records, balance, award.value);
    }
    var spend := SpendRecord(balance, points, request);
    if spend.Success? {
      ChainedAppend(opening, records, balance, spend.value);
    }
  }

  /**
   * When the insert raises after the balance was saved, the ledger no longer
   * accounts for the balance: any non-zero award or spend that passed its
   * guard leaves the records unchained.
   */
  lemma FailedInsertBreaksChain(opening: nat, records: seq<PointTransaction>, balance: nat, points: int, request: Request)
    requires Chained(opening, records, balance) && points != 0
    ensures var r := AwardAsWritten(balance, records, points, request, false);
      r.Success? ==> !Chained(opening, r.value.1, r.value.0)
    ensures var r := SpendAsWritten(balance, records, points, request, false);
      r.Success? ==> !Chained(opening, r.value.1, r.value.0)
  {
    var award := AwardAsWritten(balance, records, points, request, false);
    if award.Success? && Chained(opening, records, award.value.0) {
      ChainedDeterminesBalance(opening, records, balance, award.value.0);
    }
    var spend := SpendAsWritten(balance, records, points, request, false);
    if spend.Success? && Chained(opening, records, spend.value.0) {
      ChainedDeterminesBalance(opening, records, balance, spend.value.0);
    }
  }

  /**
   * The point transactions of one user (the reverse relation
   * `user.point_transactions`), together with the user whose `points`
   * column they account for. `openingBalance` is the balance the user had
   * when the ledger was opened: 0 for a new user.
   */
  class PointLedger {
    const user: Users.User
    ghost const openingBalance: nat
    var transactions: seq<PointTransaction>

    ghost predicate Valid()
      reads this, user
    {
      Chained(openingBalance, transactions, user.points)
    }

    constructor (user: Users.User)
      ensures this.user == user && openingBalance == user.points
      ensures transactions == [] && Valid()
    {
      this.user := user;
      openingBalance := user.points;
      transactions := [];
    }

    /** `award_points`: raises the balance by `points` and appends the one record that says so. */
    method AwardPoints(points: int, request: Request) returns (r: Result<PointTransaction, PointsError>)
      requires Valid()
      modifies this`transactions, user`points
      ensures Valid()
      ensures r == AwardRecord(old(user.points), points, request)
      ensures r.Success? ==> user.points == old(user.points) + points && transactions == old(transactions) + [r.value]
      ensures r.Failure? ==> user.points == old(user.points) && transactions == old(transactions)
    {
      var balanceBefore := user.points;
      if balanceBefore + points < 0 {
        // the non-negative balance column refuses the update; nothing is written
        return Failure(NegativeBalance);
      }
      user.points := balanceBefore + points;
      var t := PointTransaction(request.transactionType, points, request.description, request.related,
                                balanceBefore, user.points);
      ChainedAppend(openingBalance, transactions, balanceBefore, t);
      transactions := transactions + [t];
      r := Success(t);
    }

    /**
     * `spend_points`: refuses with InsufficientPoints, changing nothing, when
     * the balance is below `points`; otherwise lowers the balance by exactly
     * `points` and appends the one record, with the amount negated.
     */
    method SpendPoints(points: int, request: Request) returns (r: Result<PointTransaction, PointsError>)
      requires Valid()
      modifies this`transactions, user`points
      ensures Valid()
      ensures r == SpendRecord(old(user.points), points, request)
      ensures r.Success? ==> user.points == old(user.points) - points && transactions == old(transactions) + [r.value]
      ensures r.Failure? ==> user.points == old(user.points) && transactions == old(transactions)
    {
      if user.points < points {
        return Failure(InsufficientPoints);
      }
      var balanceBefore := user.points;
      user.points := user.points - points;
      var t := PointTransaction(request.transactionType, -points, request.description, request.related,
                                balanceBefore, user.points);
      ChainedAppend(openingBalance, transactions, balanceBefore, t);
      transactions := transactions + [t];
      r := Success(t);
    }
  }

  /**
   * A new user earns 100 points for a listing, spends 60 of them, and is
   * then refused a spend of 50; every step is checked against the contracts
   * above alone.
   */
  method ListingThenRedemptions() {
    var u := new Users.User("Ada", "Lovelace");
    var ledger := new PointLedger(u);
    var noRefs := Related(None, None, None, None, "");
    var earned := ledger.AwardPoints(100, Request(EarnedListing, "list shirt", noRefs));
    assert earned.Success? && earned.value.balanceBefore == 0 && earned.value.balanceAfter == 100;
    var spent := ledger.SpendPoints(60, Request(SpentRedemption, "redeem X", noRefs));
    assert spent.Success? && spent.value.points == -60;
    assert spent.value.balanceBefore == 100 && spent.value.balanceAfter == 40;
    var refused := ledger.SpendPoints(50, Request(SpentRedemption, "redeem Y", noRefs));
    assert refused == Failure(InsufficientPoints);
    assert u.points == 40 && |ledger.transactions| == 2;
    ChainedReconciles(0, ledger.transactions, u.points);
    assert u.points == Sum(ledger.transactions);
  }

  // ---------------------------------------------------------------------------
  // Referral codes
  // ---------------------------------------------------------------------------

  /** A point in time, as a count of some fixed unit since a fixed epoch. */
  type Timestamp = int

  datatype ReferralCode = ReferralCode(
    code: string,
    ownerId: nat,
    usesCount: nat,
    maxUses: nat,
    pointsForReferrer: nat,
    pointsForReferee: nat,
    isActive: bool,
    expiresAt: Option<Timestamp>)

  /** A code as created with the column defaults: unused, 10 uses, 50 and 25 points, active. */
  function NewReferralCode(code: string, ownerId: nat, expiresAt: Option<Timestamp>): ReferralCode {
    ReferralCode(code, ownerId, 0, 10, 50, 25, true, expiresAt)
  }

  /**
   * `is_valid`, with the current time passed in: the code is active, has uses
   * left, and has not expired; expiring exactly now still counts as valid.
   */
  function IsValid(c: ReferralCode, now: Timestamp): (valid: bool)
    ensures valid <==> c.isActive && c.usesCount < c.maxUses && (c.expiresAt.None? || now <= c.expiresAt.value)
  {
    if !c.isActive then false
    else if c.usesCount >= c.maxUses then false
    else if c.expiresAt.Some? && c.expiresAt.value < now then false
    else true
  }

  /** A code whose uses are exhausted is invalid whatever its other fields and the time. */
  lemma ExhaustedCodeIsInvalid(c: ReferralCode, now: Timestamp)
    requires c.usesCount >= c.maxUses
    ensures !IsValid(c, now)
  {
  }

  /** A code valid now was valid at every earlier time. */
  lemma ValidEarlier(c: ReferralCode, now: Timestamp, earlier: Timestamp)
    requires IsValid(c, now) && earlier <= now
    ensures IsValid(c, earlier)
  {
  }

  /** A freshly created code is valid until its expiry, and always when it has none. */
  lemma NewCodeIsValid(code: string, ownerId: nat, expiresAt: Option<Timestamp>, now: Timestamp)
    requires expiresAt.None? || now <= expiresAt.value
    ensures IsValid(NewReferralCode(code, ownerId, expiresAt), now)
  {
  }
}
