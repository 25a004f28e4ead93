/**
 * The settlement routine of services/paymentService.js: issue and record a six-digit
 * token valid for a day, record the assigning agent's commission, then spread the
 * payment over the customer's loans. The writes are issued one after another with no
 * transaction around them; the journal records them in that order.
 */
module PaymentService {
  import opened Common
  import opened Store
  import opened Allocation

  // ---------------------------------------------------------------------------
  // Token
  // ---------------------------------------------------------------------------

  /** A day in milliseconds: how long an issued token stays valid. */
  const DayMs: int := 24 * 60 * 60 * 1000

  function Digit(d: int): (c: char)
    requires 0 <= d < 10
    ensures '0' <= c <= '9' && c as int - '0' as int == d
  {
    (d + '0' as int) as char
  }

  predicate AllDigits(s: string) {
    forall i :: 0 <= i < |s| ==> '0' <= s[i] <= '9'
  }

  /** `Number.prototype.toString` on a non-negative integer: its decimal digits, no leading zero. */
  function DecimalString(n: nat): (s: string)
    ensures |s| >= 1 && AllDigits(s)
    ensures n > 0 ==> s[0] != '0'
  {
    if n < 10 then [Digit(n)] else DecimalString(n / 10) + [Digit(n % 10)]
  }

  /** The number a string of decimal digits denotes. */
  function DecimalValue(s: string): int
    requires AllDigits(s)
  {
    if s == [] then 0 else DecimalValue(s[..|s| - 1]) * 10 + (s[|s| - 1] as int - '0' as int)
  }

  /** Reading back the digits of `n` gives `n`. */
  lemma {:induction false} DecimalRoundTrip(n: nat)
    ensures DecimalValue(DecimalString(n)) == n
  {
    if n >= 10 {
      DecimalRoundTrip(n / 10);
      var s := DecimalString(n);
      assert s[..|s| - 1] == DecimalString(n / 10);
    }
  }

  function Pow10(k: nat): (p: nat)
    ensures p >= 1
  {
    if k == 0 then 1 else 10 * Pow10(k - 1)
  }

  /** A number with k + 1 digits is written with k + 1 characters. */
  lemma {:induction false} DecimalLength(n: nat, k: nat)
    requires Pow10(k) <= n < Pow10(k + 1)
    ensures |DecimalString(n)| == k + 1
  {
    if k > 0 {
      assert Pow10(k) == 10 * Pow10(k - 1);
      assert Pow10(k + 1) == 10 * Pow10(k);
      assert Pow10(k - 1) <= n / 10 < Pow10(k);
      DecimalLength(n / 10, k - 1);
    }
  }

  /** `Math.floor(100000 + Math.random() * 900000)`, given the value `rand` that Math.random drew. */
  function TokenValue(rand: real): (n: int)
    requires 0.0 <= rand < 1.0
    ensures 100000 <= n <= 999999
  {
    (100000.0 + rand * 900000.0).Floor
  }

  /** `generateToken`: six decimal digits whose value lies in 100000..999999. */
  function GenerateToken(rand: real): (t: string)
    requires 0.0 <= rand < 1.0
    ensures |t| == 6 && AllDigits(t) && t[0] != '0'
    ensures 100000 <= DecimalValue(t) <= 999999
  {
    var n := TokenValue(rand);
    DecimalRoundTrip(n);
    assert Pow10(5) == 100000 && Pow10(6) == 1000000;
    DecimalLength(n, 5);
    DecimalString(n)
  }

  // ---------------------------------------------------------------------------
  // Commission
  // ---------------------------------------------------------------------------

  predicate AssignedByAgentOf(d: Device, customer: UserId) {
    d.assignedTo == Some(customer) && d.assignedBy.Some?
  }

  /**
   * `SELECT assigned_by FROM devices WHERE assigned_to = customer AND assigned_by IS NOT
   * NULL`, first row: the position of the first such device, in table order.
   */
  function FirstAssignedDevice(devices: seq<Device>, customer: UserId): (r: Option<nat>)
    ensures r.Some? ==> r.value < |devices| && AssignedByAgentOf(devices[r.value], customer)
    ensures r.Some? ==> forall i :: 0 <= i < r.value ==> !AssignedByAgentOf(devices[i], customer)
    ensures r.None? ==> forall i :: 0 <= i < |devices| ==> !AssignedByAgentOf(devices[i], customer)
  {
    FirstAssignedFrom(devices, customer, 0)
  }

  function FirstAssignedFrom(devices: seq<Device>, customer: UserId, k: nat): (r: Option<nat>)
    requires k <= |devices|
    ensures r.Some? ==> k <= r.value < |devices| && AssignedByAgentOf(devices[r.value], customer)
    ensures r.Some? ==> forall i :: k <= i < r.value ==> !AssignedByAgentOf(devices[i], customer)
    ensures r.None? ==> forall i :: k <= i < |devices| ==> !AssignedByAgentOf(devices[i], customer)
    decreases |devices| - k
  {
    if k == |devices| then None
    else if AssignedByAgentOf(devices[k], customer) then Some(k)
    else FirstAssignedFrom(devices, customer, k + 1)
  }

  /** The user who assigned the customer's first assigned device, if any. */
  function AssigningUser(devices: seq<Device>, customer: UserId): Option<UserId> {
    match FirstAssignedDevice(devices, customer)
    case None => None
    case Some(i) => devices[i].assignedBy
  }

  /**
   * A commission is due when the assigning user exists with role `agent` and an individual
   * rate above zero. There is no fallback to a platform default rate.
   */
  predicate EarnsCommission(users: map<UserId, User>, devices: seq<Device>, customer: UserId) {
    var a := AssigningUser(devices, customer);
    a.Some? && a.value in users && users[a.value].role == Agent && users[a.value].commissionRate > 0.0
  }

  /** A percentage of at most 100 of a non-negative amount lies between zero and the amount. */
  lemma ShareBounded(amount: real, rate: real)
    ensures 0.0 <= amount && 0.0 <= rate <= 100.0 ==> 0.0 <= amount * rate / 100.0 <= amount
  {
  }

  /** The commission row the routine inserts for a payment, if any. */
  function CommissionFor(users: map<UserId, User>, devices: seq<Device>, customer: UserId, amount: real,
                         paymentId: PaymentId): (r: Option<Commission>)
    ensures r.Some? <==> EarnsCommission(users, devices, customer)
    ensures r.Some? ==> var c := r.value;
      && Some(c.agentId) == AssigningUser(devices, customer)
      && c.customerId == customer && c.paymentId == paymentId
      && c.agentId in users && c.percentage == users[c.agentId].commissionRate
      && c.amount * 100.0 == amount * c.percentage
    ensures r.Some? && amount >= 0.0 && r.value.percentage <= 100.0 ==> 0.0 <= r.value.amount <= amount
  {
    if EarnsCommission(users, devices, customer) then
      var agentId := AssigningUser(devices, customer).value;
      var rate := users[agentId].commissionRate;
      ShareBounded(amount, rate);
      Some(Commission(agentId, customer, paymentId, amount * rate / 100.0, rate))
    else None
  }

  // ---------------------------------------------------------------------------
  // The routine
  // ---------------------------------------------------------------------------

  function CommissionsAfter(db: Db, customer: UserId, amount: real, paymentId: PaymentId): seq<Commission> {
    match CommissionFor(db.users, db.devices, customer, amount, paymentId)
    case Some(c) => db.commissions + [c]
    case None => db.commissions
  }

  /**
   * The tables after `handleSuccessfulPayment(userId, amount, paymentId, loanId)` at time
   * `now`, where Math.random drew `rand`.
   */
  function Settlement(db: Db, userId: UserId, amount: real, paymentId: PaymentId, loanId: Option<LoanId>,
                      now: int, rand: real): (r: Db)
    requires 0.0 <= rand < 1.0
    ensures r.tokens == db.tokens + [TokenRow(userId, GenerateToken(rand), paymentId, now + DayMs)]
    ensures r.commissions == CommissionsAfter(db, userId, amount, paymentId)
    ensures r.users == db.users && r.devices == db.devices && r.payments == db.payments && r.nextId == db.nextId
    ensures |r.loans| == |db.loans|
    ensures forall i :: 0 <= i < |db.loans| ==> SameRow(db.loans[i], r.loans[i])
    ensures forall i :: 0 <= i < |db.loans| ==>
      r.loans[i].amountPaid + r.loans[i].balance == db.loans[i].amountPaid + db.loans[i].balance
    ensures forall i :: 0 <= i < |db.loans| && i !in Candidates(db.loans, userId, loanId) ==> r.loans[i] == db.loans[i]
  {
    var db2 := BeforeLoans(db, userId, amount, paymentId, now, rand);
    WaterfallFrame(db2, Candidates(db2.loans, userId, loanId), amount, now);
    Waterfall(db2, Candidates(db2.loans, userId, loanId), amount, now).db
  }

  /** The state just before the loan loop: token recorded, then the commission if one is due. */
  function BeforeLoans(db: Db, userId: UserId, amount: real, paymentId: PaymentId, now: int, rand: real): Db
    requires 0.0 <= rand < 1.0
  {
    var db1 := db.AddToken(TokenRow(userId, GenerateToken(rand), paymentId, now + DayMs));
    match CommissionFor(db.users, db.devices, userId, amount, paymentId)
    case Some(c) => db1.AddCommission(c)
    case None => db1
  }

  /**
   * Write order: the token row is written first, then at most one commission row, then
   * only loan updates; everything written before stays as it was.
   */
  lemma SettlementWriteOrder(db: Db, userId: UserId, amount: real, paymentId: PaymentId, loanId: Option<LoanId>,
                             now: int, rand: real)
    requires 0.0 <= rand < 1.0
    ensures var r := Settlement(db, userId, amount, paymentId, loanId, now, rand);
      && |r.journal| > |db.journal| && r.journal[..|db.journal|] == db.journal
      && r.journal[|db.journal|] == TokenInsert(TokenRow(userId, GenerateToken(rand), paymentId, now + DayMs))
      && (|r.journal| > |db.journal| + 1 ==>
            r.journal[|db.journal| + 1].CommissionInsert? || r.journal[|db.journal| + 1].LoanUpdate?)
      && forall k :: |db.journal| + 1 < k < |r.journal| ==> r.journal[k].LoanUpdate?
  {
    var db2 := BeforeLoans(db, userId, amount, paymentId, now, rand);
    var cands := Candidates(db2.loans, userId, loanId);
    var r := Waterfall(db2, cands, amount, now).db;
    assert Settlement(db, userId, amount, paymentId, loanId, now, rand) == r;
    WaterfallLog(db2, cands, amount, now);
    BeforeLoansJournal(db, userId, amount, paymentId, now, rand);
    AppendedInOrder(db.journal, db2.journal, r.journal);
  }

  /** Before any loan is touched, the journal has grown by the token and maybe the commission. */
  lemma BeforeLoansJournal(db: Db, userId: UserId, amount: real, paymentId: PaymentId, now: int, rand: real)
    requires 0.0 <= rand < 1.0
    ensures var db2 := BeforeLoans(db, userId, amount, paymentId, now, rand);
      var n := |db.journal|;
      && n < |db2.journal| <= n + 2 && db2.journal[..n] == db.journal
      && db2.journal[n] == TokenInsert(TokenRow(userId, GenerateToken(rand), paymentId, now + DayMs))
      && (|db2.journal| == n + 2 ==> db2.journal[n + 1].CommissionInsert?)
  {
    var db1 := db.AddToken(TokenRow(userId, GenerateToken(rand), paymentId, now + DayMs));
    assert db1.journal[..|db.journal|] == db.journal;
  }

  /**
   * A journal that grew first by a token insert and possibly a commission insert, and then
   * only by loan updates, has those writes in that order after the old entries.
   */
  lemma AppendedInOrder(j0: seq<Write>, j1: seq<Write>, j2: seq<Write>)
    requires |j0| < |j1| <= |j0| + 2 && j1[..|j0|] == j0
    requires |j1| == |j0| + 2 ==> j1[|j0| + 1].CommissionInsert?
    requires |j1| <= |j2| && j2[..|j1|] == j1
    requires forall k :: |j1| <= k < |j2| ==> j2[k].LoanUpdate?
    ensures j2[..|j0|] == j0 && j2[|j0|] == j1[|j0|]
    ensures |j2| > |j0| + 1 ==> j2[|j0| + 1].CommissionInsert? || j2[|j0| + 1].LoanUpdate?
    ensures forall k :: |j0| + 1 < k < |j2| ==> j2[k].LoanUpdate?
  {
    var n := |j0|;
    assert j2[..n] == j2[..|j1|][..n];
    assert j2[n] == j2[..|j1|][n];
    if |j1| == n + 2 {
      assert j2[n + 1] == j2[..|j1|][n + 1];
    }
  }

  /** Settlement keeps the tables' invariants: loan ids and the id counter are untouched. */
  lemma SettlementKeepsValid(db: Db, userId: UserId, amount: real, paymentId: PaymentId, loanId: Option<LoanId>,
                             now: int, rand: real)
    requires 0.0 <= rand < 1.0 && db.Valid()
    ensures Settlement(db, userId, amount, paymentId, loanId, now, rand).Valid()
  {
    var r := Settlement(db, userId, amount, paymentId, loanId, now, rand);
    assert forall i :: 0 <= i < |db.loans| ==> r.loans[i].id == db.loans[i].id;
    SettlementKeepsCompleted(db, userId, amount, paymentId, loanId, now, rand);
    db.ValidAfterLoanWrites(r);
  }

  /** A loan completed before the settlement is still completed, and owes nothing, after it. */
  lemma SettlementKeepsCompleted(db: Db, userId: UserId, amount: real, paymentId: PaymentId, loanId: Option<LoanId>,
                                 now: int, rand: real)
    requires 0.0 <= rand < 1.0 && CompletedOwesNothing(db.loans)
    ensures var r := Settlement(db, userId, amount, paymentId, loanId, now, rand);
      && CompletedOwesNothing(r.loans)
      && forall i :: 0 <= i < |db.loans| && db.loans[i].status == LoanStatus.Completed ==>
           r.loans[i].status == LoanStatus.Completed
  {
    var db2 := BeforeLoans(db, userId, amount, paymentId, now, rand);
    assert db2.loans == db.loans;
    WaterfallKeepsCompleted(db2, Candidates(db2.loans, userId, loanId), amount, now);
  }

  /**
   * The `for` loop over the candidate loans: break once nothing remains, otherwise pay
   * into the loan and carry the rest to the next one.
   */
  method ApplyToLoans(db: Database, cands: seq<nat>, amount: real, now: int)
    requires InRange(db.loans, cands)
    modifies db
    ensures db.Snapshot() == Waterfall(old(db.Snapshot()), cands, amount, now).db
  {
    ghost var start := db.Snapshot();
    var remaining := amount;
    var i := 0;
    while i < |cands|
      invariant 0 <= i <= |cands|
      invariant |db.loans| == |start.loans| && InRange(db.loans, cands[i..])
      invariant Waterfall(db.Snapshot(), cands[i..], remaining, now) == Waterfall(start, cands, amount, now)
    {
      if remaining <= 0.0 {
        break;
      }
      ghost var before := db.Snapshot();
      assert cands[i..][0] == cands[i] && cands[i..][1..] == cands[i + 1..];
      var step := PayLoan(db.loans[cands[i]], remaining, now);
      WaterfallStep(before, cands[i..], remaining, now);
      db.SetLoan(cands[i], step.loan);
      remaining := remaining - step.applied;
      i := i + 1;
    }
  }

  /** `handleSuccessfulPayment`: the recorded tables follow `Settlement`; the token recorded is returned. */
  method HandleSuccessfulPayment(db: Database, userId: UserId, amount: real, paymentId: PaymentId,
                                 loanId: Option<LoanId>, now: int, rand: real) returns (token: string)
    requires 0.0 <= rand < 1.0
    modifies db
    ensures token == GenerateToken(rand)
    ensures db.Snapshot() == Settlement(old(db.Snapshot()), userId, amount, paymentId, loanId, now, rand)
    ensures db.tokens[|db.tokens| - 1].token == token
  {
    ghost var s0 := db.Snapshot();
    token := GenerateToken(rand);
    db.InsertToken(TokenRow(userId, token, paymentId, now + DayMs));

    var commission := CommissionFor(db.users, db.devices, userId, amount, paymentId);
    if commission.Some? {
      db.InsertCommission(commission.value);
    }
    assert db.Snapshot() == BeforeLoans(s0, userId, amount, paymentId, now, rand);

    var cands := Candidates(db.loans, userId, loanId);
    ApplyToLoans(db, cands, amount, now);
  }
}
