/**
 * The two payment-confirmation handlers of routes/payments.js. Each first decides, from
 * the request and the tables, whether a payment row is recorded (`ManualDecision`,
 * `PaystackDecision`); a recorded payment is then settled with the same amount.
 */
module Payments {
  import opened Common
  import opened Store
  import opened Allocation
  import opened PaymentService

  /** What a handler decides before it writes: an error status, or the payment row to insert. */
  datatype Outcome = Reject(status: int) | Record(payment: Payment)

  /** The HTTP answer: the recorded payment, or an error status. */
  function Response(o: Outcome): (r: Result<Payment>)
    ensures r.Ok? <==> o.Record?
    ensures o.Record? ==> r.value == o.payment
    ensures o.Reject? ==> r.status == o.status
  {
    match o
    case Reject(s) => Err(s)
    case Record(p) => Ok(p)
  }

  /** The tables after the handler: unchanged on a rejection, else the payment inserted and settled. */
  function AfterPayment(db: Db, o: Outcome, now: int, rand: real): Db
    requires 0.0 <= rand < 1.0
  {
    match o
    case Reject(_) => db
    case Record(p) => Settlement(db.AddPayment(p), p.userId, p.amount, p.id, p.loanId, now, rand)
  }

  /**
   * Recording a payment and settling it keeps the tables' invariants: the payment takes the
   * next id, and the settlement keeps loan ids, rates and completed loans as they must be.
   */
  lemma AfterPaymentKeepsValid(db: Db, o: Outcome, now: int, rand: real)
    requires 0.0 <= rand < 1.0 && db.Valid()
    requires o.Record? ==> o.payment.id == db.nextId
    ensures AfterPayment(db, o, now, rand).Valid()
  {
    if o.Record? {
      var p := o.payment;
      var db1 := db.AddPayment(p);
      assert db1.Valid();
      SettlementKeepsValid(db1, p.userId, p.amount, p.id, p.loanId, now, rand);
    }
  }

  /** The UNIQUE constraint on `payments.transaction_id`: a non-null id already in use. */
  predicate TransactionTaken(payments: seq<Payment>, t: Option<string>) {
    t.Some? && exists i :: 0 <= i < |payments| && payments[i].transactionId == t
  }

  // ---------------------------------------------------------------------------
  // POST /manual
  // ---------------------------------------------------------------------------

  datatype ManualRequest = ManualRequest(
    userId: Option<UserId>,
    amount: real,
    currency: Option<string>,
    paymentMethod: Option<string>,
    transactionId: Option<string>,
    loanId: Option<LoanId>)

  /** `amount < payment_cycle_amount` in JavaScript: a NULL cycle amount compares as 0. */
  function CycleFloor(cycle: Option<real>): real {
    cycle.GetOr(0.0)
  }

  predicate IsCustomer(users: map<UserId, User>, id: Option<UserId>) {
    id.Some? && id.value in users && users[id.value].role == Customer
  }

  /** `transaction_id || null`. */
  function ManualTransactionId(t: Option<string>): (r: Option<string>)
    ensures r.Some? <==> Present(t)
    ensures r.Some? ==> r == t
  {
    if Present(t) then t else None
  }

  /** The gates of the manual handler, in order, and the row it inserts when all pass. */
  function ManualDecision(db: Db, req: ManualRequest): (r: Outcome)
    ensures req.loanId.None? ==> r == Reject(400)
    ensures req.loanId.Some? && LoanIndex(db.loans, req.loanId.value).None? ==> r == Reject(404)
    ensures req.loanId.Some? && LoanIndex(db.loans, req.loanId.value).Some? ==>
      var loan := db.loans[LoanIndex(db.loans, req.loanId.value).value];
      && (req.amount < CycleFloor(loan.paymentCycleAmount) ==> r == Reject(400))
      && (req.amount >= CycleFloor(loan.paymentCycleAmount) && !IsCustomer(db.users, req.userId) ==> r == Reject(404))
      && ((req.amount >= CycleFloor(loan.paymentCycleAmount) && IsCustomer(db.users, req.userId)
           && TransactionTaken(db.payments, ManualTransactionId(req.transactionId))) ==> r == Reject(500))
    ensures r.Record? <==>
      && req.loanId.Some? && LoanIndex(db.loans, req.loanId.value).Some?
      && req.amount >= CycleFloor(db.loans[LoanIndex(db.loans, req.loanId.value).value].paymentCycleAmount)
      && IsCustomer(db.users, req.userId)
      && !TransactionTaken(db.payments, ManualTransactionId(req.transactionId))
    ensures r.Reject? ==> r.status in {400, 404, 500}
    ensures r.Record? ==> var p := r.payment;
      && p.id == db.nextId && Some(p.userId) == req.userId && p.amount == req.amount
      && p.currency == OrDefault(req.currency, "NGN") && p.paymentMethod == OrDefault(req.paymentMethod, "manual")
      && p.transactionId == ManualTransactionId(req.transactionId)
      && p.status == PaymentStatus.Completed && p.loanId == req.loanId
  {
    if req.loanId.None? then Reject(400)
    else
      match LoanIndex(db.loans, req.loanId.value)
      case None => Reject(404)
      case Some(i) =>
        if req.amount < CycleFloor(db.loans[i].paymentCycleAmount) then Reject(400)
        else if !IsCustomer(db.users, req.userId) then Reject(404)
        else
          var txn := ManualTransactionId(req.transactionId);
          if TransactionTaken(db.payments, txn) then Reject(500)
          else Record(Payment(db.nextId, req.userId.value, req.amount, OrDefault(req.currency, "NGN"),
                              OrDefault(req.paymentMethod, "manual"), txn, PaymentStatus.Completed, req.loanId))
  }

  /** `POST /manual`. */
  method PostManual(db: Database, req: ManualRequest, now: int, rand: real) returns (res: Result<Payment>)
    requires 0.0 <= rand < 1.0 && db.Valid()
    modifies db
    ensures res == Response(ManualDecision(old(db.Snapshot()), req))
    ensures db.Snapshot() == AfterPayment(old(db.Snapshot()), ManualDecision(old(db.Snapshot()), req), now, rand)
    ensures db.Valid()
  {
    var decision := ManualDecision(db.Snapshot(), req);
    AfterPaymentKeepsValid(db.Snapshot(), decision, now, rand);
    match decision
    case Reject(status) =>
      res := Err(status);
    case Record(p) =>
      db.InsertPayment(p);
      var _ := HandleSuccessfulPayment(db, p.userId, p.amount, p.id, p.loanId, now, rand);
      res := Ok(p);
  }

  /**
   * An accepted manual payment is recorded as completed and settled with its own amount
   * and loan: one token for it, and no loan but the named one is touched.
   */
  lemma ManualSettlesNamedLoan(db: Db, req: ManualRequest, now: int, rand: real)
    requires 0.0 <= rand < 1.0 && db.Valid()
    requires ManualDecision(db, req).Record?
    ensures var p := ManualDecision(db, req).payment;
      var after := AfterPayment(db, ManualDecision(db, req), now, rand);
      && after.payments == db.payments + [p]
      && after.tokens == db.tokens + [TokenRow(p.userId, GenerateToken(rand), p.id, now + DayMs)]
      && |after.loans| == |db.loans|
      && forall i :: 0 <= i < |db.loans| && db.loans[i].id != req.loanId.value ==> after.loans[i] == db.loans[i]
  {
    var p := ManualDecision(db, req).payment;
    var db1 := db.AddPayment(p);
    var cands := Candidates(db1.loans, p.userId, p.loanId);
    assert cands == SpecificLoan(db1.loans, p.userId, req.loanId.value);
  }

  /**
   * The manual handler checks that the loan exists but not whose it is: a payment naming
   * another customer's loan is recorded, gets a token, and credits no loan at all.
   */
  lemma ManualForeignLoanCreditsNothing(db: Db, req: ManualRequest, now: int, rand: real)
    requires 0.0 <= rand < 1.0 && db.Valid()
    requires ManualDecision(db, req).Record?
    requires db.loans[LoanIndex(db.loans, req.loanId.value).value].customerId != req.userId.value
    ensures var after := AfterPayment(db, ManualDecision(db, req), now, rand);
      && after.payments == db.payments + [ManualDecision(db, req).payment]
      && after.loans == db.loans
  {
    var p := ManualDecision(db, req).payment;
    var db1 := db.AddPayment(p);
    var i := LoanIndex(db.loans, req.loanId.value).value;
    forall j | 0 <= j < |db1.loans| && db1.loans[j].id == req.loanId.value
      ensures db1.loans[j].customerId != p.userId
    {
      assert j == i;
    }
    var cands := Candidates(db1.loans, p.userId, p.loanId);
    assert p.loanId == req.loanId && db1.loans == db.loans;
    assert cands == [];
  }

  // ---------------------------------------------------------------------------
  // POST /paystack/verify
  // ---------------------------------------------------------------------------

  /** The `data` object of Paystack's verify answer; `amount` is in kobo. */
  datatype PaystackData = PaystackData(status: string, amount: int, currency: string, reference: string)

  /** The verify call: no answer (network error or an error status, which axios throws), or the answer's body. */
  datatype PaystackReply = NoReply | Reply(status: bool, data: PaystackData)

  /** The JSON body; `amount` is read from it but never used. */
  datatype PaystackRequest = PaystackRequest(reference: Option<string>, userId: Option<UserId>, amount: Option<real>)

  predicate PaystackSucceeded(reply: PaystackReply) {
    reply.Reply? && reply.status && reply.data.status == "success"
  }

  /**
   * The gates of the Paystack handler. The insert itself fails with 500 when `user_id` is
   * missing or names no user (NOT NULL and the foreign key) or when the reference was
   * already recorded (UNIQUE `transaction_id`).
   */
  function PaystackDecision(db: Db, req: PaystackRequest, reply: PaystackReply): (r: Outcome)
    ensures !Present(req.reference) ==> r == Reject(400)
    ensures Present(req.reference) && reply.NoReply? ==> r == Reject(500)
    ensures Present(req.reference) && reply.Reply? && !PaystackSucceeded(reply) ==> r == Reject(400)
    ensures Present(req.reference) && PaystackSucceeded(reply) && !(req.userId.Some? && req.userId.value in db.users)
      ==> r == Reject(500)
    ensures Present(req.reference) && PaystackSucceeded(reply) && TransactionTaken(db.payments, Some(reply.data.reference))
      ==> r == Reject(500)
    ensures r.Record? <==>
      && Present(req.reference) && PaystackSucceeded(reply)
      && req.userId.Some? && req.userId.value in db.users
      && !TransactionTaken(db.payments, Some(reply.data.reference))
    ensures r.Reject? ==> r.status in {400, 500}
    ensures r.Record? ==> var p := r.payment;
      && p.id == db.nextId && Some(p.userId) == req.userId
      && p.amount * 100.0 == reply.data.amount as real
      && p.currency == reply.data.currency && p.paymentMethod == "paystack"
      && p.transactionId == Some(reply.data.reference)
      && p.status == PaymentStatus.Completed && p.loanId.None?
  {
    if !Present(req.reference) then Reject(400)
    else if reply.NoReply? then Reject(500)
    else if !PaystackSucceeded(reply) then Reject(400)
    else if req.userId.None? || req.userId.value !in db.users then Reject(500)
    else if TransactionTaken(db.payments, Some(reply.data.reference)) then Reject(500)
    else Record(Payment(db.nextId, req.userId.value, reply.data.amount as real / 100.0, reply.data.currency,
                        "paystack", Some(reply.data.reference), PaymentStatus.Completed, None))
  }

  /** `POST /paystack/verify`, given what the verify call answered. */
  method PostPaystackVerify(db: Database, req: PaystackRequest, reply: PaystackReply, now: int, rand: real)
    returns (res: Result<Payment>)
    requires 0.0 <= rand < 1.0 && db.Valid()
    modifies db
    ensures res == Response(PaystackDecision(old(db.Snapshot()), req, reply))
    ensures db.Snapshot() == AfterPayment(old(db.Snapshot()), PaystackDecision(old(db.Snapshot()), req, reply), now, rand)
    ensures db.Valid()
  {
    var decision := PaystackDecision(db.Snapshot(), req, reply);
    AfterPaymentKeepsValid(db.Snapshot(), decision, now, rand);
    match decision
    case Reject(status) =>
      res := Err(status);
    case Record(p) =>
      db.InsertPayment(p);
      var _ := HandleSuccessfulPayment(db, p.userId, p.amount, p.id, p.loanId, now, rand);
      res := Ok(p);
  }

  /**
   * A Paystack reference settles at most once: after it has been recorded, verifying the
   * same reference again is refused by the UNIQUE constraint and records nothing.
   */
  lemma PaystackReferenceSettlesOnce(db: Db, req: PaystackRequest, reply: PaystackReply,
                                     req2: PaystackRequest, reply2: PaystackReply, now: int, rand: real)
    requires 0.0 <= rand < 1.0
    requires PaystackDecision(db, req, reply).Record?
    requires reply2.Reply? && reply2.data.reference == reply.data.reference
    ensures var after := AfterPayment(db, PaystackDecision(db, req, reply), now, rand);
      && PaystackDecision(after, req2, reply2).Reject?
      && AfterPayment(after, PaystackDecision(after, req2, reply2), now, rand) == after
  {
    var p := PaystackDecision(db, req, reply).payment;
    var after := AfterPayment(db, PaystackDecision(db, req, reply), now, rand);
    assert after.payments == db.payments + [p];
    assert after.payments[|db.payments|].transactionId == Some(reply2.data.reference);
  }
}
