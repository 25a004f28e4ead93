/**
 * Loan creation and loan lookup of routes/loans.js: the initial state of a loan, which
 * the settlement waterfall later pays down, and who may read a loan.
 */
module Loans {
  import opened Common
  import opened Store
  import opened Allocation

  /** The JSON body of `POST /`; `down_payment` defaults to 0 when absent. */
  datatype LoanRequest = LoanRequest(
    customerId: Option<UserId>,
    deviceId: Option<DeviceId>,
    devicePrice: Option<real>,
    termMonths: Option<int>,
    downPayment: Option<real>)

  /** The four required fields as JavaScript's truthiness sees them: absent and zero are false. */
  predicate HasRequiredFields(req: LoanRequest) {
    && req.customerId.Some? && req.deviceId.Some?
    && req.devicePrice.Some? && req.devicePrice.value != 0.0
    && req.termMonths.Some? && req.termMonths.value != 0
  }

  predicate DeviceExists(devices: seq<Device>, id: DeviceId) {
    exists i :: 0 <= i < |devices| && devices[i].id == id
  }

  /**
   * The gates of loan creation and the row it inserts. The row starts active, owes the
   * price less the down payment, counts the down payment as paid, and falls due one
   * calendar month after `today`. Its payment cycle amount stays NULL.
   */
  function NewLoan(db: Db, req: LoanRequest, now: int, today: Date): (r: Result<Loan>)
    ensures !HasRequiredFields(req) ==> r == Err(400)
    ensures HasRequiredFields(req) && !(req.customerId.value in db.users && db.users[req.customerId.value].role == Customer)
      ==> r == Err(404)
    ensures (HasRequiredFields(req) && req.customerId.value in db.users && db.users[req.customerId.value].role == Customer
             && !DeviceExists(db.devices, req.deviceId.value)) ==> r == Err(404)
    ensures r.Ok? <==> (
      && HasRequiredFields(req)
      && req.customerId.value in db.users && db.users[req.customerId.value].role == Customer
      && DeviceExists(db.devices, req.deviceId.value))
    ensures r.Err? ==> r.status in {400, 404}
    ensures r.Ok? ==> var l := r.value; var price := req.devicePrice.value;
      && l.id == db.nextId && Some(l.customerId) == req.customerId && Some(l.deviceId) == req.deviceId
      && l.downPayment == req.downPayment.GetOr(0.0)
      && l.totalAmount == price - l.downPayment
      && l.monthlyPayment * (l.termMonths as real) == l.totalAmount && Some(l.termMonths) == req.termMonths
      && l.amountPaid == l.downPayment && l.balance == l.totalAmount
      && l.amountPaid + l.balance == price
      && l.status == Active && l.paymentCycleAmount.None?
      && MonthIndex(l.nextPaymentDate) == MonthIndex(today) + 1 && l.nextPaymentDate.day == today.day
      && l.createdAt == now
  {
    if !HasRequiredFields(req) then Err(400)
    else if !(req.customerId.value in db.users && db.users[req.customerId.value].role == Customer) then Err(404)
    else if !DeviceExists(db.devices, req.deviceId.value) then Err(404)
    else
      var down := req.downPayment.GetOr(0.0);
      var total := req.devicePrice.value - down;
      var term := req.termMonths.value;
      var monthly := total / (term as real);
      Ok(Loan(db.nextId, req.customerId.value, req.deviceId.value, total, down, total, term, monthly, down,
              Active, AddOneMonth(today), None, now, now))
  }

  /** `POST /`: inserts the new loan when every gate passes. */
  method PostLoan(db: Database, req: LoanRequest, now: int, today: Date) returns (res: Result<Loan>)
    requires db.Valid()
    modifies db
    ensures res == NewLoan(old(db.Snapshot()), req, now, today)
    ensures res.Ok? ==> db.Snapshot() == old(db.Snapshot()).AddLoan(res.value)
    ensures res.Err? ==> db.Snapshot() == old(db.Snapshot())
    ensures db.Valid()
  {
    res := NewLoan(db.Snapshot(), req, now, today);
    if res.Ok? {
      NewLoanKeepsValid(db.Snapshot(), req, now, today);
      db.InsertLoan(res.value);
    }
  }

  /** Creating a loan keeps the tables' invariants: the new loan's id is fresh. */
  lemma NewLoanKeepsValid(db: Db, req: LoanRequest, now: int, today: Date)
    requires db.Valid() && NewLoan(db, req, now, today).Ok?
    ensures db.AddLoan(NewLoan(db, req, now, today).value).Valid()
  {
    var l := NewLoan(db, req, now, today).value;
    var db' := db.AddLoan(l);
    forall i, j | 0 <= i < j < |db'.loans| ensures db'.loans[i].id != db'.loans[j].id {
      if j == |db.loans| {
        assert db'.loans[i].id < db.nextId;
      }
    }
  }

  /** Who is asking: the authenticated user's id and role. */
  datatype Caller = Caller(id: UserId, role: Role)

  /** `GET /:id`: a missing loan is 404; a customer may read only their own loans (403 otherwise). */
  function GetLoan(db: Db, id: LoanId, caller: Caller): (r: Result<Loan>)
    ensures LoanIndex(db.loans, id).None? ==> r == Err(404)
    ensures r.Ok? <==> (
      && LoanIndex(db.loans, id).Some?
      && (caller.role == Customer ==> db.loans[LoanIndex(db.loans, id).value].customerId == caller.id))
    ensures r == Err(403) <==> (
      && LoanIndex(db.loans, id).Some? && caller.role == Customer
      && db.loans[LoanIndex(db.loans, id).value].customerId != caller.id)
    ensures r.Ok? ==> r.value.id == id && r.value in db.loans
  {
    match LoanIndex(db.loans, id)
    case None => Err(404)
    case Some(i) =>
      if caller.role == Customer && db.loans[i].customerId != caller.id then Err(403) else Ok(db.loans[i])
  }
}
