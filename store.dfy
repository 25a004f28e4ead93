/**
 * The tables the payment code reads and writes, as the migration script creates them,
 * held as in-memory sequences and a map. `Db` is a value snapshot of the tables; the
 * `Database` class holds the same tables as fields that the handlers update in place.
 * Every write is also appended to `journal`, so that the order of the writes of one
 * request can be stated.
 */
module Store {
  import opened Common

  /** A row of `users`; `commissionRate` is DECIMAL(5,2) with default 0. */
  datatype User = User(role: Role, commissionRate: real)

  /** A row of `devices`: the customer it is assigned to and the user who assigned it. */
  datatype Device = Device(id: DeviceId, assignedTo: Option<UserId>, assignedBy: Option<UserId>)

  datatype LoanStatus = Active | Completed | Defaulted

  /** A row of `loans`. `paymentCycleAmount` is a nullable column added by a later migration. */
  datatype Loan = Loan(
    id: LoanId,
    customerId: UserId,
    deviceId: DeviceId,
    totalAmount: real,
    amountPaid: real,
    balance: real,
    termMonths: int,
    monthlyPayment: real,
    downPayment: real,
    status: LoanStatus,
    nextPaymentDate: Date,
    paymentCycleAmount: Option<real>,
    createdAt: int,
    updatedAt: int)

  datatype PaymentStatus = Pending | Completed | Failed

  /** A row of `payments`; `transactionId` carries a UNIQUE constraint. */
  datatype Payment = Payment(
    id: PaymentId,
    userId: UserId,
    amount: real,
    currency: string,
    paymentMethod: string,
    transactionId: Option<string>,
    status: PaymentStatus,
    loanId: Option<LoanId>)

  /** A row of `tokens`. */
  datatype TokenRow = TokenRow(userId: UserId, token: string, paymentId: PaymentId, expiresAt: int)

  /** A row of `commissions`. */
  datatype Commission = Commission(
    agentId: UserId,
    customerId: UserId,
    paymentId: PaymentId,
    amount: real,
    percentage: real)

  /** One write statement, in the order the code issues it. */
  datatype Write =
    | TokenInsert(token: TokenRow)
    | CommissionInsert(commission: Commission)
    | LoanUpdate(loan: Loan)
    | LoanInsert(loan: Loan)
    | PaymentInsert(payment: Payment)

  /** The status `completed` is only ever written together with a balance of zero or less. */
  predicate CompletedOwesNothing(loans: seq<Loan>) {
    forall i :: 0 <= i < |loans| && loans[i].status == LoanStatus.Completed ==> loans[i].balance <= 0.0
  }

  /** A snapshot of every table the model touches, and the next identifier to hand out. */
  datatype Db = Db(
    users: map<UserId, User>,
    devices: seq<Device>,
    loans: seq<Loan>,
    payments: seq<Payment>,
    tokens: seq<TokenRow>,
    commissions: seq<Commission>,
    journal: seq<Write>,
    nextId: nat)
  {
    /**
     * Loan ids are primary keys and were all handed out before `nextId`; so were payment
     * ids; commission rates lie in 0..100, the only range the admin route lets through; a
     * completed loan owes nothing.
     */
    ghost predicate Valid() {
      && (forall i, j :: 0 <= i < j < |loans| ==> loans[i].id != loans[j].id)
      && CompletedOwesNothing(loans)
      && (forall i :: 0 <= i < |loans| ==> loans[i].id < nextId)
      && (forall i :: 0 <= i < |payments| ==> payments[i].id < nextId)
      && (forall u :: u in users ==> 0.0 <= users[u].commissionRate <= 100.0)
    }

    /**
     * The invariants survive writes to loan rows that keep every loan's id and leave a
     * completed loan owing nothing.
     */
    lemma ValidAfterLoanWrites(b: Db)
      requires Valid()
      requires b.users == users && b.payments == payments && b.nextId == nextId && |b.loans| == |loans|
      requires forall i :: 0 <= i < |loans| ==> b.loans[i].id == loans[i].id
      requires CompletedOwesNothing(b.loans)
      ensures b.Valid()
    {
      forall i, j | 0 <= i < j < |b.loans| ensures b.loans[i].id != b.loans[j].id {
        assert b.loans[i].id == loans[i].id && b.loans[j].id == loans[j].id;
      }
    }

    function AddToken(t: TokenRow): Db
    {
      this.(tokens := tokens + [t], journal := journal + [TokenInsert(t)])
    }

    function AddCommission(c: Commission): Db
    {
      this.(commissions := commissions + [c], journal := journal + [CommissionInsert(c)])
    }

    /** `UPDATE loans ... WHERE id = l.id`, for the row at position `i`, which has that id. */
    function UpdateLoan(i: nat, l: Loan): Db
      requires i < |loans|
    {
      this.(loans := loans[i := l], journal := journal + [LoanUpdate(l)])
    }

    /** Inserting a loan whose id the database has just drawn. */
    function AddLoan(l: Loan): Db
    {
      this.(loans := loans + [l], journal := journal + [LoanInsert(l)], nextId := nextId + 1)
    }

    /** Inserting a payment whose id the database has just drawn. */
    function AddPayment(p: Payment): Db
    {
      this.(payments := payments + [p], journal := journal + [PaymentInsert(p)], nextId := nextId + 1)
    }
  }

  /** The database, whose tables the request handlers change in place. */
  class Database {
    var users: map<UserId, User>
    var devices: seq<Device>
    var loans: seq<Loan>
    var payments: seq<Payment>
    var tokens: seq<TokenRow>
    var commissions: seq<Commission>
    var journal: seq<Write>
    var nextId: nat

    function Snapshot(): Db
      reads this
    {
      Db(users, devices, loans, payments, tokens, commissions, journal, nextId)
    }

    ghost predicate Valid()
      reads this
    {
      Snapshot().Valid()
    }

    /** A database with the given users and devices and no loans, payments, tokens or commissions. */
    constructor (users: map<UserId, User>, devices: seq<Device>)
      requires forall u :: u in users ==> 0.0 <= users[u].commissionRate <= 100.0
      ensures Valid()
      ensures Snapshot() == Db(users, devices, [], [], [], [], [], 0)
    {
      this.users := users;
      this.devices := devices;
      loans, payments, tokens, commissions, journal := [], [], [], [], [];
      nextId := 0;
    }

    /** `INSERT INTO tokens ...` */
    method InsertToken(t: TokenRow)
      modifies this
      ensures Snapshot() == old(Snapshot()).AddToken(t)
    {
      tokens := tokens + [t];
      journal := journal + [TokenInsert(t)];
    }

    /** `INSERT INTO commissions ...` */
    method InsertCommission(c: Commission)
      modifies this
      ensures Snapshot() == old(Snapshot()).AddCommission(c)
    {
      commissions := commissions + [c];
      journal := journal + [CommissionInsert(c)];
    }

    /** `UPDATE loans SET ... WHERE id = l.id` on the row at position `i`. */
    method SetLoan(i: nat, l: Loan)
      requires i < |loans|
      modifies this
      ensures Snapshot() == old(Snapshot()).UpdateLoan(i, l)
    {
      loans := loans[i := l];
      journal := journal + [LoanUpdate(l)];
    }

    /** `INSERT INTO loans ... RETURNING *`; the new row gets the next identifier. */
    method InsertLoan(l: Loan)
      requires l.id == nextId
      modifies this
      ensures Snapshot() == old(Snapshot()).AddLoan(l)
    {
      loans := loans + [l];
      journal := journal + [LoanInsert(l)];
      nextId := nextId + 1;
    }

    /** `INSERT INTO payments ... RETURNING *`; the new row gets the next identifier. */
    method InsertPayment(p: Payment)
      requires p.id == nextId
      modifies this
      ensures Snapshot() == old(Snapshot()).AddPayment(p)
    {
      payments := payments + [p];
      journal := journal + [PaymentInsert(p)];
      nextId := nextId + 1;
    }
  }
}
