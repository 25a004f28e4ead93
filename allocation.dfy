/**
 * The loan part of the settlement routine (services/paymentService.js): which loans
 * receive a payment, and the waterfall that spreads the payment over them in order.
 * Candidates are positions in the `loans` table; the routine updates the row at each
 * position, which is the row with that loan's id because ids are unique.
 */
module Allocation {
  import opened Common
  import opened Store

  // ---------------------------------------------------------------------------
  // Candidate selection
  // ---------------------------------------------------------------------------

  /** The position of the loan with id `id`, if there is one. */
  function LoanIndex(loans: seq<Loan>, id: LoanId): (r: Option<nat>)
    ensures r.Some? ==> r.value < |loans| && loans[r.value].id == id
    ensures r.None? ==> forall i :: 0 <= i < |loans| ==> loans[i].id != id
  {
    LoanIndexFrom(loans, id, 0)
  }

  function LoanIndexFrom(loans: seq<Loan>, id: LoanId, k: nat): (r: Option<nat>)
    requires k <= |loans|
    ensures r.Some? ==> k <= r.value < |loans| && loans[r.value].id == id
    ensures r.None? ==> forall i :: k <= i < |loans| ==> loans[i].id != id
    decreases |loans| - k
  {
    if k == |loans| then None
    else if loans[k].id == id then Some(k)
    else LoanIndexFrom(loans, id, k + 1)
  }

  /** `SELECT * FROM loans WHERE id = loanId AND customer_id = customer`: the first such row. */
  function SpecificLoan(loans: seq<Loan>, customer: UserId, loanId: LoanId): (r: seq<nat>)
    ensures |r| <= 1
    ensures forall i :: 0 <= i < |r| ==> r[i] < |loans| && loans[r[i]].id == loanId && loans[r[i]].customerId == customer
    ensures r == [] <==> forall i :: 0 <= i < |loans| && loans[i].id == loanId ==> loans[i].customerId != customer
  {
    OwnedLoanFrom(loans, customer, loanId, 0)
  }

  function OwnedLoanFrom(loans: seq<Loan>, customer: UserId, loanId: LoanId, k: nat): (r: seq<nat>)
    requires k <= |loans|
    ensures |r| <= 1
    ensures forall i :: 0 <= i < |r| ==> k <= r[i] < |loans| && loans[r[i]].id == loanId && loans[r[i]].customerId == customer
    ensures r == [] <==> forall i :: k <= i < |loans| && loans[i].id == loanId ==> loans[i].customerId != customer
    decreases |loans| - k
  {
    if k == |loans| then []
    else if loans[k].id == loanId && loans[k].customerId == customer then [k]
    else OwnedLoanFrom(loans, customer, loanId, k + 1)
  }

  predicate ActiveOf(l: Loan, customer: UserId) {
    l.customerId == customer && l.status == Active
  }

  /**
   * `ORDER BY created_at ASC`. Rows with equal `created_at` come in table order, one of
   * the orders the database may return; this makes the order strict and total.
   */
  predicate Older(loans: seq<Loan>, a: nat, b: nat)
    requires a < |loans| && b < |loans|
  {
    loans[a].createdAt < loans[b].createdAt || (loans[a].createdAt == loans[b].createdAt && a < b)
  }

  predicate InRange(loans: seq<Loan>, s: seq<nat>) {
    forall i :: 0 <= i < |s| ==> s[i] < |loans|
  }

  predicate OldestFirst(loans: seq<Loan>, s: seq<nat>)
    requires InRange(loans, s)
  {
    forall i, j :: 0 <= i < j < |s| ==> Older(loans, s[i], s[j])
  }

  predicate Distinct(s: seq<nat>) {
    forall i, j :: 0 <= i < j < |s| ==> s[i] != s[j]
  }

  /** Positions from `k` on of the customer's active loans, in table order. */
  function ActiveFrom(loans: seq<Loan>, customer: UserId, k: nat): (r: seq<nat>)
    requires k <= |loans|
    ensures forall i :: 0 <= i < |r| ==> k <= r[i] < |loans| && ActiveOf(loans[r[i]], customer)
    ensures forall j :: k <= j < |loans| && ActiveOf(loans[j], customer) ==> j in r
    ensures forall i, j :: 0 <= i < j < |r| ==> r[i] < r[j]
    decreases |loans| - k
  {
    if k == |loans| then []
    else if ActiveOf(loans[k], customer) then [k] + ActiveFrom(loans, customer, k + 1)
    else ActiveFrom(loans, customer, k + 1)
  }

  /** Puts `x` into the oldest-first sequence `s`. */
  function InsertOldestFirst(loans: seq<Loan>, x: nat, s: seq<nat>): (r: seq<nat>)
    requires x < |loans| && InRange(loans, s) && OldestFirst(loans, s) && x !in s
    ensures InRange(loans, r) && OldestFirst(loans, r)
    ensures |r| == |s| + 1
    ensures forall y :: y in r <==> y == x || y in s
  {
    if s == [] || Older(loans, x, s[0]) then [x] + s
    else
      var rest := InsertOldestFirst(loans, x, s[1..]);
      assert forall k :: 0 <= k < |rest| ==> Older(loans, s[0], rest[k]) by {
        forall k | 0 <= k < |rest| ensures Older(loans, s[0], rest[k]) {
          assert rest[k] in rest;
          if rest[k] != x {
            assert rest[k] in s[1..];
            var m :| 0 <= m < |s[1..]| && s[1..][m] == rest[k];
            assert s[1..][m] == s[m + 1];
          }
        }
      }
      [s[0]] + rest
  }

  /** Insertion sort of distinct positions into oldest-first order. */
  function SortOldestFirst(loans: seq<Loan>, s: seq<nat>): (r: seq<nat>)
    requires InRange(loans, s) && Distinct(s)
    ensures InRange(loans, r) && OldestFirst(loans, r)
    ensures |r| == |s|
    ensures forall y :: y in r <==> y in s
  {
    if s == [] then []
    else
      assert s[0] !in s[1..] by {
        forall k | 0 <= k < |s[1..]| ensures s[1..][k] != s[0] {
          assert s[1..][k] == s[k + 1];
        }
      }
      InsertOldestFirst(loans, s[0], SortOldestFirst(loans, s[1..]))
  }

  /**
   * `SELECT * FROM loans WHERE customer_id = customer AND status = 'active' ORDER BY
   * created_at ASC`: every active loan of the customer, each once, oldest first.
   */
  function ActiveOldestFirst(loans: seq<Loan>, customer: UserId): (r: seq<nat>)
    ensures InRange(loans, r) && OldestFirst(loans, r)
    ensures forall i :: 0 <= i < |r| ==> ActiveOf(loans[r[i]], customer)
    ensures forall j :: 0 <= j < |loans| && ActiveOf(loans[j], customer) ==> j in r
  {
    var active := ActiveFrom(loans, customer, 0);
    var r := SortOldestFirst(loans, active);
    assert forall i :: 0 <= i < |r| ==> ActiveOf(loans[r[i]], customer) by {
      forall i | 0 <= i < |r| ensures ActiveOf(loans[r[i]], customer) {
        assert r[i] in active;
      }
    }
    r
  }

  /** The loans the routine will pay into: the named loan, or all active loans oldest first. */
  function Candidates(loans: seq<Loan>, customer: UserId, loanId: Option<LoanId>): (r: seq<nat>)
    ensures InRange(loans, r) && Distinct(r)
    ensures loanId.Some? ==> r == SpecificLoan(loans, customer, loanId.value)
    ensures loanId.None? ==> r == ActiveOldestFirst(loans, customer)
  {
    match loanId
    case Some(id) => SpecificLoan(loans, customer, id)
    case None =>
      var r := ActiveOldestFirst(loans, customer);
      assert Distinct(r) by {
        forall i, j | 0 <= i < j < |r| ensures r[i] != r[j] {
          assert Older(loans, r[i], r[j]);
        }
      }
      r
  }

  // ---------------------------------------------------------------------------
  // One loan
  // ---------------------------------------------------------------------------

  function Min(a: real, b: real): real {
    if a <= b then a else b
  }

  /** The updated loan row and the amount taken from the payment for it. */
  datatype Step = Step(loan: Loan, applied: real)

  /**
   * Applies `min(remaining, balance)` to one loan: the amount paid goes up and the balance
   * down by that much; the loan is completed when nothing is left owing and otherwise
   * stays active with its due date one calendar month later.
   */
  function PayLoan(loan: Loan, remaining: real, now: int): (r: Step)
    ensures r.applied <= remaining && r.applied <= loan.balance
    ensures r.applied == remaining || r.loan.balance == 0.0
    ensures r.loan.amountPaid == loan.amountPaid + r.applied
    ensures r.loan.amountPaid + r.loan.balance == loan.amountPaid + loan.balance
    ensures remaining > 0.0 ==> r.loan.balance >= 0.0
    ensures remaining > 0.0 && loan.balance >= 0.0 ==> r.applied >= 0.0
    ensures r.loan.status == LoanStatus.Completed <==> r.loan.balance <= 0.0
    ensures r.loan.status == Active <==> r.loan.balance > 0.0
    ensures r.loan.status == Active ==> MonthIndex(r.loan.nextPaymentDate) == MonthIndex(loan.nextPaymentDate) + 1
    ensures r.loan.status == LoanStatus.Completed ==> r.loan.nextPaymentDate == loan.nextPaymentDate
    ensures SameRow(loan, r.loan) && r.loan.updatedAt == now
  {
    var apply := Min(remaining, loan.balance);
    var newBalance := loan.balance - apply;
    var newStatus := if newBalance <= 0.0 then LoanStatus.Completed else Active;
    var newDate := if newStatus == Active then AddOneMonth(loan.nextPaymentDate) else loan.nextPaymentDate;
    Step(loan.(amountPaid := loan.amountPaid + apply, balance := newBalance, status := newStatus,
               nextPaymentDate := newDate, updatedAt := now),
         apply)
  }

  /** The columns the settlement never writes. */
  predicate SameRow(a: Loan, b: Loan) {
    && a.id == b.id && a.customerId == b.customerId && a.deviceId == b.deviceId
    && a.totalAmount == b.totalAmount && a.termMonths == b.termMonths
    && a.monthlyPayment == b.monthlyPayment && a.downPayment == b.downPayment
    && a.paymentCycleAmount == b.paymentCycleAmount && a.createdAt == b.createdAt
  }

  // ---------------------------------------------------------------------------
  // The waterfall
  // ---------------------------------------------------------------------------

  datatype Allocation = Allocation(db: Db, remaining: real)

  /** Everything but the loans table and the journal is as before. */
  predicate OtherTablesSame(a: Db, b: Db) {
    a.users == b.users && a.devices == b.devices && a.payments == b.payments
    && a.tokens == b.tokens && a.commissions == b.commissions && a.nextId == b.nextId
  }

  /**
   * The loop over the candidates: stop once nothing remains, otherwise pay into the next
   * candidate and carry what is left to the one after. What is left after the last
   * candidate goes nowhere.
   */
  function Waterfall(db: Db, cands: seq<nat>, remaining: real, now: int): (r: Allocation)
    requires InRange(db.loans, cands)
    ensures |r.db.loans| == |db.loans|
    ensures |db.journal| <= |r.db.journal| <= |db.journal| + |cands|
    ensures remaining > 0.0 ==> r.remaining >= 0.0
    ensures remaining <= 0.0 ==> r == Allocation(db, remaining)
    decreases |cands|
  {
    if |cands| == 0 || remaining <= 0.0 then Allocation(db, remaining)
    else
      var step := PayLoan(db.loans[cands[0]], remaining, now);
      Waterfall(db.UpdateLoan(cands[0], step.loan), cands[1..], remaining - step.applied, now)
  }

  /**
   * What the waterfall leaves alone: every table but the loans and the journal, the loans
   * that are not candidates, the columns it never writes, and each loan's paid + balance.
   */
  lemma {:induction false} WaterfallFrame(db: Db, cands: seq<nat>, remaining: real, now: int)
    requires InRange(db.loans, cands)
    ensures var r := Waterfall(db, cands, remaining, now);
      && OtherTablesSame(db, r.db)
      && (forall i :: 0 <= i < |db.loans| ==> SameRow(db.loans[i], r.db.loans[i]))
      && (forall i :: 0 <= i < |db.loans| && i !in cands ==> r.db.loans[i] == db.loans[i])
      && (forall i :: 0 <= i < |db.loans| ==>
            r.db.loans[i].amountPaid + r.db.loans[i].balance == db.loans[i].amountPaid + db.loans[i].balance)
    decreases |cands|
  {
    if |cands| != 0 && remaining > 0.0 {
      var c := cands[0];
      var step := PayLoan(db.loans[c], remaining, now);
      var db' := db.UpdateLoan(c, step.loan);
      var rest := remaining - step.applied;
      WaterfallStep(db, cands, remaining, now);
      WaterfallFrame(db', cands[1..], rest, now);
      var r := Waterfall(db', cands[1..], rest, now);
      forall i | 0 <= i < |db.loans| && i !in cands ensures r.db.loans[i] == db.loans[i] {
        assert i !in cands[1..] && i != c;
      }
    }
  }

  /** A loan that is not a candidate leaves the waterfall as it came in. */
  lemma WaterfallSkips(db: Db, cands: seq<nat>, remaining: real, now: int, i: nat)
    requires InRange(db.loans, cands) && i < |db.loans| && i !in cands
    ensures Waterfall(db, cands, remaining, now).db.loans[i] == db.loans[i]
  {
    WaterfallFrame(db, cands, remaining, now);
  }

  /** The waterfall keeps the journal written so far and appends only loan updates to it. */
  lemma {:induction false} WaterfallLog(db: Db, cands: seq<nat>, remaining: real, now: int)
    requires InRange(db.loans, cands)
    ensures var r := Waterfall(db, cands, remaining, now);
      && r.db.journal[..|db.journal|] == db.journal
      && (forall k :: |db.journal| <= k < |r.db.journal| ==> r.db.journal[k].LoanUpdate?)
    decreases |cands|
  {
    if |cands| != 0 && remaining > 0.0 {
      var c := cands[0];
      var step := PayLoan(db.loans[c], remaining, now);
      var db' := db.UpdateLoan(c, step.loan);
      var rest := remaining - step.applied;
      WaterfallStep(db, cands, remaining, now);
      WaterfallLog(db', cands[1..], rest, now);
      var r := Waterfall(db', cands[1..], rest, now);
      assert r.db.journal[..|db.journal|] == r.db.journal[..|db'.journal|][..|db.journal|];
    }
  }

  /** One turn of the loop: pay into the first candidate and carry the rest to the others. */
  lemma WaterfallStep(db: Db, cands: seq<nat>, remaining: real, now: int)
    requires InRange(db.loans, cands) && cands != [] && remaining > 0.0
    ensures var step := PayLoan(db.loans[cands[0]], remaining, now);
      && InRange(db.UpdateLoan(cands[0], step.loan).loans, cands[1..])
      && Waterfall(db, cands, remaining, now)
         == Waterfall(db.UpdateLoan(cands[0], step.loan), cands[1..], remaining - step.applied, now)
  {
  }

  /** Sum of the amounts paid on the candidate loans. */
  function PaidOn(loans: seq<Loan>, cands: seq<nat>): real
    requires InRange(loans, cands)
  {
    if cands == [] then 0.0 else loans[cands[0]].amountPaid + PaidOn(loans, cands[1..])
  }

  lemma {:induction false} PaidOnUnaffected(loans: seq<Loan>, cands: seq<nat>, i: nat, l: Loan)
    requires InRange(loans, cands) && i < |loans| && i !in cands
    ensures PaidOn(loans[i := l], cands) == PaidOn(loans, cands)
  {
    if cands != [] {
      PaidOnUnaffected(loans, cands[1..], i, l);
    }
  }

  lemma DistinctTail(s: seq<nat>)
    requires Distinct(s) && s != []
    ensures Distinct(s[1..]) && s[0] !in s[1..]
  {
    forall k | 0 <= k < |s[1..]| ensures s[1..][k] != s[0] {
      assert s[1..][k] == s[k + 1];
    }
  }

  /**
   * Money is conserved: what the candidate loans' amounts paid went up by is exactly the
   * payment less what was left over, and what is left over is never negative, so the
   * loans never receive more than was paid.
   */
  lemma {:induction false} WaterfallAccounts(db: Db, cands: seq<nat>, remaining: real, now: int)
    requires InRange(db.loans, cands) && Distinct(cands) && remaining > 0.0
    ensures var r := Waterfall(db, cands, remaining, now);
      && PaidOn(r.db.loans, cands) - PaidOn(db.loans, cands) == remaining - r.remaining
      && 0.0 <= r.remaining
      && PaidOn(r.db.loans, cands) - PaidOn(db.loans, cands) <= remaining
    decreases |cands|
  {
    if cands != [] {
      DistinctTail(cands);
      var c := cands[0];
      var step := PayLoan(db.loans[c], remaining, now);
      var db' := db.UpdateLoan(c, step.loan);
      var rest := remaining - step.applied;
      var r := Waterfall(db', cands[1..], rest, now);
      WaterfallFrame(db', cands[1..], rest, now);
      assert r == Waterfall(db, cands, remaining, now);
      PaidOnUnaffected(db.loans, cands[1..], c, step.loan);
      assert r.db.loans[c] == step.loan;
      if rest > 0.0 {
        WaterfallAccounts(db', cands[1..], rest, now);
      } else {
        assert r == Allocation(db', rest);
      }
    }
  }

  /**
   * When every candidate owed a non-negative balance, no candidate's amount paid goes
   * down and none of their balances goes negative.
   */
  lemma {:induction false} WaterfallMonotone(db: Db, cands: seq<nat>, remaining: real, now: int)
    requires InRange(db.loans, cands)
    requires forall i :: 0 <= i < |cands| ==> db.loans[cands[i]].balance >= 0.0
    ensures var r := Waterfall(db, cands, remaining, now);
      forall i :: 0 <= i < |db.loans| ==>
        i in cands ==> r.db.loans[i].amountPaid >= db.loans[i].amountPaid && r.db.loans[i].balance >= 0.0
    ensures remaining > 0.0 ==> Waterfall(db, cands, remaining, now).remaining <= remaining
    decreases |cands|
  {
    if cands != [] && remaining > 0.0 {
      var c := cands[0];
      var step := PayLoan(db.loans[c], remaining, now);
      var db' := db.UpdateLoan(c, step.loan);
      var rest := remaining - step.applied;
      forall i | 0 <= i < |cands[1..]| ensures db'.loans[cands[1..][i]].balance >= 0.0 {
        assert cands[1..][i] == cands[i + 1];
      }
      WaterfallMonotone(db', cands[1..], rest, now);
      var r := Waterfall(db', cands[1..], rest, now);
      assert Waterfall(db, cands, remaining, now) == r by {
        WaterfallStep(db, cands, remaining, now);
      }
      forall i | 0 <= i < |db.loans| && i in cands
        ensures r.db.loans[i].amountPaid >= db.loans[i].amountPaid && r.db.loans[i].balance >= 0.0
      {
        if i in cands[1..] {
          assert db'.loans[i].amountPaid >= db.loans[i].amountPaid;
        } else {
          assert i == c;
          WaterfallSkips(db', cands[1..], rest, now, c);
        }
      }
    }
  }

  /**
   * Once a candidate is left with something owing, the payment has run out: nothing is
   * left over and every later candidate is untouched.
   */
  lemma {:induction false} WaterfallStops(db: Db, cands: seq<nat>, remaining: real, now: int, j: nat)
    requires InRange(db.loans, cands) && Distinct(cands) && j < |cands|
    requires Waterfall(db, cands, remaining, now).db.loans[cands[j]].balance > 0.0
    requires remaining > 0.0
    ensures var r := Waterfall(db, cands, remaining, now);
      && r.remaining == 0.0
      && forall k :: j < k < |cands| ==> r.db.loans[cands[k]] == db.loans[cands[k]]
    decreases |cands|
  {
    DistinctTail(cands);
    var c := cands[0];
    var step := PayLoan(db.loans[c], remaining, now);
    var db' := db.UpdateLoan(c, step.loan);
    var rest := remaining - step.applied;
    var r := Waterfall(db', cands[1..], rest, now);
    WaterfallFrame(db', cands[1..], rest, now);
    assert r == Waterfall(db, cands, remaining, now);
    if j == 0 {
      assert r.db.loans[c] == step.loan;
      assert rest == 0.0;
      assert r == Allocation(db', rest);
      forall k | 0 < k < |cands| ensures r.db.loans[cands[k]] == db.loans[cands[k]] {
        assert cands[k] != c;
      }
    } else {
      assert cands[1..][j - 1] == cands[j];
      if rest <= 0.0 {
        assert r == Allocation(db', rest);
        forall k | j < k < |cands| ensures r.db.loans[cands[k]] == db.loans[cands[k]] {
          assert cands[k] != c;
        }
      } else {
        WaterfallStops(db', cands[1..], rest, now, j - 1);
        forall k | j < k < |cands| ensures r.db.loans[cands[k]] == db.loans[cands[k]] {
          assert cands[1..][k - 1] == cands[k];
          assert cands[k] != c;
        }
      }
    }
  }

  /**
   * From position `n` on, the journal holds one loan update per candidate in candidate
   * order, each carrying that candidate's row in `loans`.
   */
  predicate WritesInOrder(journal: seq<Write>, loans: seq<Loan>, cands: seq<nat>, n: nat)
    requires InRange(loans, cands) && n <= |journal| <= n + |cands|
  {
    forall k :: 0 <= k < |journal| - n ==> journal[n + k] == LoanUpdate(loans[cands[k]])
  }

  /**
   * The journal of a waterfall over distinct candidates: the k-th appended write is the
   * update of the k-th candidate, carrying that loan's final row.
   */
  lemma {:induction false} WaterfallJournal(db: Db, cands: seq<nat>, remaining: real, now: int)
    requires InRange(db.loans, cands) && Distinct(cands)
    ensures var r := Waterfall(db, cands, remaining, now);
      WritesInOrder(r.db.journal, r.db.loans, cands, |db.journal|)
    decreases |cands|
  {
    if cands != [] && remaining > 0.0 {
      DistinctTail(cands);
      var c := cands[0];
      var n := |db.journal|;
      var step := PayLoan(db.loans[c], remaining, now);
      var db' := db.UpdateLoan(c, step.loan);
      var rest := remaining - step.applied;
      var r := Waterfall(db', cands[1..], rest, now);
      assert Waterfall(db, cands, remaining, now) == r by {
        WaterfallStep(db, cands, remaining, now);
      }
      assert WritesInOrder(r.db.journal, r.db.loans, cands, n) by {
        assert |db'.journal| == n + 1;
        WaterfallJournal(db', cands[1..], rest, now);
        WaterfallSkips(db', cands[1..], rest, now, c);
        assert r.db.journal[n] == LoanUpdate(step.loan) by {
          WaterfallLog(db', cands[1..], rest, now);
          assert r.db.journal[n] == r.db.journal[..n + 1][n];
        }
        JournalShift(r.db.journal, r.db.loans, cands, n);
      }
    } else {
      assert |Waterfall(db, cands, remaining, now).db.journal| == |db.journal|;
    }
  }

  /** The write-order fact for a candidate list, from its head's write and its tail's order. */
  lemma JournalShift(journal: seq<Write>, loans: seq<Loan>, cands: seq<nat>, n: nat)
    requires InRange(loans, cands) && n < |journal| <= n + |cands|
    requires journal[n] == LoanUpdate(loans[cands[0]])
    requires WritesInOrder(journal, loans, cands[1..], n + 1)
    ensures WritesInOrder(journal, loans, cands, n)
  {
    forall k | 0 < k < |journal| - n ensures journal[n + k] == LoanUpdate(loans[cands[k]]) {
      assert cands[1..][k - 1] == cands[k];
      assert n + k == n + 1 + (k - 1);
    }
  }

  /** The candidates after the last one the waterfall wrote are untouched. */
  lemma {:induction false} WaterfallUntouchedAfter(db: Db, cands: seq<nat>, remaining: real, now: int)
    requires InRange(db.loans, cands) && Distinct(cands)
    ensures var r := Waterfall(db, cands, remaining, now);
      forall k :: |r.db.journal| - |db.journal| <= k < |cands| ==> r.db.loans[cands[k]] == db.loans[cands[k]]
    decreases |cands|
  {
    if cands != [] && remaining > 0.0 {
      DistinctTail(cands);
      var c := cands[0];
      var step := PayLoan(db.loans[c], remaining, now);
      var db' := db.UpdateLoan(c, step.loan);
      var rest := remaining - step.applied;
      var r := Waterfall(db', cands[1..], rest, now);
      WaterfallStep(db, cands, remaining, now);
      WaterfallUntouchedAfter(db', cands[1..], rest, now);
      forall k | |r.db.journal| - |db.journal| <= k < |cands|
        ensures r.db.loans[cands[k]] == db.loans[cands[k]]
      {
        assert cands[1..][k - 1] == cands[k];
        assert cands[k] != c;
      }
    }
  }

  /** Among `count` candidates, each row is completed exactly when it owes nothing. */
  predicate SettledExactlyWhenPaid(loans: seq<Loan>, cands: seq<nat>, count: int)
    requires InRange(loans, cands) && count <= |cands|
  {
    forall k :: 0 <= k < count ==> (loans[cands[k]].status == LoanStatus.Completed <==> loans[cands[k]].balance <= 0.0)
  }

  /**
   * Over distinct candidates, every loan the waterfall wrote ends completed exactly when it
   * owes nothing: the status column is always derived from the new balance.
   */
  lemma {:induction false} WaterfallWritesStatus(db: Db, cands: seq<nat>, remaining: real, now: int)
    requires InRange(db.loans, cands) && Distinct(cands)
    ensures var r := Waterfall(db, cands, remaining, now);
      SettledExactlyWhenPaid(r.db.loans, cands, |r.db.journal| - |db.journal|)
    decreases |cands|
  {
    if cands != [] && remaining > 0.0 {
      DistinctTail(cands);
      var c := cands[0];
      var step := PayLoan(db.loans[c], remaining, now);
      var db' := db.UpdateLoan(c, step.loan);
      var rest := remaining - step.applied;
      var r := Waterfall(db', cands[1..], rest, now);
      assert Waterfall(db, cands, remaining, now) == r by {
        WaterfallStep(db, cands, remaining, now);
      }
      assert SettledExactlyWhenPaid(r.db.loans, cands, |r.db.journal| - |db.journal|) by {
        assert |db'.journal| == |db.journal| + 1;
        WaterfallWritesStatus(db', cands[1..], rest, now);
        WaterfallSkips(db', cands[1..], rest, now, c);
        forall k | 0 < k < |r.db.journal| - |db.journal|
          ensures r.db.loans[cands[k]].status == LoanStatus.Completed <==> r.db.loans[cands[k]].balance <= 0.0
        {
          assert cands[1..][k - 1] == cands[k];
        }
      }
    } else {
      assert |Waterfall(db, cands, remaining, now).db.journal| == |db.journal|;
    }
  }

  /**
   * Settlement never takes a loan out of `completed`: a completed loan owes nothing, so
   * paying into it leaves its balance at zero and its status completed; and every row
   * the waterfall writes is completed exactly when it owes nothing.
   */
  lemma {:induction false} WaterfallKeepsCompleted(db: Db, cands: seq<nat>, remaining: real, now: int)
    requires InRange(db.loans, cands) && CompletedOwesNothing(db.loans)
    ensures var r := Waterfall(db, cands, remaining, now);
      && CompletedOwesNothing(r.db.loans)
      && forall i :: 0 <= i < |db.loans| && db.loans[i].status == LoanStatus.Completed ==>
           r.db.loans[i].status == LoanStatus.Completed
    decreases |cands|
  {
    if cands != [] && remaining > 0.0 {
      var c := cands[0];
      var step := PayLoan(db.loans[c], remaining, now);
      var db' := db.UpdateLoan(c, step.loan);
      var rest := remaining - step.applied;
      assert Waterfall(db, cands, remaining, now) == Waterfall(db', cands[1..], rest, now);
      if db.loans[c].status == LoanStatus.Completed {
        assert step.loan.balance == 0.0;
      }
      assert CompletedOwesNothing(db'.loans) by {
        forall i | 0 <= i < |db'.loans| && db'.loans[i].status == LoanStatus.Completed
          ensures db'.loans[i].balance <= 0.0
        {
          if i != c {
            assert db'.loans[i] == db.loans[i];
          }
        }
      }
      assert forall i :: 0 <= i < |db.loans| && db.loans[i].status == LoanStatus.Completed ==>
        db'.loans[i].status == LoanStatus.Completed;
      WaterfallKeepsCompleted(db', cands[1..], rest, now);
    }
  }

  /**
   * The status change is not monotone for defaulted loans: a defaulted loan that a payment
   * does not pay off is written back as active.
   */
  lemma PayLoanReactivatesDefaulted(loan: Loan, remaining: real, now: int)
    requires loan.status == Defaulted && 0.0 < remaining < loan.balance
    ensures PayLoan(loan, remaining, now).loan.status == Active
    ensures PayLoan(loan, remaining, now).loan.balance == loan.balance - remaining
  {
  }

  /**
   * Money left over after the last candidate means every candidate was paid off: all of
   * them are completed with nothing owing. The surplus is credited nowhere.
   */
  lemma {:induction false} WaterfallSurplus(db: Db, cands: seq<nat>, remaining: real, now: int)
    requires InRange(db.loans, cands) && Distinct(cands)
    requires Waterfall(db, cands, remaining, now).remaining > 0.0
    ensures var r := Waterfall(db, cands, remaining, now);
      forall k :: 0 <= k < |cands| ==>
        r.db.loans[cands[k]].balance == 0.0 && r.db.loans[cands[k]].status == LoanStatus.Completed
    decreases |cands|
  {
    if cands != [] {
      DistinctTail(cands);
      var c := cands[0];
      var step := PayLoan(db.loans[c], remaining, now);
      var db' := db.UpdateLoan(c, step.loan);
      var rest := remaining - step.applied;
      var r := Waterfall(db', cands[1..], rest, now);
      WaterfallFrame(db', cands[1..], rest, now);
      assert r == Waterfall(db, cands, remaining, now);
      assert r.db.loans[c] == step.loan;
      assert step.loan.balance == 0.0;
      WaterfallSurplus(db', cands[1..], rest, now);
      forall k | 0 < k < |cands|
        ensures r.db.loans[cands[k]].balance == 0.0 && r.db.loans[cands[k]].status == LoanStatus.Completed
      {
        assert cands[1..][k - 1] == cands[k];
      }
    }
  }
}
