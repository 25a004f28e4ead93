# Pay-as-you-go device loans: payment settlement, in Dafny

This project models the money path of a pay-as-you-go device financing backend:

- customers buy devices on loan;
- each confirmed payment issues a six-digit unlock token;
- the agent who placed the device earns a commission;
- the payment is spread over the customer's loans.

The activation-code client the backend uses to talk to the device maker is modelled too.

The modules, in dependency order:

- `Common` (common.dfy) holds the shared vocabulary: optional values, response results, identifiers, roles, and calendar dates with "one month later".
- `Store` (store.dfy) holds the tables the code reads and writes.
  - `Db` is a value snapshot of those tables.
  - `Database` is a class with the same tables as fields, which the handlers update in place.
  - Every write is also appended to a journal, so the order of the writes is part of the state.
- `Allocation` (allocation.dfy) chooses which loans a payment goes to and runs the waterfall over them. The waterfall pays `min(remaining, balance)` into each loan in turn, completes a loan once its balance is gone, and otherwise moves its due date one month.
- `PaymentService` (payment_service.dfy) is the settlement routine `handleSuccessfulPayment` and the token generator.
- `Payments` (payments.dfy) holds the two payment-confirmation handlers, manual entry and Paystack verification. Each is split into a pure decision and the writes it triggers.
- `Loans` (loans.dfy) covers loan creation and the read rule for a single loan.
- `Biolite` (biolite.dfy) is the activation-code client. It keeps a cached access token with an expiry, and it sends code requests.

## How the code behaves

The model follows the code:

- A commission is due only when the device's assigning user has the role `agent` and an individual rate above zero. There is no fallback to a default rate, and no super-agent share.
- The due date always moves exactly one calendar month, whatever the payment frequency.
- The writes of one settlement are separate statements with no transaction around them.
- Money left over after every candidate loan is paid off is credited nowhere.
- The manual handler checks that the named loan exists, not that it belongs to the paying customer. A payment naming another customer's loan is recorded and gets a token, but credits no loan (`Payments.ManualForeignLoanCreditsNothing`).
- Loan creation does not check that the down payment is at most the price (routes/loans.js:30), so a loan can start active with a negative balance. The waterfall then applies that negative balance as the amount for the loan: its amount paid goes down, and later loans receive more than the payment. `Allocation.WaterfallAccounts` bounds only the total, and `Allocation.WaterfallMonotone` assumes non-negative balances.
- A completed loan stays completed through any settlement (`PaymentService.SettlementKeepsCompleted`). The status is not monotone for defaulted loans: a manual payment naming a defaulted loan that leaves money owing writes it back as active (`Allocation.PayLoanReactivatesDefaulted`).

Some modelling choices:

- Loans created by `POST /loans` leave `payment_cycle_amount` NULL. JavaScript compares `amount < null` as `amount < 0`, so the minimum-payment check lets any non-negative amount through for them (`Payments.CycleFloor`).
- The active-loan query is written with an unquoted `active`, and the customer check of loan creation with an unquoted `customer` (routes/loans.js:20). Both are modelled as their intended string comparisons.
- Rows with equal `created_at` are taken in table order.
- The device query of the commission rule has no ORDER BY, and the code takes its first row. The model takes the first matching device in table order (`PaymentService.FirstAssignedDevice`). When a customer holds devices placed by two agents, this choice decides which agent is paid.
- Identifiers are UUIDs in the database. Here they are naturals drawn from one counter. An id field that is absent, null or empty is `None`.
- The table constraints are modelled as responses: an insert that breaks the UNIQUE `transaction_id`, the NOT NULL `user_id` or the users foreign key ends in a 500 and writes nothing.
- The clock, `Math.random`, the Paystack verify call and the activation provider's answers are parameters of the operations.

## Model

| member | source | states |
|---|---|---|
| Common.AddOneMonth | services/paymentService.js:86-90 | the new due date is the same day of the next calendar month (month index + 1), carrying into the next year after December |
| Allocation.LoanIndex | routes/payments.js:19-22 | the position found holds the requested id; none means no row has that id |
| Allocation.SpecificLoan | services/paymentService.js:57-64 | at most one candidate, which has the requested id and belongs to the paying customer; no candidate exactly when no row with that id belongs to them |
| Allocation.ActiveOldestFirst | services/paymentService.js:65-72 | every active loan of the customer, and only those, ordered strictly by creation time |
| Allocation.Candidates | services/paymentService.js:56-72 | the named loan when a loan id is given, else the active loans oldest first; each position at most once |
| Allocation.PayLoan | services/paymentService.js:79-95 | applies at most the remaining amount and at most the balance; paid + balance is preserved; completed exactly when nothing is owed, otherwise active with the due date one month later; a completed loan keeps its date; the other columns are unchanged |
| Allocation.Waterfall | services/paymentService.js:74-99 | the loan table keeps its length; at most one write per candidate is appended; the leftover of a positive payment is never negative; with nothing to apply, nothing changes |
| Allocation.WaterfallFrame | services/paymentService.js:74-99 | only the loan table changes; loans that are not candidates are untouched; written rows keep their id, customer, device, total, term, monthly and down payment, cycle amount and creation time; each loan keeps paid + balance |
| Allocation.WaterfallLog | services/paymentService.js:76-95 | the journal written so far is kept, and only loan updates are appended to it |
| Allocation.WaterfallJournal | services/paymentService.js:76-95 | over distinct candidates, the k-th appended write is the update of the k-th candidate and carries its final row |
| Allocation.WaterfallUntouchedAfter | services/paymentService.js:76-98 | over distinct candidates, those after the last one written leave the loop as they came in |
| Allocation.WaterfallKeepsCompleted | services/paymentService.js:79-95 | every completed row owes nothing, before and after, and a loan completed before the waterfall is still completed after it |
| Allocation.WaterfallWritesStatus | services/paymentService.js:79-82 | over distinct candidates, every loan the waterfall wrote ends completed exactly when it owes nothing |
| Allocation.PayLoanReactivatesDefaulted | services/paymentService.js:82 | a defaulted loan that a payment does not pay off is written back as active, owing the balance less the payment |
| Allocation.WaterfallAccounts | services/paymentService.js:74-99 | the increase in paid over the candidates equals the payment minus the leftover; the leftover is non-negative, so in total the loans never receive more than was paid |
| Allocation.WaterfallMonotone | services/paymentService.js:79-81 | with non-negative balances, no candidate's amount paid goes down and no balance goes negative |
| Allocation.WaterfallStops | services/paymentService.js:77-98 | once a candidate is left owing, nothing is left over and every later candidate is untouched |
| Allocation.WaterfallSurplus | services/paymentService.js:74-99 | a positive leftover means every candidate ended completed with balance 0 |
| PaymentService.DecimalString | services/paymentService.js:6 | `toString` of a natural: at least one decimal digit, no leading zero |
| PaymentService.DecimalRoundTrip | services/paymentService.js:6 | reading back the digits written for n gives n |
| PaymentService.DecimalLength | services/paymentService.js:6 | a number between 10^k and 10^(k+1) is written with k + 1 digits |
| PaymentService.TokenValue | services/paymentService.js:6 | `floor(100000 + r * 900000)` for `0 <= r < 1` lies in 100000..999999 |
| PaymentService.GenerateToken | services/paymentService.js:4-7 | the token is six decimal digits, not starting with 0, and its value is in 100000..999999 |
| PaymentService.FirstAssignedDevice | services/paymentService.js:33-39 | the first device assigned to the customer with a non-null assigner; no earlier one qualifies; none means no device qualifies |
| PaymentService.ShareBounded | services/paymentService.js:45 | a rate of 0..100 percent of a non-negative amount lies between 0 and the amount |
| PaymentService.CommissionFor | services/paymentService.js:38-52 | a commission row exactly when the assigner is an agent with a positive rate; it names that agent, the customer and the payment, records the rate, and its amount is amount × rate / 100 |
| PaymentService.Settlement | services/paymentService.js:9-106 | one token row for the payment expiring 24 h after issue; the commission row if due; users, devices, payments and ids unchanged; loans outside the candidates unchanged; paid + balance preserved for every loan |
| PaymentService.SettlementWriteOrder | services/paymentService.js:11-99 | earlier writes are kept; the token is written first, then at most one commission, then only loan updates |
| PaymentService.SettlementKeepsValid | services/paymentService.js:55-99 | settlement keeps loan ids unique, the id counter and commission rates valid, and completed loans owing nothing |
| PaymentService.SettlementKeepsCompleted | services/paymentService.js:74-99 | a loan completed before a settlement is still completed after it, and completed loans still owe nothing |
| PaymentService.ApplyToLoans | services/paymentService.js:74-99 | the loop over the candidates leaves the tables exactly as the waterfall specifies |
| PaymentService.HandleSuccessfulPayment | services/paymentService.js:9-101 | returns the generated token, which is the one recorded last, and leaves the tables as `Settlement` specifies |
| Payments.ManualDecision | routes/payments.js:12-47 | 400 without a loan id; 404 for an unknown loan; 400 below the cycle amount; 404 when the user is not a customer; 500 on a reused transaction id; otherwise records exactly when all gates pass, with the next id, defaults NGN and manual, status completed and the named loan |
| Payments.PostManual | routes/payments.js:12-47 | the response follows the decision; the tables are unchanged on a rejection, else the payment is inserted and then settled with its amount and loan; the table invariants are kept |
| Payments.AfterPaymentKeepsValid | routes/payments.js:35-40 | inserting a payment under the next id and settling it keeps loan ids unique, ids below the counter, rates in 0..100 and completed loans owing nothing |
| Payments.ManualSettlesNamedLoan | routes/payments.js:35-40 | an accepted manual payment appends one payment and one token, and changes no loan other than the named one |
| Payments.ManualForeignLoanCreditsNothing | routes/payments.js:19-40 | a manual payment naming another customer's loan is recorded but leaves every loan unchanged |
| Payments.PaystackDecision | routes/payments.js:52-88 | 400 without a reference; 500 when verification gives no answer; 400 unless the status is true and the data status is "success"; 500 when the user is missing or unknown or the reference is already recorded; otherwise records amount = kobo / 100, the reply's currency, method paystack, the reference, status completed and no loan |
| Payments.PostPaystackVerify | routes/payments.js:52-88 | the response follows the decision; the tables are unchanged on a rejection, else the payment is inserted and settled over the active loans; the table invariants are kept |
| Payments.PaystackReferenceSettlesOnce | routes/payments.js:73-76 | once a reference is recorded, verifying it again is rejected and changes nothing |
| Loans.NewLoan | routes/loans.js:10-45 | 400 unless all four required fields are given and non-zero; 404 for a non-customer or an unknown device; otherwise succeeds, and the new loan owes price − down payment, counts the down payment as paid (paid + balance = price), has monthly × term = total, is active, has no cycle amount and is due one month from today |
| Loans.PostLoan | routes/loans.js:35-38 | the new loan is inserted exactly when the decision succeeds; nothing changes otherwise; the table invariants are kept |
| Loans.NewLoanKeepsValid | routes/loans.js:35-38 | inserting the new loan keeps loan ids unique |
| Loans.GetLoan | routes/loans.js:63-83 | 404 for an unknown id; 403 exactly when a customer asks for another customer's loan; otherwise the loan with that id |
| Biolite.AccessStep | services/bioliteService.js:19-53 | a live non-empty cached token is returned with no request; otherwise, unless signing the JWT throws, one auth request is sent; on success the token is cached until 55 minutes after it arrived and is returned; on any failure the cache is unchanged and the error message is the authentication one |
| Biolite.GenerateCodeSpec | services/bioliteService.js:63-83 | the token step runs first; on its success exactly one code request follows with the caller's fields and that token; it succeeds exactly when both steps do, returning the reply data unchanged; every failure carries the one code-generation message; a fresh token stays cached |
| Biolite.CodeRequestAfterToken | services/bioliteService.js:65-76 | at most two requests; any auth request comes first; the code request is last and carries the cached token |
| Biolite.NoReauthWhileLive | services/bioliteService.js:21-24 | while a non-empty token is live, any number of calls send nothing, keep the cache and all return that token |
| Biolite.FreshTokenLifetime | services/bioliteService.js:44-45 | a freshly obtained non-empty token is reused exactly by calls made before 55 minutes after its arrival |
| Biolite.FailedAuthIsInvisible | services/bioliteService.js:44-51 | a failed authentication throws and leaves the cache as if it had not been made |
| Biolite.BioliteClient.constructor | services/bioliteService.js:10-11 | the client starts with no token and expiry 0, so nothing is reusable |
| Biolite.BioliteClient.GetAccessToken | services/bioliteService.js:19-53 | cache, sent requests and result follow `AccessStep` |
| Biolite.BioliteClient.GenerateCode | services/bioliteService.js:63-83 | cache, sent requests and result follow `GenerateCodeSpec` |

## Left out

- The SMS lookup of the phone number and the logging (services/paymentService.js:19-29) are left out. They write nothing; the SMS send itself is commented out in the code.
- Money is exact (`real`). JavaScript's floating-point rounding, `parseFloat` of DECIMAL strings and string-to-number coercion of request fields are not modelled. Neither is the rounding to cents of the DECIMAL(10,2) columns `payments.amount`, `commissions.amount`, `loans.amount_paid` and `loans.balance`: a commission of 333 × 2.5 / 100 = 8.325 is kept exactly, where the database stores 8.33.
- Loans.NewLoan: monthly × term = total is stated of the exact quotient. The stored `monthly_payment` is DECIMAL(10,2) and is rounded to cents.
- Body fields that are malformed or non-numeric, and malformed UUIDs, are not modelled. In the manual handler the queries before its `try` would reject outside any handler.
- `Date.setMonth` overflow, such as 31 January becoming 3 March, is not modelled. `AddOneMonth` keeps the day number.
- SQL text, the database driver, authentication middleware and role authorization are not modelled. Requests are taken to have passed the route's `auth` and `authorize` checks.
- The settings table and the super-agent split are not modelled: the code never reads them. The same goes for `payment_frequency`.
- `guarantor_details` is not modelled. It is stored but has no behaviour.
- Concurrency between requests, and the absence of a transaction, are not modelled. Each handler runs alone, and every database write succeeds. A write failing part-way through a settlement, which would leave a recorded payment with a 500 response, is not modelled.
- `Biolite.AccessStep` checks the cache and signs the authentication JWT at the same clock reading `now`. The JWT's other claims, its signature and its random `jti` are not modelled.
- Biolite: `response.data.token` is always a string in the model. An answer without a token is not modelled.
- The other routes (admin, analytics, agents, devices, users, inventory) are not part of this model. The one exception: commission rates stay within 0..100, which is the range the admin route enforces, and this is kept as a table invariant.
