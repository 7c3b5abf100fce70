/** Sums over finite maps. */
module MapSum {

  ghost function Sum(m: map<string, int>): int
    decreases |m|
  {
    if m == map[] then 0
    else
      var k :| k in m;
      m[k] + Sum(m - {k})
  }

  /** Any element may be taken out first. */
  lemma {:induction false} SumTake(m: map<string, int>, k: string)
    requires k in m
    ensures Sum(m) == m[k] + Sum(m - {k})
    decreases |m|
  {
    var first :| first in m && Sum(m) == m[first] + Sum(m - {first});
    if first != k {
      SumTake(m - {first}, k);
      SumTake(m - {k}, first);
      assert m - {first} - {k} == m - {k} - {first};
    }
  }

  /** Setting a key replaces its contribution. */
  lemma SumSet(m: map<string, int>, k: string, v: int)
    ensures Sum(m[k := v]) == Sum(m) + v - (if k in m then m[k] else 0)
  {
    SumTake(m[k := v], k);
    if k in m {
      SumTake(m, k);
      assert m[k := v] - {k} == m - {k};
    } else {
      assert m[k := v] - {k} == m;
    }
  }

  lemma {:induction false} SumDifference(m: map<string, int>, a: map<string, int>, b: map<string, int>)
    requires m.Keys == a.Keys == b.Keys && forall k :: k in m ==> m[k] == a[k] - b[k]
    ensures Sum(m) == Sum(a) - Sum(b)
    decreases |m|
  {
    if m == map[] {
      assert a == map[] && b == map[];
    } else {
      var k :| k in m;
      SumTake(m, k);
      SumTake(a, k);
      SumTake(b, k);
      SumDifference(m - {k}, a - {k}, b - {k});
    }
  }

  lemma {:induction false} SumNonNegative(m: map<string, int>)
    requires forall k :: k in m ==> m[k] >= 0
    ensures Sum(m) >= 0
    decreases |m|
  {
    if m != map[] {
      var k :| k in m;
      SumTake(m, k);
      SumNonNegative(m - {k});
    }
  }
}

/** The payments API: a ledger that handlers update after a single await. */
module Payments {
  import opened MapSum

  datatype Option<+T> = None | Some(value: T)
  datatype Currency = USD | EUR | GBP
  datatype Method = Card | BankTransfer | Wallet | DirectDebit
  datatype Status = Authorized | Captured | Declined | Refunded | PartiallyRefunded
  datatype FailureMode = Hangup | Timeout | Status502

  datatype Payment = Payment(status: Status, amount: int, captured: int, refunded: int, currency: Currency, payMethod: Method)
  datatype Refund = Refund(paymentId: string, amount: int, currency: Currency)
  datatype Payout = Payout(amount: int, currency: Currency)

  /** Validated request bodies: amounts, when given, are positive. */
  datatype Request =
    | Charge(amount: int, currency: Currency, payMethod: Method, capture: bool, key: Option<string>)
    | CapturePayment(paymentId: string, captureAmount: Option<int>)
    | CreateRefund(paymentId: string, refundAmount: Option<int>)
    | CreatePayout(payoutAmount: int, payoutCurrency: Currency)
    | GetBalance(balanceCurrency: Currency)
  {
    ghost predicate Valid() {
      match this
      case Charge(a, _, _, _, _) => a > 0
      case CapturePayment(_, a) => a.Some? ==> a.value > 0
      case CreateRefund(_, a) => a.Some? ==> a.value > 0
      case CreatePayout(a, _) => a > 0
      case GetBalance(_) => true
    }
  }

  datatype Error =
    | PaymentNotFound | PaymentNotCapturable | CaptureExceedsAuthorization
    | PaymentNotRefundable | RefundExceedsCaptured | UpstreamUnavailable | ConnectionDropped

  datatype Response =
    | PaymentResponse(id: string, payment: Payment)
    | RefundResponse(refund: Refund)
    | PayoutResponse(payout: Payout)
    | BalanceResponse(available: int, pending: int)
    | Failed(error: Error)

  /** The ledger's dictionaries. */
  datatype Books = Books(payments: map<string, Payment>, refunds: map<string, Refund>, payouts: map<string, Payout>,
                         byKey: map<string, string>)

  const EMPTY := Books(map[], map[], map[], map[])
  const DECLINE_THRESHOLD: int := 100_000

  // ----- The atomic halves -----

  function KeyOf(r: Request): Option<string> {
    if r.Charge? && r.key.Some? && r.key.value != "" then r.key else None
  }

  function NewPayment(r: Request): Payment
    requires r.Charge?
  {
    var declined := r.payMethod == Card && r.amount >= DECLINE_THRESHOLD;
    Payment(if declined then Declined else if r.capture then Captured else Authorized,
            r.amount, if r.capture && !declined then r.amount else 0, 0, r.currency, r.payMethod)
  }

  /** Whether a charge creates a payment rather than replaying one. */
  predicate Creates(b: Books, r: Request) { r.Charge? && (KeyOf(r).None? || KeyOf(r).value !in b.byKey) }

  /** What each handler does after its await. `id` is the identifier it draws. */
  ghost function Handle(b: Books, r: Request, id: string): (Books, Response) {
    match r
    case Charge(_, _, _, _, _) =>
      if !Creates(b, r) then
        var existing := b.byKey[KeyOf(r).value];
        (b, if existing in b.payments then PaymentResponse(existing, b.payments[existing]) else Failed(PaymentNotFound))
      else
        var p := NewPayment(r);
        (b.(payments := b.payments[id := p], byKey := if KeyOf(r).Some? then b.byKey[KeyOf(r).value := id] else b.byKey),
         PaymentResponse(id, p))
    case CapturePayment(pid, given) =>
      if pid !in b.payments then (b, Failed(PaymentNotFound))
      else
        var p := b.payments[pid];
        var amount := if given.Some? then given.value else p.amount;
        if p.status != Authorized then (b, Failed(PaymentNotCapturable))
        else if amount > p.amount then (b, Failed(CaptureExceedsAuthorization))
        else
          var p' := p.(status := Captured, captured := amount);
          (b.(payments := b.payments[pid := p']), PaymentResponse(pid, p'))
    case CreateRefund(pid, given) =>
      if pid !in b.payments then (b, Failed(PaymentNotFound))
      else
        var p := b.payments[pid];
        var refundable := p.captured - p.refunded;
        var amount := if given.Some? then given.value else refundable;
        if refundable <= 0 then (b, Failed(PaymentNotRefundable))
        else if amount > refundable then (b, Failed(RefundExceedsCaptured))
        else
          var total := p.refunded + amount;
          var p' := p.(refunded := total, status := if total >= p.captured then Refunded else PartiallyRefunded);
          var refund := Refund(pid, amount, p.currency);
          (b.(payments := b.payments[pid := p'], refunds := b.refunds[id := refund]), RefundResponse(refund))
    case CreatePayout(amount, currency) =>
      var payout := Payout(amount, currency);
      (b.(payouts := b.payouts[id := payout]), PayoutResponse(payout))
    case GetBalance(currency) =>
      var net, out := Net(b, currency), PaidOut(b, currency);
      (b, BalanceResponse(if net - out > 0 then net - out else 0, out))
  }

  // ----- Sums per currency and per payment -----

  ghost function Net(b: Books, c: Currency): int { Sum(NetIn(b, c)) }

  ghost function NetIn(b: Books, c: Currency): map<string, int> {
    map id | id in b.payments && b.payments[id].currency == c :: b.payments[id].captured - b.payments[id].refunded
  }

  ghost function PaidOut(b: Books, c: Currency): int {
    Sum(map id | id in b.payouts && b.payouts[id].currency == c :: b.payouts[id].amount)
  }

  ghost function TotalCaptured(b: Books, c: Currency): int { Sum(CapturedIn(b, c)) }

  ghost function TotalRefunds(b: Books, c: Currency): int { Sum(RefundsIn(b, c)) }

  ghost function RefundsIn(b: Books, c: Currency): map<string, int> {
    map id | id in b.refunds && b.refunds[id].currency == c :: b.refunds[id].amount
  }

  ghost function RefundsOf(b: Books, pid: string): int { Sum(RefundAmounts(b, pid)) }

  ghost function RefundAmounts(b: Books, pid: string): map<string, int> {
    map id | id in b.refunds && b.refunds[id].paymentId == pid :: b.refunds[id].amount
  }

  ghost function CapturedIn(b: Books, c: Currency): map<string, int> {
    map id | id in b.payments && b.payments[id].currency == c :: b.payments[id].captured
  }

  ghost function RefundedIn(b: Books, c: Currency): map<string, int> {
    map id | id in b.payments && b.payments[id].currency == c :: b.payments[id].refunded
  }

  // ----- What the books keep -----

  /** The amounts of a payment and the status that goes with them. */
  predicate PaymentOk(p: Payment) {
    && 0 <= p.refunded <= p.captured <= p.amount && p.amount > 0
    && match p.status
       case Authorized => p.captured == 0
       case Declined => p.captured == 0
       case Captured => p.captured > 0 && p.refunded == 0
       case PartiallyRefunded => 0 < p.refunded < p.captured
       case Refunded => 0 < p.refunded == p.captured
  }

  /** Every payment is in order and its refunded total is the sum of its recorded refunds. */
  ghost predicate AmountsOk(b: Books) {
    && (forall id :: id in b.payments ==> PaymentOk(b.payments[id]) && b.payments[id].refunded == RefundsOf(b, id))
    && (forall id :: id in b.refunds ==> b.refunds[id].paymentId in b.payments)
  }

  ghost predicate CurrenciesOk(b: Books) {
    forall c :: Sum(RefundedIn(b, c)) == TotalRefunds(b, c)
  }

  /** Keys lead to payments, distinct keys to distinct ones. */
  ghost predicate KeysOk(b: Books) {
    && (forall k :: k in b.byKey ==> b.byKey[k] in b.payments)
    && (forall k, k' :: k in b.byKey && k' in b.byKey && k != k' ==> b.byKey[k] != b.byKey[k'])
  }

  ghost predicate BooksOk(b: Books) { AmountsOk(b) && CurrenciesOk(b) && KeysOk(b) }

  /** Statuses move only along authorize, capture, partial refund, refund. */
  predicate Forward(s: Status, s': Status) {
    || s == s'
    || (s == Authorized && s' != Declined)
    || (s == Captured && (s' == PartiallyRefunded || s' == Refunded))
    || (s == PartiallyRefunded && s' == Refunded)
  }

  /** What never goes back: payments stay, their totals and statuses only advance, and keys keep
      their payment. */
  ghost predicate Advances(b: Books, b': Books) {
    && (forall id :: id in b.payments ==> id in b'.payments && PaymentAdvances(b.payments[id], b'.payments[id]))
    && (forall k :: k in b.byKey ==> k in b'.byKey && b'.byKey[k] == b.byKey[k])
  }

  predicate PaymentAdvances(p: Payment, p': Payment) {
    && p'.amount == p.amount && p'.currency == p.currency && p'.payMethod == p.payMethod
    && p'.captured >= p.captured && p'.refunded >= p.refunded && Forward(p.status, p'.status)
  }

  /** An identifier no entry of the books uses. */
  predicate Fresh(b: Books, id: string) { id !in b.payments && id !in b.refunds && id !in b.payouts }

  lemma PaymentSet(b: Books, b': Books, pid: string, p: Payment, c: Currency)
    requires b' == b.(payments := b.payments[pid := p]) && (pid in b.payments ==> p.currency == b.payments[pid].currency)
    ensures Sum(RefundedIn(b', c)) == Sum(RefundedIn(b, c)) +
              (if p.currency == c then p.refunded - (if pid in b.payments then b.payments[pid].refunded else 0) else 0)
  {
    if p.currency == c {
      SumSet(RefundedIn(b, c), pid, p.refunded);
      assert RefundedIn(b', c) == RefundedIn(b, c)[pid := p.refunded];
    } else {
      assert RefundedIn(b', c) == RefundedIn(b, c);
    }
  }

  lemma SameRefunds(b: Books, b': Books)
    requires b'.refunds == b.refunds
    ensures forall pid :: RefundsOf(b', pid) == RefundsOf(b, pid)
    ensures forall c :: TotalRefunds(b', c) == TotalRefunds(b, c)
  {
    forall pid ensures RefundsOf(b', pid) == RefundsOf(b, pid) {
      assert RefundAmounts(b', pid) == RefundAmounts(b, pid);
    }
  }

  lemma UnusedHasNoRefunds(b: Books, pid: string)
    requires BooksOk(b) && pid !in b.payments
    ensures RefundsOf(b, pid) == 0
  {
    assert RefundAmounts(b, pid) == map[];
  }

  // ----- Each handler keeps the books -----

  lemma AdvancesBySetting(b: Books, b': Books, pid: string, p: Payment)
    requires b'.payments == b.payments[pid := p] && b'.byKey == b.byKey
    requires pid in b.payments && PaymentAdvances(b.payments[pid], p)
    ensures Advances(b, b')
  {
  }

  lemma AdvancesByAdding(b: Books, b': Books, id: string, p: Payment)
    requires b'.payments == b.payments[id := p] && id !in b.payments
    requires forall k :: k in b.byKey ==> k in b'.byKey && b'.byKey[k] == b.byKey[k]
    ensures Advances(b, b')
  {
  }

  /** Setting a payment, new or not, keeps the currency totals up to the refund it records. */
  lemma CurrenciesAfter(b: Books, b': Books, pid: string, p: Payment)
    requires CurrenciesOk(b) && b'.payments == b.payments[pid := p] && (pid in b.payments ==> p.currency == b.payments[pid].currency)
    requires forall c :: TotalRefunds(b', c) == TotalRefunds(b, c)
               + if p.currency == c then p.refunded - (if pid in b.payments then b.payments[pid].refunded else 0) else 0
    ensures CurrenciesOk(b')
  {
    hide Sum, TotalRefunds;
    forall c ensures Sum(RefundedIn(b', c)) == TotalRefunds(b', c) {
      var middle := b.(payments := b'.payments);
      PaymentSet(b, middle, pid, p, c);
      assert RefundedIn(b', c) == RefundedIn(middle, c);
    }
  }

  /** The same for the payments and their refunds. */
  lemma AmountsAfter(b: Books, b': Books, pid: string, p: Payment)
    requires AmountsOk(b) && b'.payments == b.payments[pid := p] && PaymentOk(p)
    requires pid in b.payments || RefundsOf(b, pid) == 0
    requires forall q :: RefundsOf(b', q) == RefundsOf(b, q)
               + if q == pid then p.refunded - (if pid in b.payments then b.payments[pid].refunded else 0) else 0
    requires forall id :: id in b'.refunds ==> b'.refunds[id].paymentId in b'.payments
    ensures AmountsOk(b')
  {
    hide RefundsOf, PaymentOk;
  }

  lemma ChargeKeeps(b: Books, r: Request, id: string)
    requires BooksOk(b) && r.Charge? && r.Valid() && Fresh(b, id)
    ensures BooksOk(Handle(b, r, id).0) && Advances(b, Handle(b, r, id).0)
  {
    var b' := Handle(b, r, id).0;
    if Creates(b, r) {
      UnusedHasNoRefunds(b, id);
      SameRefunds(b, b');
      ChargedBooks(b, b', id, NewPayment(r), KeyOf(r));
    }
  }

  lemma ChargedBooks(b: Books, b': Books, id: string, p: Payment, key: Option<string>)
    requires BooksOk(b) && Fresh(b, id) && PaymentOk(p) && p.refunded == 0 && (key.Some? ==> key.value !in b.byKey)
    requires b' == b.(payments := b.payments[id := p], byKey := if key.Some? then b.byKey[key.value := id] else b.byKey)
    requires RefundsOf(b, id) == 0
    requires forall q :: RefundsOf(b', q) == RefundsOf(b, q)
    requires forall c :: TotalRefunds(b', c) == TotalRefunds(b, c)
    ensures BooksOk(b') && Advances(b, b')
  {
    hide RefundsOf, TotalRefunds, CurrenciesOk, AmountsOk, Advances, PaymentOk;
    CurrenciesAfter(b, b', id, p);
    AdvancesByAdding(b, b', id, p);
    RefundsStayKnown(b, b');
    AmountsAfter(b, b', id, p);
  }

  lemma RefundsStayKnown(b: Books, b': Books)
    requires AmountsOk(b) && b'.refunds == b.refunds && b.payments.Keys <= b'.payments.Keys
    ensures forall id :: id in b'.refunds ==> b'.refunds[id].paymentId in b'.payments
  {
  }

  lemma CaptureKeeps(b: Books, r: Request, id: string)
    requires BooksOk(b) && r.CapturePayment? && r.Valid()
    ensures BooksOk(Handle(b, r, id).0) && Advances(b, Handle(b, r, id).0)
  {
    var b' := Handle(b, r, id).0;
    if b' != b {
      SameRefunds(b, b');
      RefundsStayKnown(b, b');
      ReplacedBooks(b, b', r.paymentId, b'.payments[r.paymentId]);
    }
  }

  /** A payment moved forward, together with the refund that moved it, if any. */
  lemma ReplacedBooks(b: Books, b': Books, pid: string, p: Payment)
    requires BooksOk(b) && pid in b.payments && PaymentOk(p) && PaymentAdvances(b.payments[pid], p)
    requires b'.payments == b.payments[pid := p] && b'.byKey == b.byKey
    requires forall id :: id in b'.refunds ==> b'.refunds[id].paymentId in b'.payments
    requires forall q :: RefundsOf(b', q) == RefundsOf(b, q) + if q == pid then p.refunded - b.payments[pid].refunded else 0
    requires forall c :: TotalRefunds(b', c) == TotalRefunds(b, c) + if p.currency == c then p.refunded - b.payments[pid].refunded else 0
    ensures BooksOk(b') && Advances(b, b')
  {
    hide RefundsOf, TotalRefunds, CurrenciesOk, AmountsOk, Advances, PaymentOk;
    CurrenciesAfter(b, b', pid, p);
    AmountsAfter(b, b', pid, p);
    AdvancesBySetting(b, b', pid, p);
  }

  lemma RefundAddedTo(b: Books, b': Books, id: string, refund: Refund, pid: string)
    requires id !in b.refunds && b'.refunds == b.refunds[id := refund]
    ensures RefundsOf(b', pid) == RefundsOf(b, pid) + if pid == refund.paymentId then refund.amount else 0
  {
    if pid == refund.paymentId {
      SumSet(RefundAmounts(b, pid), id, refund.amount);
      assert RefundAmounts(b', pid) == RefundAmounts(b, pid)[id := refund.amount];
    } else {
      assert RefundAmounts(b', pid) == RefundAmounts(b, pid);
    }
  }

  lemma RefundAddedIn(b: Books, b': Books, id: string, refund: Refund, c: Currency)
    requires id !in b.refunds && b'.refunds == b.refunds[id := refund]
    ensures TotalRefunds(b', c) == TotalRefunds(b, c) + if c == refund.currency then refund.amount else 0
  {
    hide Sum;
    if c == refund.currency {
      SumSet(RefundsIn(b, c), id, refund.amount);
      assert RefundsIn(b', c) == RefundsIn(b, c)[id := refund.amount];
    } else {
      assert RefundsIn(b', c) == RefundsIn(b, c);
    }
  }

  /** What a refund does: nothing, or one forward move of a payment and one entry for it. */
  lemma RefundMoves(b: Books, r: Request, id: string)
    requires AmountsOk(b) && r.CreateRefund? && r.Valid()
    ensures var b' := Handle(b, r, id).0;
            b' == b || (r.paymentId in b.payments && RefundMove(b, b', r.paymentId, id))
  {
    hide RefundsOf;
  }

  ghost predicate RefundMove(b: Books, b': Books, pid: string, id: string)
    requires pid in b.payments
  {
    && pid in b'.payments && id in b'.refunds
    && var p, p', refund := b.payments[pid], b'.payments[pid], b'.refunds[id];
       && b' == b.(payments := b.payments[pid := p'], refunds := b.refunds[id := refund])
       && PaymentOk(p') && PaymentAdvances(p, p')
       && refund == Refund(pid, p'.refunded - p.refunded, p.currency)
  }

  lemma RefundKeeps(b: Books, r: Request, id: string)
    requires BooksOk(b) && r.CreateRefund? && r.Valid() && Fresh(b, id)
    ensures BooksOk(Handle(b, r, id).0) && Advances(b, Handle(b, r, id).0)
  {
    RefundMoves(b, r, id);
    var b' := Handle(b, r, id).0;
    hide Handle, RefundsOf, TotalRefunds, CurrenciesOk, KeysOk, PaymentOk;
    if r.paymentId in b.payments && RefundMove(b, b', r.paymentId, id) {
      forall q { RefundAddedTo(b, b', id, b'.refunds[id], q); }
      forall c { RefundAddedIn(b, b', id, b'.refunds[id], c); }
      ReplacedBooks(b, b', r.paymentId, b'.payments[r.paymentId]);
    }
  }

  lemma PayoutKeeps(b: Books, r: Request, id: string)
    requires BooksOk(b) && r.CreatePayout?
    ensures BooksOk(Handle(b, r, id).0) && Advances(b, Handle(b, r, id).0)
  {
    var b' := Handle(b, r, id).0;
    SameRefunds(b, b');
    forall c ensures Sum(RefundedIn(b', c)) == TotalRefunds(b', c) {
      assert RefundedIn(b', c) == RefundedIn(b, c);
    }
  }

  /** Every handler's atomic half keeps the books in order and moves them forward. */
  lemma HandleKeeps(b: Books, r: Request, id: string)
    requires BooksOk(b) && r.Valid() && Fresh(b, id)
    ensures BooksOk(Handle(b, r, id).0) && Advances(b, Handle(b, r, id).0)
  {
    hide BooksOk;
    match r {
      case Charge(_, _, _, _, _) => ChargeKeeps(b, r, id);
      case CapturePayment(_, _) => CaptureKeeps(b, r, id);
      case CreateRefund(_, _) => RefundKeeps(b, r, id);
      case CreatePayout(_, _) => PayoutKeeps(b, r, id);
      case GetBalance(_) =>
    }
  }

  /** In each currency the net of the books is what was captured less all refunds, never
      negative, and the reported balance adds up to the larger of the net and the payouts. */
  lemma BalanceAddsUp(b: Books, c: Currency, id: string)
    requires BooksOk(b)
    ensures Net(b, c) == TotalCaptured(b, c) - TotalRefunds(b, c) >= 0
    ensures var response := Handle(b, GetBalance(c), id).1;
            response.available + response.pending == if Net(b, c) >= PaidOut(b, c) then Net(b, c) else PaidOut(b, c)
  {
    NetIsDifference(b, c);
    hide BooksOk, Net, PaidOut;
  }

  lemma NetIsDifference(b: Books, c: Currency)
    requires BooksOk(b)
    ensures Net(b, c) == TotalCaptured(b, c) - TotalRefunds(b, c) >= 0
  {
    forall i | i in NetIn(b, c) ensures NetIn(b, c)[i] >= 0 && NetIn(b, c)[i] == CapturedIn(b, c)[i] - RefundedIn(b, c)[i] {
      assert PaymentOk(b.payments[i]);
    }
    assert Sum(RefundedIn(b, c)) == TotalRefunds(b, c);
    hide Sum, BooksOk, RefundsIn;
    SumDifference(NetIn(b, c), CapturedIn(b, c), RefundedIn(b, c));
    SumNonNegative(NetIn(b, c));
  }

  // ----- Interleaved requests -----

  /** A charge that was answered: its key, the payment it was answered with, and whether that
      payment was created for it. */
  datatype Answered = Answered(key: string, paymentId: string, created: bool)

  /** The event loop: the books, the failure switch, the requests suspended at their await, and
      the answers given to keyed charges since the last reset. */
  datatype System = System(books: Books, failNext: int, failMode: FailureMode, calls: nat,
                           suspended: map<nat, Request>, answered: seq<Answered>)

  /** A request arrives and runs to its await; a suspended one resumes, drawing an identifier;
      the failure switch is set; the ledger is reset. */
  datatype Event =
    | Arrive(request: Request, ticket: nat)
    | Resume(ticket: nat, id: string)
    | FailNext(count: int, mode: FailureMode)
    | Reset

  /** Requests are validated, tickets and identifiers are new. */
  ghost predicate Enabled(s: System, e: Event) {
    match e
    case Arrive(r, t) => r.Valid() && t !in s.suspended
    case Resume(t, id) => t in s.suspended && Fresh(s.books, id)
    case FailNext(_, _) => true
    case Reset => true
  }

  function Log(b: Books, r: Request, response: Response): seq<Answered> {
    if KeyOf(r).Some? && response.PaymentResponse? then [Answered(KeyOf(r).value, response.id, Creates(b, r))] else []
  }

  ghost function Step(s: System, e: Event): System {
    match e
    case Arrive(r, t) =>
      var s' := s.(calls := s.calls + 1);
      if s.failNext <= 0 then s'.(suspended := s.suspended[t := r])
      else if s.failMode == Timeout then s'.(failNext := s.failNext - 1, suspended := s.suspended[t := r])
      else s'.(failNext := s.failNext - 1)
    case Resume(t, id) =>
      if t !in s.suspended then s
      else
        var r := s.suspended[t];
        var (books, response) := Handle(s.books, r, id);
        s.(books := books, suspended := s.suspended - {t}, answered := s.answered + Log(s.books, r, response))
    case FailNext(n, m) => s.(failNext := n, failMode := m)
    case Reset => s.(books := EMPTY, failNext := 0, calls := 0, answered := [])
  }

  /** Answers agree with the key table, and payments were created for distinct keys. */
  ghost predicate AnswersFit(answered: seq<Answered>, byKey: map<string, string>) {
    && (forall i :: 0 <= i < |answered| ==> answered[i].key in byKey && byKey[answered[i].key] == answered[i].paymentId)
    && (forall k :: k in byKey ==> exists i :: 0 <= i < |answered| && answered[i].key == k)
    && (forall i, j :: 0 <= i < j < |answered| && answered[i].key == answered[j].key ==> !answered[j].created)
  }

  ghost predicate AnswersOk(s: System) { AnswersFit(s.answered, s.books.byKey) }

  lemma AnswersGrow(answered: seq<Answered>, byKey: map<string, string>, more: map<string, string>, a: Answered)
    requires AnswersFit(answered, byKey) && a.key in more && more[a.key] == a.paymentId
    requires (forall k :: k in byKey ==> k in more && more[k] == byKey[k]) && (forall k :: k in more ==> k in byKey || k == a.key)
    requires a.created ==> a.key !in byKey
    ensures AnswersFit(answered + [a], more)
  {
    var all := answered + [a];
    assert all[|answered|] == a;
    forall k | k in more ensures exists i :: 0 <= i < |all| && all[i].key == k {
      if k in byKey {
        var i :| 0 <= i < |answered| && answered[i].key == k;
        assert all[i].key == k;
      }
    }
  }

  ghost predicate SystemOk(s: System) {
    && BooksOk(s.books)
    && AnswersOk(s)
    && forall t :: t in s.suspended ==> s.suspended[t].Valid()
  }

  lemma ResumeKeepsAnswers(s: System, t: nat, id: string)
    requires SystemOk(s) && Enabled(s, Resume(t, id))
    ensures AnswersOk(Step(s, Resume(t, id)))
  {
    var r := s.suspended[t];
    HandleKeeps(s.books, r, id);
    if KeyOf(r).Some? { KeyedAnswer(s.books, r, id); } else { UnkeyedKeepsKeys(s.books, r, id); }
    hide BooksOk, Handle, AnswersFit, KeyOf;
    var (books, response) := Handle(s.books, r, id);
    if KeyOf(r).Some? {
      AnswersGrow(s.answered, s.books.byKey, books.byKey, Answered(KeyOf(r).value, response.id, Creates(s.books, r)));
    } else {
      assert s.answered + [] == s.answered;
    }
  }

  /** A keyed charge is answered with the payment its key stands for. */
  lemma KeyedAnswer(b: Books, r: Request, id: string)
    requires BooksOk(b) && KeyOf(r).Some?
    ensures var (b', response) := Handle(b, r, id);
            && response.PaymentResponse? && KeyOf(r).value in b'.byKey && b'.byKey[KeyOf(r).value] == response.id
            && (forall k :: k in b'.byKey ==> k in b.byKey || k == KeyOf(r).value)
  {
  }

  lemma UnkeyedKeepsKeys(b: Books, r: Request, id: string)
    requires KeyOf(r).None?
    ensures Handle(b, r, id).0.byKey == b.byKey
  {
  }

  /** One event keeps everything, and nothing but a reset moves the books back. */
  lemma StepKeeps(s: System, e: Event)
    requires SystemOk(s) && Enabled(s, e)
    ensures SystemOk(Step(s, e))
    ensures !e.Reset? ==> Advances(s.books, Step(s, e).books)
  {
    hide BooksOk, AnswersFit, Handle, Advances;
    match e {
      case Resume(t, id) =>
        HandleKeeps(s.books, s.suspended[t], id);
        ResumeKeepsAnswers(s, t, id);
      case Reset =>
        EmptyIsOk();
        NoAnswersFit();
      case Arrive(_, _) => AdvancesReflexive(s.books);
      case FailNext(_, _) => AdvancesReflexive(s.books);
    }
  }

  lemma NoAnswersFit()
    ensures AnswersFit([], EMPTY.byKey)
  {
  }

  lemma EmptyIsOk()
    ensures BooksOk(EMPTY)
  {
    forall c ensures Sum(RefundedIn(EMPTY, c)) == TotalRefunds(EMPTY, c) {
      assert RefundedIn(EMPTY, c) == map[];
    }
  }

  // ----- Whole runs -----

  const INITIAL := System(EMPTY, 0, Hangup, 0, map[], [])

  ghost function Run(events: seq<Event>): System {
    if events == [] then INITIAL else Step(Run(events[..|events|-1]), events[|events|-1])
  }

  /** Every event was possible when it happened. */
  ghost predicate Possible(events: seq<Event>) {
    forall n :: 0 <= n < |events| ==> Enabled(Run(events[..n]), events[n])
  }

  lemma PossiblePrefix(events: seq<Event>, n: nat)
    requires Possible(events) && n <= |events|
    ensures Possible(events[..n])
  {
    forall m | 0 <= m < n ensures Enabled(Run(events[..n][..m]), events[..n][m]) {
      assert events[..n][..m] == events[..m];
    }
  }

  lemma PossibleExtends(events: seq<Event>, e: Event)
    requires Possible(events) && Enabled(Run(events), e)
    ensures Possible(events + [e]) && Run(events + [e]) == Step(Run(events), e)
  {
    hide Enabled, Step;
    var all := events + [e];
    assert all[..|events|] == events;
    forall n | 0 <= n < |all| ensures Enabled(Run(all[..n]), all[n]) {
      if n < |events| { assert all[..n] == events[..n]; }
    }
  }

  /** However requests interleave at their awaits, the books are in order: each payment's
      amounts and status agree, refunds add up, and keys stand for one payment each. */
  lemma {:induction false} EveryRunKeepsTheBooks(events: seq<Event>)
    requires Possible(events)
    ensures SystemOk(Run(events))
    decreases |events|
  {
    if events == [] {
      EmptyIsOk();
    } else {
      hide SystemOk, Step, Enabled;
      var n := |events| - 1;
      PossiblePrefix(events, n);
      EveryRunKeepsTheBooks(events[..n]);
      assert Enabled(Run(events[..n]), events[n]);
      StepKeeps(Run(events[..n]), events[n]);
    }
  }

  lemma AdvancesReflexive(b: Books)
    ensures Advances(b, b)
  {
  }

  lemma AdvancesTransitive(a: Books, b: Books, c: Books)
    requires Advances(a, b) && Advances(b, c)
    ensures Advances(a, c)
  {
    forall id | id in a.payments ensures id in c.payments && PaymentAdvances(a.payments[id], c.payments[id]) {
      assert PaymentAdvances(a.payments[id], b.payments[id]) && PaymentAdvances(b.payments[id], c.payments[id]);
    }
  }

  /** Between two moments without a reset, no payment disappears, no total shrinks, no status
      moves back and no key changes its payment. */
  lemma {:induction false} RunsOnlyAdvance(events: seq<Event>, n: nat)
    requires Possible(events) && n <= |events|
    requires forall m :: n <= m < |events| ==> !events[m].Reset?
    ensures Advances(Run(events[..n]).books, Run(events).books)
    decreases |events|
  {
    hide Advances, SystemOk, Enabled, Step;
    if n == |events| {
      assert events[..n] == events;
      AdvancesReflexive(Run(events).books);
    } else {
      var last := |events| - 1;
      var shorter := events[..last];
      PossiblePrefix(events, last);
      assert shorter[..n] == events[..n];
      forall m | n <= m < last ensures !shorter[m].Reset? { assert shorter[m] == events[m]; }
      RunsOnlyAdvance(shorter, n);
      EveryRunKeepsTheBooks(shorter);
      assert Enabled(Run(shorter), events[last]);
      StepKeeps(Run(shorter), events[last]);
      AdvancesTransitive(Run(events[..n]).books, Run(shorter).books, Run(events).books);
    }
  }

  /** Since the last reset, all answers to charges with one key name the same existing payment,
      at most one of them created it, and different keys name different payments. */
  lemma KeysAreIdempotent(events: seq<Event>, i: nat, j: nat)
    requires Possible(events) && i < j < |Run(events).answered|
    ensures var s := Run(events);
            var a, b := s.answered[i], s.answered[j];
            && a.paymentId in s.books.payments
            && (a.key == b.key <==> a.paymentId == b.paymentId)
            && (a.key == b.key ==> !b.created)
  {
    EveryRunKeepsTheBooks(events);
    var s := Run(events);
    assert s.answered[i].key in s.books.byKey && s.answered[j].key in s.books.byKey;
  }

  // ----- The ledger as the source updates it -----

  class PaymentsLedger {
    var payments: map<string, Payment>
    var refunds: map<string, Refund>
    var payouts: map<string, Payout>
    var byKey: map<string, string>
    var failNext: int
    var failMode: FailureMode
    var calls: nat

    constructor ()
      ensures Value() == EMPTY && failNext == 0 && failMode == Hangup && calls == 0
    {
      payments, refunds, payouts, byKey := map[], map[], map[], map[];
      failNext, failMode, calls := 0, Hangup, 0;
    }

    ghost function Value(): Books reads this { Books(payments, refunds, payouts, byKey) }

    /** `consume_failure`. */
    method ConsumeFailure() returns (mode: Option<FailureMode>)
      modifies this`failNext
      ensures mode == if old(failNext) <= 0 then None else Some(failMode)
      ensures failNext == if old(failNext) <= 0 then old(failNext) else old(failNext) - 1
    {
      if failNext <= 0 {
        return None;
      }
      failNext := failNext - 1;
      mode := Some(failMode);
    }

    method Reset()
      modifies this
      ensures Value() == EMPTY && failNext == 0 && calls == 0 && failMode == old(failMode)
    {
      payments, refunds, payouts, byKey := map[], map[], map[], map[];
      failNext, calls := 0, 0;
    }

    /** `create_payment` after its await. */
    method CreatePayment(r: Request, id: string) returns (response: Response)
      requires r.Charge? && BooksOk(Value())
      modifies this`payments, this`byKey
      ensures (Value(), response) == Handle(old(Value()), r, id)
    {
      var key := KeyOf(r);
      if key.Some? && key.value in byKey {
        var existing := byKey[key.value];
        return PaymentResponse(existing, payments[existing]);
      }
      var payment := NewPayment(r);
      payments := payments[id := payment];
      if key.Some? {
        byKey := byKey[key.value := id];
      }
      response := PaymentResponse(id, payment);
    }

    /** `capture_payment` after its await. */
    method Capture(r: Request, id: string) returns (response: Response)
      requires r.CapturePayment?
      modifies this`payments
      ensures (Value(), response) == Handle(old(Value()), r, id)
    {
      if r.paymentId !in payments {
        return Failed(PaymentNotFound);
      }
      var payment := payments[r.paymentId];
      if payment.status != Authorized {
        return Failed(PaymentNotCapturable);
      }
      var amount := if r.captureAmount.Some? then r.captureAmount.value else payment.amount;
      if amount > payment.amount {
        return Failed(CaptureExceedsAuthorization);
      }
      var captured := payment.(status := Captured, captured := amount);
      payments := payments[r.paymentId := captured];
      response := PaymentResponse(r.paymentId, captured);
    }

    /** `create_refund` after its await. */
    method RefundPayment(r: Request, id: string) returns (response: Response)
      requires r.CreateRefund?
      modifies this`payments, this`refunds
      ensures (Value(), response) == Handle(old(Value()), r, id)
    {
      if r.paymentId !in payments {
        return Failed(PaymentNotFound);
      }
      var payment := payments[r.paymentId];
      var refundable := payment.captured - payment.refunded;
      if refundable <= 0 {
        return Failed(PaymentNotRefundable);
      }
      var amount := if r.refundAmount.Some? then r.refundAmount.value else refundable;
      if amount > refundable {
        return Failed(RefundExceedsCaptured);
      }
      var total := payment.refunded + amount;
      payments := payments[r.paymentId :=
        payment.(refunded := total, status := if total >= payment.captured then Refunded else PartiallyRefunded)];
      var refund := Refund(r.paymentId, amount, payment.currency);
      refunds := refunds[id := refund];
      response := RefundResponse(refund);
    }

    /** `create_payout` after its await. */
    method PayOut(r: Request, id: string) returns (response: Response)
      requires r.CreatePayout?
      modifies this`payouts
      ensures (Value(), response) == Handle(old(Value()), r, id)
    {
      var payout := Payout(r.payoutAmount, r.payoutCurrency);
      payouts := payouts[id := payout];
      response := PayoutResponse(payout);
    }

    /** `get_balance` after its await: one pass over the payments, one over the payouts. */
    method Balance(currency: Currency) returns (response: Response)
      ensures forall id :: (Value(), response) == Handle(Value(), GetBalance(currency), id)
    {
      var net := SumOf(map id | id in payments && payments[id].currency == currency :: payments[id].captured - payments[id].refunded);
      var paidOut := SumOf(map id | id in payouts && payouts[id].currency == currency :: payouts[id].amount);
      response := BalanceResponse(if net - paidOut > 0 then net - paidOut else 0, paidOut);
    }
  }

  /** The API on its event loop: each request runs to its await in one piece and on from it in
      another, and `events` records the pieces. */
  class PaymentsApi {
    const ledger: PaymentsLedger
    var suspended: map<nat, Request>
    ghost var answered: seq<Answered>
    ghost var events: seq<Event>

    ghost function State(): System reads this, ledger {
      System(ledger.Value(), ledger.failNext, ledger.failMode, ledger.calls, suspended, answered)
    }

    /** The state is the one the recorded pieces lead to. */
    ghost predicate Valid() reads this, ledger { Possible(events) && State() == Run(events) }

    constructor ()
      ensures Valid() && fresh(ledger) && events == []
    {
      ledger := new PaymentsLedger();
      suspended, answered, events := map[], [], [];
    }

    ghost method Happened(e: Event)
      requires Possible(events) && Enabled(Run(events), e) && State() == Step(Run(events), e)
      modifies this`events
      ensures Valid() && events == old(events) + [e]
    {
      hide Possible, Enabled, Step, Run;
      PossibleExtends(events, e);
      events := events + [e];
    }

    /** A request up to its await: recorded, and failed at once or suspended. */
    method Arrive(r: Request, ticket: nat) returns (response: Option<Response>)
      requires Valid() && r.Valid() && ticket !in suspended
      modifies this, ledger
      ensures Valid() && events == old(events) + [Event.Arrive(r, ticket)]
      ensures response.None? <==> ticket in suspended
      ensures response.Some? ==> response.value.Failed?
    {
      hide Run, Possible;
      ledger.calls := ledger.calls + 1;
      var mode := ledger.ConsumeFailure();
      if mode == Some(Status502) {
        response := Some(Failed(UpstreamUnavailable));
      } else if mode == Some(Hangup) {
        response := Some(Failed(ConnectionDropped));
      } else {
        response := None;
        suspended := suspended[ticket := r];
      }
      Happened(Event.Arrive(r, ticket));
    }

    /** A suspended request from its await to its answer. */
    method Resume(ticket: nat, id: string) returns (response: Response)
      requires Valid() && ticket in suspended && Fresh(ledger.Value(), id)
      modifies this, ledger
      ensures Valid() && events == old(events) + [Event.Resume(ticket, id)]
      ensures response == Handle(old(ledger.Value()), old(suspended)[ticket], id).1
    {
      EveryRunKeepsTheBooks(events);
      hide Run, Possible, BooksOk, Handle;
      var r := suspended[ticket];
      match r {
        case Charge(_, _, _, _, _) => response := ledger.CreatePayment(r, id);
        case CapturePayment(_, _) => response := ledger.Capture(r, id);
        case CreateRefund(_, _) => response := ledger.RefundPayment(r, id);
        case CreatePayout(_, _) => response := ledger.PayOut(r, id);
        case GetBalance(currency) => response := ledger.Balance(currency);
      }
      suspended := suspended - {ticket};
      answered := answered + Log(old(ledger.Value()), r, response);
      Happened(Event.Resume(ticket, id));
    }

    /** `fail_next_calls`. */
    method FailNextCalls(count: int, mode: FailureMode)
      requires Valid()
      modifies this, ledger
      ensures Valid() && events == old(events) + [FailNext(count, mode)]
    {
      hide Run, Possible;
      ledger.failNext, ledger.failMode := count, mode;
      Happened(FailNext(count, mode));
    }

    method Reset()
      requires Valid()
      modifies this, ledger
      ensures Valid() && events == old(events) + [Event.Reset]
    {
      hide Run, Possible;
      ledger.Reset();
      answered := [];
      Happened(Event.Reset);
    }
  }

  /** `sum(...)` over the values of a dictionary. */
  method SumOf(m: map<string, int>) returns (total: int)
    ensures total == Sum(m)
  {
    total := 0;
    var rest := m;
    while rest != map[]
      invariant total + Sum(rest) == Sum(m)
      decreases |rest|
    {
      var k :| k in rest;
      SumTake(rest, k);
      total, rest := total + rest[k], rest - {k};
    }
  }
}
