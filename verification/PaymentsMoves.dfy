/** What each request to the payments API moves, and that the books are the sum of what was answered. */
module PaymentsMoves {
  import opened MapSum
  import opened Payments

  // ----- Totals after one entry -----

  ghost function PayoutsIn(b: Books, c: Currency): map<string, int> {
    map id | id in b.payouts && b.payouts[id].currency == c :: b.payouts[id].amount
  }

  /** What a payment contributes to a currency. */
  function CapturedFor(p: Payment, c: Currency): int { if p.currency == c then p.captured else 0 }

  lemma CapturedAfter(b: Books, b': Books, pid: string, c: Currency)
    requires pid in b'.payments && b'.payments == b.payments[pid := b'.payments[pid]]
    requires pid in b.payments ==> b.payments[pid].currency == b'.payments[pid].currency
    ensures TotalCaptured(b', c) == TotalCaptured(b, c) + CapturedFor(b'.payments[pid], c)
                                    - if pid in b.payments then CapturedFor(b.payments[pid], c) else 0
  {
    hide Sum;
    var p := b'.payments[pid];
    if p.currency == c {
      SumSet(CapturedIn(b, c), pid, p.captured);
      assert CapturedIn(b', c) == CapturedIn(b, c)[pid := p.captured];
    } else {
      assert CapturedIn(b', c) == CapturedIn(b, c);
    }
  }

  lemma PaidOutAfter(b: Books, b': Books, id: string, c: Currency)
    requires id !in b.payouts && id in b'.payouts && b'.payouts == b.payouts[id := b'.payouts[id]]
    ensures PaidOut(b', c) == PaidOut(b, c) + if b'.payouts[id].currency == c then b'.payouts[id].amount else 0
  {
    hide Sum;
    var payout := b'.payouts[id];
    assert PaidOut(b, c) == Sum(PayoutsIn(b, c)) && PaidOut(b', c) == Sum(PayoutsIn(b', c));
    if payout.currency == c {
      SumSet(PayoutsIn(b, c), id, payout.amount);
      assert PayoutsIn(b', c) == PayoutsIn(b, c)[id := payout.amount];
    } else {
      assert PayoutsIn(b', c) == PayoutsIn(b, c);
    }
  }

  /** Money captured, refunded and paid out in one currency. */
  datatype Totals = Totals(captured: int, refunded: int, paidOut: int)

  ghost function TotalsOf(b: Books, c: Currency): Totals { Totals(TotalCaptured(b, c), TotalRefunds(b, c), PaidOut(b, c)) }

  /** The totals have moved by these amounts in one currency and not in the others. */
  ghost predicate Moved(b: Books, b': Books, currency: Currency, captured: int, refunded: int, paidOut: int) {
    forall c :: TotalsOf(b', c) == Plus(TotalsOf(b, c), if c == currency then Totals(captured, refunded, paidOut) else Totals(0, 0, 0))
  }

  function Plus(t: Totals, u: Totals): Totals { Totals(t.captured + u.captured, t.refunded + u.refunded, t.paidOut + u.paidOut) }

  lemma SameTotals(b: Books, b': Books, c: Currency)
    ensures b'.payments == b.payments ==> TotalCaptured(b', c) == TotalCaptured(b, c)
    ensures b'.refunds == b.refunds ==> TotalRefunds(b', c) == TotalRefunds(b, c)
    ensures b'.payouts == b.payouts ==> PaidOut(b', c) == PaidOut(b, c)
  {
    hide Sum;
    if b'.payments == b.payments { assert CapturedIn(b', c) == CapturedIn(b, c); }
    if b'.refunds == b.refunds { assert RefundsIn(b', c) == RefundsIn(b, c); }
    assert PaidOut(b, c) == Sum(PayoutsIn(b, c)) && PaidOut(b', c) == Sum(PayoutsIn(b', c));
    if b'.payouts == b.payouts { assert PayoutsIn(b', c) == PayoutsIn(b, c); }
  }

  // ----- Capturing -----

  /** Only this payment has changed. */
  ghost predicate OnlyPayment(b: Books, b': Books, pid: string) {
    && pid in b'.payments && b'.payments - {pid} == b.payments - {pid}
    && b'.refunds == b.refunds && b'.payouts == b.payouts && b'.byKey == b.byKey
  }

  /** The errors of a capture. */
  ghost predicate CaptureErrors(b: Books, pid: string, given: Option<int>, answer: Response) {
    && (answer == Failed(PaymentNotFound) <==> pid !in b.payments)
    && (answer == Failed(PaymentNotCapturable) <==> pid in b.payments && b.payments[pid].status != Authorized)
    && (answer == Failed(CaptureExceedsAuthorization) <==>
          pid in b.payments && b.payments[pid].status == Authorized && given.Some? && given.value > b.payments[pid].amount)
    && (answer.Failed? ==> answer.error in {PaymentNotFound, PaymentNotCapturable, CaptureExceedsAuthorization})
  }

  /** A capture takes what was asked for, or everything, of this payment and changes nothing else. */
  ghost predicate Captures(b: Books, b': Books, pid: string, given: Option<int>, answer: Response) {
    && pid in b.payments && OnlyPayment(b, b', pid) && answer == PaymentResponse(pid, b'.payments[pid])
    && var p, p' := b.payments[pid], b'.payments[pid];
       && p'.status == Captured && p'.captured == (if given.Some? then given.value else p.amount)
       && p'.amount == p.amount && p'.refunded == p.refunded && p'.currency == p.currency && p'.payMethod == p.payMethod
       && Moved(b, b', p.currency, p'.captured, 0, 0)
  }

  /** Totals after one payment was set. */
  lemma PaymentMoves(b: Books, b': Books, pid: string, captured: int)
    requires pid in b'.payments && b'.payments == b.payments[pid := b'.payments[pid]]
    requires b'.refunds == b.refunds && b'.payouts == b.payouts
    requires pid in b.payments ==> b.payments[pid].currency == b'.payments[pid].currency
    requires captured == b'.payments[pid].captured - if pid in b.payments then b.payments[pid].captured else 0
    ensures Moved(b, b', b'.payments[pid].currency, captured, 0, 0)
  {
    hide TotalCaptured, TotalRefunds, PaidOut;
    var currency := b'.payments[pid].currency;
    forall c ensures TotalsOf(b', c) == Plus(TotalsOf(b, c), if c == currency then Totals(captured, 0, 0) else Totals(0, 0, 0)) {
      CapturedAfter(b, b', pid, c);
      SameTotals(b, b', c);
    }
  }

  /** A capture, exactly: each error, and what a successful one takes. */
  lemma CaptureExact(b: Books, pid: string, given: Option<int>, id: string)
    requires BooksOk(b)
    ensures var (b', answer) := Handle(b, CapturePayment(pid, given), id);
            && CaptureErrors(b, pid, given, answer)
            && if answer.Failed? then b' == b else Captures(b, b', pid, given, answer)
  {
    var (b', answer) := Handle(b, CapturePayment(pid, given), id);
    if !answer.Failed? {
      assert PaymentOk(b.payments[pid]);
      hide BooksOk, Moved;
      PaymentMoves(b, b', pid, b'.payments[pid].captured);
    }
  }

  // ----- Refunding -----

  ghost predicate RefundErrors(b: Books, pid: string, given: Option<int>, answer: Response) {
    && (answer == Failed(PaymentNotFound) <==> pid !in b.payments)
    && (answer == Failed(PaymentNotRefundable) <==> pid in b.payments && b.payments[pid].captured == b.payments[pid].refunded)
    && (answer == Failed(RefundExceedsCaptured) <==>
          pid in b.payments && b.payments[pid].captured != b.payments[pid].refunded
          && given.Some? && b.payments[pid].refunded + given.value > b.payments[pid].captured)
    && (answer.Failed? ==> answer.error in {PaymentNotFound, PaymentNotRefundable, RefundExceedsCaptured})
  }

  /** A refund gives back what was asked for, or the rest, of this payment, enters it under a new identifier
      and changes nothing else. */
  ghost predicate Refunds(b: Books, b': Books, pid: string, given: Option<int>, id: string, answer: Response) {
    && pid in b.payments && pid in b'.payments && b'.payments - {pid} == b.payments - {pid}
    && id in b'.refunds && b'.refunds - {id} == b.refunds && b'.payouts == b.payouts && b'.byKey == b.byKey
    && answer == RefundResponse(b'.refunds[id])
    && var p, p', refund := b.payments[pid], b'.payments[pid], b'.refunds[id];
       && refund.paymentId == pid && refund.currency == p.currency
       && refund.amount == (if given.Some? then given.value else p.captured - p.refunded)
       && p'.refunded == p.refunded + refund.amount && p'.captured == p.captured
       && p'.amount == p.amount && p'.currency == p.currency && p'.payMethod == p.payMethod
       && (p'.status == Refunded <==> p'.refunded == p'.captured) && (p'.status != Refunded ==> p'.status == PartiallyRefunded)
       && Moved(b, b', p.currency, 0, refund.amount, 0)
  }

  lemma RefundMovesTotals(b: Books, b': Books, pid: string, id: string)
    requires pid in b.payments && pid in b'.payments && b'.payments == b.payments[pid := b'.payments[pid]]
    requires b'.payments[pid].captured == b.payments[pid].captured && b'.payments[pid].currency == b.payments[pid].currency
    requires id !in b.refunds && id in b'.refunds && b'.refunds == b.refunds[id := b'.refunds[id]] && b'.payouts == b.payouts
    ensures Moved(b, b', b'.refunds[id].currency, 0, b'.refunds[id].amount, 0)
  {
    hide TotalCaptured, TotalRefunds, PaidOut;
    var refund := b'.refunds[id];
    forall c ensures TotalsOf(b', c) == Plus(TotalsOf(b, c), if c == refund.currency then Totals(0, refund.amount, 0) else Totals(0, 0, 0)) {
      RefundAddedIn(b, b', id, refund, c);
      CapturedAfter(b, b', pid, c);
      SameTotals(b, b', c);
    }
  }

  lemma RefundEnters(b: Books, b': Books, pid: string, given: Option<int>, id: string, answer: Response)
    requires Fresh(b, id) && (b', answer) == Handle(b, CreateRefund(pid, given), id) && !answer.Failed?
    requires pid in b.payments && PaymentOk(b.payments[pid])
    ensures Refunds(b, b', pid, given, id, answer)
  {
    hide Moved;
    assert b'.payments == b.payments[pid := b'.payments[pid]] && b'.refunds == b.refunds[id := b'.refunds[id]];
    assert b'.refunds - {id} == b.refunds;
    assert b'.payments - {pid} == b.payments - {pid};
    RefundMovesTotals(b, b', pid, id);
  }

  /** A refund, exactly. */
  lemma RefundExact(b: Books, pid: string, given: Option<int>, id: string)
    requires BooksOk(b) && Fresh(b, id)
    ensures var (b', answer) := Handle(b, CreateRefund(pid, given), id);
            && RefundErrors(b, pid, given, answer)
            && if answer.Failed? then b' == b else Refunds(b, b', pid, given, id, answer)
  {
    var (b', answer) := Handle(b, CreateRefund(pid, given), id);
    if pid in b.payments { assert PaymentOk(b.payments[pid]); }
    hide BooksOk, Refunds;
    if !answer.Failed? { RefundEnters(b, b', pid, given, id, answer); }
  }

  // ----- Charging -----

  /** A payment as charged: declined exactly for cards from the threshold on, and captured in full when it is
      to be captured and was not declined. */
  predicate ChargedAs(r: Request, p: Payment)
    requires r.Charge?
  {
    && p.amount == r.amount && p.currency == r.currency && p.payMethod == r.payMethod && p.refunded == 0
    && (p.status == Declined <==> r.payMethod == Card && r.amount >= 100_000)
    && (p.status == Captured <==> p.status != Declined && r.capture)
    && (p.status == Authorized <==> p.status != Declined && !r.capture)
    && p.captured == if p.status == Captured then r.amount else 0
  }

  /** The key stands for the new payment, and the other keys for theirs. */
  ghost predicate KeyEntered(byKey: map<string, string>, key: Option<string>, id: string, after: map<string, string>) {
    && (forall k :: k in after <==> k in byKey || (key == Some(k) && k != ""))
    && (forall k :: k in after ==> after[k] == if key == Some(k) && k != "" then id else byKey[k])
  }

  /** A charge enters one new payment, under its key if it has one, and changes nothing else. */
  ghost predicate Charges(b: Books, b': Books, r: Request, id: string, answer: Response)
    requires r.Charge?
  {
    && id in b'.payments && b'.payments - {id} == b.payments && b'.refunds == b.refunds && b'.payouts == b.payouts
    && answer == PaymentResponse(id, b'.payments[id]) && ChargedAs(r, b'.payments[id])
    && KeyEntered(b.byKey, r.key, id, b'.byKey)
    && Moved(b, b', r.currency, b'.payments[id].captured, 0, 0)
  }

  lemma NewPaymentAsCharged(r: Request)
    requires r.Charge?
    ensures ChargedAs(r, NewPayment(r))
  {
  }

  lemma ChargeEnters(b: Books, b': Books, r: Request, id: string, answer: Response)
    requires r.Charge? && Fresh(b, id) && Creates(b, r) && (b', answer) == Handle(b, r, id)
    ensures Charges(b, b', r, id, answer)
  {
    NewPaymentAsCharged(r);
    hide NewPayment, Moved, ChargedAs;
    assert b'.payments == b.payments[id := NewPayment(r)];
    assert b'.payments - {id} == b.payments;
    assert KeyEntered(b.byKey, r.key, id, b'.byKey);
    hide KeyEntered;
    PaymentMoves(b, b', id, b'.payments[id].captured);
  }

  /** A charge, exactly: a known key is answered with its payment and moves nothing. */
  lemma ChargeExact(b: Books, r: Request, id: string)
    requires BooksOk(b) && r.Charge? && Fresh(b, id)
    ensures var (b', answer) := Handle(b, r, id);
            if r.key.Some? && r.key.value != "" && r.key.value in b.byKey
            then b' == b && b.byKey[r.key.value] in b.payments
                 && answer == PaymentResponse(b.byKey[r.key.value], b.payments[b.byKey[r.key.value]])
            else Charges(b, b', r, id, answer)
  {
    hide AmountsOk, CurrenciesOk, Charges;
    if Creates(b, r) {
      hide Handle;
      ChargeEnters(b, Handle(b, r, id).0, r, id, Handle(b, r, id).1);
    }
  }

  // ----- Paying out and reading the balance -----

  lemma PayoutMoves(b: Books, b': Books, id: string)
    requires id !in b.payouts && id in b'.payouts && b'.payouts == b.payouts[id := b'.payouts[id]]
    requires b'.payments == b.payments && b'.refunds == b.refunds
    ensures Moved(b, b', b'.payouts[id].currency, 0, 0, b'.payouts[id].amount)
  {
    hide TotalCaptured, TotalRefunds, PaidOut;
    var payout := b'.payouts[id];
    forall c ensures TotalsOf(b', c) == Plus(TotalsOf(b, c), if c == payout.currency then Totals(0, 0, payout.amount) else Totals(0, 0, 0)) {
      PaidOutAfter(b, b', id, c);
      SameTotals(b, b', c);
    }
  }

  /** A payout is entered in its currency and moves nothing else, whatever the balance. */
  lemma PayoutExact(b: Books, amount: int, currency: Currency, id: string)
    requires Fresh(b, id)
    ensures var (b', answer) := Handle(b, CreatePayout(amount, currency), id);
            && id in b'.payouts && b'.payouts - {id} == b.payouts && b'.payouts[id] == Payout(amount, currency)
            && b'.payments == b.payments && b'.refunds == b.refunds && b'.byKey == b.byKey
            && answer == PayoutResponse(b'.payouts[id]) && Moved(b, b', currency, 0, 0, amount)
  {
    hide Moved;
    var (b', answer) := Handle(b, CreatePayout(amount, currency), id);
    assert b'.payouts - {id} == b.payouts;
    PayoutMoves(b, b', id);
  }

  /** Pending is what has been paid out; available is what has been captured and neither refunded nor paid
      out, but not below zero. */
  lemma BalanceExact(b: Books, c: Currency, id: string)
    requires BooksOk(b)
    ensures var (b', answer) := Handle(b, GetBalance(c), id);
            && b' == b && answer.BalanceResponse? && answer.pending == PaidOut(b, c)
            && var left := TotalCaptured(b, c) - TotalRefunds(b, c) - PaidOut(b, c);
               answer.available == if left > 0 then left else 0
  {
    NetIsDifference(b, c);
    hide BooksOk, Net, PaidOut, TotalCaptured, TotalRefunds;
  }

  // ----- The books and the answers -----

  /** What an answer says has moved: a payment captured, by a charge that created it or by a capture, a
      refund, a payout. */
  function Says(r: Request, id: string, answer: Response, c: Currency): Totals {
    match answer
    case PaymentResponse(pid, p) =>
      if (r.Charge? && pid != id) || p.currency != c then Totals(0, 0, 0) else Totals(p.captured, 0, 0)
    case RefundResponse(refund) => if refund.currency == c then Totals(0, refund.amount, 0) else Totals(0, 0, 0)
    case PayoutResponse(payout) => if payout.currency == c then Totals(0, 0, payout.amount) else Totals(0, 0, 0)
    case _ => Totals(0, 0, 0)
  }

  /** What has been answered since the last reset, after one more event. */
  ghost function Tallied(before: Totals, s: System, e: Event, c: Currency): Totals {
    match e
    case Resume(t, id) =>
      if t in s.suspended then Plus(before, Says(s.suspended[t], id, Handle(s.books, s.suspended[t], id).1, c)) else before
    case Reset => Totals(0, 0, 0)
    case _ => before
  }

  /** The sum of what all answers since the last reset say. */
  ghost function Answers(events: seq<Event>, c: Currency): Totals {
    if events == [] then Totals(0, 0, 0)
    else Tallied(Answers(events[..|events|-1], c), Run(events[..|events|-1]), events[|events|-1], c)
  }

  lemma MovedBy(b: Books, b': Books, currency: Currency, captured: int, refunded: int, paidOut: int, c: Currency)
    requires Moved(b, b', currency, captured, refunded, paidOut)
    ensures TotalsOf(b', c) == Plus(TotalsOf(b, c), if c == currency then Totals(captured, refunded, paidOut) else Totals(0, 0, 0))
  {
    hide TotalsOf, Plus;
  }

  lemma Unmoved(t: Totals)
    ensures Plus(t, Totals(0, 0, 0)) == t
  {
  }

  lemma ChargeSays(b: Books, b': Books, r: Request, id: string, answer: Response, c: Currency)
    requires r.Charge? && Charges(b, b', r, id, answer)
    ensures TotalsOf(b', c) == Plus(TotalsOf(b, c), Says(r, id, answer, c))
  {
    hide Moved, TotalsOf, Plus, KeyEntered;
    MovedBy(b, b', r.currency, b'.payments[id].captured, 0, 0, c);
  }

  lemma CaptureSays(b: Books, b': Books, r: Request, id: string, answer: Response, c: Currency)
    requires r.CapturePayment? && Captures(b, b', r.paymentId, r.captureAmount, answer)
    ensures TotalsOf(b', c) == Plus(TotalsOf(b, c), Says(r, id, answer, c))
  {
    hide Moved, TotalsOf, Plus;
    MovedBy(b, b', b.payments[r.paymentId].currency, b'.payments[r.paymentId].captured, 0, 0, c);
  }

  lemma RefundSays(b: Books, b': Books, r: Request, id: string, answer: Response, c: Currency)
    requires r.CreateRefund? && Refunds(b, b', r.paymentId, r.refundAmount, id, answer)
    ensures TotalsOf(b', c) == Plus(TotalsOf(b, c), Says(r, id, answer, c))
  {
    hide Moved, TotalsOf, Plus;
    MovedBy(b, b', b.payments[r.paymentId].currency, 0, b'.refunds[id].amount, 0, c);
  }

  lemma OtherSays(b: Books, r: Request, id: string, c: Currency)
    requires BooksOk(b) && Fresh(b, id) && (r.CreatePayout? || r.GetBalance?)
    ensures var (b', answer) := Handle(b, r, id); TotalsOf(b', c) == Plus(TotalsOf(b, c), Says(r, id, answer, c))
  {
    Unmoved(TotalsOf(b, c));
    hide BooksOk, Moved, TotalsOf, Plus;
    if r.CreatePayout? {
      PayoutExact(b, r.payoutAmount, r.payoutCurrency, id);
      MovedBy(b, Handle(b, r, id).0, r.payoutCurrency, 0, 0, r.payoutAmount, c);
    }
  }

  lemma HandledCharge(b: Books, r: Request, id: string, c: Currency)
    requires BooksOk(b) && Fresh(b, id) && r.Charge?
    ensures var (b', answer) := Handle(b, r, id); TotalsOf(b', c) == Plus(TotalsOf(b, c), Says(r, id, answer, c))
  {
    Unmoved(TotalsOf(b, c));
    hide Handle, BooksOk, TotalsOf, Plus, Charges;
    ChargeExact(b, r, id);
    var b', answer := Handle(b, r, id).0, Handle(b, r, id).1;
    if Charges(b, b', r, id, answer) { ChargeSays(b, b', r, id, answer, c); }
  }

  lemma HandledCapture(b: Books, r: Request, id: string, c: Currency)
    requires BooksOk(b) && Fresh(b, id) && r.CapturePayment?
    ensures var (b', answer) := Handle(b, r, id); TotalsOf(b', c) == Plus(TotalsOf(b, c), Says(r, id, answer, c))
  {
    Unmoved(TotalsOf(b, c));
    hide Handle, BooksOk, TotalsOf, Plus, Captures, Fresh;
    CaptureExact(b, r.paymentId, r.captureAmount, id);
    var b', answer := Handle(b, r, id).0, Handle(b, r, id).1;
    if !answer.Failed? { CaptureSays(b, b', r, id, answer, c); }
  }

  lemma HandledRefund(b: Books, r: Request, id: string, c: Currency)
    requires BooksOk(b) && Fresh(b, id) && r.CreateRefund?
    ensures var (b', answer) := Handle(b, r, id); TotalsOf(b', c) == Plus(TotalsOf(b, c), Says(r, id, answer, c))
  {
    Unmoved(TotalsOf(b, c));
    hide Handle, BooksOk, TotalsOf, Plus, Refunds, Fresh;
    RefundExact(b, r.paymentId, r.refundAmount, id);
    var b', answer := Handle(b, r, id).0, Handle(b, r, id).1;
    if !answer.Failed? { RefundSays(b, b', r, id, answer, c); }
  }

  /** Each request moves the books by what its answer says. */
  lemma HandleSays(b: Books, r: Request, id: string, c: Currency)
    requires BooksOk(b) && Fresh(b, id)
    ensures var (b', answer) := Handle(b, r, id); TotalsOf(b', c) == Plus(TotalsOf(b, c), Says(r, id, answer, c))
  {
    hide Handle, BooksOk, TotalsOf, Plus, Says, Fresh;
    if r.Charge? {
      HandledCharge(b, r, id, c);
    } else if r.CapturePayment? {
      HandledCapture(b, r, id, c);
    } else if r.CreateRefund? {
      HandledRefund(b, r, id, c);
    } else {
      OtherSays(b, r, id, c);
    }
  }

  lemma EmptyTotals(c: Currency)
    ensures TotalsOf(EMPTY, c) == Totals(0, 0, 0)
  {
    assert CapturedIn(EMPTY, c) == map[] && RefundsIn(EMPTY, c) == map[] && PayoutsIn(EMPTY, c) == map[];
    assert PaidOut(EMPTY, c) == Sum(PayoutsIn(EMPTY, c));
  }

  lemma EventTallied(s: System, e: Event, c: Currency)
    requires BooksOk(s.books) && Enabled(s, e)
    ensures TotalsOf(Step(s, e).books, c) == Tallied(TotalsOf(s.books, c), s, e, c)
  {
    EmptyTotals(c);
    hide Handle, BooksOk, TotalsOf, Says, Plus;
    if e.Resume? { HandleSays(s.books, s.suspended[e.ticket], e.id, c); }
  }

  /** However requests interleave, the books hold exactly what the answers since the last reset said. */
  lemma {:induction false} BooksAreAnswers(events: seq<Event>, c: Currency)
    requires Possible(events)
    ensures TotalsOf(Run(events).books, c) == Answers(events, c)
    decreases |events|
  {
    EmptyTotals(c);
    hide Handle, BooksOk, TotalsOf, AnswersFit, Tallied, Step, Enabled;
    if events != [] {
      var n := |events| - 1;
      PossiblePrefix(events, n);
      BooksAreAnswers(events[..n], c);
      EveryRunKeepsTheBooks(events[..n]);
      assert Enabled(Run(events[..n]), events[n]);
      EventTallied(Run(events[..n]), events[n], c);
    }
  }

  // ----- Arming failures -----

  function Arrivals(events: seq<Event>): nat {
    if events == [] then 0 else Arrivals(events[..|events|-1]) + if events[|events|-1].Arrive? then 1 else 0
  }

  ghost predicate Undisturbed(events: seq<Event>) { forall e :: e in events ==> !e.FailNext? && !e.Reset? }

  lemma {:induction false} ArmedFor(events: seq<Event>, count: int, mode: FailureMode, rest: seq<Event>)
    requires Undisturbed(rest)
    ensures var s := Run(events + [FailNext(count, mode)] + rest);
            && s.failMode == mode
            && s.failNext == if count <= 0 then count else if Arrivals(rest) >= count then 0 else count - Arrivals(rest)
    decreases |rest|
  {
    hide Handle;
    var all := events + [FailNext(count, mode)] + rest;
    if rest == [] {
      assert all[..|all|-1] == events && all[|all|-1] == FailNext(count, mode);
    } else {
      var before, last := rest[..|rest|-1], rest[|rest|-1];
      assert last in rest;
      assert all[..|all|-1] == events + [FailNext(count, mode)] + before && all[|all|-1] == last;
      forall e | e in before ensures !e.FailNext? && !e.Reset? { assert e in rest; }
      ArmedFor(events, count, mode, before);
    }
  }

  /** After failures have been armed, exactly the next `count` requests to arrive fail, whatever resumes in
      between: they are answered at once and move nothing, except that a timeout only delays them. */
  lemma FailuresHitTheNext(events: seq<Event>, count: int, mode: FailureMode, rest: seq<Event>, r: Request, ticket: nat)
    requires Undisturbed(rest)
    requires Enabled(Run(events + [FailNext(count, mode)] + rest), Arrive(r, ticket))
    ensures var s := Run(events + [FailNext(count, mode)] + rest);
            var s' := Step(s, Arrive(r, ticket));
            && (ticket in s'.suspended <==> mode == Timeout || Arrivals(rest) >= count)
            && s'.suspended == (if ticket in s'.suspended then s.suspended[ticket := r] else s.suspended)
            && s'.books == s.books && s'.answered == s.answered && s'.calls == s.calls + 1
  {
    hide Handle, Run;
    ArmedFor(events, count, mode, rest);
  }
}
