/** Bills, the payments applied to them, and voids. Money is whole cents; `at` stands for the clock. */
module Ledger {
  import opened Wrappers

  datatype Link = Link(txnId: string, txnType: string)

  datatype BillValue = BillValue(id: string, totalAmt: int, balance: int, syncToken: nat, linked: seq<Link>,
                                 updated: int)

  /** `billId` and `lineAmount` are the payment's one line. */
  datatype PaymentValue = PaymentValue(id: string, payType: string, billId: string, lineAmount: int,
                                       totalAmt: int, note: string, syncToken: nat, updated: int)

  function LinkType(payType: string): string {
    if payType == "CreditCard" then "BillPaymentCreditCard" else "BillPaymentCheck"
  }

  /** The sum of a request's line amounts, an absent amount counting as zero. */
  function Total(lines: seq<Option<int>>): int {
    if lines == [] then 0 else (if lines[0].Some? then lines[0].value else 0) + Total(lines[1..])
  }

  function NewBill(id: string, lines: seq<Option<int>>, at: int): BillValue {
    BillValue(id, Total(lines), Total(lines), 0, [], at)
  }

  function Recorded(bill: BillValue, id: string, payType: string, amount: int, note: string, at: int): PaymentValue {
    PaymentValue(id, payType, bill.id, amount, amount, note, 0, at)
  }

  function Charged(bill: BillValue, id: string, payType: string, amount: int, at: int): BillValue {
    bill.(balance := bill.balance - amount, linked := bill.linked + [Link(id, LinkType(payType))],
          syncToken := bill.syncToken + 1, updated := at)
  }

  function Refunded(bill: BillValue, amount: int, at: int): BillValue {
    bill.(balance := bill.balance + amount, syncToken := bill.syncToken + 1, updated := at)
  }

  function Voided(p: PaymentValue, at: int): PaymentValue {
    p.(totalAmt := 0, note := "Voided - " + p.note, syncToken := p.syncToken + 1, updated := at)
  }

  // ----- the records, changed in place -----

  class Bill {
    const id: string
    const totalAmt: int
    var balance: int
    var syncToken: nat
    var linked: seq<Link>
    var updated: int

    constructor (id: string, lines: seq<Option<int>>, at: int)
      ensures Value() == NewBill(id, lines, at)
    {
      this.id, totalAmt, balance := id, Total(lines), Total(lines);
      syncToken, linked, updated := 0, [], at;
    }

    function Value(): BillValue
      reads this
    {
      BillValue(id, totalAmt, balance, syncToken, linked, updated)
    }

    method ApplyPayment(id: string, payType: string, amount: int, note: string, at: int) returns (record: Payment)
      modifies this
      ensures fresh(record) && record.Value() == Recorded(old(Value()), id, payType, amount, note, at)
      ensures Value() == Charged(old(Value()), id, payType, amount, at)
    {
      record := new Payment(id, payType, this.id, amount, note, at);
      balance := balance - amount;
      linked := linked + [Link(id, LinkType(payType))];
      syncToken := syncToken + 1;
      updated := at;
    }
  }

  class Payment {
    const id: string
    const payType: string
    const billId: string
    const lineAmount: int
    var totalAmt: int
    var note: string
    var syncToken: nat
    var updated: int

    constructor (id: string, payType: string, billId: string, amount: int, note: string, at: int)
      ensures Value() == PaymentValue(id, payType, billId, amount, amount, note, 0, at)
    {
      this.id, this.payType, this.billId, lineAmount := id, payType, billId, amount;
      totalAmt, this.note, syncToken, updated := amount, note, 0, at;
    }

    function Value(): PaymentValue
      reads this
    {
      PaymentValue(id, payType, billId, lineAmount, totalAmt, note, syncToken, updated)
    }

    method VoidPayment(bill: Bill?, at: int)
      modifies this, bill
      ensures Value() == Voided(old(Value()), at)
      ensures bill != null ==> bill.Value() == Refunded(old(bill.Value()), old(totalAmt), at)
    {
      if bill != null {
        bill.balance := bill.balance + totalAmt;
        bill.syncToken := bill.syncToken + 1;
        bill.updated := at;
      }
      totalAmt := 0;
      note := "Voided - " + note;
      syncToken := syncToken + 1;
      updated := at;
    }
  }

  // ----- the books over whole runs -----

  /** Bills by id, payments in the order they were made. */
  datatype Books = Books(bills: map<string, BillValue>, payments: seq<PaymentValue>)

  /** A void names the payment, and the bill it is given: any bill, or none. */
  datatype Op =
    | Create(id: string, lines: seq<Option<int>>, at: int)
    | Pay(billId: string, id: string, payType: string, amount: int, note: string, at: int)
    | Void(payment: nat, given: Option<string>, at: int)

  predicate Possible(s: Books, op: Op) {
    match op
    case Create(id, _, _) => id !in s.bills
    case Pay(billId, _, _, _, _, _) => billId in s.bills
    case Void(k, given, _) => k < |s.payments| && (given.Some? ==> given.value in s.bills)
  }

  predicate Keyed(s: Books) {
    && (forall b :: b in s.bills ==> s.bills[b].id == b)
    && (forall k :: 0 <= k < |s.payments| ==> s.payments[k].billId in s.bills)
  }

  function Apply(s: Books, op: Op): Books
    requires Possible(s, op)
  {
    match op
    case Create(id, lines, at) => s.(bills := s.bills[id := NewBill(id, lines, at)])
    case Pay(billId, id, payType, amount, note, at) =>
      var bill := s.bills[billId];
      Books(s.bills[billId := Charged(bill, id, payType, amount, at)],
            s.payments + [Recorded(bill, id, payType, amount, note, at)])
    case Void(k, given, at) =>
      var p := s.payments[k];
      Books(if given.Some? then s.bills[given.value := Refunded(s.bills[given.value], p.totalAmt, at)] else s.bills,
            s.payments[k := Voided(p, at)])
  }

  predicate Lawful(s: Books, ops: seq<Op>)
    decreases |ops|
  {
    ops != [] ==> Possible(s, ops[0]) && Lawful(Apply(s, ops[0]), ops[1..])
  }

  function Run(s: Books, ops: seq<Op>): Books
    requires Lawful(s, ops)
    decreases |ops|
  {
    if ops == [] then s else Run(Apply(s, ops[0]), ops[1..])
  }

  const EMPTY := Books(map[], [])

  /** What the payments on a bill still total. */
  function PaidOn(payments: seq<PaymentValue>, b: string): int {
    if payments == [] then 0
    else
      var last := payments[|payments| - 1];
      PaidOn(payments[..|payments| - 1], b) + if last.billId == b then last.totalAmt else 0
  }

  /** No money is lost: each bill's balance and its payments make up its total. */
  predicate Conserved(s: Books) {
    forall b :: b in s.bills ==> s.bills[b].balance + PaidOn(s.payments, b) == s.bills[b].totalAmt
  }

  lemma PaidOnAppend(payments: seq<PaymentValue>, p: PaymentValue, b: string)
    ensures PaidOn(payments + [p], b) == PaidOn(payments, b) + if p.billId == b then p.totalAmt else 0
  {
    assert (payments + [p])[..|payments|] == payments;
  }

  lemma {:induction false} PaidOnUpdate(payments: seq<PaymentValue>, k: nat, q: PaymentValue, b: string)
    requires k < |payments| && q.billId == payments[k].billId
    ensures PaidOn(payments[k := q], b)
            == PaidOn(payments, b) + if q.billId == b then q.totalAmt - payments[k].totalAmt else 0
  {
    var last := |payments| - 1;
    var init := payments[..last];
    if k == last {
      assert payments[k := q][..last] == init;
    } else {
      assert payments[k := q][..last] == init[k := q];
      PaidOnUpdate(init, k, q, b);
    }
  }

  lemma {:induction false} NothingPaid(payments: seq<PaymentValue>, b: string)
    requires forall k :: 0 <= k < |payments| ==> payments[k].billId != b
    ensures PaidOn(payments, b) == 0
  {
    if payments != [] { NothingPaid(payments[..|payments| - 1], b); }
  }

  lemma KeyedStep(s: Books, op: Op)
    requires Keyed(s) && Possible(s, op)
    ensures Keyed(Apply(s, op))
  {
  }

  /** A void keeps the books exactly when it is given the bill the payment was applied to, or the payment
      has no money left in it. */
  lemma VoidConservesExactly(s: Books, op: Op)
    requires op.Void? && Keyed(s) && Conserved(s) && Possible(s, op)
    ensures var p := s.payments[op.payment];
            Conserved(Apply(s, op)) <==> p.totalAmt == 0 || op.given == Some(p.billId)
  {
    var p, t := s.payments[op.payment], Apply(s, op);
    forall b | b in s.bills
      ensures PaidOn(t.payments, b) == PaidOn(s.payments, b) - if p.billId == b then p.totalAmt else 0
    {
      PaidOnUpdate(s.payments, op.payment, Voided(p, op.at), b);
    }
    hide PaidOn;
    assert s.bills[p.billId].totalAmt == t.bills[p.billId].totalAmt;
    if !(p.totalAmt == 0 || op.given == Some(p.billId)) {
      assert t.bills[p.billId].balance + PaidOn(t.payments, p.billId) != t.bills[p.billId].totalAmt;
    }
  }

  /** For example a paid bill whose payment is voided without it: a hundred goes missing. */
  lemma VoidWithoutBillLoses()
    ensures var paid := Books(map["1" := BillValue("1", 100, 0, 1, [Link("2", "BillPaymentCheck")], 0)],
                              [PaymentValue("2", "Check", "1", 100, 100, "", 0, 0)]);
            Keyed(paid) && Conserved(paid) && !Conserved(Apply(paid, Void(0, None, 1)))
  {
    var p := PaymentValue("2", "Check", "1", 100, 100, "", 0, 0);
    var paid := Books(map["1" := BillValue("1", 100, 0, 1, [Link("2", "BillPaymentCheck")], 0)], [p]);
    PaidOnAppend([], p, "1");
    assert [] + [p] == [p];
    VoidConservesExactly(paid, Void(0, None, 1));
  }

  /** Creating and paying always keep the books. */
  lemma OthersConserve(s: Books, op: Op)
    requires !op.Void? && Keyed(s) && Conserved(s) && Possible(s, op)
    ensures Conserved(Apply(s, op))
  {
    var t := Apply(s, op);
    forall b | b in t.bills ensures t.bills[b].balance + PaidOn(t.payments, b) == t.bills[b].totalAmt {
      match op
      case Create(id, _, _) => if b == id { NothingPaid(s.payments, b); }
      case Pay(billId, id, payType, amount, note, at) =>
        PaidOnAppend(s.payments, Recorded(s.bills[billId], id, payType, amount, note, at), b);
    }
  }

  /** Each void is given its payment's own bill, or its payment is empty already. */
  predicate Repaying(s: Books, ops: seq<Op>)
    requires Lawful(s, ops)
    decreases |ops|
  {
    ops != [] ==>
      && (ops[0].Void? ==>
            var p := s.payments[ops[0].payment]; p.totalAmt == 0 || ops[0].given == Some(p.billId))
      && Repaying(Apply(s, ops[0]), ops[1..])
  }

  /** The books are conserved at every moment of the run. */
  predicate AlwaysConserved(s: Books, ops: seq<Op>)
    requires Lawful(s, ops)
    decreases |ops|
  {
    Conserved(s) && (ops != [] ==> AlwaysConserved(Apply(s, ops[0]), ops[1..]))
  }

  /** Over any run of bills, payments and voids, money is conserved at every moment exactly when each void is
      given the bill its payment was applied to, or its payment has no money left. */
  lemma {:induction false} RunConservesExactly(s: Books, ops: seq<Op>)
    requires Keyed(s) && Conserved(s) && Lawful(s, ops)
    ensures AlwaysConserved(s, ops) <==> Repaying(s, ops)
    decreases |ops|
  {
    if ops != [] {
      var t := Apply(s, ops[0]);
      KeyedStep(s, ops[0]);
      if ops[0].Void? { VoidConservesExactly(s, ops[0]); } else { OthersConserve(s, ops[0]); }
      hide Conserved, Apply, Keyed;
      if Conserved(t) { RunConservesExactly(t, ops[1..]); }
    }
  }

  lemma {:induction false} AlwaysIsAtEnd(s: Books, ops: seq<Op>)
    requires Lawful(s, ops) && AlwaysConserved(s, ops)
    ensures Conserved(Run(s, ops))
    decreases |ops|
  {
    hide Conserved, Apply;
    if ops != [] { AlwaysIsAtEnd(Apply(s, ops[0]), ops[1..]); }
  }

  /** So no money is lost by the end of such a run. */
  lemma RunConserves(s: Books, ops: seq<Op>)
    requires Keyed(s) && Conserved(s) && Lawful(s, ops) && Repaying(s, ops)
    ensures Conserved(Run(s, ops))
  {
    RunConservesExactly(s, ops);
    AlwaysIsAtEnd(s, ops);
  }

  /** A payment once voided stays empty through every run. */
  lemma {:induction false} VoidedStaysEmpty(s: Books, ops: seq<Op>, k: nat)
    requires Lawful(s, ops) && k < |s.payments| && s.payments[k].totalAmt == 0 && s.payments[k].syncToken > 0
    ensures var t := Run(s, ops); k < |t.payments| && t.payments[k].totalAmt == 0
    decreases |ops|
  {
    if ops != [] {
      VoidedStaysEmpty(Apply(s, ops[0]), ops[1..], k);
    }
  }

  /** Voiding a payment again, at any later time and whatever bill either void is given, moves no money:
      every balance and every payment's total stay as they were. */
  lemma VoidTwice(s: Books, k: nat, first: Option<string>, at: int, ops: seq<Op>, second: Option<string>, later: int)
    requires Possible(s, Void(k, first, at)) && Lawful(Apply(s, Void(k, first, at)), ops)
    requires Possible(Run(Apply(s, Void(k, first, at)), ops), Void(k, second, later))
    ensures var before := Run(Apply(s, Void(k, first, at)), ops);
            var after := Apply(before, Void(k, second, later));
            && after.bills.Keys == before.bills.Keys && |after.payments| == |before.payments|
            && (forall b :: b in before.bills ==> after.bills[b].balance == before.bills[b].balance)
            && (forall j :: 0 <= j < |before.payments| ==> after.payments[j].totalAmt == before.payments[j].totalAmt)
  {
    var once := Apply(s, Void(k, first, at));
    VoidedStaysEmpty(once, ops, k);
    var before := Run(once, ops);
    hide Run, Lawful;
    assert forall b :: b in Apply(before, Void(k, second, later)).bills <==> b in before.bills;
  }

  // ----- tokens and links -----

  /** How many operations of a run change a bill after it was made. */
  function Touches(ops: seq<Op>, b: string): nat {
    if ops == [] then 0
    else
      (match ops[0]
       case Create(_, _, _) => 0
       case Pay(billId, _, _, _, _, _) => if billId == b then 1 else 0
       case Void(_, given, _) => if given == Some(b) then 1 else 0)
      + Touches(ops[1..], b)
  }

  /** A bill's token counts its mutations. */
  lemma {:induction false} TokensCount(s: Books, ops: seq<Op>, b: string)
    requires Lawful(s, ops) && b in Run(s, ops).bills
    ensures Run(s, ops).bills[b].syncToken == (if b in s.bills then s.bills[b].syncToken else 0) + Touches(ops, b)
    decreases |ops|
  {
    if ops != [] {
      TokensCount(Apply(s, ops[0]), ops[1..], b);
    }
  }

  /** The links of the payments made on a bill, in order. */
  function LinksOn(payments: seq<PaymentValue>, b: string): seq<Link> {
    if payments == [] then []
    else
      var last := payments[|payments| - 1];
      LinksOn(payments[..|payments| - 1], b)
      + if last.billId == b then [Link(last.id, LinkType(last.payType))] else []
  }

  /** Links list every payment ever made on the bill, in order, voided or not; a payment's total is its
      line's amount until its first void, and zero from then on. */
  predicate Listed(s: Books) {
    && Keyed(s)
    && (forall b :: b in s.bills ==> s.bills[b].linked == LinksOn(s.payments, b))
    && (forall k :: 0 <= k < |s.payments| ==>
          s.payments[k].totalAmt == if s.payments[k].syncToken == 0 then s.payments[k].lineAmount else 0)
  }

  lemma LinksOnAppend(payments: seq<PaymentValue>, p: PaymentValue, b: string)
    ensures LinksOn(payments + [p], b)
            == LinksOn(payments, b) + if p.billId == b then [Link(p.id, LinkType(p.payType))] else []
  {
    assert (payments + [p])[..|payments|] == payments;
  }

  lemma {:induction false} LinksOnUpdate(payments: seq<PaymentValue>, k: nat, q: PaymentValue, b: string)
    requires k < |payments|
    requires q.billId == payments[k].billId && q.id == payments[k].id && q.payType == payments[k].payType
    ensures LinksOn(payments[k := q], b) == LinksOn(payments, b)
  {
    var last := |payments| - 1;
    var init := payments[..last];
    if k == last {
      assert payments[k := q][..last] == init;
    } else {
      assert payments[k := q][..last] == init[k := q];
      LinksOnUpdate(init, k, q, b);
    }
  }

  lemma {:induction false} NothingLinked(payments: seq<PaymentValue>, b: string)
    requires forall k :: 0 <= k < |payments| ==> payments[k].billId != b
    ensures LinksOn(payments, b) == []
  {
    if payments != [] { NothingLinked(payments[..|payments| - 1], b); }
  }

  lemma ListedStep(s: Books, op: Op)
    requires Listed(s) && Possible(s, op)
    ensures Listed(Apply(s, op))
  {
    KeyedStep(s, op);
    forall b | b in Apply(s, op).bills ensures Apply(s, op).bills[b].linked == LinksOn(Apply(s, op).payments, b) {
      LinkedStep(s, op, b);
    }
    hide LinksOn;
  }

  lemma LinkedStep(s: Books, op: Op, b: string)
    requires Listed(s) && Possible(s, op) && b in Apply(s, op).bills
    ensures Apply(s, op).bills[b].linked == LinksOn(Apply(s, op).payments, b)
  {
    match op
    case Create(id, _, _) => if b == id { NothingLinked(s.payments, b); }
    case Pay(billId, id, payType, amount, note, at) =>
      LinksOnAppend(s.payments, Recorded(s.bills[billId], id, payType, amount, note, at), b);
    case Void(k, given, at) => LinksOnUpdate(s.payments, k, Voided(s.payments[k], at), b);
  }

  /** After every run, whatever bills its voids are given. */
  lemma {:induction false} RunLists(s: Books, ops: seq<Op>)
    requires Listed(s) && Lawful(s, ops)
    ensures Listed(Run(s, ops))
    decreases |ops|
  {
    if ops != [] {
      ListedStep(s, ops[0]);
      RunLists(Apply(s, ops[0]), ops[1..]);
    }
  }

  /** From empty books: what is open on a bill is its total less the amounts of its payments not voided. */
  function Open(payments: seq<PaymentValue>, b: string): int {
    if payments == [] then 0
    else
      var last := payments[|payments| - 1];
      Open(payments[..|payments| - 1], b) + if last.billId == b && last.syncToken == 0 then last.lineAmount else 0
  }

  lemma {:induction false} OpenIsPaid(payments: seq<PaymentValue>, b: string)
    requires forall k :: 0 <= k < |payments| ==>
               payments[k].totalAmt == if payments[k].syncToken == 0 then payments[k].lineAmount else 0
    ensures Open(payments, b) == PaidOn(payments, b)
  {
    if payments != [] { OpenIsPaid(payments[..|payments| - 1], b); }
  }

  lemma BalanceIsWhatIsOpen(ops: seq<Op>, b: string)
    requires Lawful(EMPTY, ops) && Repaying(EMPTY, ops) && b in Run(EMPTY, ops).bills
    ensures var s := Run(EMPTY, ops);
            && s.bills[b].balance == s.bills[b].totalAmt - Open(s.payments, b)
            && s.bills[b].linked == LinksOn(s.payments, b)
            && s.bills[b].syncToken == Touches(ops, b)
  {
    RunConserves(EMPTY, ops);
    RunLists(EMPTY, ops);
    TokensCount(EMPTY, ops, b);
    OpenIsPaid(Run(EMPTY, ops).payments, b);
  }

  // ----- what the records say -----

  /** A new bill is open for the sum of its lines, an absent amount being nothing. */
  lemma {:induction false} TotalIsSum(a: seq<Option<int>>, b: seq<Option<int>>, line: Option<int>)
    ensures Total(a + b) == Total(a) + Total(b)
    ensures Total([line]) == (if line.Some? then line.value else 0) && Total([]) == 0
  {
    assert [line][1..] == [];
    if a == [] {
      assert a + b == b;
    } else {
      assert (a + b)[1..] == a[1..] + b;
      TotalIsSum(a[1..], b, line);
    }
  }

  /** The links carry the type QuickBooks gives them by how the bill was paid, checks unless by card. */
  lemma LinksByPayType(bill: BillValue, id: string, payType: string, amount: int, at: int)
    ensures var last := Charged(bill, id, payType, amount, at).linked;
            && |last| == |bill.linked| + 1 && last[..|bill.linked|] == bill.linked
            && last[|bill.linked|].txnId == id
            && last[|bill.linked|].txnType
               == match payType
                  case "Check" => "BillPaymentCheck"
                  case "CreditCard" => "BillPaymentCreditCard"
                  case _ => "BillPaymentCheck"
  {
    assert "Check"[1] != "CreditCard"[1];
  }

  function Prefixed(times: nat, note: string): string {
    if times == 0 then note else "Voided - " + Prefixed(times - 1, note)
  }

  /** How often a run voids payment `k`. */
  function VoidsOf(ops: seq<Op>, k: nat): nat {
    if ops == [] then 0 else (if ops[0].Void? && ops[0].payment == k then 1 else 0) + VoidsOf(ops[1..], k)
  }

  lemma {:induction false} PrefixedMore(m: nat, n: nat, note: string)
    ensures Prefixed(m, Prefixed(n, note)) == Prefixed(m + n, note)
  {
    if m > 0 { PrefixedMore(m - 1, n, note); }
  }

  lemma {:induction false} PrefixedLast(m: nat, note: string)
    ensures Prefixed(m, "Voided - " + note) == Prefixed(m + 1, note)
  {
    assert Prefixed(0, note) == note;
    assert Prefixed(1, note) == "Voided - " + note;
    PrefixedMore(m, 1, note);
  }

  /** Over every run a payment keeps its line, its note gains one "Voided - " for each void and its token counts
      them. */
  lemma {:induction false} NotesTellVoids(s: Books, ops: seq<Op>, k: nat)
    requires Lawful(s, ops) && k < |s.payments|
    ensures var p, t := s.payments[k], Run(s, ops);
            && k < |t.payments| && t.payments[k].id == p.id && t.payments[k].billId == p.billId
            && t.payments[k].lineAmount == p.lineAmount
            && t.payments[k].note == Prefixed(VoidsOf(ops, k), p.note)
            && t.payments[k].syncToken == p.syncToken + VoidsOf(ops, k)
    decreases |ops|
  {
    if ops != [] {
      var t := Apply(s, ops[0]);
      NotesTellVoids(t, ops[1..], k);
      PrefixedLast(VoidsOf(ops[1..], k), s.payments[k].note);
    }
  }

  /** When a bill was last changed in a run. */
  function LastChange(ops: seq<Op>, b: string, before: int): int {
    if ops == [] then before
    else
      LastChange(ops[1..], b,
        match ops[0]
        case Create(id, _, at) => if id == b then at else before
        case Pay(billId, _, _, _, _, at) => if billId == b then at else before
        case Void(_, given, at) => if given == Some(b) then at else before)
  }

  /** The stamp change-data-capture filters on is the time of the last change. */
  lemma {:induction false} StampIsLastChange(s: Books, ops: seq<Op>, b: string, before: int)
    requires Lawful(s, ops) && b in Run(s, ops).bills && (b in s.bills ==> s.bills[b].updated == before)
    ensures Run(s, ops).bills[b].updated == LastChange(ops, b, before)
    decreases |ops|
  {
    if ops != [] {
      var t := Apply(s, ops[0]);
      StampIsLastChange(t, ops[1..], b,
        match ops[0]
        case Create(id, _, at) => if id == b then at else before
        case Pay(billId, _, _, _, _, at) => if billId == b then at else before
        case Void(_, given, at) => if given == Some(b) then at else before);
    }
  }
}
