/** Two ways of telling how much of a credit line is used: the balance the service steps with
    each draw and repay, floored at zero every time, and the sum over the ledger, floored once. */
module CreditLedger {
  import opened Reals
  import opened Wrappers

  datatype Op = Borrow(amount: real) | Repay(amount: real)

  ghost predicate Positive(ops: seq<Op>) { forall k :: 0 <= k < |ops| ==> ops[k].amount > 0.0 }

  /** The service's arithmetic on the stored balance. */
  function Stepped(ops: seq<Op>): real {
    if ops == [] then 0.0
    else
      var before := Stepped(ops[..|ops| - 1]);
      match ops[|ops| - 1]
      case Borrow(a) => before + a
      case Repay(a) => Max(0.0, before - a)
  }

  function Delta(op: Op): real {
    match op
    case Borrow(a) => a
    case Repay(a) => -a
  }

  /** The ledger query: borrows count up, repays count down. */
  function Sum(ops: seq<Op>): real {
    if ops == [] then 0.0 else Sum(ops[..|ops| - 1]) + Delta(ops[|ops| - 1])
  }

  function AvailableCredit(ops: seq<Op>, limit: real): real { Max(0.0, limit - Max(0.0, Sum(ops))) }

  function CalculateUtilized(limit: real, available: real): real { Max(0.0, limit - available) }

  function LedgerUtilized(ops: seq<Op>, limit: real): real {
    CalculateUtilized(limit, AvailableCredit(ops, limit))
  }

  // ---------------------------------------------------------------------------------------
  // The reflected walk
  // ---------------------------------------------------------------------------------------

  /** The least value the running sum has had, counting its start at zero. */
  function Lowest(ops: seq<Op>): real {
    if ops == [] then 0.0 else Min(Lowest(ops[..|ops| - 1]), Sum(ops))
  }

  /** Flooring at every repay adds back exactly how far below zero the plain sum has been. */
  lemma {:induction false} SteppedIsReflected(ops: seq<Op>)
    requires Positive(ops)
    ensures Stepped(ops) == Sum(ops) - Lowest(ops)
    ensures Lowest(ops) <= 0.0 && Lowest(ops) <= Sum(ops)
  {
    if ops != [] {
      SteppedIsReflected(ops[..|ops| - 1]);
    }
  }

  /** No repay exceeds the balance it meets. */
  ghost predicate NoOverpayment(ops: seq<Op>) {
    forall n :: 0 <= n < |ops| && ops[n].Repay? ==> ops[n].amount <= Stepped(ops[..n])
  }

  lemma {:induction false} NoOverpaymentIff(ops: seq<Op>)
    requires Positive(ops)
    ensures NoOverpayment(ops) <==> Lowest(ops) == 0.0
  {
    if ops != [] {
      var front, last := ops[..|ops| - 1], ops[|ops| - 1];
      NoOverpaymentIff(front);
      SteppedIsReflected(front);
      assert forall n :: 0 <= n < |front| ==> front[..n] == ops[..n] && front[n] == ops[n];
      assert ops[..|front|] == front;
    }
  }

  /** The ledger's floored sum never exceeds the stepped balance; they are equal exactly when
      no repay ever exceeded the balance, or the sum ends at its lowest point so far. */
  lemma LedgerNeverExceedsStepped(ops: seq<Op>)
    requires Positive(ops)
    ensures Max(0.0, Sum(ops)) <= Stepped(ops)
    ensures Max(0.0, Sum(ops)) == Stepped(ops) <==> NoOverpayment(ops) || Sum(ops) == Lowest(ops)
  {
    SteppedIsReflected(ops);
    NoOverpaymentIff(ops);
  }

  /** What the repository reports as utilized is the floored sum, capped at the limit. */
  lemma LedgerUtilizedIs(ops: seq<Op>, limit: real)
    requires limit >= 0.0
    ensures LedgerUtilized(ops, limit) == Min(limit, Max(0.0, Sum(ops)))
    ensures AvailableCredit(ops, limit) + LedgerUtilized(ops, limit) == limit
  {
  }

  // ---------------------------------------------------------------------------------------
  // The service
  // ---------------------------------------------------------------------------------------

  datatype LineStatus = Active | Suspended | Closed | Defaulted

  datatype Line = Line(
    walletAddress: string, creditLimit: real, utilized: real, availableCredit: real, status: LineStatus)

  datatype Error = NotFound | Unauthorized | NotActive | BadAmount | LimitExceeded

  datatype Outcome = Done(line: Line) | Refused(error: Error)

  datatype Row = Row(line: string, op: Op)

  datatype Books = Books(lines: map<string, Line>, ledger: seq<Row>)

  /** The in-memory repository keeps available credit in step with the balance. */
  function WithUtilized(l: Line, utilized: real): Line {
    l.(utilized := utilized, availableCredit := l.creditLimit - utilized)
  }

  /** An amount that does not parse to a finite number is absent. */
  function DrawStep(b: Books, id: string, borrower: string, amount: Option<real>): (Books, Outcome) {
    if id !in b.lines then (b, Refused(NotFound))
    else
      var l := b.lines[id];
      if l.walletAddress != borrower then (b, Refused(Unauthorized))
      else if l.status != Active then (b, Refused(NotActive))
      else if amount.None? || amount.value <= 0.0 then (b, Refused(BadAmount))
      else if l.utilized + amount.value > l.creditLimit then (b, Refused(LimitExceeded))
      else
        var updated := WithUtilized(l, l.utilized + amount.value);
        (Books(b.lines[id := updated], b.ledger + [Row(id, Borrow(amount.value))]), Done(updated))
  }

  function RepayStep(b: Books, id: string, amount: Option<real>): (Books, Outcome) {
    if id !in b.lines then (b, Refused(NotFound))
    else if amount.None? || amount.value <= 0.0 then (b, Refused(BadAmount))
    else
      var l := b.lines[id];
      var updated := WithUtilized(l, Max(0.0, l.utilized - amount.value));
      (Books(b.lines[id := updated], b.ledger + [Row(id, Repay(amount.value))]), Done(updated))
  }

  class CreditLineService {
    var lines: map<string, Line>
    var ledger: seq<Row>

    function State(): Books
      reads this
    {
      Books(lines, ledger)
    }

    method Draw(id: string, borrower: string, amount: Option<real>) returns (outcome: Outcome)
      modifies this
      ensures (State(), outcome) == DrawStep(old(State()), id, borrower, amount)
    {
      if id !in lines { return Refused(NotFound); }
      var line := lines[id];
      if line.walletAddress != borrower { return Refused(Unauthorized); }
      if line.status != Active { return Refused(NotActive); }
      if amount.None? || amount.value <= 0.0 { return Refused(BadAmount); }
      if line.utilized + amount.value > line.creditLimit { return Refused(LimitExceeded); }
      ledger := ledger + [Row(id, Borrow(amount.value))];
      var next := line.(utilized := line.utilized + amount.value,
                        availableCredit := line.creditLimit - (line.utilized + amount.value));
      lines := lines[id := next];
      return Done(next);
    }

    method RepayLine(id: string, amount: Option<real>) returns (outcome: Outcome)
      modifies this
      ensures (State(), outcome) == RepayStep(old(State()), id, amount)
    {
      if id !in lines { return Refused(NotFound); }
      if amount.None? || amount.value <= 0.0 { return Refused(BadAmount); }
      var line := lines[id];
      var newUtilized := Max(0.0, line.utilized - amount.value);
      ledger := ledger + [Row(id, Repay(amount.value))];
      var next := line.(utilized := newUtilized, availableCredit := line.creditLimit - newUtilized);
      lines := lines[id := next];
      return Done(next);
    }
  }

  // ---------------------------------------------------------------------------------------
  // Sequential runs
  // ---------------------------------------------------------------------------------------

  datatype Call =
    | Open(id: string, walletAddress: string, creditLimit: real)
    | CallDraw(id: string, borrower: string, amount: Option<real>)
    | CallRepay(id: string, amount: Option<real>)
    | SetStatus(id: string, status: LineStatus)

  /** A line is opened unused, under a new id and a positive limit. */
  function Apply(b: Books, c: Call): Books {
    match c
    case Open(id, wallet, limit) =>
      if id in b.lines || limit <= 0.0 then b
      else b.(lines := b.lines[id := Line(wallet, limit, 0.0, limit, Active)])
    case CallDraw(id, borrower, amount) => DrawStep(b, id, borrower, amount).0
    case CallRepay(id, amount) => RepayStep(b, id, amount).0
    case SetStatus(id, status) =>
      if id in b.lines then b.(lines := b.lines[id := b.lines[id].(status := status)]) else b
  }

  function After(calls: seq<Call>): Books {
    if calls == [] then Books(map[], []) else Apply(After(calls[..|calls| - 1]), calls[|calls| - 1])
  }

  /** The ledger rows of one line. */
  function OpsOf(ledger: seq<Row>, id: string): seq<Op> {
    if ledger == [] then []
    else
      var r := ledger[|ledger| - 1];
      OpsOf(ledger[..|ledger| - 1], id) + (if r.line == id then [r.op] else [])
  }

  ghost predicate LineOk(l: Line, ops: seq<Op>) {
    && Positive(ops)
    && 0.0 <= l.utilized <= l.creditLimit
    && l.availableCredit == l.creditLimit - l.utilized
    && l.utilized == Stepped(ops)
  }

  ghost predicate BooksOk(b: Books) {
    && (forall id :: id in b.lines ==> LineOk(b.lines[id], OpsOf(b.ledger, id)))
    && (forall k :: 0 <= k < |b.ledger| ==> b.ledger[k].line in b.lines)
  }

  lemma {:induction false} NoRowsNoOps(ledger: seq<Row>, id: string)
    requires forall k :: 0 <= k < |ledger| ==> ledger[k].line != id
    ensures OpsOf(ledger, id) == []
  {
    if ledger != [] { NoRowsNoOps(ledger[..|ledger| - 1], id); }
  }

  lemma OpsSnoc(ledger: seq<Row>, r: Row, id: string)
    ensures OpsOf(ledger + [r], id) == OpsOf(ledger, id) + (if r.line == id then [r.op] else [])
  {
    assert (ledger + [r])[..|ledger|] == ledger;
  }

  lemma SteppedSnoc(ops: seq<Op>, op: Op)
    ensures Stepped(ops + [op])
            == match op case Borrow(a) => Stepped(ops) + a case Repay(a) => Max(0.0, Stepped(ops) - a)
  {
    assert (ops + [op])[..|ops|] == ops;
  }

  /** Recording one operation on one line keeps the books. */
  lemma RecordKeeps(b: Books, id: string, op: Op, utilized: real)
    requires BooksOk(b) && id in b.lines && op.amount > 0.0
    requires utilized == Stepped(OpsOf(b.ledger, id) + [op]) && 0.0 <= utilized <= b.lines[id].creditLimit
    ensures BooksOk(Books(b.lines[id := WithUtilized(b.lines[id], utilized)], b.ledger + [Row(id, op)]))
  {
    hide Stepped;
    var b' := Books(b.lines[id := WithUtilized(b.lines[id], utilized)], b.ledger + [Row(id, op)]);
    forall k | k in b'.lines ensures LineOk(b'.lines[k], OpsOf(b'.ledger, k)) {
      OpsSnoc(b.ledger, Row(id, op), k);
      assert k != id ==> OpsOf(b.ledger, k) + [] == OpsOf(b.ledger, k);
      assert LineOk(b.lines[k], OpsOf(b.ledger, k));
    }
  }

  lemma ApplyKeeps(b: Books, c: Call)
    requires BooksOk(b)
    ensures BooksOk(Apply(b, c))
  {
    hide Stepped, OpsOf;
    match c
    case Open(id, _, _) =>
      if id !in b.lines {
        NoRowsNoOps(b.ledger, id);
        EmptyStepped();
      }
    case CallDraw(id, borrower, amount) =>
      if DrawStep(b, id, borrower, amount).1.Done? {
        assert LineOk(b.lines[id], OpsOf(b.ledger, id));
        SteppedSnoc(OpsOf(b.ledger, id), Borrow(amount.value));
        RecordKeeps(b, id, Borrow(amount.value), b.lines[id].utilized + amount.value);
      }
    case CallRepay(id, amount) =>
      if RepayStep(b, id, amount).1.Done? {
        assert LineOk(b.lines[id], OpsOf(b.ledger, id));
        SteppedSnoc(OpsOf(b.ledger, id), Repay(amount.value));
        RecordKeeps(b, id, Repay(amount.value), Max(0.0, b.lines[id].utilized - amount.value));
      }
    case SetStatus(_, _) =>
  }

  lemma EmptyStepped()
    ensures Stepped([]) == 0.0
  {
  }

  lemma {:induction false} BooksStayOk(calls: seq<Call>)
    ensures BooksOk(After(calls))
  {
    if calls != [] {
      BooksStayOk(calls[..|calls| - 1]);
      ApplyKeeps(After(calls[..|calls| - 1]), calls[|calls| - 1]);
    }
  }

  /** After any sequence of calls, every line's balance is within zero and its limit, equals the
      stepped value of its own ledger rows, and is at least what the ledger query would report;
      the two agree exactly when no repay exceeded the balance or the sum is at its lowest. */
  lemma BalancesAreSound(calls: seq<Call>, id: string)
    requires id in After(calls).lines
    ensures var l, ops := After(calls).lines[id], OpsOf(After(calls).ledger, id);
            && 0.0 <= l.utilized <= l.creditLimit
            && l.availableCredit == l.creditLimit - l.utilized
            && l.utilized == Stepped(ops)
            && LedgerUtilized(ops, l.creditLimit) <= l.utilized
            && (LedgerUtilized(ops, l.creditLimit) == l.utilized <==> NoOverpayment(ops) || Sum(ops) == Lowest(ops))
  {
    hide Stepped, Sum, Lowest, NoOverpayment, LedgerUtilized;
    BooksStayOk(calls);
    var l, ops := After(calls).lines[id], OpsOf(After(calls).ledger, id);
    assert LineOk(l, ops);
    LedgerNeverExceedsStepped(ops);
    LedgerUtilizedIs(ops, l.creditLimit);
  }

  // ---------------------------------------------------------------------------------------
  // Who may draw and repay
  // ---------------------------------------------------------------------------------------

  /** One line and one ledger row changed, and nothing else. */
  ghost predicate Booked(b: Books, b': Books, id: string, op: Op, utilized: real) {
    && id in b.lines && id in b'.lines && b'.lines.Keys == b.lines.Keys
    && (forall k :: k in b.lines && k != id ==> b'.lines[k] == b.lines[k])
    && b'.lines[id] == Line(b.lines[id].walletAddress, b.lines[id].creditLimit, utilized,
                            b.lines[id].creditLimit - utilized, b.lines[id].status)
    && b'.ledger == b.ledger + [Row(id, op)]
  }

  /** After any calls, a draw is refused, naming the first reason that applies and changing
      nothing, exactly when the line is unknown, belongs to another wallet, is not active, the
      amount is absent or not positive, or it would take the borrowed total of the line, as its
      history steps it, past the limit; any other draw raises the balance by exactly the amount
      asked for, and books exactly that borrow. */
  lemma DrawIsAcceptedIff(calls: seq<Call>, id: string, borrower: string, amount: Option<real>)
    ensures var b := After(calls);
            var (b', outcome) := DrawStep(b, id, borrower, amount);
            && b' == After(calls + [CallDraw(id, borrower, amount)])
            && (outcome.Refused? ==> b' == b)
            && (outcome == Refused(NotFound) <==> id !in b.lines)
            && (id in b.lines ==>
                  var l := b.lines[id];
                  var good := amount.Some? && amount.value > 0.0;
                  var fits := good && Stepped(OpsOf(b.ledger, id)) + amount.value <= l.creditLimit;
                  && (outcome == Refused(Unauthorized) <==> l.walletAddress != borrower)
                  && (outcome == Refused(NotActive) <==> l.walletAddress == borrower && l.status != Active)
                  && (outcome == Refused(BadAmount)
                      <==> l.walletAddress == borrower && l.status == Active && !good)
                  && (outcome == Refused(LimitExceeded)
                      <==> l.walletAddress == borrower && l.status == Active && good && !fits)
                  && (outcome.Done? <==> l.walletAddress == borrower && l.status == Active && fits)
                  && (outcome.Done? ==>
                        && Booked(b, b', id, Borrow(amount.value), l.utilized + amount.value)
                        && outcome.line == b'.lines[id]))
  {
    hide Stepped, OpsOf;
    BooksStayOk(calls);
    AfterSnoc(calls, CallDraw(id, borrower, amount));
    if id in After(calls).lines { assert LineOk(After(calls).lines[id], OpsOf(After(calls).ledger, id)); }
  }

  /** After any calls, a repay is refused, changing nothing, exactly when the line is unknown or
      the amount absent or not positive; any other repay, by anyone and on a line of any status,
      lowers the balance by the amount, but not below zero, and books exactly that repay. */
  lemma RepayIsAcceptedIff(calls: seq<Call>, id: string, amount: Option<real>)
    ensures var b := After(calls);
            var (b', outcome) := RepayStep(b, id, amount);
            var good := amount.Some? && amount.value > 0.0;
            && b' == After(calls + [CallRepay(id, amount)])
            && (outcome.Refused? ==> b' == b)
            && (outcome == Refused(NotFound) <==> id !in b.lines)
            && (outcome == Refused(BadAmount) <==> id in b.lines && !good)
            && (outcome.Done? <==> id in b.lines && good)
            && (outcome.Done? ==>
                  var balance := b.lines[id].utilized;
                  && Booked(b, b', id, Repay(amount.value),
                            if amount.value <= balance then balance - amount.value else 0.0)
                  && outcome.line == b'.lines[id])
  {
    hide Stepped, OpsOf, After, BooksOk;
    AfterSnoc(calls, CallRepay(id, amount));
  }

  lemma AfterSnoc(calls: seq<Call>, c: Call)
    ensures After(calls + [c]) == Apply(After(calls), c)
  {
    assert (calls + [c])[..|calls|] == calls;
  }

  /** A line opened under a new id with a positive limit is active and unused; any other opening
      changes nothing. */
  lemma OpensUnused(calls: seq<Call>, id: string, wallet: string, limit: real)
    ensures var b, b' := After(calls), After(calls + [Open(id, wallet, limit)]);
            b' == if id in b.lines || limit <= 0.0 then b
                  else Books(b.lines[id := Line(wallet, limit, 0.0, limit, Active)], b.ledger)
  {
    AfterSnoc(calls, Open(id, wallet, limit));
  }

  /** A line keeps its wallet and limit, and its balance and ledger change only by its own draws
      and repays. */
  lemma OthersKeepTheirLines(calls: seq<Call>, c: Call, id: string)
    requires id in After(calls).lines
    ensures id in After(calls + [c]).lines
    ensures var l, l' := After(calls).lines[id], After(calls + [c]).lines[id];
            && l'.walletAddress == l.walletAddress && l'.creditLimit == l.creditLimit
            && (c.id != id || c.Open? ==> l' == l)
            && (c.SetStatus? ==> l' == l.(status := if c.id == id then c.status else l.status))
            && (c.CallDraw? || c.CallRepay? ==> l'.status == l.status)
  {
    AfterSnoc(calls, c);
  }

  /** With the ledger as the balance, as the Postgres repository has it, a draw is accepted
      whenever the stepped balance would accept it. */
  lemma LedgerAcceptsNoLess(ops: seq<Op>, limit: real, amount: real)
    requires Positive(ops) && limit >= 0.0 && Stepped(ops) + amount <= limit
    ensures LedgerUtilized(ops, limit) + amount <= limit
  {
    hide Stepped, Sum;
    LedgerNeverExceedsStepped(ops);
    LedgerUtilizedIs(ops, limit);
  }

  /** The limit check of a draw, on whichever figure stands for the balance. */
  predicate Accepts(utilized: real, amount: real, limit: real) { amount > 0.0 && utilized + amount <= limit }

  ghost predicate OnlyLedgerAccepts(ops: seq<Op>, limit: real, amount: real) {
    Accepts(LedgerUtilized(ops, limit), amount, limit) && !Accepts(Stepped(ops), amount, limit)
  }

  /** Some draw is accepted on the ledger figure and refused on the stepped balance exactly when
      a repay exceeded the balance and the sum has since risen above its lowest point. */
  lemma LedgerLendsMoreIff(ops: seq<Op>, limit: real)
    requires Positive(ops) && Stepped(ops) <= limit
    ensures (exists amount :: OnlyLedgerAccepts(ops, limit, amount))
            <==> !NoOverpayment(ops) && Sum(ops) != Lowest(ops)
  {
    hide Stepped, Sum, Lowest, NoOverpayment, LedgerUtilized;
    LedgerNeverExceedsStepped(ops);
    LedgerUtilizedIs(ops, limit);
    if LedgerUtilized(ops, limit) < Stepped(ops) {
      assert OnlyLedgerAccepts(ops, limit, limit - LedgerUtilized(ops, limit));
    }
  }

  /** Repaying 10 on an unused line of 100 and then drawing 100 leaves 10 more to draw on the
      ledger figure; the overpayment alone makes no difference yet. */
  lemma OverpaymentRaisesTheLedgerLimit()
    ensures OnlyLedgerAccepts([Repay(10.0), Borrow(100.0)], 100.0, 10.0)
    ensures !NoOverpayment([Repay(10.0)]) && forall amount :: !OnlyLedgerAccepts([Repay(10.0)], 100.0, amount)
  {
    var ops := [Repay(10.0), Borrow(100.0)];
    assert ops[..1] == [Repay(10.0)] && [Repay(10.0)][..0] == [];
    assert Stepped([Repay(10.0)]) == 0.0 && Sum([Repay(10.0)]) == -10.0;
    assert Stepped(ops) == 100.0 && Sum(ops) == 90.0;
  }

  // ---------------------------------------------------------------------------------------
  // Runs over the Postgres repository
  // ---------------------------------------------------------------------------------------

  /** What the Postgres repository reads back: the balance of a line is that of its ledger rows. */
  function ReadLine(l: Line, ops: seq<Op>): Line {
    l.(availableCredit := AvailableCredit(ops, l.creditLimit), utilized := LedgerUtilized(ops, l.creditLimit))
  }

  function Read(b: Books): Books {
    b.(lines := map id | id in b.lines :: ReadLine(b.lines[id], OpsOf(b.ledger, id)))
  }

  /** The service over that repository: of what it writes, only the ledger row is kept. */
  function PostgresApply(b: Books, c: Call): Books {
    match c
    case CallDraw(id, borrower, amount) => b.(ledger := DrawStep(Read(b), id, borrower, amount).0.ledger)
    case CallRepay(id, amount) => b.(ledger := RepayStep(Read(b), id, amount).0.ledger)
    case _ => Apply(b, c)
  }

  function PostgresAfter(calls: seq<Call>): Books {
    if calls == [] then Books(map[], [])
    else PostgresApply(PostgresAfter(calls[..|calls| - 1]), calls[|calls| - 1])
  }

  ghost predicate WithinLimit(limit: real, ops: seq<Op>) {
    Positive(ops) && 0.0 < limit && Sum(ops) <= limit
  }

  ghost predicate LedgerOk(b: Books) {
    && (forall id :: id in b.lines ==> WithinLimit(b.lines[id].creditLimit, OpsOf(b.ledger, id)))
    && (forall k :: 0 <= k < |b.ledger| ==> b.ledger[k].line in b.lines)
  }

  lemma SumSnoc(ops: seq<Op>, op: Op)
    ensures Sum(ops + [op]) == Sum(ops) + Delta(op)
  {
    assert (ops + [op])[..|ops|] == ops;
  }

  lemma RowKeepsLedger(b: Books, id: string, op: Op)
    requires LedgerOk(b) && id in b.lines && op.amount > 0.0
    requires Sum(OpsOf(b.ledger, id)) + Delta(op) <= b.lines[id].creditLimit
    ensures LedgerOk(b.(ledger := b.ledger + [Row(id, op)]))
  {
    hide Sum, Delta;
    var ledger := b.ledger + [Row(id, op)];
    forall k | k in b.lines ensures WithinLimit(b.lines[k].creditLimit, OpsOf(ledger, k)) {
      OpsSnoc(b.ledger, Row(id, op), k);
      assert WithinLimit(b.lines[k].creditLimit, OpsOf(b.ledger, k));
      if k == id { SumSnoc(OpsOf(b.ledger, id), op); }
      assert k != id ==> OpsOf(b.ledger, k) + [] == OpsOf(b.ledger, k);
    }
  }

  lemma PostgresApplyKeeps(b: Books, c: Call)
    requires LedgerOk(b)
    ensures LedgerOk(PostgresApply(b, c))
  {
    hide Sum, OpsOf, LedgerUtilized, AvailableCredit;
    match c
    case Open(id, _, _) =>
      if id !in b.lines {
        NoRowsNoOps(b.ledger, id);
        EmptySum();
      }
    case CallDraw(id, borrower, amount) =>
      if DrawStep(Read(b), id, borrower, amount).1.Done? {
        var l, ops := b.lines[id], OpsOf(b.ledger, id);
        assert WithinLimit(l.creditLimit, ops);
        LedgerUtilizedIs(ops, l.creditLimit);
        RowKeepsLedger(b, id, Borrow(amount.value));
      }
    case CallRepay(id, amount) =>
      if RepayStep(Read(b), id, amount).1.Done? {
        assert WithinLimit(b.lines[id].creditLimit, OpsOf(b.ledger, id));
        RowKeepsLedger(b, id, Repay(amount.value));
      }
    case SetStatus(_, _) =>
  }

  lemma EmptySum()
    ensures Sum([]) == 0.0
  {
  }

  lemma {:induction false} LedgerStaysOk(calls: seq<Call>)
    ensures LedgerOk(PostgresAfter(calls))
  {
    if calls != [] {
      LedgerStaysOk(calls[..|calls| - 1]);
      PostgresApplyKeeps(PostgresAfter(calls[..|calls| - 1]), calls[|calls| - 1]);
    }
  }

  /** Over the Postgres repository, after any sequence of calls, the ledger sum of every line is
      within its limit and what is read back is that sum floored at zero; the balance the service
      would have stepped can exceed the limit, but by no more than has been overpaid. */
  lemma LedgerBalancesAreSound(calls: seq<Call>, id: string)
    requires id in PostgresAfter(calls).lines
    ensures var b := PostgresAfter(calls);
            var l, ops := Read(b).lines[id], OpsOf(b.ledger, id);
            && Sum(ops) <= l.creditLimit
            && l.utilized == Max(0.0, Sum(ops)) && 0.0 <= l.utilized <= l.creditLimit
            && l.availableCredit == l.creditLimit - l.utilized
            && Stepped(ops) <= l.creditLimit - Lowest(ops)
            && (NoOverpayment(ops) ==> l.utilized == Stepped(ops))
  {
    hide Stepped, Sum, Lowest, NoOverpayment, LedgerUtilized, AvailableCredit;
    LedgerStaysOk(calls);
    var b := PostgresAfter(calls);
    var ops := OpsOf(b.ledger, id);
    assert WithinLimit(b.lines[id].creditLimit, ops);
    LedgerUtilizedIs(ops, b.lines[id].creditLimit);
    LedgerNeverExceedsStepped(ops);
    SteppedIsReflected(ops);
  }

  lemma PostgresAfterSnoc(calls: seq<Call>, c: Call)
    ensures PostgresAfter(calls + [c]) == PostgresApply(PostgresAfter(calls), c)
  {
    assert (calls + [c])[..|calls|] == calls;
  }

  /** Over the Postgres repository, a draw books exactly its borrow if the wallet, the status and the
      amount are right and the floored ledger sum has room for it, and otherwise nothing; a repay
      books exactly its repay if the line is known and the amount right. */
  lemma PostgresBooksIff(calls: seq<Call>, id: string, borrower: string, amount: Option<real>)
    ensures var b := PostgresAfter(calls);
            var good := id in b.lines && amount.Some? && amount.value > 0.0;
            && PostgresAfter(calls + [CallDraw(id, borrower, amount)])
               == (if && good && b.lines[id].walletAddress == borrower && b.lines[id].status == Active
                      && Max(0.0, Sum(OpsOf(b.ledger, id))) + amount.value <= b.lines[id].creditLimit
                   then b.(ledger := b.ledger + [Row(id, Borrow(amount.value))]) else b)
            && PostgresAfter(calls + [CallRepay(id, amount)])
               == (if good then b.(ledger := b.ledger + [Row(id, Repay(amount.value))]) else b)
  {
    hide PostgresAfter, Sum, OpsOf, LedgerUtilized, AvailableCredit;
    var b := PostgresAfter(calls);
    LedgerStaysOk(calls);
    PostgresAfterSnoc(calls, CallDraw(id, borrower, amount));
    PostgresAfterSnoc(calls, CallRepay(id, amount));
    if id in b.lines {
      assert WithinLimit(b.lines[id].creditLimit, OpsOf(b.ledger, id));
      LedgerUtilizedIs(OpsOf(b.ledger, id), b.lines[id].creditLimit);
    }
  }
}
