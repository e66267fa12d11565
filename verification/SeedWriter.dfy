/** The seed's invoice writer: the audit trail and payments each seeded invoice gets, and where
    `pay` stops. Times are microseconds. */
module SeedWriter {
  import opened Wrappers
  import Scatter

  const HOUR := 3_600_000_000
  const DAY := 24 * HOUR
  const MINUTE := 60_000_000
  const SECOND := 1_000_000

  datatype Status = New | Pending | ReadyForReview | Rejected | Approved | PaymentScheduled | Paid | Done

  datatype Action =
    | Uploaded | ExperimentAssigned | AutoApproved | ExtractionCompleted | Rejection | Resubmission | Approval
    | Scheduling | VoidedReturn | PaidViaErp | Completion

  /** One line of an invoice's history: something that happens at a time. */
  datatype Step = Step(at: int, action: Action)

  datatype Row =
    | Transition(at: int, action: Action, before: Status, after: Status)
    | Note(at: int, action: Action)

  datatype PaymentStatus = Submitted | Voided | Completed

  datatype Payment = Payment(status: PaymentStatus, submittedAt: int)

  /** What is stored about one invoice. */
  datatype Story = Story(status: Status, rows: seq<Row>, payments: seq<Payment>)

  const FRESH := Story(New, [], [])

  // ----- what a history means -----

  function Target(action: Action): Status
    requires action != ExperimentAssigned
  {
    match action
    case Uploaded => Pending
    case AutoApproved => Approved
    case ExtractionCompleted => ReadyForReview
    case Rejection => Rejected
    case Resubmission => ReadyForReview
    case Approval => Approved
    case Scheduling => PaymentScheduled
    case VoidedReturn => Approved
    case PaidViaErp => Paid
    case Completion => Done
  }

  /** The payments after a step: scheduling submits one more, a void or a settlement closes the last. */
  function Settled(payments: seq<Payment>, step: Step): seq<Payment> {
    var last := |payments| - 1;
    match step.action
    case Scheduling => payments + [Payment(Submitted, step.at)]
    case VoidedReturn => if last < 0 then payments else payments[last := payments[last].(status := Voided)]
    case PaidViaErp => if last < 0 then payments else payments[last := payments[last].(status := Completed)]
    case _ => payments
  }

  function Happen(s: Story, step: Step): Story {
    if step.action == ExperimentAssigned then s.(rows := s.rows + [Note(step.at, step.action)])
    else
      Story(Target(step.action),
            s.rows + [Transition(step.at, step.action, s.status, Target(step.action))],
            Settled(s.payments, step))
  }

  function Replay(s: Story, steps: seq<Step>): Story
    decreases steps
  {
    if steps == [] then s else Replay(Happen(s, steps[0]), steps[1..])
  }

  /** The steps up to the first that has not happened by `cutoff`. */
  function Due(steps: seq<Step>, cutoff: int): seq<Step> {
    if steps == [] || steps[0].at > cutoff then [] else [steps[0]] + Due(steps[1..], cutoff)
  }

  /** A payment's whole life, were there time for all of it. */
  function Life(at: int, void: bool): seq<Step> {
    if void then
      [Step(at, Scheduling), Step(at + DAY, VoidedReturn), Step(at + 2 * DAY, Scheduling),
       Step(at + 4 * DAY, PaidViaErp), Step(at + 5 * DAY, Completion)]
    else
      [Step(at, Scheduling), Step(at + 2 * DAY, PaidViaErp), Step(at + 3 * DAY, Completion)]
  }

  /** The one case in which `pay` does not stop in time: the first attempt is scheduled, and its void
      lies ahead of the cutoff. */
  predicate VoidsAhead(at: int, void: bool, cutoff: int) {
    void && at <= cutoff && at + DAY > cutoff
  }

  /** The steps `pay` writes. */
  function Written(at: int, void: bool, cutoff: int): seq<Step> {
    if VoidsAhead(at, void, cutoff) then Life(at, void)[..2] else Due(Life(at, void), cutoff)
  }

  // ----- one seeded invoice -----

  /** What the seed knows of an invoice before writing it. `wait` is the time to decide, `tried`
      whether it falls in an experiment. */
  datatype Facts = Facts(created: int, index: nat, tried: bool, touchless: bool, catering: bool, wait: nat,
                         rejectedFirst: bool, voided: bool)

  function Extracted(f: Facts): int {
    f.created + (4 + f.index % 5) * MINUTE
  }

  function ApprovedAt(f: Facts): int {
    if f.touchless then Extracted(f)
    else if f.rejectedFirst then Extracted(f) + f.wait + DAY + f.wait
    else Extracted(f) + f.wait
  }

  function Review(f: Facts): seq<Step> {
    var decided := Extracted(f) + f.wait;
    if f.touchless then [Step(Extracted(f), AutoApproved)]
    else
      [Step(Extracted(f), ExtractionCompleted)]
      + (if f.rejectedFirst then [Step(decided, Rejection), Step(decided + DAY, Resubmission)] else [])
      + [Step(ApprovedAt(f), Approval)]
  }

  function Intake(f: Facts): seq<Step> {
    [Step(f.created, Uploaded)] + (if f.tried then [Step(f.created, ExperimentAssigned)] else []) + Review(f)
  }

  /** An invoice's whole history under a clock reading `now`. */
  function History(f: Facts, void: bool, now: int): seq<Step> {
    Intake(f) + Written(ApprovedAt(f) + DAY, void, now - HOUR)
  }

  /** Whether invoice `k` gets a void: a reviewed one if the plan says so, and the first auto-approved
      Catering invoice of the whole seed. */
  predicate Voids(facts: seq<Facts>, k: nat)
    requires k < |facts|
  {
    if facts[k].touchless then facts[k].catering && !CateringAuto(facts[..k]) else facts[k].voided
  }

  predicate CateringAuto(facts: seq<Facts>) {
    exists j :: 0 <= j < |facts| && facts[j].touchless && facts[j].catering
  }

  // ----- what every history keeps -----

  /** Each status row starts where the one before it ended; `from` to `to` is the whole walk. */
  predicate Chained(rows: seq<Row>, from: Status, to: Status) {
    if rows == [] then from == to
    else if rows[0].Note? then Chained(rows[1..], from, to)
    else rows[0].before == from && Chained(rows[1..], rows[0].after, to)
  }

  predicate InOrder(rows: seq<Row>) {
    forall i, j :: 0 <= i < j < |rows| ==> rows[i].at <= rows[j].at
  }

  predicate Timely(steps: seq<Step>) {
    forall i, j :: 0 <= i < j < |steps| ==> steps[i].at <= steps[j].at
  }

  lemma {:induction false} ChainedExtends(rows: seq<Row>, from: Status, mid: Status, row: Row, to: Status)
    requires Chained(rows, from, mid)
    requires if row.Note? then to == mid else row.before == mid && row.after == to
    ensures Chained(rows + [row], from, to)
  {
    if rows == [] {
      assert rows + [row] == [row];
    } else {
      assert (rows + [row])[1..] == rows[1..] + [row];
      ChainedExtends(rows[1..], if rows[0].Note? then from else rows[0].after, mid, row, to);
    }
  }

  /** Whatever happens to an invoice, its status rows stay a chain that ends in its status. */
  lemma {:induction false} ReplayChains(s: Story, steps: seq<Step>, from: Status)
    requires Chained(s.rows, from, s.status)
    ensures Chained(Replay(s, steps).rows, from, Replay(s, steps).status)
    decreases steps
  {
    if steps != [] {
      var next := Happen(s, steps[0]);
      ChainedExtends(s.rows, from, s.status, next.rows[|s.rows|], next.status);
      ReplayChains(next, steps[1..], from);
    }
  }

  /** A replay writes one row a step, at the step's time. */
  lemma {:induction false} ReplayRows(s: Story, steps: seq<Step>)
    ensures var rows := Replay(s, steps).rows;
            && |rows| == |s.rows| + |steps| && rows[..|s.rows|] == s.rows
            && forall k :: 0 <= k < |steps| ==> rows[|s.rows| + k].at == steps[k].at
                                                && rows[|s.rows| + k].action == steps[k].action
    decreases steps
  {
    if steps != [] {
      var next := Happen(s, steps[0]);
      ReplayRows(next, steps[1..]);
      var rows := Replay(next, steps[1..]).rows;
      assert rows[..|next.rows|][..|s.rows|] == rows[..|s.rows|];
      assert rows[..|next.rows|][|s.rows|] == rows[|s.rows|];
      forall k | 0 <= k < |steps|
        ensures rows[|s.rows| + k].at == steps[k].at && rows[|s.rows| + k].action == steps[k].action
      {
        if k > 0 { assert steps[1..][k - 1] == steps[k]; }
      }
    }
  }

  lemma {:induction false} ReplayAppend(s: Story, first: seq<Step>, second: seq<Step>)
    ensures Replay(s, first + second) == Replay(Replay(s, first), second)
    decreases first
  {
    if first == [] {
      assert first + second == second;
    } else {
      assert (first + second)[1..] == first[1..] + second;
      ReplayAppend(Happen(s, first[0]), first[1..], second);
    }
  }

  lemma {:induction false} DueIs(steps: seq<Step>, cutoff: int)
    requires Timely(steps)
    ensures Due(steps, cutoff) <= steps
    ensures forall k :: 0 <= k < |steps| ==> (steps[k].at <= cutoff <==> k < |Due(steps, cutoff)|)
  {
    if steps != [] {
      var rest := steps[1..];
      DueIs(rest, cutoff);
      forall k | 0 <= k < |steps| ensures steps[k].at <= cutoff <==> k < |Due(steps, cutoff)| {
        if k > 0 { assert steps[k] == rest[k - 1]; }
      }
    }
  }

  /** The docstring's promise, "stops at the last step that has already happened", holds exactly when
      the void does not lie ahead of the cutoff: then the rows `pay` writes are all in the past. */
  lemma PayStopsInTime(at: int, void: bool, cutoff: int)
    ensures Written(at, void, cutoff) == Due(Life(at, void), cutoff) <==> !VoidsAhead(at, void, cutoff)
    ensures (forall k :: 0 <= k < |Written(at, void, cutoff)| ==> Written(at, void, cutoff)[k].at <= cutoff)
            <==> !VoidsAhead(at, void, cutoff)
  {
    var life := Life(at, void);
    DueIs(life, cutoff);
    if VoidsAhead(at, void, cutoff) {
      assert Written(at, void, cutoff)[1].at > cutoff;
    }
  }

  /** For example a void scheduled at the cutoff itself: its row lies a day past it. */
  lemma VoidPastCutoff()
    ensures var steps := Written(0, true, 0);
            |steps| == 2 && steps[1] == Step(DAY, VoidedReturn) && Due(Life(0, true), 0) == Life(0, true)[..1]
  {
    DueIs(Life(0, true), 0);
    assert Life(0, true)[0].at == 0 && Life(0, true)[1].at == DAY;
  }

  // ----- where the shipped plans stand -----

  /** A vendor's slice of the history, as far as times go: days ago, and hours to approve. */
  datatype Plan = Plan(count: nat, firstDay: nat, lastDay: nat, low: nat, high: nat)

  /** Legal Partners, whose invoice 5 is the one the plans name to be voided. */
  const LEGAL := Plan(8, 170, 4, 70, 200)
  const LEGAL_VOIDED := 5

  /** Catering Solutions, whatever count its sizing gives it. */
  function Catering(count: nat): Plan {
    Plan(count, 168, 76, 2, 14)
  }

  /** `_day`: how long ago invoice `i` is, evenly spaced. */
  function Ago(plan: Plan, i: nat): int
    requires plan.lastDay <= plan.firstDay
  {
    plan.firstDay * DAY - (plan.firstDay - plan.lastDay) * DAY * i / Scatter.Denominator(plan.count)
  }

  /** That long before `now`, with the second, minute and hour replaced. */
  function CreatedAt(plan: Plan, i: nat, now: int): int
    requires plan.lastDay <= plan.firstDay
  {
    var moment := now - Ago(plan, i);
    moment - moment % DAY + (9 + i % 7) * HOUR + (i * 13 % 60) * MINUTE + moment % SECOND
  }

  /** The time to approve, a share of the plan's hours; None where the source raises for want of a stride. */
  function Wait(plan: Plan, i: nat): Option<int>
    requires plan.count > 0
  {
    var stride := Scatter.Stride(plan.count);
    if stride.None? then None
    else
      var position := Scatter.Position(plan.count, stride.value, (i + 3) % plan.count);
      Some(plan.low * HOUR + (plan.high - plan.low) * HOUR * position / Scatter.Denominator(plan.count))
  }

  /** The invoices of a plan are spaced from its first day to its last, each no earlier than the one before. */
  lemma AgoSpans(plan: Plan, i: nat, j: nat)
    requires plan.lastDay <= plan.firstDay && i <= j < plan.count
    ensures Ago(plan, 0) == plan.firstDay * DAY
    ensures plan.count > 1 ==> Ago(plan, plan.count - 1) == plan.lastDay * DAY
    ensures plan.lastDay * DAY <= Ago(plan, j) <= Ago(plan, i) <= plan.firstDay * DAY
  {
    var d, span := Scatter.Denominator(plan.count), (plan.firstDay - plan.lastDay) * DAY;
    Shares(span, 0, d);
    if plan.count > 1 { Shares(span, d, d); }
    SharesGrow(span, i, j, d);
    Shares(span, i, d);
    Shares(span, j, d);
  }

  /** A whole amount's share of it in `d` parts. */
  lemma Shares(span: nat, i: nat, d: nat)
    requires i <= d && d > 0
    ensures 0 <= span * i / d <= span && (i == 0 ==> span * i / d == 0) && (i == d ==> span * i / d == span)
  {
    Scatter.Grows(i, d, span);
    Scatter.Division(span * i, d);
    var q := span * i / d;
    if q > span { Scatter.Grows(span + 1, q, d); }
    if i == d && q < span { Scatter.Grows(q + 1, span, d); }
    if q < 0 { Scatter.Grows(q, -1, d); }
  }

  lemma SharesGrow(span: nat, i: nat, j: nat, d: nat)
    requires i <= j && d > 0
    ensures span * i / d <= span * j / d
  {
    Scatter.Grows(i, j, span);
    Scatter.Division(span * i, d);
    Scatter.Division(span * j, d);
    var p, q := span * i / d, span * j / d;
    if p > q { Scatter.Grows(q + 1, p, d); }
  }

  /** An invoice is created on the day its place gives, in working hours. */
  lemma CreatedInHours(plan: Plan, i: nat, now: int)
    requires plan.lastDay <= plan.firstDay
    ensures CreatedAt(plan, i, now) / DAY == (now - Ago(plan, i)) / DAY
    ensures 9 * HOUR <= CreatedAt(plan, i, now) % DAY < 16 * HOUR
  {
    hide Ago;
    var moment := now - Ago(plan, i);
    var within := (9 + i % 7) * HOUR + (i * 13 % 60) * MINUTE + moment % SECOND;
    assert i % 7 <= 6 && i * 13 % 60 <= 59 && moment % SECOND < SECOND && 9 * HOUR <= within < 16 * HOUR;
    Scatter.Division(moment, DAY);
    DayAnd(moment / DAY, within);
  }

  lemma DayAnd(days: int, within: nat)
    requires within < DAY
    ensures (days * DAY + within) / DAY == days && (days * DAY + within) % DAY == within
  {
  }

  /** The wait lies between the plan's hours. */
  lemma WaitInHours(plan: Plan, i: nat)
    requires plan.count > 0 && plan.low <= plan.high && Wait(plan, i).Some?
    ensures plan.low * HOUR <= Wait(plan, i).value <= plan.high * HOUR
  {
    var stride, span := Scatter.Stride(plan.count).value, (plan.high - plan.low) * HOUR;
    var position := Scatter.Position(plan.count, stride, (i + 3) % plan.count);
    hide Scatter.Stride;
    Scatter.Division((i + 3) % plan.count * stride, plan.count);
    assert plan.count > 1 ==> position <= Scatter.Denominator(plan.count);
    if plan.count == 1 { assert position == 0; }
    hide Scatter.Position;
    Shares(span, position, Scatter.Denominator(plan.count));
  }

  /** Replacing the hour moves a time by less than a day. */
  lemma CreatedNear(plan: Plan, i: nat, now: int)
    requires plan.lastDay <= plan.firstDay
    ensures CreatedAt(plan, i, now) < now - Ago(plan, i) + DAY
  {
    hide Ago;
    var moment := now - Ago(plan, i);
    assert i % 7 <= 6 && i * 13 % 60 <= 59 && moment % SECOND < SECOND && 0 <= moment % DAY;
  }

  lemma VoidsArePast(f: Facts, now: int)
    requires f.created <= now - 50 * DAY && f.wait <= 200 * HOUR
    ensures !VoidsAhead(ApprovedAt(f) + DAY, true, now - HOUR)
  {
    assert ApprovedAt(f) <= f.created + 8 * MINUTE + 400 * HOUR + DAY;
  }

  lemma LegalTimes()
    ensures Ago(LEGAL, LEGAL_VOIDED) >= 51 * DAY && Wait(LEGAL, LEGAL_VOIDED) == Some(70 * HOUR)
  {
    assert Scatter.Gcd(7, 8) == Scatter.Gcd(8, 7) == Scatter.Gcd(7, 1) == Scatter.Gcd(1, 0) == 1;
    assert Scatter.Stride(8) == Some(7);
    hide Scatter.Stride;
    assert Scatter.Position(8, 7, (LEGAL_VOIDED + 3) % 8) == 0;
  }

  /** No shipped vendor plan gets there. The invoices that can be voided are Legal Partners' sixth and, in
      whatever order and count, a Catering one approved without review. */
  lemma ShippedVoidsArePast(f: Facts, now: int, count: nat, i: nat)
    requires || (!f.touchless && f.created == CreatedAt(LEGAL, LEGAL_VOIDED, now)
                 && Wait(LEGAL, LEGAL_VOIDED) == Some(f.wait))
             || (f.touchless && i < count && f.created == CreatedAt(Catering(count), i, now))
    ensures !VoidsAhead(ApprovedAt(f) + DAY, true, now - HOUR)
  {
    if f.touchless {
      CateringAgo(count, i);
      CreatedNear(Catering(count), i, now);
      hide Ago, CreatedAt;
      VoidsArePast(f.(wait := 0), now);
    } else {
      LegalTimes();
      CreatedNear(LEGAL, LEGAL_VOIDED, now);
      hide Ago, CreatedAt, Wait;
      VoidsArePast(f, now);
    }
  }

  lemma CateringAgo(count: nat, i: nat)
    requires i < count
    ensures Ago(Catering(count), i) >= 76 * DAY
  {
    AgoSpans(Catering(count), i, i);
  }

  /** What `pay` writes is a beginning of the payment's life. */
  lemma WrittenPrefix(at: int, void: bool, cutoff: int)
    ensures Written(at, void, cutoff) <= Life(at, void)
  {
    DueIs(Life(at, void), cutoff);
  }

  lemma TimelyJoin(first: seq<Step>, second: seq<Step>, mid: int)
    requires Timely(first) && forall i :: 0 <= i < |first| ==> first[i].at <= mid
    requires Timely(second) && forall i :: 0 <= i < |second| ==> mid <= second[i].at
    ensures Timely(first + second)
  {
  }

  lemma IntakeTimely(f: Facts)
    ensures Timely(Intake(f)) && forall i :: 0 <= i < |Intake(f)| ==> Intake(f)[i].at <= ApprovedAt(f)
  {
    var opening := [Step(f.created, Uploaded)] + (if f.tried then [Step(f.created, ExperimentAssigned)] else []);
    assert Timely(Review(f)) && forall i :: 0 <= i < |Review(f)| ==> f.created <= Review(f)[i].at <= ApprovedAt(f);
    TimelyJoin(opening, Review(f), f.created);
  }

  lemma WrittenTimely(at: int, void: bool, cutoff: int)
    ensures Timely(Written(at, void, cutoff))
    ensures forall i :: 0 <= i < |Written(at, void, cutoff)| ==> at <= Written(at, void, cutoff)[i].at
  {
    var life := Life(at, void);
    WrittenPrefix(at, void, cutoff);
    assert Timely(life) && forall i :: 0 <= i < |life| ==> at <= life[i].at;
    hide Written, Life, Due;
    var written := Written(at, void, cutoff);
    assert forall i :: 0 <= i < |written| ==> written[i] == life[i];
  }

  lemma HistoryTimely(f: Facts, void: bool, now: int)
    ensures Timely(History(f, void, now))
  {
    hide ApprovedAt, Intake, Written;
    IntakeTimely(f);
    WrittenTimely(ApprovedAt(f) + DAY, void, now - HOUR);
    TimelyJoin(Intake(f), Written(ApprovedAt(f) + DAY, void, now - HOUR), ApprovedAt(f));
  }

  /** Every seeded invoice's rows form one chain from `new` to its status, in time order. */
  lemma SeededChain(f: Facts, void: bool, now: int)
    ensures var s := Replay(FRESH, History(f, void, now));
            Chained(s.rows, New, s.status) && InOrder(s.rows)
  {
    HistoryTimely(f, void, now);
    hide History, Replay, Timely, InOrder;
    ReplayChains(FRESH, History(f, void, now), New);
    ReplayInOrder(History(f, void, now));
  }

  lemma ReplayInOrder(steps: seq<Step>)
    requires Timely(steps)
    ensures InOrder(Replay(FRESH, steps).rows)
  {
    ReplayRows(FRESH, steps);
    hide Replay;
    var rows := Replay(FRESH, steps).rows;
    forall i, j | 0 <= i < j < |rows| ensures rows[i].at <= rows[j].at {
      assert rows[0 + i].at == steps[i].at && rows[0 + j].at == steps[j].at;
    }
  }

  // ----- where payment ends -----

  /** The payments fit the status: all but the last voided, and the last as the status says. */
  predicate Consistent(status: Status, payments: seq<Payment>) {
    var n := |payments|;
    && (forall k :: 0 <= k < n - 1 ==> payments[k].status == Voided)
    && match status
       case Paid => n > 0 && payments[n - 1].status == Completed
       case Done => n > 0 && payments[n - 1].status == Completed
       case PaymentScheduled => n > 0 && payments[n - 1].status == Submitted
       case _ => n > 0 ==> payments[n - 1].status == Voided
  }

  /** The statuses in which each step of a history is taken. */
  predicate Allowed(before: Status, action: Action) {
    match action
    case Scheduling => before == Approved
    case VoidedReturn => before == PaymentScheduled
    case PaidViaErp => before == PaymentScheduled
    case Completion => before == Paid
    case _ => before !in {PaymentScheduled, Paid, Done}
  }

  predicate Lawful(status: Status, steps: seq<Step>)
    decreases steps
  {
    steps != [] ==>
      && Allowed(status, steps[0].action)
      && Lawful(if steps[0].action == ExperimentAssigned then status else Target(steps[0].action), steps[1..])
  }

  /** Payments fit the status after every step a lawful history takes. */
  lemma {:induction false} ReplayConsistent(s: Story, steps: seq<Step>)
    requires Consistent(s.status, s.payments) && Lawful(s.status, steps)
    ensures var r := Replay(s, steps); Consistent(r.status, r.payments)
    decreases steps
  {
    if steps != [] {
      ReplayConsistent(Happen(s, steps[0]), steps[1..]);
    }
  }

  lemma {:induction false} LawfulPrefix(status: Status, steps: seq<Step>, n: nat)
    requires Lawful(status, steps) && n <= |steps|
    ensures Lawful(status, steps[..n])
    decreases n
  {
    if n > 0 {
      assert steps[..n][1..] == steps[1..][..n - 1];
      LawfulPrefix(if steps[0].action == ExperimentAssigned then status else Target(steps[0].action),
                   steps[1..], n - 1);
    }
  }

  /** A payment's life is lawful from `approved`, voided attempt or not. */
  lemma LifeLawful(at: int, void: bool)
    ensures Lawful(Approved, Life(at, void))
  {
    var life := Life(at, void);
    assert life[1..][1..] == life[2..] && life[2..][1..] == life[3..];
    if void {
      assert life[3..][1..] == life[4..] && life[4..][1..] == [];
      assert Lawful(Paid, life[4..]);
      assert Lawful(PaymentScheduled, life[3..]);
      assert Lawful(Approved, life[2..]);
      assert Lawful(PaymentScheduled, life[1..]);
    } else {
      assert life[3..] == [];
      assert Lawful(Paid, life[2..]);
      assert Lawful(PaymentScheduled, life[1..]);
    }
  }

  /** A fresh invoice reaches `approved`, with no payment, by the steps of its intake. */
  lemma IntakeApproves(f: Facts)
    ensures var s := Replay(FRESH, Intake(f)); s.status == Approved && s.payments == []
  {
    var opening := [Step(f.created, Uploaded)] + (if f.tried then [Step(f.created, ExperimentAssigned)] else []);
    ReplayAppend(FRESH, opening, Review(f));
    var afterOpening := Replay(FRESH, opening);
    assert afterOpening.payments == [] by { Unroll(FRESH, opening); }
    ReviewApproves(afterOpening, f);
  }

  lemma Unroll(s: Story, steps: seq<Step>)
    ensures |steps| == 1 ==> Replay(s, steps) == Happen(s, steps[0])
    ensures |steps| == 2 ==> Replay(s, steps) == Happen(Happen(s, steps[0]), steps[1])
  {
    if |steps| == 2 { assert Replay(Happen(s, steps[0]), steps[1..]) == Happen(Happen(s, steps[0]), steps[1]); }
  }

  lemma ReviewApproves(s: Story, f: Facts)
    requires s.payments == []
    ensures var r := Replay(s, Review(f)); r.status == Approved && r.payments == []
  {
    var review := Review(f);
    var last := |review| - 1;
    assert review == review[..last] + [review[last]];
    ReplayAppend(s, review[..last], [review[last]]);
    Unroll(Replay(s, review[..last]), [review[last]]);
    NoPayments(s, review[..last]);
  }

  lemma {:induction false} NoPayments(s: Story, steps: seq<Step>)
    requires s.payments == []
    requires forall k :: 0 <= k < |steps| ==> steps[k].action !in {Scheduling, VoidedReturn, PaidViaErp}
    ensures Replay(s, steps).payments == []
    decreases steps
  {
    if steps != [] { NoPayments(Happen(s, steps[0]), steps[1..]); }
  }

  /** After `pay` an invoice is approved, scheduled, paid or done, and its payments fit: `paid` and `done`
      have exactly one completed payment, `payment_scheduled` exactly one submitted, `approved` none
      open, and every other payment is voided. */
  lemma PaymentsFitStatus(f: Facts, void: bool, now: int)
    ensures var s := Replay(FRESH, History(f, void, now));
            && s.status in {Approved, PaymentScheduled, Paid, Done}
            && Consistent(s.status, s.payments)
  {
    hide ApprovedAt, Intake, Written, Replay, Consistent;
    var at, cutoff := ApprovedAt(f) + DAY, now - HOUR;
    var intake := Replay(FRESH, Intake(f));
    IntakeApproves(f);
    ReplayAppend(FRESH, Intake(f), Written(at, void, cutoff));
    WrittenFits(intake, at, void, cutoff);
  }

  lemma WrittenFits(s: Story, at: int, void: bool, cutoff: int)
    requires s.status == Approved && s.payments == []
    ensures var r := Replay(s, Written(at, void, cutoff));
            r.status in {Approved, PaymentScheduled, Paid, Done} && Consistent(r.status, r.payments)
  {
    var written := Written(at, void, cutoff);
    WrittenPrefix(at, void, cutoff);
    LifeLawful(at, void);
    LawfulPrefix(Approved, Life(at, void), |written|);
    assert Life(at, void)[..|written|] == written;
    ReplayConsistent(s, written);
    if written != [] { EndStatus(s, written); }
  }

  lemma {:induction false} EndStatus(s: Story, steps: seq<Step>)
    requires steps != [] && steps[|steps| - 1].action != ExperimentAssigned
    ensures Replay(s, steps).status == Target(steps[|steps| - 1].action)
  {
    var last := |steps| - 1;
    assert steps == steps[..last] + [steps[last]];
    ReplayAppend(s, steps[..last], [steps[last]]);
    Unroll(Replay(s, steps[..last]), [steps[last]]);
  }

  // ----- which rows and payments a history leaves -----

  function Tally(rows: seq<Row>, action: Action): nat {
    if rows == [] then 0
    else Tally(rows[..|rows| - 1], action) + if rows[|rows| - 1].action == action then 1 else 0
  }

  function StepTally(steps: seq<Step>, action: Action): nat {
    if steps == [] then 0 else (if steps[0].action == action then 1 else 0) + StepTally(steps[1..], action)
  }

  lemma {:induction false} TallyReplay(s: Story, steps: seq<Step>, action: Action)
    ensures Tally(Replay(s, steps).rows, action) == Tally(s.rows, action) + StepTally(steps, action)
    decreases steps
  {
    if steps != [] {
      var next := Happen(s, steps[0]);
      assert next.rows[..|next.rows| - 1] == s.rows;
      TallyReplay(next, steps[1..], action);
    }
  }

  lemma {:induction false} StepTallyAppend(a: seq<Step>, b: seq<Step>, action: Action)
    ensures StepTally(a + b, action) == StepTally(a, action) + StepTally(b, action)
  {
    if a == [] {
      assert a + b == b;
    } else {
      assert (a + b)[1..] == a[1..] + b;
      StepTallyAppend(a[1..], b, action);
    }
  }

  lemma StepTallyOne(step: Step, action: Action)
    ensures StepTally([step], action) == if step.action == action then 1 else 0
    ensures StepTally([], action) == 0
  {
    assert [step][1..] == [];
  }

  lemma StepTallyLast(steps: seq<Step>, n: nat, action: Action)
    requires n < |steps|
    ensures StepTally(steps[..n + 1], action)
            == StepTally(steps[..n], action) + if steps[n].action == action then 1 else 0
  {
    assert steps[..n + 1] == steps[..n] + [steps[n]];
    StepTallyAppend(steps[..n], [steps[n]], action);
    StepTallyOne(steps[n], action);
  }

  /** How often an intake takes each step. */
  function IntakeCount(f: Facts, action: Action): nat {
    var times := match action
      case Uploaded => true
      case ExperimentAssigned => f.tried
      case AutoApproved => f.touchless
      case ExtractionCompleted => !f.touchless
      case Rejection => !f.touchless && f.rejectedFirst
      case Resubmission => !f.touchless && f.rejectedFirst
      case Approval => !f.touchless
      case _ => false;
    if times then 1 else 0
  }

  lemma IntakeTally(f: Facts, action: Action)
    ensures StepTally(Intake(f), action) == IntakeCount(f, action)
  {
    IntakeSteps(f);
    hide Intake;
    var steps := Intake(f);
    var n := |steps|;
    assert steps[..0] == [] && steps[..n] == steps;
    StepTallyOne(steps[0], action);
    hide StepTally;
    forall k: nat | k < n
      ensures StepTally(steps[..k + 1], action)
              == StepTally(steps[..k], action) + if steps[k].action == action then 1 else 0
    {
      StepTallyLast(steps, k, action);
    }
    assert n >= 2 && StepTally(steps[..2], action) == StepTally(steps[..1 + 1], action);
    if n > 2 { assert StepTally(steps[..3], action) == StepTally(steps[..2 + 1], action); }
    if n > 3 { assert StepTally(steps[..4], action) == StepTally(steps[..3 + 1], action); }
    if n > 4 { assert StepTally(steps[..5], action) == StepTally(steps[..4 + 1], action); }
    if n > 5 { assert StepTally(steps[..6], action) == StepTally(steps[..5 + 1], action); }
    assert StepTally(steps[..1], action) == StepTally(steps[..0 + 1], action);
  }

  /** How often `pay` takes each step: those whose time has come, and the void once its payment is due. */
  function PayCount(at: int, void: bool, cutoff: int, action: Action): nat {
    var restart := if void then at + 2 * DAY else at;
    match action
    case Scheduling => (if at <= cutoff then 1 else 0) + (if void && restart <= cutoff then 1 else 0)
    case VoidedReturn => if void && at <= cutoff then 1 else 0
    case PaidViaErp => if restart + 2 * DAY <= cutoff then 1 else 0
    case Completion => if restart + 3 * DAY <= cutoff then 1 else 0
    case _ => 0
  }

  lemma PayTally(at: int, void: bool, cutoff: int, action: Action)
    ensures StepTally(Written(at, void, cutoff), action) == PayCount(at, void, cutoff, action)
  {
    var life, steps := Life(at, void), Written(at, void, cutoff);
    WrittenLength(at, void, cutoff);
    assert steps == life[..|steps|];
    StepTallyOne(life[0], action);
    assert life[..0] == [];
    StepTallyLast(life, 0, action);
    StepTallyLast(life, 1, action);
    StepTallyLast(life, 2, action);
    if void {
      StepTallyLast(life, 3, action);
      StepTallyLast(life, 4, action);
    }
    hide StepTally, Written;
  }

  /** Exactly which rows a seeded invoice gets, and how many of each. */
  lemma RowsTally(f: Facts, void: bool, now: int, action: Action)
    ensures Tally(Replay(FRESH, History(f, void, now)).rows, action)
            == IntakeCount(f, action) + PayCount(ApprovedAt(f) + DAY, void, now - HOUR, action)
  {
    hide ApprovedAt, Intake, Written, Replay, IntakeCount, PayCount, StepTally;
    TallyReplay(FRESH, History(f, void, now), action);
    StepTallyAppend(Intake(f), Written(ApprovedAt(f) + DAY, void, now - HOUR), action);
    IntakeTally(f, action);
    PayTally(ApprovedAt(f) + DAY, void, now - HOUR, action);
  }

  /** Where `pay` leaves an approved invoice with no payment. */
  lemma PayLeaves(s: Story, at: int, void: bool, cutoff: int)
    requires s.status == Approved && s.payments == []
    ensures var r, restart := Replay(s, Written(at, void, cutoff)), if void then at + 2 * DAY else at;
            var first := if at <= cutoff && void then [Payment(Voided, at)] else [];
            && (restart > cutoff ==> r.status == Approved && r.payments == first)
            && (restart <= cutoff && restart + 2 * DAY > cutoff ==>
                  r.status == PaymentScheduled && r.payments == first + [Payment(Submitted, restart)])
            && (restart + 2 * DAY <= cutoff ==>
                  && r.status == (if restart + 3 * DAY > cutoff then Paid else Done)
                  && r.payments == first + [Payment(Completed, restart)])
  {
    var life, steps := Life(at, void), Written(at, void, cutoff);
    WrittenLength(at, void, cutoff);
    assert steps == life[..|steps|];
    hide Written, Replay;
    ReplayTake(s, life, 0);
    ReplayTake(s, life, 1);
    ReplayTake(s, life, 2);
    ReplayTake(s, life, 3);
    ReplayTake(s, life, 4);
    ReplayTake(s, life, 5);
  }

  /** The day after its approval an invoice's payment is due if the clock has passed it. */
  predicate PaymentDue(f: Facts, now: int) {
    ApprovedAt(f) + DAY <= now - HOUR
  }

  /** A void shows exactly where it is asked for: an invoice has payments exactly when payment is due, its first
      is voided exactly when a void is asked, none other is, and one row returns it to approved. */
  lemma VoidShows(f: Facts, void: bool, now: int)
    ensures var s := Replay(FRESH, History(f, void, now));
            && (s.payments != [] <==> PaymentDue(f, now))
            && (forall k :: 0 <= k < |s.payments| ==> (s.payments[k].status == Voided <==> void && k == 0))
            && Tally(s.rows, VoidedReturn) == if void && PaymentDue(f, now) then 1 else 0
  {
    RowsTally(f, void, now, VoidedReturn);
    IntakeApproves(f);
    ReplayAppend(FRESH, Intake(f), Written(ApprovedAt(f) + DAY, void, now - HOUR));
    hide Intake, Written, Replay, Tally, ApprovedAt;
    PayLeaves(Replay(FRESH, Intake(f)), ApprovedAt(f) + DAY, void, now - HOUR);
  }

  // ----- the writer -----

  /** The plan voids a reviewed invoice it names, and the first Catering one approved without review. */
  predicate PlanVoids(facts: seq<Facts>, k: nat)
    requires k < |facts|
  {
    || (!facts[k].touchless && facts[k].voided)
    || (facts[k].touchless && facts[k].catering
        && forall j :: 0 <= j < k ==> !(facts[j].touchless && facts[j].catering))
  }

  lemma SeededVoid(facts: seq<Facts>, k: nat, payments: seq<Payment>, now: int)
    requires k < |facts| && payments == Replay(FRESH, History(facts[k], Voids(facts, k), now)).payments
    ensures (exists p :: p in payments && p.status == Voided) <==> PaymentDue(facts[k], now) && PlanVoids(facts, k)
  {
    VoidShows(facts[k], Voids(facts, k), now);
    hide Replay, History, PaymentDue;
    assert forall j :: 0 <= j < k ==> facts[..k][j] == facts[j];
    assert Voids(facts, k) <==> PlanVoids(facts, k);
    if payments != [] { assert payments[0] in payments; }
  }

  /** Rows and payments of the first `n` invoices. */
  function RowTotal(facts: seq<Facts>, n: nat, now: int): nat
    requires n <= |facts|
  {
    if n == 0 then 0
    else RowTotal(facts, n - 1, now) + |Replay(FRESH, History(facts[n - 1], Voids(facts, n - 1), now)).rows|
  }

  lemma CateringNone()
    ensures !CateringAuto([])
  {
  }

  lemma CateringGrows(facts: seq<Facts>, i: nat)
    requires i < |facts|
    ensures facts[..0] == []
    ensures CateringAuto(facts[..i + 1]) <==> CateringAuto(facts[..i]) || (facts[i].touchless && facts[i].catering)
  {
    var more := facts[..i + 1];
    assert more == facts[..i] + [facts[i]];
    if CateringAuto(facts[..i]) {
      var j :| 0 <= j < i && facts[..i][j].touchless && facts[..i][j].catering;
      assert more[j] == facts[..i][j];
    }
    assert more[i] == facts[i];
  }

  /** The steps of an intake, one by one. */
  lemma IntakeSteps(f: Facts)
    ensures var steps, k := Intake(f), if f.tried then 2 else 1;
            var decided := Extracted(f) + f.wait;
            && |steps| == k + (if f.touchless then 1 else if f.rejectedFirst then 4 else 2)
            && steps[0] == Step(f.created, Uploaded)
            && (f.tried ==> steps[1] == Step(f.created, ExperimentAssigned))
            && (if f.touchless then steps[k] == Step(Extracted(f), AutoApproved)
                else steps[k] == Step(Extracted(f), ExtractionCompleted))
            && (!f.touchless && f.rejectedFirst ==>
                  && steps[k + 1] == Step(decided, Rejection)
                  && steps[k + 2] == Step(decided + DAY, Resubmission)
                  && steps[k + 3] == Step(decided + DAY + f.wait, Approval))
            && (!f.touchless && !f.rejectedFirst ==> steps[k + 1] == Step(decided, Approval))
    ensures f.touchless ==> ApprovedAt(f) == Extracted(f)
  {
  }

  // ----- when each row is written -----

  /** How long after the row before it each row is written. */
  function Pause(f: Facts, action: Action): int {
    match action
    case Uploaded => 0
    case ExperimentAssigned => 0
    case AutoApproved => (4 + f.index % 5) * MINUTE
    case ExtractionCompleted => (4 + f.index % 5) * MINUTE
    case Rejection => f.wait
    case Resubmission => DAY
    case Approval => f.wait
    case Scheduling => DAY
    case VoidedReturn => DAY
    case PaidViaErp => 2 * DAY
    case Completion => DAY
  }

  predicate Paced(f: Facts, steps: seq<Step>) {
    forall k :: 0 < k < |steps| ==> steps[k].at == steps[k - 1].at + Pause(f, steps[k].action)
  }

  lemma PacedJoin(f: Facts, first: seq<Step>, second: seq<Step>)
    requires Paced(f, first) && Paced(f, second)
    requires first != [] && second != [] ==>
               second[0].at == first[|first| - 1].at + Pause(f, second[0].action)
    ensures Paced(f, first + second)
  {
    hide Pause;
  }

  lemma IntakePaced(f: Facts)
    ensures Paced(f, Intake(f)) && Intake(f) != [] && Intake(f)[0] == Step(f.created, Uploaded)
    ensures Intake(f)[|Intake(f)| - 1].at == ApprovedAt(f)
  {
    IntakeSteps(f);
    hide Intake;
  }

  lemma WrittenPaced(f: Facts, at: int, void: bool, cutoff: int)
    ensures Paced(f, Written(at, void, cutoff))
    ensures Written(at, void, cutoff) != [] ==> Written(at, void, cutoff)[0] == Step(at, Scheduling)
  {
    WrittenPrefix(at, void, cutoff);
    assert Paced(f, Life(at, void));
    hide Written;
    var written := Written(at, void, cutoff);
    assert forall k :: 0 <= k < |written| ==> written[k] == Life(at, void)[k];
  }

  lemma PacedRows(f: Facts, steps: seq<Step>)
    requires steps != [] && Paced(f, steps)
    ensures var rows := Replay(FRESH, steps).rows;
            && |rows| == |steps| && rows[0].action == steps[0].action && rows[0].at == steps[0].at
            && forall k :: 0 < k < |rows| ==> rows[k].at == rows[k - 1].at + Pause(f, rows[k].action)
  {
    ReplayRows(FRESH, steps);
    hide Replay, Pause;
    var rows := Replay(FRESH, steps).rows;
    assert forall k :: 0 <= k < |steps| ==> rows[|FRESH.rows| + k].at == steps[k].at
                                            && rows[|FRESH.rows| + k].action == steps[k].action;
    forall k | 0 <= k < |steps| ensures rows[k].at == steps[k].at && rows[k].action == steps[k].action {
      assert |FRESH.rows| + k == k;
    }
  }

  /** A seeded invoice's rows begin with its upload, at its creation, and each later one is written its own
      pause after the one before: minutes for the extraction, the plan's wait for each decision, a day or two for
      a resubmission and each step of a payment. */
  lemma EachRowWaits(f: Facts, void: bool, now: int)
    ensures var rows := Replay(FRESH, History(f, void, now)).rows;
            && rows != [] && rows[0].action == Uploaded && rows[0].at == f.created
            && forall k :: 0 < k < |rows| ==> rows[k].at == rows[k - 1].at + Pause(f, rows[k].action)
  {
    var steps := History(f, void, now);
    IntakePaced(f);
    WrittenPaced(f, ApprovedAt(f) + DAY, void, now - HOUR);
    hide Intake, Written, ApprovedAt, Replay;
    PacedJoin(f, Intake(f), Written(ApprovedAt(f) + DAY, void, now - HOUR));
    assert steps[0] == Step(f.created, Uploaded);
    PacedRows(f, steps);
  }

  // ----- which status each row is written in -----

  /** The one status in which each step of an invoice's life is taken. */
  function Before(action: Action): Status {
    match action
    case Uploaded => New
    case ExperimentAssigned => Pending
    case AutoApproved => Pending
    case ExtractionCompleted => Pending
    case Rejection => ReadyForReview
    case Resubmission => Rejected
    case Approval => ReadyForReview
    case Scheduling => Approved
    case VoidedReturn => PaymentScheduled
    case PaidViaErp => PaymentScheduled
    case Completion => Paid
  }

  function Next(status: Status, step: Step): Status {
    if step.action == ExperimentAssigned then status else Target(step.action)
  }

  /** Each step finds the status it needs. */
  predicate InPlace(status: Status, steps: seq<Step>)
    decreases steps
  {
    steps != [] ==> status == Before(steps[0].action) && InPlace(Next(status, steps[0]), steps[1..])
  }

  function StatusAfter(status: Status, steps: seq<Step>): Status
    decreases steps
  {
    if steps == [] then status else StatusAfter(Next(status, steps[0]), steps[1..])
  }

  predicate RowsInPlace(rows: seq<Row>) {
    forall k :: 0 <= k < |rows| && rows[k].Transition? ==> rows[k].before == Before(rows[k].action)
  }

  lemma {:induction false} ReplayInPlace(s: Story, steps: seq<Step>)
    requires RowsInPlace(s.rows) && InPlace(s.status, steps)
    ensures RowsInPlace(Replay(s, steps).rows)
    decreases steps
  {
    if steps != [] { ReplayInPlace(Happen(s, steps[0]), steps[1..]); }
  }

  lemma {:induction false} InPlaceJoin(status: Status, first: seq<Step>, second: seq<Step>)
    requires InPlace(status, first) && InPlace(StatusAfter(status, first), second)
    ensures InPlace(status, first + second)
    ensures StatusAfter(status, first + second) == StatusAfter(StatusAfter(status, first), second)
    decreases first
  {
    if first == [] {
      assert first + second == second;
    } else {
      assert (first + second)[1..] == first[1..] + second;
      InPlaceJoin(Next(status, first[0]), first[1..], second);
    }
  }

  lemma {:induction false} InPlacePrefix(status: Status, steps: seq<Step>, n: nat)
    requires InPlace(status, steps) && n <= |steps|
    ensures InPlace(status, steps[..n])
    decreases n
  {
    if n > 0 {
      assert steps[..n][1..] == steps[1..][..n - 1];
      InPlacePrefix(Next(status, steps[0]), steps[1..], n - 1);
    }
  }

  lemma OneInPlace(status: Status, step: Step)
    requires status == Before(step.action)
    ensures InPlace(status, [step]) && StatusAfter(status, [step]) == Next(status, step)
  {
    assert [step][1..] == [];
  }

  lemma {:induction false} StepInPlace(status: Status, first: seq<Step>, step: Step)
    requires InPlace(status, first) && StatusAfter(status, first) == Before(step.action)
    ensures InPlace(status, first + [step]) && StatusAfter(status, first + [step]) == Next(Before(step.action), step)
  {
    OneInPlace(StatusAfter(status, first), step);
    InPlaceJoin(status, first, [step]);
  }

  lemma IntakeInPlace(f: Facts)
    ensures InPlace(New, Intake(f)) && StatusAfter(New, Intake(f)) == Approved
  {
    IntakeSteps(f);
    hide Intake, InPlace, StatusAfter;
    var steps, k := Intake(f), if f.tried then 2 else 1;
    OneInPlace(New, steps[0]);
    assert steps[..1] == [steps[0]];
    if f.tried {
      StepInPlace(New, steps[..1], steps[1]);
      assert steps[..2] == steps[..1] + [steps[1]];
    }
    StepInPlace(New, steps[..k], steps[k]);
    assert steps[..k + 1] == steps[..k] + [steps[k]];
    if !f.touchless {
      StepInPlace(New, steps[..k + 1], steps[k + 1]);
      assert steps[..k + 2] == steps[..k + 1] + [steps[k + 1]];
      if f.rejectedFirst {
        StepInPlace(New, steps[..k + 2], steps[k + 2]);
        assert steps[..k + 3] == steps[..k + 2] + [steps[k + 2]];
        StepInPlace(New, steps[..k + 3], steps[k + 3]);
        assert steps[..k + 4] == steps[..k + 3] + [steps[k + 3]];
      }
    }
    assert steps[..|steps|] == steps;
  }

  lemma LifeInPlace(at: int, void: bool)
    ensures InPlace(Approved, Life(at, void))
  {
    var life := Life(at, void);
    hide InPlace, StatusAfter, Life;
    var steps := if void then [Scheduling, VoidedReturn, Scheduling, PaidViaErp, Completion]
                 else [Scheduling, PaidViaErp, Completion];
    assert |life| == |steps| && forall k :: 0 <= k < |life| ==> life[k].action == steps[k] by { LifeActions(at, void); }
    OneInPlace(Approved, life[0]);
    assert life[..1] == [life[0]];
    StepInPlace(Approved, life[..1], life[1]);
    assert life[..2] == life[..1] + [life[1]];
    StepInPlace(Approved, life[..2], life[2]);
    assert life[..3] == life[..2] + [life[2]];
    if void {
      StepInPlace(Approved, life[..3], life[3]);
      assert life[..4] == life[..3] + [life[3]];
      StepInPlace(Approved, life[..4], life[4]);
      assert life[..5] == life[..4] + [life[4]];
    }
    assert life[..|life|] == life;
  }

  lemma LifeActions(at: int, void: bool)
    ensures var life := Life(at, void);
            var steps := if void then [Scheduling, VoidedReturn, Scheduling, PaidViaErp, Completion]
                         else [Scheduling, PaidViaErp, Completion];
            |life| == |steps| && forall k :: 0 <= k < |life| ==> life[k].action == steps[k]
  {
  }

  /** Every status row of a seeded invoice is written in the one status its step is taken from. */
  lemma SeededInPlace(f: Facts, void: bool, now: int)
    ensures RowsInPlace(Replay(FRESH, History(f, void, now)).rows)
  {
    var at, cutoff := ApprovedAt(f) + DAY, now - HOUR;
    var written := Written(at, void, cutoff);
    IntakeInPlace(f);
    LifeInPlace(at, void);
    WrittenPrefix(at, void, cutoff);
    hide Written, Intake, InPlace, Replay, Life, StatusAfter;
    InPlacePrefix(Approved, Life(at, void), |written|);
    assert Life(at, void)[..|written|] == written;
    InPlaceJoin(New, Intake(f), written);
    ReplayInPlace(FRESH, History(f, void, now));
  }

  function AutoTotal(facts: seq<Facts>, n: nat): nat
    requires n <= |facts|
  {
    if n == 0 then 0 else AutoTotal(facts, n - 1) + if facts[n - 1].touchless then 1 else 0
  }

  function PaymentTotal(facts: seq<Facts>, n: nat, now: int): nat
    requires n <= |facts|
  {
    if n == 0 then 0
    else PaymentTotal(facts, n - 1, now) + |Replay(FRESH, History(facts[n - 1], Voids(facts, n - 1), now)).payments|
  }

  class Invoice {
    var status: Status
    var rows: seq<Row>
    var payments: seq<Payment>

    constructor ()
      ensures Told() == FRESH
    {
      status, rows, payments := New, [], [];
    }

    function Told(): Story
      reads this
    {
      Story(status, rows, payments)
    }
  }

  class Writer {
    const now: int
    var invoiceCount: nat
    var auditRows: nat
    var paymentCount: nat
    var autoApproved: nat

    constructor (now: int)
      ensures this.now == now && invoiceCount == auditRows == paymentCount == autoApproved == 0
    {
      this.now := now;
      invoiceCount, auditRows, paymentCount, autoApproved := 0, 0, 0, 0;
    }

    method Move(inv: Invoice, at: int, action: Action)
      requires action !in {ExperimentAssigned, Scheduling, VoidedReturn, PaidViaErp}
      modifies inv, this`auditRows
      ensures inv.Told() == Happen(old(inv.Told()), Step(at, action))
      ensures auditRows == old(auditRows) + 1
    {
      MoveTo(inv, at, action);
    }

    method MoveTo(inv: Invoice, at: int, action: Action)
      requires action != ExperimentAssigned
      modifies inv, this`auditRows
      ensures inv.Told() == old(inv.Told()).(
                status := Target(action),
                rows := old(inv.rows) + [Transition(at, action, old(inv.status), Target(action))])
      ensures auditRows == old(auditRows) + 1
    {
      inv.rows := inv.rows + [Transition(at, action, inv.status, Target(action))];
      auditRows := auditRows + 1;
      inv.status := Target(action);
    }

    method Schedule(inv: Invoice, at: int)
      modifies inv, this`auditRows, this`paymentCount
      ensures inv.Told() == Happen(old(inv.Told()), Step(at, Scheduling))
      ensures auditRows == old(auditRows) + 1 && paymentCount == old(paymentCount) + 1
    {
      MoveTo(inv, at, Scheduling);
      inv.payments := inv.payments + [Payment(Submitted, at)];
      paymentCount := paymentCount + 1;
    }

    /** The status the payment just scheduled gets, then the move that goes with it. */
    method Close(inv: Invoice, at: int, action: Action)
      requires action in {VoidedReturn, PaidViaErp} && inv.payments != []
      modifies inv, this`auditRows
      ensures inv.Told() == Happen(old(inv.Told()), Step(at, action))
      ensures auditRows == old(auditRows) + 1
    {
      var last := |inv.payments| - 1;
      var status := if action == VoidedReturn then Voided else Completed;
      inv.payments := inv.payments[last := inv.payments[last].(status := status)];
      MoveTo(inv, at, action);
    }

    /** Writes exactly the steps of `Written`, and counts what it writes. */
    method Pay(inv: Invoice, scheduledAt: int, void: bool)
      modifies inv, this`auditRows, this`paymentCount
      ensures inv.Told() == Replay(old(inv.Told()), Written(scheduledAt, void, now - HOUR))
      ensures auditRows - old(auditRows) == |inv.rows| - |old(inv.rows)|
      ensures paymentCount - old(paymentCount) == |inv.payments| - |old(inv.payments)|
    {
      var cutoff := now - HOUR;
      var at := scheduledAt;
      ghost var s0, w := inv.Told(), Written(scheduledAt, void, cutoff);
      ghost var life := Life(scheduledAt, void);
      ghost var k := 0;
      WrittenLength(scheduledAt, void, cutoff);
      ReplayTake(s0, w, 0);
      if at > cutoff { return; }
      if void {
        Schedule(inv, at);
        var voidedAt := at + DAY;
        ReplayTake(s0, w, 1);
        Close(inv, voidedAt, VoidedReturn);
        ReplayTake(s0, w, 2);
        at := voidedAt + DAY;
        k := 2;
        if at > cutoff { assert w[..2] == w; return; }
      }
      Schedule(inv, at);
      ReplayTake(s0, w, k + 1);
      var paidAt := at + 2 * DAY;
      if paidAt > cutoff { assert w[..k + 1] == w; return; }
      Close(inv, paidAt, PaidViaErp);
      ReplayTake(s0, w, k + 2);
      var doneAt := paidAt + DAY;
      if doneAt > cutoff { assert w[..k + 2] == w; return; }
      Move(inv, doneAt, Completion);
      ReplayTake(s0, w, k + 3);
      assert w[..k + 3] == w;
    }

    /** An audit row that is no status change. */
    method Audit(inv: Invoice, at: int)
      modifies inv`rows, this`auditRows
      ensures inv.Told() == Happen(old(inv.Told()), Step(at, ExperimentAssigned))
      ensures auditRows == old(auditRows) + 1
    {
      inv.rows := inv.rows + [Note(at, ExperimentAssigned)];
      auditRows := auditRows + 1;
    }

    /** Everything written about an invoice up to its approval. */
    method Take(inv: Invoice, f: Facts) returns (approvedAt: int)
      requires inv.Told() == FRESH
      modifies inv, this`auditRows, this`autoApproved
      ensures approvedAt == ApprovedAt(f) && inv.Told() == Replay(FRESH, Intake(f))
      ensures auditRows - old(auditRows) == |inv.rows|
      ensures autoApproved == old(autoApproved) + if f.touchless then 1 else 0
    {
      hide Happen, Replay, Intake, Review, ApprovedAt, Settled;
      ghost var steps := Intake(f);
      ghost var k := if f.tried then 2 else 1;
      IntakeSteps(f);
      ReplayTake(FRESH, steps, 0);
      ReplayRows(FRESH, steps);
      Move(inv, f.created, Uploaded);
      ReplayTake(FRESH, steps, 1);
      if f.tried {
        Audit(inv, f.created);
        ReplayTake(FRESH, steps, 2);
      }
      var extracted := f.created + (4 + f.index % 5) * MINUTE;
      ReplayTake(FRESH, steps, k + 1);
      if f.touchless {
        Move(inv, extracted, AutoApproved);
        assert steps[..k + 1] == steps;
        autoApproved := autoApproved + 1;
        return extracted;
      }
      Move(inv, extracted, ExtractionCompleted);
      approvedAt := Decide(inv, f, extracted + f.wait, k + 1);
    }

    /** The decision on a reviewed invoice, rejected once and resubmitted if the plan says so. */
    method Decide(inv: Invoice, f: Facts, decision: int, ghost k: nat) returns (decided: int)
      requires decision == Extracted(f) + f.wait && !f.touchless && k == if f.tried then 3 else 2
      requires k <= |Intake(f)| && inv.Told() == Replay(FRESH, Intake(f)[..k])
      modifies inv, this`auditRows
      ensures decided == ApprovedAt(f) && inv.Told() == Replay(FRESH, Intake(f))
      ensures auditRows - old(auditRows) == |Intake(f)| - k
    {
      hide Happen, Replay, Intake, Review, Settled;
      ghost var steps := Intake(f);
      IntakeSteps(f);
      decided := decision;
      ReplayTake(FRESH, steps, k + 1);
      if f.rejectedFirst {
        Move(inv, decided, Rejection);
        var resubmitted := decided + DAY;
        ReplayTake(FRESH, steps, k + 2);
        Move(inv, resubmitted, Resubmission);
        ReplayTake(FRESH, steps, k + 3);
        decided := resubmitted + f.wait;
      }
      Move(inv, decided, Approval);
      assert steps[..|steps|] == steps;
    }

    /** One new invoice with its complete history. */
    method SeedOne(f: Facts, voidedAuto: bool) returns (inv: Invoice, void: bool)
      modifies this
      ensures void == (if f.touchless then f.catering && !voidedAuto else f.voided)
      ensures fresh(inv) && inv.Told() == Replay(FRESH, History(f, void, now))
      ensures (exists p :: p in inv.payments && p.status == Voided) <==> PaymentDue(f, now) && void
      ensures invoiceCount == old(invoiceCount) + 1
      ensures auditRows - old(auditRows) == |inv.rows| && paymentCount - old(paymentCount) == |inv.payments|
      ensures autoApproved == old(autoApproved) + if f.touchless then 1 else 0
    {
      hide Replay, Intake, Written, ApprovedAt;
      inv := new Invoice();
      invoiceCount := invoiceCount + 1;
      IntakeApproves(f);
      var approvedAt := Take(inv, f);
      void := if f.touchless then f.catering && !voidedAuto else f.voided;
      ReplayAppend(FRESH, Intake(f), Written(approvedAt + DAY, void, now - HOUR));
      Pay(inv, approvedAt + DAY, void);
      VoidShows(f, void, now);
      if inv.payments != [] { assert inv.payments[0] in inv.payments; }
    }

    /** The whole seed: one new invoice per entry, each with its own complete history, the counters
        adding up to the rows and payments written. */
    method Seed(facts: seq<Facts>) returns (invoices: seq<Invoice>)
      modifies this
      ensures |invoices| == |facts|
      ensures forall k :: 0 <= k < |facts| ==>
                fresh(invoices[k]) && invoices[k].Told() == Replay(FRESH, History(facts[k], Voids(facts, k), now))
      ensures forall k :: 0 <= k < |facts| ==>
                ((exists p :: p in invoices[k].payments && p.status == Voided)
                 <==> PaymentDue(facts[k], now) && PlanVoids(facts, k))
      ensures invoiceCount == old(invoiceCount) + |facts|
      ensures auditRows == old(auditRows) + RowTotal(facts, |facts|, now)
      ensures paymentCount == old(paymentCount) + PaymentTotal(facts, |facts|, now)
      ensures autoApproved == old(autoApproved) + AutoTotal(facts, |facts|)
    {
      hide Replay, History, CateringAuto, PaymentDue, PlanVoids;
      CateringNone();
      invoices := [];
      var voidedAuto := false;
      var i := 0;
      while i < |facts|
        invariant 0 <= i <= |facts| && |invoices| == i
        invariant voidedAuto <==> CateringAuto(facts[..i])
        invariant forall k :: 0 <= k < i ==>
                    fresh(invoices[k]) && invoices[k].Told() == Replay(FRESH, History(facts[k], Voids(facts, k), now))
        invariant forall k :: 0 <= k < i ==>
                    ((exists p :: p in invoices[k].payments && p.status == Voided)
                     <==> PaymentDue(facts[k], now) && PlanVoids(facts, k))
        invariant invoiceCount == old(invoiceCount) + i
        invariant auditRows == old(auditRows) + RowTotal(facts, i, now)
        invariant paymentCount == old(paymentCount) + PaymentTotal(facts, i, now)
        invariant autoApproved == old(autoApproved) + AutoTotal(facts, i)
      {
        var inv, void := SeedOne(facts[i], voidedAuto);
        voidedAuto := voidedAuto || (facts[i].touchless && void);
        CateringGrows(facts, i);
        SeededVoid(facts, i, inv.payments, now);
        invoices := invoices + [inv];
        i := i + 1;
      }
    }
  }

  lemma ReplayTake(s: Story, steps: seq<Step>, n: nat)
    ensures n == 0 ==> Replay(s, steps[..0]) == s
    ensures 0 < n <= |steps| ==> Replay(s, steps[..n]) == Happen(Replay(s, steps[..n - 1]), steps[n - 1])
  {
    if 0 < n <= |steps| {
      assert steps[..n] == steps[..n - 1] + [steps[n - 1]];
      ReplayAppend(s, steps[..n - 1], [steps[n - 1]]);
      Unroll(Replay(s, steps[..n - 1]), [steps[n - 1]]);
    }
  }

  /** How many steps `pay` writes, and that they begin the payment's life. */
  lemma WrittenLength(at: int, void: bool, cutoff: int)
    ensures Written(at, void, cutoff) <= Life(at, void)
    ensures |Written(at, void, cutoff)| ==
            (if void then
               if at > cutoff then 0 else if at + 2 * DAY > cutoff then 2
               else if at + 4 * DAY > cutoff then 3 else if at + 5 * DAY > cutoff then 4 else 5
             else
               if at > cutoff then 0 else if at + 2 * DAY > cutoff then 1
               else if at + 3 * DAY > cutoff then 2 else 3)
  {
    var life := Life(at, void);
    WrittenPrefix(at, void, cutoff);
    DueIs(life, cutoff);
    var n := |Due(life, cutoff)|;
    assert forall k :: 0 <= k < |life| ==> (life[k].at <= cutoff <==> k < n);
    hide Due;
    assert n > 0 ==> life[n - 1].at <= cutoff;
    assert n < |life| ==> life[n].at > cutoff;
  }
}
