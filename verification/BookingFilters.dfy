/**
 * The admin booking filter: a record of optional criteria is compiled to a WHERE text and a
 * positional parameter list. The text selects exactly the bookings the criteria describe.
 */
module BookingFilters {
  import opened Basics
  import opened SqlText

  /** "", 0, [] and None stand for a criterion that was not given: all are falsy in JavaScript. */
  datatype Filters = Filters(
    exactBookingNumber: string,
    reviewRequestsOnly: bool,
    search: string,
    archivedOnly: bool,
    includeArchived: bool,
    status: Option<BookingStatus>,
    statuses: seq<BookingStatus>,
    completedTripsOnly: bool,
    cancelledTab: bool,
    excludeTerminalStatuses: bool,
    inProgressOnly: bool,
    needsActionOnly: bool,
    issuesOnly: bool,
    operationsNow: int,
    adminUserId: nat,
    driverId: nat,
    serviceDateFrom: Option<int>,
    serviceDateTo: Option<int>,
    serviceType: string,
    origin: string,
    destination: string,
    lowRating: bool,
    unassigned: bool,
    hasInquiry: bool,
    settlement: Option<SettlementFilter>,
    assignment: Option<AssignmentFilter>)

  datatype SettlementFilter = ReceiptWasRejected | ReceiptWasSubmitted | ReceiptIsMissing | AdminConfirmed

  datatype AssignmentFilter = AssignedOnly | UnassignedOnly

  const MINUTE_MS := 60 * 1000
  const HOUR_MS := 60 * MINUTE_MS

  function Contains(term: string): Value {
    Text("%" + term + "%")
  }

  // ---------------------------------------------------------------- fragments

  const SETTLING := Leaf(StatusIn({SETTLEMENT_PENDING}))
  const FINISHED := {SETTLEMENT_PENDING, COMPLETED}
  const COMMISSION_DUE := Leaf(CommissionIn({DUE, OVERDUE}))
  const BEFORE_PICKUP := {PENDING, CONFIRMED, DRIVER_ASSIGNED, ON_ROUTE, DRIVER_ARRIVED}
  const MOVING_OR_CLOSED :=
    {DRIVER_ASSIGNED, ON_ROUTE, DRIVER_ARRIVED, PICKED_UP, SETTLEMENT_PENDING, COMPLETED, CANCELLED, NO_SHOW}

  const UNASSIGNED := Both(Leaf(AssignmentMissing), Leaf(StatusIn({PENDING, OPEN, CONFIRMED})))
  const UNREAD := Paren(Leaf(Zero))
  const RECEIPT_REJECTED :=
    Paren(Both(Both(Both(SETTLING, COMMISSION_DUE), Leaf(ReasonIsNotNull)), Leaf(ReceiptIsNull)))
  const RECEIPT_WAITING := Paren(Both(Both(SETTLING, COMMISSION_DUE), Leaf(ReceiptIsNotNull)))
  const NO_REASON := Paren(Either(Leaf(ReasonIsNull), Leaf(ReasonIsEmpty)))
  const RECEIPT_MISSING := Paren(Both(Both(Both(SETTLING, COMMISSION_DUE), Leaf(ReceiptIsNull)), NO_REASON))
  const RELEASED := Paren(Both(UNASSIGNED, Leaf(SuspendedReleaseExists)))
  const LATE_UNASSIGNED := Paren(Both(UNASSIGNED, Leaf(PickupBefore)))
  const OVERDUE_PICKUP := Paren(Both(Leaf(PickupBefore), Leaf(StatusIn(BEFORE_PICKUP))))
  const STUCK_ARRIVED := Paren(Both(Leaf(StatusIn({DRIVER_ARRIVED})), Leaf(UpdatedBefore(30 * MINUTE_MS))))
  const STUCK_PICKED_UP := Paren(Both(Leaf(StatusIn({PICKED_UP})), Leaf(UpdatedBefore(6 * HOUR_MS))))
  const STALE := Paren(Both(Leaf(StatusNotIn(MOVING_OR_CLOSED)), Leaf(UpdatedBefore(2 * HOUR_MS))))

  const REVIEW_QUEUE :=
    Both(Both(Both(Both(Both(Leaf(ArchivedIs(false)), Leaf(StatusIn(FINISHED))),
      Leaf(ReviewDriverKnown)), Leaf(ReviewEligible)), Leaf(ReviewNotOptedOut)), Leaf(ReviewNotSent))

  const SEARCH_COLUMNS: seq<TextColumn> :=
    [BookingNumber, CustomerName, CustomerPhone, CustomerEmail, OriginAddress, DestinationAddress,
     FlightNumber, DriverName, DriverPhone, PlateNumber]

  function AnyLike(columns: seq<TextColumn>): Expr
    requires columns != []
  {
    var last := Leaf(TextLike(columns[|columns| - 1]));
    if |columns| == 1 then last else Either(AnyLike(columns[..|columns| - 1]), last)
  }

  function Repeat(v: Value, n: nat): (ps: seq<Value>)
    ensures |ps| == n && forall i :: 0 <= i < n ==> ps[i] == v
  {
    seq(n, i => v)
  }

  // ---------------------------------------------------------------- clause lists

  /** One pushed fragment with the parameters pushed for it. */
  datatype Clause = Clause(e: Expr, ps: seq<Value>)

  predicate Fits(c: Clause) {
    AndLevel(c.e) && |c.ps| == Holes(c.e)
  }

  type Clauses = seq<Clause>

  function When(condition: bool, cs: Clauses, e: Expr, ps: seq<Value>): (out: Clauses)
    ensures |out| >= |cs|
  {
    if condition then cs + [Clause(e, ps)] else cs
  }

  function States(values: seq<BookingStatus>): (ps: seq<Value>)
    ensures |ps| == |values| && forall i :: 0 <= i < |values| ==> ps[i] == State(values[i])
  {
    seq(|values|, i requires 0 <= i < |values| => State(values[i]))
  }

  const LOW_RATING: Clauses := [Clause(Leaf(LowRatingExists), [])]

  function SettlingClauses(cs: Clauses): Clauses {
    var a := When(true, cs, RECEIPT_REJECTED, []);
    var b := When(true, a, RECEIPT_WAITING, []);
    When(true, b, RECEIPT_MISSING, [])
  }

  function AssignmentClauses(cs: Clauses): Clauses {
    var a := When(true, cs, Paren(UNASSIGNED), []);
    When(true, a, RELEASED, [])
  }

  function StuckClauses(cs: Clauses, now: int): Clauses {
    var a := When(true, cs, OVERDUE_PICKUP, [Time(now)]);
    var b := When(true, a, STUCK_ARRIVED, [Time(now)]);
    When(true, b, STUCK_PICKED_UP, [Time(now)])
  }

  function NeedsActionClauses(f: Filters): Clauses {
    var a := StuckClauses(AssignmentClauses(SettlingClauses(LOW_RATING)), f.operationsNow);
    var b := When(true, a, STALE, [Time(f.operationsNow)]);
    When(f.adminUserId != 0, b, UNREAD, [])
  }

  function IssueClauses(f: Filters): Clauses {
    var a := When(true, LOW_RATING, RECEIPT_REJECTED, []);
    var b := When(true, a, LATE_UNASSIGNED, [Time(f.operationsNow)]);
    When(f.adminUserId != 0, StuckClauses(b, f.operationsNow), UNREAD, [])
  }

  function AnyOf(cs: Clauses): Clause
    requires cs != []
  {
    Clause(Paren(JoinOr(cs)), Params(cs))
  }

  function JoinAnd(cs: Clauses): Expr
    requires cs != []
  {
    if |cs| == 1 then cs[0].e else Both(JoinAnd(cs[..|cs| - 1]), cs[|cs| - 1].e)
  }

  function JoinOr(cs: Clauses): Expr
    requires cs != []
  {
    if |cs| == 1 then cs[0].e else Either(JoinOr(cs[..|cs| - 1]), cs[|cs| - 1].e)
  }

  function Exprs(cs: Clauses): (es: seq<Expr>)
    ensures |es| == |cs|
  {
    if cs == [] then [] else Exprs(cs[..|cs| - 1]) + [cs[|cs| - 1].e]
  }

  lemma {:induction false} ExprAt(cs: Clauses, i: nat)
    requires i < |cs|
    ensures Exprs(cs)[i] == cs[i].e
  {
    if i < |cs| - 1 { ExprAt(cs[..|cs| - 1], i); }
  }

  function Params(cs: Clauses): seq<Value> {
    if cs == [] then [] else Params(cs[..|cs| - 1]) + cs[|cs| - 1].ps
  }

  const BASE: Clauses := [Clause(Leaf(NotDeleted), [])]

  function ReviewClauses(f: Filters): (out: Clauses)
    ensures out != []
  {
    var cs := When(true, BASE, REVIEW_QUEUE, []);
    if f.exactBookingNumber != "" then When(true, cs, Leaf(TextEq(BookingNumber)), [Text(f.exactBookingNumber)])
    else When(f.search != "", cs, Leaf(TextLike(BookingNumber)), [Contains(f.search)])
  }

  function ScopeClauses(cs: Clauses, f: Filters): (out: Clauses)
    ensures |out| >= |cs|
  {
    var a := if f.archivedOnly then When(true, cs, Leaf(ArchivedIs(true)), [])
             else When(!f.includeArchived, cs, Leaf(ArchivedIs(false)), []);
    var b := When(f.status.Some?, a, Leaf(StatusEq), [State(f.status.GetOr(PENDING))]);
    When(f.statuses != [], b, Leaf(StatusInParams(|f.statuses|)), States(f.statuses))
  }

  function TabClauses(cs: Clauses, f: Filters): (out: Clauses)
    ensures |out| >= |cs|
  {
    var a := When(f.completedTripsOnly, cs, Leaf(StatusIn(FINISHED)), []);
    var b := When(f.cancelledTab, a, Leaf(StatusIn({CANCELLED, NO_SHOW})), []);
    var c := When(f.excludeTerminalStatuses, b, Leaf(StatusNotIn({COMPLETED, CANCELLED, NO_SHOW})), []);
    When(f.inProgressOnly, c, Leaf(StatusIn({DRIVER_ASSIGNED, ON_ROUTE, DRIVER_ARRIVED, PICKED_UP})), [])
  }

  function QueueClauses(cs: Clauses, f: Filters): (out: Clauses)
    ensures |out| >= |cs|
  {
    var needs, issues := AnyOf(NeedsActionClauses(f)), AnyOf(IssueClauses(f));
    var a := When(f.needsActionOnly, cs, needs.e, needs.ps);
    When(f.issuesOnly, a, issues.e, issues.ps)
  }

  function ScheduleClauses(cs: Clauses, f: Filters): (out: Clauses)
    ensures |out| >= |cs|
  {
    var a := When(f.driverId != 0, cs, Leaf(DriverEq), [Number(f.driverId)]);
    var b := When(f.serviceDateFrom.Some?, a, Leaf(PickupFrom), [Time(f.serviceDateFrom.GetOr(0))]);
    When(f.serviceDateTo.Some?, b, Leaf(PickupBefore), [Time(f.serviceDateTo.GetOr(0))])
  }

  function PlaceClauses(cs: Clauses, f: Filters): (out: Clauses)
    ensures |out| >= |cs|
  {
    var a := When(f.serviceType != "", cs, Leaf(TextEq(ServiceCode)), [Text(f.serviceType)]);
    var b := When(f.origin != "", a, Leaf(TextLike(OriginAddress)), [Contains(f.origin)]);
    When(f.destination != "", b, Leaf(TextLike(DestinationAddress)), [Contains(f.destination)])
  }

  function FlagClauses(cs: Clauses, f: Filters): (out: Clauses)
    ensures |out| >= |cs|
  {
    var a := When(f.lowRating, cs, Leaf(LowRatingExists), []);
    var b := When(f.unassigned, a, UNASSIGNED, []);
    When(f.hasInquiry && f.adminUserId != 0, b, UNREAD, [])
  }

  function SettlementClauses(cs: Clauses, f: Filters): (out: Clauses)
    ensures |out| >= |cs|
  {
    if f.settlement == Some(ReceiptWasRejected)
    then When(true, cs, Both(Both(SETTLING, Leaf(ReasonIsNotNull)), Leaf(ReceiptIsNull)), [])
    else if f.settlement == Some(ReceiptWasSubmitted)
    then When(true, cs, Both(Both(SETTLING, Leaf(ReceiptIsNotNull)), COMMISSION_DUE), [])
    else if f.settlement == Some(ReceiptIsMissing)
    then When(true, cs, Both(Both(SETTLING, Leaf(ReceiptIsNull)), NO_REASON), [])
    else When(f.settlement == Some(AdminConfirmed), cs, Leaf(CommissionIn({PAID})), [])
  }

  function HeldClauses(cs: Clauses, f: Filters): (out: Clauses)
    ensures |out| >= |cs|
  {
    if f.assignment == Some(AssignedOnly) then When(true, cs, Leaf(AssignmentExists), [])
    else When(f.assignment == Some(UnassignedOnly), cs, Leaf(AssignmentMissing), [])
  }

  function LastClauses(cs: Clauses, f: Filters): (out: Clauses)
    ensures |out| >= |cs|
  {
    When(f.search != "", HeldClauses(cs, f), Paren(AnyLike(SEARCH_COLUMNS)), Repeat(Contains(f.search), 10))
  }

  /** Every clause the compiler pushes, in order. */
  function Compiled(f: Filters): (cs: Clauses)
    ensures cs != []
  {
    if f.exactBookingNumber != "" && !f.reviewRequestsOnly
    then When(true, BASE, Leaf(TextEq(BookingNumber)), [Text(f.exactBookingNumber)])
    else if f.reviewRequestsOnly then ReviewClauses(f)
    else LastGroups(FirstGroups(BASE, f), f)
  }

  function FirstGroups(cs: Clauses, f: Filters): (out: Clauses)
    ensures |out| >= |cs|
  {
    ScheduleClauses(QueueClauses(TabClauses(ScopeClauses(cs, f), f), f), f)
  }

  function LastGroups(cs: Clauses, f: Filters): (out: Clauses)
    ensures |out| >= |cs|
  {
    LastClauses(SettlementClauses(FlagClauses(PlaceClauses(cs, f), f), f), f)
  }

  // ---------------------------------------------------------------- the builder

  /** The two arrays every builder pushes onto. */
  class WhereBuilder {
    var where: seq<Expr>
    var params: seq<Value>
    ghost var clauses: Clauses

    ghost predicate Valid()
      reads this
    {
      where == Exprs(clauses) && params == Params(clauses)
    }

    constructor ()
      ensures Valid() && clauses == []
    {
      where, params, clauses := [], [], [];
    }

    method Push(e: Expr, ps: seq<Value>)
      requires Valid()
      modifies this
      ensures Valid() && clauses == old(clauses) + [Clause(e, ps)]
    {
      where := where + [e];
      params := params + ps;
      clauses := clauses + [Clause(e, ps)];
      assert clauses[..|clauses| - 1] == old(clauses);
    }

    /** where.join(' AND ') */
    method JoinedByAnd() returns (e: Expr)
      requires Valid() && where != []
      ensures e == JoinAnd(clauses)
    {
      e := where[0];
      ExprAt(clauses, 0);
      assert clauses[..1] == [clauses[0]];
      for i := 1 to |where|
        invariant e == JoinAnd(clauses[..i])
      {
        assert clauses[..i + 1][..i] == clauses[..i];
        ExprAt(clauses, i);
        e := Both(e, where[i]);
      }
      assert clauses[..|where|] == clauses;
    }

    /** where.join(' OR ') */
    method JoinedByOr() returns (e: Expr)
      requires Valid() && where != []
      ensures e == JoinOr(clauses)
    {
      e := where[0];
      ExprAt(clauses, 0);
      assert clauses[..1] == [clauses[0]];
      for i := 1 to |where|
        invariant e == JoinOr(clauses[..i])
      {
        assert clauses[..i + 1][..i] == clauses[..i];
        ExprAt(clauses, i);
        e := Either(e, where[i]);
      }
      assert clauses[..|where|] == clauses;
    }
  }

  method BuildNeedsActionWhere(f: Filters) returns (e: Expr, ps: seq<Value>)
    ensures Clause(e, ps) == AnyOf(NeedsActionClauses(f)) && |ps| == Holes(e)
    ensures forall r, like :: Meaning(e, ps, r, like) == True <==> NeedsAction(r, f.operationsNow)
  {
    var now := [Time(f.operationsNow)];
    var b := new WhereBuilder();
    b.Push(Leaf(LowRatingExists), []);
    assert b.clauses == LOW_RATING;
    b.Push(RECEIPT_REJECTED, []);
    b.Push(RECEIPT_WAITING, []);
    b.Push(RECEIPT_MISSING, []);
    b.Push(Paren(UNASSIGNED), []);
    b.Push(RELEASED, []);
    b.Push(OVERDUE_PICKUP, now);
    b.Push(STUCK_ARRIVED, now);
    b.Push(STUCK_PICKED_UP, now);
    b.Push(STALE, now);
    if f.adminUserId != 0 {
      b.Push(UNREAD, []);
    }
    assert b.clauses == NeedsActionClauses(f);
    var joined := b.JoinedByOr();
    e, ps := Paren(joined), b.params;
    NeedsActionFits(f);
    forall r, like ensures Meaning(e, ps, r, like) == True <==> NeedsAction(r, f.operationsNow) {
      NeedsActionSays(f, r, like);
    }
  }

  method BuildIssuesWhere(f: Filters) returns (e: Expr, ps: seq<Value>)
    ensures Clause(e, ps) == AnyOf(IssueClauses(f)) && |ps| == Holes(e)
    ensures forall r, like :: Meaning(e, ps, r, like) == True <==> IsIssue(r, f.operationsNow)
  {
    var now := [Time(f.operationsNow)];
    var b := new WhereBuilder();
    b.Push(Leaf(LowRatingExists), []);
    assert b.clauses == LOW_RATING;
    b.Push(RECEIPT_REJECTED, []);
    b.Push(LATE_UNASSIGNED, now);
    b.Push(OVERDUE_PICKUP, now);
    b.Push(STUCK_ARRIVED, now);
    b.Push(STUCK_PICKED_UP, now);
    if f.adminUserId != 0 {
      b.Push(UNREAD, []);
    }
    assert b.clauses == IssueClauses(f);
    var joined := b.JoinedByOr();
    e, ps := Paren(joined), b.params;
    IssuesFit(f);
    forall r, like ensures Meaning(e, ps, r, like) == True <==> IsIssue(r, f.operationsNow) {
      IssuesSay(f, r, like);
    }
  }

  method PushScope(b: WhereBuilder, f: Filters)
    requires b.Valid()
    modifies b
    ensures b.Valid() && b.clauses == ScopeClauses(old(b.clauses), f)
  {
    if f.archivedOnly {
      b.Push(Leaf(ArchivedIs(true)), []);
    } else if !f.includeArchived {
      b.Push(Leaf(ArchivedIs(false)), []);
    }
    if f.status.Some? { b.Push(Leaf(StatusEq), [State(f.status.value)]); }
    if f.statuses != [] { b.Push(Leaf(StatusInParams(|f.statuses|)), States(f.statuses)); }
  }

  method PushTabs(b: WhereBuilder, f: Filters)
    requires b.Valid()
    modifies b
    ensures b.Valid() && b.clauses == TabClauses(old(b.clauses), f)
  {
    if f.completedTripsOnly { b.Push(Leaf(StatusIn(FINISHED)), []); }
    if f.cancelledTab { b.Push(Leaf(StatusIn({CANCELLED, NO_SHOW})), []); }
    if f.excludeTerminalStatuses { b.Push(Leaf(StatusNotIn({COMPLETED, CANCELLED, NO_SHOW})), []); }
    if f.inProgressOnly { b.Push(Leaf(StatusIn({DRIVER_ASSIGNED, ON_ROUTE, DRIVER_ARRIVED, PICKED_UP})), []); }
  }

  method PushQueues(b: WhereBuilder, f: Filters)
    requires b.Valid()
    modifies b
    ensures b.Valid() && b.clauses == QueueClauses(old(b.clauses), f)
  {
    if f.needsActionOnly {
      var e, ps := BuildNeedsActionWhere(f);
      b.Push(e, ps);
    }
    if f.issuesOnly {
      var e, ps := BuildIssuesWhere(f);
      b.Push(e, ps);
    }
  }

  method PushSchedule(b: WhereBuilder, f: Filters)
    requires b.Valid()
    modifies b
    ensures b.Valid() && b.clauses == ScheduleClauses(old(b.clauses), f)
  {
    if f.driverId != 0 { b.Push(Leaf(DriverEq), [Number(f.driverId)]); }
    if f.serviceDateFrom.Some? { b.Push(Leaf(PickupFrom), [Time(f.serviceDateFrom.value)]); }
    if f.serviceDateTo.Some? { b.Push(Leaf(PickupBefore), [Time(f.serviceDateTo.value)]); }
  }

  method PushPlaces(b: WhereBuilder, f: Filters)
    requires b.Valid()
    modifies b
    ensures b.Valid() && b.clauses == PlaceClauses(old(b.clauses), f)
  {
    if f.serviceType != "" { b.Push(Leaf(TextEq(ServiceCode)), [Text(f.serviceType)]); }
    if f.origin != "" { b.Push(Leaf(TextLike(OriginAddress)), [Contains(f.origin)]); }
    if f.destination != "" { b.Push(Leaf(TextLike(DestinationAddress)), [Contains(f.destination)]); }
  }

  method PushFlags(b: WhereBuilder, f: Filters)
    requires b.Valid()
    modifies b
    ensures b.Valid() && b.clauses == FlagClauses(old(b.clauses), f)
  {
    if f.lowRating { b.Push(Leaf(LowRatingExists), []); }
    if f.unassigned { b.Push(UNASSIGNED, []); }
    if f.hasInquiry && f.adminUserId != 0 { b.Push(UNREAD, []); }
  }

  method PushSettlement(b: WhereBuilder, f: Filters)
    requires b.Valid()
    modifies b
    ensures b.Valid() && b.clauses == SettlementClauses(old(b.clauses), f)
  {
    if f.settlement == Some(ReceiptWasRejected) {
      b.Push(Both(Both(SETTLING, Leaf(ReasonIsNotNull)), Leaf(ReceiptIsNull)), []);
    } else if f.settlement == Some(ReceiptWasSubmitted) {
      b.Push(Both(Both(SETTLING, Leaf(ReceiptIsNotNull)), COMMISSION_DUE), []);
    } else if f.settlement == Some(ReceiptIsMissing) {
      b.Push(Both(Both(SETTLING, Leaf(ReceiptIsNull)), NO_REASON), []);
    } else if f.settlement == Some(AdminConfirmed) {
      b.Push(Leaf(CommissionIn({PAID})), []);
    }
  }

  method PushLast(b: WhereBuilder, f: Filters)
    requires b.Valid()
    modifies b
    ensures b.Valid() && b.clauses == LastClauses(old(b.clauses), f)
  {
    if f.assignment == Some(AssignedOnly) {
      b.Push(Leaf(AssignmentExists), []);
    } else if f.assignment == Some(UnassignedOnly) {
      b.Push(Leaf(AssignmentMissing), []);
    }
    if f.search != "" {
      b.Push(Paren(AnyLike(SEARCH_COLUMNS)), Repeat(Contains(f.search), 10));
    }
  }

  /** buildAdminBookingFilters: the WHERE text and its positional parameters. */
  method BuildAdminBookingFilters(f: Filters) returns (whereSql: seq<Token>, params: seq<Value>)
    ensures whereSql == Print(JoinAnd(Compiled(f))) && params == Params(Compiled(f))
    ensures forall r, like :: Evaluate(whereSql, params, r, like).Some?
                              && (Evaluate(whereSql, params, r, like).value == True <==> Matches(f, r, like))
  {
    var b := new WhereBuilder();
    b.Push(Leaf(NotDeleted), []);
    assert b.clauses == BASE;
    if f.exactBookingNumber != "" && !f.reviewRequestsOnly {
      b.Push(Leaf(TextEq(BookingNumber)), [Text(f.exactBookingNumber)]);
    } else if f.reviewRequestsOnly {
      b.Push(REVIEW_QUEUE, []);
      if f.exactBookingNumber != "" {
        b.Push(Leaf(TextEq(BookingNumber)), [Text(f.exactBookingNumber)]);
      } else if f.search != "" {
        b.Push(Leaf(TextLike(BookingNumber)), [Contains(f.search)]);
      }
    } else {
      PushScope(b, f);
      PushTabs(b, f);
      PushQueues(b, f);
      PushSchedule(b, f);
      PushPlaces(b, f);
      PushFlags(b, f);
      PushSettlement(b, f);
      PushLast(b, f);
    }
    assert b.clauses == Compiled(f);
    var e := b.JoinedByAnd();
    whereSql, params := Print(e), b.params;
    forall r, like ensures Evaluate(whereSql, params, r, like).Some?
                           && (Evaluate(whereSql, params, r, like).value == True <==> Matches(f, r, like)) {
      CompilerPreservesMeaning(f, r, like);
    }
  }

  // ---------------------------------------------------------------- the declarative filter

  predicate TextIs(r: Row, c: TextColumn, s: string) {
    TextOf(r, c) == Some(s)
  }

  predicate TextHas(r: Row, c: TextColumn, term: string, like: Like) {
    TextOf(r, c).Some? && like(TextOf(r, c).value, "%" + term + "%")
  }

  predicate Unassigned(r: Row) {
    !r.hasActiveAssignment && r.status in {PENDING, OPEN, CONFIRMED}
  }

  predicate CommissionDue(r: Row) {
    r.status == SETTLEMENT_PENDING && r.commissionStatus in {DUE, OVERDUE}
  }

  predicate ReceiptRejected(r: Row) {
    CommissionDue(r) && r.rejectionReason.Some? && r.receiptFile.None?
  }

  predicate PickupPassed(r: Row, now: int) {
    r.pickupAt.Some? && r.pickupAt.value < now
  }

  predicate OverduePickup(r: Row, now: int) {
    PickupPassed(r, now) && r.status in {PENDING, CONFIRMED, DRIVER_ASSIGNED, ON_ROUTE, DRIVER_ARRIVED}
  }

  predicate StuckFor(r: Row, status: BookingStatus, ms: int, now: int) {
    r.status == status && r.updatedAt < now - ms
  }

  predicate IsIssue(r: Row, now: int) {
    r.hasLowRating || ReceiptRejected(r)
    || (Unassigned(r) && PickupPassed(r, now)) || OverduePickup(r, now)
    || StuckFor(r, DRIVER_ARRIVED, 1800000, now) || StuckFor(r, PICKED_UP, 21600000, now)
  }

  predicate NeedsAction(r: Row, now: int) {
    r.hasLowRating || ReceiptRejected(r)
    || (CommissionDue(r) && r.receiptFile.Some?)
    || (CommissionDue(r) && r.receiptFile.None? && r.rejectionReason.GetOr("") == "")
    || Unassigned(r)
    || OverduePickup(r, now)
    || StuckFor(r, DRIVER_ARRIVED, 1800000, now) || StuckFor(r, PICKED_UP, 21600000, now)
    || (r.status in {PENDING, OPEN, CONFIRMED} && r.updatedAt < now - 7200000)
  }

  predicate ReviewRequestDue(r: Row) {
    !r.archived && r.status in {SETTLEMENT_PENDING, COMPLETED} && r.reviewDriver.Some? && r.reviewEligibleAt.Some?
    && r.reviewOptedOut != Some("true") && r.reviewSentAt.None?
  }

  predicate InScope(f: Filters, r: Row) {
    (if f.archivedOnly then r.archived else f.includeArchived || !r.archived)
    && (f.status.Some? ==> r.status == f.status.value)
    && (f.statuses == [] || r.status in f.statuses)
  }

  predicate InTab(f: Filters, r: Row) {
    (f.completedTripsOnly ==> r.status in {SETTLEMENT_PENDING, COMPLETED})
    && (f.cancelledTab ==> r.status in {CANCELLED, NO_SHOW})
    && (f.excludeTerminalStatuses ==> r.status !in {COMPLETED, CANCELLED, NO_SHOW})
    && (f.inProgressOnly ==> r.status in {DRIVER_ASSIGNED, ON_ROUTE, DRIVER_ARRIVED, PICKED_UP})
  }

  predicate InQueue(f: Filters, r: Row) {
    (f.needsActionOnly ==> NeedsAction(r, f.operationsNow)) && (f.issuesOnly ==> IsIssue(r, f.operationsNow))
  }

  predicate ScheduleMatches(f: Filters, r: Row) {
    (f.driverId == 0 || r.driverId == Some(f.driverId))
    && (f.serviceDateFrom.Some? ==> r.pickupAt.Some? && r.pickupAt.value >= f.serviceDateFrom.value)
    && (f.serviceDateTo.Some? ==> PickupPassed(r, f.serviceDateTo.value))
  }

  predicate PlacesMatch(f: Filters, r: Row, like: Like) {
    (f.serviceType == "" || TextIs(r, ServiceCode, f.serviceType))
    && (f.origin == "" || TextHas(r, OriginAddress, f.origin, like))
    && (f.destination == "" || TextHas(r, DestinationAddress, f.destination, like))
  }

  // No unread inquiry is recorded, so the inquiry filter selects nothing.
  predicate FlagsMatch(f: Filters, r: Row) {
    (f.lowRating ==> r.hasLowRating) && (f.unassigned ==> Unassigned(r)) && !(f.hasInquiry && f.adminUserId != 0)
  }

  predicate SettlementMatches(f: Filters, r: Row) {
    match f.settlement
    case Some(ReceiptWasRejected) => r.status == SETTLEMENT_PENDING && r.rejectionReason.Some? && r.receiptFile.None?
    case Some(ReceiptWasSubmitted) => CommissionDue(r) && r.receiptFile.Some?
    case Some(ReceiptIsMissing) =>
      r.status == SETTLEMENT_PENDING && r.receiptFile.None? && r.rejectionReason.GetOr("") == ""
    case Some(AdminConfirmed) => r.commissionStatus == PAID
    case None => true
  }

  /** The search term occurs in one of the ten searched columns. */
  predicate Mentions(r: Row, term: string, like: Like) {
    TextHas(r, BookingNumber, term, like) || TextHas(r, CustomerName, term, like)
    || TextHas(r, CustomerPhone, term, like) || TextHas(r, CustomerEmail, term, like)
    || TextHas(r, OriginAddress, term, like) || TextHas(r, DestinationAddress, term, like)
    || TextHas(r, FlightNumber, term, like) || TextHas(r, DriverName, term, like)
    || TextHas(r, DriverPhone, term, like) || TextHas(r, PlateNumber, term, like)
  }

  predicate LastMatches(f: Filters, r: Row, like: Like) {
    (f.assignment == Some(AssignedOnly) ==> r.hasActiveAssignment)
    && (f.assignment == Some(UnassignedOnly) ==> !r.hasActiveAssignment)
    && (f.search != "" ==> Mentions(r, f.search, like))
  }

  /** The bookings a filter describes. */
  predicate Matches(f: Filters, r: Row, like: Like) {
    !r.deleted
    && if f.reviewRequestsOnly then
         ReviewRequestDue(r)
         && (if f.exactBookingNumber != "" then TextIs(r, BookingNumber, f.exactBookingNumber)
             else f.search == "" || TextHas(r, BookingNumber, f.search, like))
       else if f.exactBookingNumber != "" then TextIs(r, BookingNumber, f.exactBookingNumber)
       else
         InScope(f, r) && InTab(f, r) && InQueue(f, r) && ScheduleMatches(f, r) && PlacesMatch(f, r, like)
         && FlagsMatch(f, r) && SettlementMatches(f, r) && LastMatches(f, r, like)
  }

  // ---------------------------------------------------------------- meaning of clause lists

  predicate AllFit(cs: Clauses) {
    forall i :: 0 <= i < |cs| ==> Fits(cs[i])
  }

  predicate ClauseTrue(c: Clause, r: Row, like: Like)
    requires Fits(c)
  {
    Meaning(c.e, c.ps, r, like) == True
  }

  predicate AllTrue(cs: Clauses, r: Row, like: Like)
    requires AllFit(cs)
  {
    forall i :: 0 <= i < |cs| ==> ClauseTrue(cs[i], r, like)
  }

  predicate SomeTrue(cs: Clauses, r: Row, like: Like)
    requires AllFit(cs)
  {
    exists i :: 0 <= i < |cs| && ClauseTrue(cs[i], r, like)
  }

  lemma BothMeans(x: Expr, y: Expr, px: seq<Value>, py: seq<Value>, r: Row, like: Like)
    requires |px| == Holes(x) && |py| == Holes(y)
    ensures |px + py| == Holes(Both(x, y)) == Holes(Either(x, y))
    ensures Meaning(Both(x, y), px + py, r, like) == And3(Meaning(x, px, r, like), Meaning(y, py, r, like))
    ensures Meaning(Either(x, y), px + py, r, like) == Or3(Meaning(x, px, r, like), Meaning(y, py, r, like))
  {
    assert (px + py)[..|px|] == px && (px + py)[|px|..] == py;
  }

  lemma {:induction false} JoinMeans(cs: Clauses, r: Row, like: Like)
    requires cs != [] && AllFit(cs)
    ensures AndLevel(JoinAnd(cs)) && |Params(cs)| == Holes(JoinAnd(cs))
    ensures Meaning(JoinAnd(cs), Params(cs), r, like) == True <==> AllTrue(cs, r, like)
    ensures OrLevel(JoinOr(cs)) && |Params(cs)| == Holes(JoinOr(cs))
    ensures Meaning(JoinOr(cs), Params(cs), r, like) == True <==> SomeTrue(cs, r, like)
  {
    var init, last := cs[..|cs| - 1], cs[|cs| - 1];
    assert Params(cs) == Params(init) + last.ps;
    SplitLast(cs, r, like);
    if |cs| == 1 {
      assert Params(init) == [] && Params(cs) == last.ps;
    } else {
      JoinMeans(init, r, like);
      BothMeans(JoinAnd(init), last.e, Params(init), last.ps, r, like);
      BothMeans(JoinOr(init), last.e, Params(init), last.ps, r, like);
    }
  }

  lemma SplitLast(cs: Clauses, r: Row, like: Like)
    requires cs != [] && AllFit(cs)
    ensures var init, last := cs[..|cs| - 1], cs[|cs| - 1];
            AllFit(init) && Fits(last)
            && (AllTrue(cs, r, like) <==> AllTrue(init, r, like) && ClauseTrue(last, r, like))
            && (SomeTrue(cs, r, like) <==> SomeTrue(init, r, like) || ClauseTrue(last, r, like))
  {
    var init, last := cs[..|cs| - 1], cs[|cs| - 1];
    assert forall i :: 0 <= i < |init| ==> init[i] == cs[i];
    assert cs == init + [last];
  }

  lemma WhenMeans(condition: bool, cs: Clauses, e: Expr, ps: seq<Value>, r: Row, like: Like)
    requires AllFit(cs) && (condition ==> Fits(Clause(e, ps)))
    ensures AllFit(When(condition, cs, e, ps))
    ensures AllTrue(When(condition, cs, e, ps), r, like)
       <==> AllTrue(cs, r, like) && (condition ==> ClauseTrue(Clause(e, ps), r, like))
    ensures SomeTrue(When(condition, cs, e, ps), r, like)
       <==> SomeTrue(cs, r, like) || (condition && ClauseTrue(Clause(e, ps), r, like))
  {
    var out := When(condition, cs, e, ps);
    if condition {
      assert out[|cs|] == Clause(e, ps);
      assert forall i :: 0 <= i < |cs| ==> out[i] == cs[i];
    }
  }

  // ---------------------------------------------------------------- group by group

  lemma ScopeMeans(cs: Clauses, f: Filters, r: Row, like: Like)
    requires AllFit(cs)
    ensures AllFit(ScopeClauses(cs, f))
    ensures AllTrue(ScopeClauses(cs, f), r, like) <==> AllTrue(cs, r, like) && InScope(f, r)
  {
    var a := if f.archivedOnly then When(true, cs, Leaf(ArchivedIs(true)), [])
             else When(!f.includeArchived, cs, Leaf(ArchivedIs(false)), []);
    var b := When(f.status.Some?, a, Leaf(StatusEq), [State(f.status.GetOr(PENDING))]);
    if f.archivedOnly {
      WhenMeans(true, cs, Leaf(ArchivedIs(true)), [], r, like);
    } else {
      WhenMeans(!f.includeArchived, cs, Leaf(ArchivedIs(false)), [], r, like);
    }
    WhenMeans(f.status.Some?, a, Leaf(StatusEq), [State(f.status.GetOr(PENDING))], r, like);
    WhenMeans(f.statuses != [], b, Leaf(StatusInParams(|f.statuses|)), States(f.statuses), r, like);
    StatesMember(f.statuses, r.status);
  }

  lemma StatesMember(values: seq<BookingStatus>, s: BookingStatus)
    ensures State(s) in States(values) <==> s in values
  {
    if s in values {
      var i :| 0 <= i < |values| && values[i] == s;
      assert States(values)[i] == State(s);
    }
  }

  lemma TabMeans(cs: Clauses, f: Filters, r: Row, like: Like)
    requires AllFit(cs)
    ensures AllFit(TabClauses(cs, f))
    ensures AllTrue(TabClauses(cs, f), r, like) <==> AllTrue(cs, r, like) && InTab(f, r)
  {
    var a := When(f.completedTripsOnly, cs, Leaf(StatusIn(FINISHED)), []);
    var b := When(f.cancelledTab, a, Leaf(StatusIn({CANCELLED, NO_SHOW})), []);
    var c := When(f.excludeTerminalStatuses, b, Leaf(StatusNotIn({COMPLETED, CANCELLED, NO_SHOW})), []);
    WhenMeans(f.completedTripsOnly, cs, Leaf(StatusIn(FINISHED)), [], r, like);
    WhenMeans(f.cancelledTab, a, Leaf(StatusIn({CANCELLED, NO_SHOW})), [], r, like);
    WhenMeans(f.excludeTerminalStatuses, b, Leaf(StatusNotIn({COMPLETED, CANCELLED, NO_SHOW})), [], r, like);
    WhenMeans(f.inProgressOnly, c, Leaf(StatusIn({DRIVER_ASSIGNED, ON_ROUTE, DRIVER_ARRIVED, PICKED_UP})), [], r, like);
  }

  lemma ScheduleMeans(cs: Clauses, f: Filters, r: Row, like: Like)
    requires AllFit(cs)
    ensures AllFit(ScheduleClauses(cs, f))
    ensures AllTrue(ScheduleClauses(cs, f), r, like) <==> AllTrue(cs, r, like) && ScheduleMatches(f, r)
  {
    var a := When(f.driverId != 0, cs, Leaf(DriverEq), [Number(f.driverId)]);
    var b := When(f.serviceDateFrom.Some?, a, Leaf(PickupFrom), [Time(f.serviceDateFrom.GetOr(0))]);
    WhenMeans(f.driverId != 0, cs, Leaf(DriverEq), [Number(f.driverId)], r, like);
    WhenMeans(f.serviceDateFrom.Some?, a, Leaf(PickupFrom), [Time(f.serviceDateFrom.GetOr(0))], r, like);
    WhenMeans(f.serviceDateTo.Some?, b, Leaf(PickupBefore), [Time(f.serviceDateTo.GetOr(0))], r, like);
  }

  lemma PlacesMean(cs: Clauses, f: Filters, r: Row, like: Like)
    requires AllFit(cs)
    ensures AllFit(PlaceClauses(cs, f))
    ensures AllTrue(PlaceClauses(cs, f), r, like) <==> AllTrue(cs, r, like) && PlacesMatch(f, r, like)
  {
    var a := When(f.serviceType != "", cs, Leaf(TextEq(ServiceCode)), [Text(f.serviceType)]);
    var b := When(f.origin != "", a, Leaf(TextLike(OriginAddress)), [Contains(f.origin)]);
    WhenMeans(f.serviceType != "", cs, Leaf(TextEq(ServiceCode)), [Text(f.serviceType)], r, like);
    WhenMeans(f.origin != "", a, Leaf(TextLike(OriginAddress)), [Contains(f.origin)], r, like);
    WhenMeans(f.destination != "", b, Leaf(TextLike(DestinationAddress)), [Contains(f.destination)], r, like);
  }

  // ---------------------------------------------------------------- fragments

  // A fragment without placeholders that means `b`.
  ghost predicate Says(e: Expr, r: Row, like: Like, b: bool) {
    AndLevel(e) && Holes(e) == 0 && (Meaning(e, [], r, like) == True <==> b)
  }

  // A fragment with one placeholder, bound to the instant, that means `b`.
  ghost predicate SaysAt(e: Expr, now: int, r: Row, like: Like, b: bool) {
    AndLevel(e) && Holes(e) == 1 && (Meaning(e, [Time(now)], r, like) == True <==> b)
  }

  lemma BothSay(x: Expr, y: Expr, r: Row, like: Like, a: bool, b: bool)
    requires Says(x, r, like, a) && Says(y, r, like, b)
    ensures Says(Both(x, y), r, like, a && b) && Says(Paren(Both(x, y)), r, like, a && b)
  {
    var none: seq<Value> := [];
    assert none + none == none;
    BothMeans(x, y, none, none, r, like);
  }

  lemma BothSayAt(x: Expr, y: Expr, now: int, r: Row, like: Like, a: bool, b: bool)
    requires (Says(x, r, like, a) && SaysAt(y, now, r, like, b)) || (SaysAt(x, now, r, like, a) && Says(y, r, like, b))
    ensures SaysAt(Paren(Both(x, y)), now, r, like, a && b)
  {
    var t := [Time(now)];
    assert [] + t == t && t + [] == t;
    assert AndLevel(Both(x, y));
    if Says(x, r, like, a) && SaysAt(y, now, r, like, b) {
      BothMeans(x, y, [], t, r, like);
    } else {
      BothMeans(x, y, t, [], r, like);
    }
  }

  lemma SettlingSays(r: Row, like: Like)
    ensures Says(SETTLING, r, like, r.status == SETTLEMENT_PENDING)
    ensures Says(COMMISSION_DUE, r, like, r.commissionStatus in {DUE, OVERDUE})
    ensures Says(UNREAD, r, like, false)
  {
  }

  lemma ReceiptLeavesSay(r: Row, like: Like)
    ensures Says(Leaf(ReasonIsNotNull), r, like, r.rejectionReason.Some?)
    ensures Says(Leaf(ReceiptIsNull), r, like, r.receiptFile.None?)
    ensures Says(Leaf(ReceiptIsNotNull), r, like, r.receiptFile.Some?)
  {
  }

  lemma AssignmentLeavesSay(r: Row, like: Like)
    ensures Says(Leaf(SuspendedReleaseExists), r, like, r.hasSuspendedRelease)
    ensures Says(Leaf(AssignmentMissing), r, like, !r.hasActiveAssignment)
  {
  }

  // IS NULL OR = '': the second half is unknown for a missing reason, but the first is true then.
  lemma NoReasonSays(r: Row, like: Like)
    ensures Says(NO_REASON, r, like, r.rejectionReason.GetOr("") == "")
  {
    var none: seq<Value> := [];
    assert none + none == none;
    BothMeans(Leaf(ReasonIsNull), Leaf(ReasonIsEmpty), none, none, r, like);
  }

  lemma UnassignedSays(r: Row, like: Like)
    ensures Says(UNASSIGNED, r, like, Unassigned(r)) && Says(Paren(UNASSIGNED), r, like, Unassigned(r))
  {
    AssignmentLeavesSay(r, like);
    assert Says(Leaf(StatusIn({PENDING, OPEN, CONFIRMED})), r, like, r.status in {PENDING, OPEN, CONFIRMED});
    BothSay(Leaf(AssignmentMissing), Leaf(StatusIn({PENDING, OPEN, CONFIRMED})), r, like,
            !r.hasActiveAssignment, r.status in {PENDING, OPEN, CONFIRMED});
  }

  lemma ReceiptsSay(r: Row, like: Like)
    ensures Says(RECEIPT_REJECTED, r, like, ReceiptRejected(r))
    ensures Says(RECEIPT_WAITING, r, like, CommissionDue(r) && r.receiptFile.Some?)
    ensures Says(RECEIPT_MISSING, r, like, CommissionDue(r) && r.receiptFile.None? && r.rejectionReason.GetOr("") == "")
  {
    SettlingSays(r, like);
    ReceiptLeavesSay(r, like);
    NoReasonSays(r, like);
    var due := Both(SETTLING, COMMISSION_DUE);
    var d := CommissionDue(r);
    BothSay(SETTLING, COMMISSION_DUE, r, like, r.status == SETTLEMENT_PENDING, r.commissionStatus in {DUE, OVERDUE});
    BothSay(due, Leaf(ReasonIsNotNull), r, like, d, r.rejectionReason.Some?);
    BothSay(Both(due, Leaf(ReasonIsNotNull)), Leaf(ReceiptIsNull), r, like, d && r.rejectionReason.Some?,
            r.receiptFile.None?);
    BothSay(due, Leaf(ReceiptIsNotNull), r, like, d, r.receiptFile.Some?);
    BothSay(due, Leaf(ReceiptIsNull), r, like, d, r.receiptFile.None?);
    BothSay(Both(due, Leaf(ReceiptIsNull)), NO_REASON, r, like, d && r.receiptFile.None?,
            r.rejectionReason.GetOr("") == "");
  }

  lemma ReleasedSays(r: Row, like: Like)
    ensures Says(RELEASED, r, like, Unassigned(r) && r.hasSuspendedRelease)
  {
    AssignmentLeavesSay(r, like);
    UnassignedSays(r, like);
    BothSay(UNASSIGNED, Leaf(SuspendedReleaseExists), r, like, Unassigned(r), r.hasSuspendedRelease);
  }

  lemma PickupsSay(r: Row, like: Like, now: int)
    ensures SaysAt(LATE_UNASSIGNED, now, r, like, Unassigned(r) && PickupPassed(r, now))
    ensures SaysAt(OVERDUE_PICKUP, now, r, like, OverduePickup(r, now))
  {
    UnassignedSays(r, like);
    assert SaysAt(Leaf(PickupBefore), now, r, like, PickupPassed(r, now));
    assert Says(Leaf(StatusIn(BEFORE_PICKUP)), r, like, r.status in BEFORE_PICKUP);
    BothSayAt(UNASSIGNED, Leaf(PickupBefore), now, r, like, Unassigned(r), PickupPassed(r, now));
    BothSayAt(Leaf(PickupBefore), Leaf(StatusIn(BEFORE_PICKUP)), now, r, like, PickupPassed(r, now),
              r.status in BEFORE_PICKUP);
  }

  lemma StuckSays(e: Expr, names: set<BookingStatus>, ms: int, r: Row, like: Like, now: int)
    requires e == Leaf(StatusIn(names)) || e == Leaf(StatusNotIn(names))
    ensures var b := if e == Leaf(StatusIn(names)) then r.status in names else r.status !in names;
            SaysAt(Paren(Both(e, Leaf(UpdatedBefore(ms)))), now, r, like, b && r.updatedAt < now - ms)
  {
    var b := if e == Leaf(StatusIn(names)) then r.status in names else r.status !in names;
    assert Says(e, r, like, b);
    assert SaysAt(Leaf(UpdatedBefore(ms)), now, r, like, r.updatedAt < now - ms);
    BothSayAt(e, Leaf(UpdatedBefore(ms)), now, r, like, b, r.updatedAt < now - ms);
  }

  // ---------------------------------------------------------------- queues

  // One more alternative in a queue.
  lemma AlsoSays(cs: Clauses, e: Expr, r: Row, like: Like, b: bool)
    requires AllFit(cs) && Says(e, r, like, b)
    ensures AllFit(When(true, cs, e, [])) && (SomeTrue(When(true, cs, e, []), r, like) <==> SomeTrue(cs, r, like) || b)
  {
    WhenMeans(true, cs, e, [], r, like);
  }

  lemma AlsoSaysAt(cs: Clauses, e: Expr, now: int, r: Row, like: Like, b: bool)
    requires AllFit(cs) && SaysAt(e, now, r, like, b)
    ensures AllFit(When(true, cs, e, [Time(now)]))
    ensures SomeTrue(When(true, cs, e, [Time(now)]), r, like) <==> SomeTrue(cs, r, like) || b
  {
    WhenMeans(true, cs, e, [Time(now)], r, like);
  }

  lemma SettlingMeans(cs: Clauses, r: Row, like: Like)
    requires AllFit(cs)
    ensures AllFit(SettlingClauses(cs))
    ensures SomeTrue(SettlingClauses(cs), r, like)
       <==> SomeTrue(cs, r, like) || ReceiptRejected(r) || (CommissionDue(r) && r.receiptFile.Some?)
            || (CommissionDue(r) && r.receiptFile.None? && r.rejectionReason.GetOr("") == "")
  {
    ReceiptsSay(r, like);
    var a := When(true, cs, RECEIPT_REJECTED, []);
    AlsoSays(cs, RECEIPT_REJECTED, r, like, ReceiptRejected(r));
    AlsoSays(a, RECEIPT_WAITING, r, like, CommissionDue(r) && r.receiptFile.Some?);
    AlsoSays(When(true, a, RECEIPT_WAITING, []), RECEIPT_MISSING, r, like,
             CommissionDue(r) && r.receiptFile.None? && r.rejectionReason.GetOr("") == "");
  }

  lemma AssignmentMeans(cs: Clauses, r: Row, like: Like)
    requires AllFit(cs)
    ensures AllFit(AssignmentClauses(cs))
    ensures SomeTrue(AssignmentClauses(cs), r, like) <==> SomeTrue(cs, r, like) || Unassigned(r)
  {
    UnassignedSays(r, like);
    ReleasedSays(r, like);
    AlsoSays(cs, Paren(UNASSIGNED), r, like, Unassigned(r));
    AlsoSays(When(true, cs, Paren(UNASSIGNED), []), RELEASED, r, like, Unassigned(r) && r.hasSuspendedRelease);
  }

  lemma StuckMeans(cs: Clauses, now: int, r: Row, like: Like)
    requires AllFit(cs)
    ensures AllFit(StuckClauses(cs, now))
    ensures SomeTrue(StuckClauses(cs, now), r, like)
       <==> SomeTrue(cs, r, like) || OverduePickup(r, now)
            || StuckFor(r, DRIVER_ARRIVED, 30 * MINUTE_MS, now) || StuckFor(r, PICKED_UP, 6 * HOUR_MS, now)
  {
    PickupsSay(r, like, now);
    StuckSays(Leaf(StatusIn({DRIVER_ARRIVED})), {DRIVER_ARRIVED}, 30 * MINUTE_MS, r, like, now);
    StuckSays(Leaf(StatusIn({PICKED_UP})), {PICKED_UP}, 6 * HOUR_MS, r, like, now);
    var a := When(true, cs, OVERDUE_PICKUP, [Time(now)]);
    AlsoSaysAt(cs, OVERDUE_PICKUP, now, r, like, OverduePickup(r, now));
    AlsoSaysAt(a, STUCK_ARRIVED, now, r, like, StuckFor(r, DRIVER_ARRIVED, 30 * MINUTE_MS, now));
    AlsoSaysAt(When(true, a, STUCK_ARRIVED, [Time(now)]), STUCK_PICKED_UP, now, r, like,
               StuckFor(r, PICKED_UP, 6 * HOUR_MS, now));
  }

  lemma LowRatingMeans(r: Row, like: Like)
    ensures AllFit(LOW_RATING) && (SomeTrue(LOW_RATING, r, like) <==> r.hasLowRating)
  {
    assert ClauseTrue(LOW_RATING[0], r, like) <==> r.hasLowRating;
  }

  lemma NeedsActionMeans(f: Filters, r: Row, like: Like)
    ensures AllFit(NeedsActionClauses(f))
    ensures SomeTrue(NeedsActionClauses(f), r, like) <==> NeedsAction(r, f.operationsNow)
  {
    var now := f.operationsNow;
    var s := SettlingClauses(LOW_RATING);
    var t := StuckClauses(AssignmentClauses(s), now);
    LowRatingMeans(r, like);
    SettlingMeans(LOW_RATING, r, like);
    AssignmentMeans(s, r, like);
    StuckMeans(AssignmentClauses(s), now, r, like);
    StuckSays(Leaf(StatusNotIn(MOVING_OR_CLOSED)), MOVING_OR_CLOSED, 2 * HOUR_MS, r, like, now);
    AlsoSaysAt(t, STALE, now, r, like, r.status !in MOVING_OR_CLOSED && r.updatedAt < now - 2 * HOUR_MS);
    SettlingSays(r, like);
    AlsoSays(When(true, t, STALE, [Time(now)]), UNREAD, r, like, false);
  }

  lemma IssuesMean(f: Filters, r: Row, like: Like)
    ensures AllFit(IssueClauses(f))
    ensures SomeTrue(IssueClauses(f), r, like) <==> IsIssue(r, f.operationsNow)
  {
    var now := f.operationsNow;
    var a := When(true, LOW_RATING, RECEIPT_REJECTED, []);
    var b := When(true, a, LATE_UNASSIGNED, [Time(now)]);
    LowRatingMeans(r, like);
    ReceiptsSay(r, like);
    PickupsSay(r, like, now);
    AlsoSays(LOW_RATING, RECEIPT_REJECTED, r, like, ReceiptRejected(r));
    AlsoSaysAt(a, LATE_UNASSIGNED, now, r, like, Unassigned(r) && PickupPassed(r, now));
    StuckMeans(b, now, r, like);
    SettlingSays(r, like);
    AlsoSays(StuckClauses(b, now), UNREAD, r, like, false);
  }

  lemma NeedsActionSays(f: Filters, r: Row, like: Like)
    ensures var c := AnyOf(NeedsActionClauses(f));
            |c.ps| == Holes(c.e) && (Meaning(c.e, c.ps, r, like) == True <==> NeedsAction(r, f.operationsNow))
  {
    NeedsActionMeans(f, r, like);
    JoinMeans(NeedsActionClauses(f), r, like);
  }

  lemma IssuesSay(f: Filters, r: Row, like: Like)
    ensures var c := AnyOf(IssueClauses(f));
            |c.ps| == Holes(c.e) && (Meaning(c.e, c.ps, r, like) == True <==> IsIssue(r, f.operationsNow))
  {
    IssuesMean(f, r, like);
    JoinMeans(IssueClauses(f), r, like);
  }

  // How many placeholders a queue has does not depend on the row.
  const ANY_ROW := Row(false, false, map[], PENDING, None, None, 0, DUE, None, None, false, false, false,
                       None, None, None, None)

  lemma NeedsActionFits(f: Filters)
    ensures var c := AnyOf(NeedsActionClauses(f)); |c.ps| == Holes(c.e)
  {
    NeedsActionSays(f, ANY_ROW, (s, p) => false);
  }

  lemma IssuesFit(f: Filters)
    ensures var c := AnyOf(IssueClauses(f)); |c.ps| == Holes(c.e)
  {
    IssuesSay(f, ANY_ROW, (s, p) => false);
  }

  lemma QueueMeans(cs: Clauses, f: Filters, r: Row, like: Like)
    requires AllFit(cs)
    ensures AllFit(QueueClauses(cs, f))
    ensures AllTrue(QueueClauses(cs, f), r, like) <==> AllTrue(cs, r, like) && InQueue(f, r)
  {
    var needs, issues := AnyOf(NeedsActionClauses(f)), AnyOf(IssueClauses(f));
    NeedsActionMeans(f, r, like);
    JoinMeans(NeedsActionClauses(f), r, like);
    IssuesMean(f, r, like);
    JoinMeans(IssueClauses(f), r, like);
    WhenMeans(f.needsActionOnly, cs, needs.e, needs.ps, r, like);
    WhenMeans(f.issuesOnly, When(f.needsActionOnly, cs, needs.e, needs.ps), issues.e, issues.ps, r, like);
  }

  // ---------------------------------------------------------------- the remaining groups

  lemma FlagsMean(cs: Clauses, f: Filters, r: Row, like: Like)
    requires AllFit(cs)
    ensures AllFit(FlagClauses(cs, f))
    ensures AllTrue(FlagClauses(cs, f), r, like) <==> AllTrue(cs, r, like) && FlagsMatch(f, r)
  {
    var a := When(f.lowRating, cs, Leaf(LowRatingExists), []);
    UnassignedSays(r, like);
    SettlingSays(r, like);
    WhenMeans(f.lowRating, cs, Leaf(LowRatingExists), [], r, like);
    WhenMeans(f.unassigned, a, UNASSIGNED, [], r, like);
    WhenMeans(f.hasInquiry && f.adminUserId != 0, When(f.unassigned, a, UNASSIGNED, []), UNREAD, [], r, like);
  }

  lemma RejectedSays(r: Row, like: Like)
    ensures Says(Both(Both(SETTLING, Leaf(ReasonIsNotNull)), Leaf(ReceiptIsNull)), r, like,
                 r.status == SETTLEMENT_PENDING && r.rejectionReason.Some? && r.receiptFile.None?)
  {
    var s := r.status == SETTLEMENT_PENDING;
    SettlingSays(r, like);
    ReceiptLeavesSay(r, like);
    BothSay(SETTLING, Leaf(ReasonIsNotNull), r, like, s, r.rejectionReason.Some?);
    BothSay(Both(SETTLING, Leaf(ReasonIsNotNull)), Leaf(ReceiptIsNull), r, like,
            s && r.rejectionReason.Some?, r.receiptFile.None?);
  }

  lemma SubmittedSays(r: Row, like: Like)
    ensures Says(Both(Both(SETTLING, Leaf(ReceiptIsNotNull)), COMMISSION_DUE), r, like,
                 CommissionDue(r) && r.receiptFile.Some?)
  {
    var s := r.status == SETTLEMENT_PENDING;
    SettlingSays(r, like);
    ReceiptLeavesSay(r, like);
    BothSay(SETTLING, Leaf(ReceiptIsNotNull), r, like, s, r.receiptFile.Some?);
    BothSay(Both(SETTLING, Leaf(ReceiptIsNotNull)), COMMISSION_DUE, r, like,
            s && r.receiptFile.Some?, r.commissionStatus in {DUE, OVERDUE});
  }

  lemma MissingSays(r: Row, like: Like)
    ensures Says(Both(Both(SETTLING, Leaf(ReceiptIsNull)), NO_REASON), r, like,
                 r.status == SETTLEMENT_PENDING && r.receiptFile.None? && r.rejectionReason.GetOr("") == "")
  {
    var s := r.status == SETTLEMENT_PENDING;
    SettlingSays(r, like);
    ReceiptLeavesSay(r, like);
    NoReasonSays(r, like);
    BothSay(SETTLING, Leaf(ReceiptIsNull), r, like, s, r.receiptFile.None?);
    BothSay(Both(SETTLING, Leaf(ReceiptIsNull)), NO_REASON, r, like,
            s && r.receiptFile.None?, r.rejectionReason.GetOr("") == "");
  }

  // One more conjunct.
  lemma MustSay(cs: Clauses, e: Expr, r: Row, like: Like, b: bool)
    requires AllFit(cs) && Says(e, r, like, b)
    ensures AllFit(When(true, cs, e, [])) && (AllTrue(When(true, cs, e, []), r, like) <==> AllTrue(cs, r, like) && b)
  {
    WhenMeans(true, cs, e, [], r, like);
  }

  lemma SettlementMeans(cs: Clauses, f: Filters, r: Row, like: Like)
    requires AllFit(cs)
    ensures AllFit(SettlementClauses(cs, f))
    ensures AllTrue(SettlementClauses(cs, f), r, like) <==> AllTrue(cs, r, like) && SettlementMatches(f, r)
  {
    match f.settlement
    case Some(ReceiptWasRejected) =>
      RejectedSays(r, like);
      MustSay(cs, Both(Both(SETTLING, Leaf(ReasonIsNotNull)), Leaf(ReceiptIsNull)), r, like, SettlementMatches(f, r));
    case Some(ReceiptWasSubmitted) =>
      SubmittedSays(r, like);
      MustSay(cs, Both(Both(SETTLING, Leaf(ReceiptIsNotNull)), COMMISSION_DUE), r, like, SettlementMatches(f, r));
    case Some(ReceiptIsMissing) =>
      MissingSays(r, like);
      MustSay(cs, Both(Both(SETTLING, Leaf(ReceiptIsNull)), NO_REASON), r, like, SettlementMatches(f, r));
    case Some(AdminConfirmed) =>
      assert Says(Leaf(CommissionIn({PAID})), r, like, r.commissionStatus == PAID);
      MustSay(cs, Leaf(CommissionIn({PAID})), r, like, SettlementMatches(f, r));
    case None =>
  }

  lemma {:induction false} AnyLikeMeans(columns: seq<TextColumn>, term: string, r: Row, like: Like)
    requires columns != []
    ensures OrLevel(AnyLike(columns)) && Holes(AnyLike(columns)) == |columns|
    ensures Meaning(AnyLike(columns), Repeat(Contains(term), |columns|), r, like) == True
       <==> exists i :: 0 <= i < |columns| && TextHas(r, columns[i], term, like)
  {
    var n := |columns| - 1;
    var v := Contains(term);
    if n == 0 {
      assert Repeat(v, 1) == [v];
    } else {
      AnyLikeMeans(columns[..n], term, r, like);
      assert Repeat(v, n + 1) == Repeat(v, n) + [v];
      BothMeans(AnyLike(columns[..n]), Leaf(TextLike(columns[n])), Repeat(v, n), [v], r, like);
      assert forall i :: 0 <= i < n ==> columns[..n][i] == columns[i];
      if i :| 0 <= i < n && TextHas(r, columns[i], term, like) {
        assert TextHas(r, columns[..n][i], term, like);
      }
    }
  }

  lemma HeldMeans(cs: Clauses, f: Filters, r: Row, like: Like)
    requires AllFit(cs)
    ensures AllFit(HeldClauses(cs, f))
    ensures AllTrue(HeldClauses(cs, f), r, like)
       <==> (AllTrue(cs, r, like) && (f.assignment == Some(AssignedOnly) ==> r.hasActiveAssignment)
             && (f.assignment == Some(UnassignedOnly) ==> !r.hasActiveAssignment))
  {
    if f.assignment == Some(AssignedOnly) {
      WhenMeans(true, cs, Leaf(AssignmentExists), [], r, like);
    } else {
      WhenMeans(f.assignment == Some(UnassignedOnly), cs, Leaf(AssignmentMissing), [], r, like);
    }
  }

  lemma SearchMeans(term: string, r: Row, like: Like)
    ensures Fits(Clause(Paren(AnyLike(SEARCH_COLUMNS)), Repeat(Contains(term), 10)))
    ensures ClauseTrue(Clause(Paren(AnyLike(SEARCH_COLUMNS)), Repeat(Contains(term), 10)), r, like)
       <==> Mentions(r, term, like)
  {
    AnyLikeMeans(SEARCH_COLUMNS, term, r, like);
    TenColumns(r, term, like);
  }

  lemma TenColumns(r: Row, term: string, like: Like)
    ensures (exists i :: 0 <= i < |SEARCH_COLUMNS| && TextHas(r, SEARCH_COLUMNS[i], term, like))
       <==> Mentions(r, term, like)
  {
    var columns := SEARCH_COLUMNS;
    assert |columns| == 10;
    assert columns[0] == BookingNumber && columns[1] == CustomerName && columns[2] == CustomerPhone;
    assert columns[3] == CustomerEmail && columns[4] == OriginAddress && columns[5] == DestinationAddress;
    assert columns[6] == FlightNumber && columns[7] == DriverName && columns[8] == DriverPhone;
    assert columns[9] == PlateNumber;
  }

  lemma LastMeans(cs: Clauses, f: Filters, r: Row, like: Like)
    requires AllFit(cs)
    ensures AllFit(LastClauses(cs, f))
    ensures AllTrue(LastClauses(cs, f), r, like) <==> AllTrue(cs, r, like) && LastMatches(f, r, like)
  {
    HeldMeans(cs, f, r, like);
    SearchMeans(f.search, r, like);
    WhenMeans(f.search != "", HeldClauses(cs, f), Paren(AnyLike(SEARCH_COLUMNS)), Repeat(Contains(f.search), 10), r,
              like);
  }

  lemma BaseMeans(r: Row, like: Like)
    ensures AllFit(BASE) && (AllTrue(BASE, r, like) <==> !r.deleted)
  {
    assert ClauseTrue(BASE[0], r, like) <==> !r.deleted;
  }

  lemma ReviewLeavesSay(r: Row, like: Like)
    ensures Says(Leaf(ArchivedIs(false)), r, like, !r.archived)
    ensures Says(Leaf(StatusIn(FINISHED)), r, like, r.status in FINISHED)
    ensures Says(Leaf(ReviewDriverKnown), r, like, r.reviewDriver.Some?)
    ensures Says(Leaf(ReviewEligible), r, like, r.reviewEligibleAt.Some?)
    ensures Says(Leaf(ReviewNotOptedOut), r, like, r.reviewOptedOut != Some("true"))
    ensures Says(Leaf(ReviewNotSent), r, like, r.reviewSentAt.None?)
  {
    assert "false" != "true";
  }

  lemma ReviewQueueSays(r: Row, like: Like)
    ensures Says(REVIEW_QUEUE, r, like, ReviewRequestDue(r))
  {
    ReviewLeavesSay(r, like);
    var l1, l2, l3 := Leaf(ArchivedIs(false)), Leaf(StatusIn(FINISHED)), Leaf(ReviewDriverKnown);
    var l4, l5 := Leaf(ReviewEligible), Leaf(ReviewNotOptedOut);
    var b2 := !r.archived && r.status in FINISHED;
    var b3 := b2 && r.reviewDriver.Some?;
    var b4 := b3 && r.reviewEligibleAt.Some?;
    BothSay(l1, l2, r, like, !r.archived, r.status in FINISHED);
    BothSay(Both(l1, l2), l3, r, like, b2, r.reviewDriver.Some?);
    BothSay(Both(Both(l1, l2), l3), l4, r, like, b3, r.reviewEligibleAt.Some?);
    var e4 := Both(Both(Both(l1, l2), l3), l4);
    BothSay(e4, l5, r, like, b4, r.reviewOptedOut != Some("true"));
    BothSay(Both(e4, l5), Leaf(ReviewNotSent), r, like, b4 && r.reviewOptedOut != Some("true"), r.reviewSentAt.None?);
  }

  lemma ReviewMeans(f: Filters, r: Row, like: Like)
    requires f.reviewRequestsOnly
    ensures AllFit(ReviewClauses(f)) && (AllTrue(ReviewClauses(f), r, like) <==> Matches(f, r, like))
  {
    var cs := When(true, BASE, REVIEW_QUEUE, []);
    BaseMeans(r, like);
    ReviewQueueSays(r, like);
    MustSay(BASE, REVIEW_QUEUE, r, like, ReviewRequestDue(r));
    if f.exactBookingNumber != "" {
      WhenMeans(true, cs, Leaf(TextEq(BookingNumber)), [Text(f.exactBookingNumber)], r, like);
    } else {
      WhenMeans(f.search != "", cs, Leaf(TextLike(BookingNumber)), [Contains(f.search)], r, like);
    }
  }

  // ---------------------------------------------------------------- main results

  lemma ClausesMean(f: Filters, r: Row, like: Like)
    ensures AllFit(Compiled(f)) && (AllTrue(Compiled(f), r, like) <==> Matches(f, r, like))
  {
    if f.reviewRequestsOnly {
      ReviewMeans(f, r, like);
    } else if f.exactBookingNumber != "" {
      BaseMeans(r, like);
      WhenMeans(true, BASE, Leaf(TextEq(BookingNumber)), [Text(f.exactBookingNumber)], r, like);
    } else {
      BaseMeans(r, like);
      FirstGroupsMean(BASE, f, r, like);
      LastGroupsMean(FirstGroups(BASE, f), f, r, like);
    }
  }

  lemma FirstGroupsMean(cs: Clauses, f: Filters, r: Row, like: Like)
    requires AllFit(cs)
    ensures AllFit(FirstGroups(cs, f))
    ensures AllTrue(FirstGroups(cs, f), r, like)
       <==> (AllTrue(cs, r, like) && InScope(f, r) && InTab(f, r) && InQueue(f, r) && ScheduleMatches(f, r))
  {
    var c1 := ScopeClauses(cs, f);
    var c2 := TabClauses(c1, f);
    ScopeMeans(cs, f, r, like);
    TabMeans(c1, f, r, like);
    QueueMeans(c2, f, r, like);
    ScheduleMeans(QueueClauses(c2, f), f, r, like);
  }

  lemma LastGroupsMean(cs: Clauses, f: Filters, r: Row, like: Like)
    requires AllFit(cs)
    ensures AllFit(LastGroups(cs, f))
    ensures AllTrue(LastGroups(cs, f), r, like)
       <==> (AllTrue(cs, r, like) && PlacesMatch(f, r, like) && FlagsMatch(f, r) && SettlementMatches(f, r)
             && LastMatches(f, r, like))
  {
    var c5 := PlaceClauses(cs, f);
    var c6 := FlagClauses(c5, f);
    PlacesMean(cs, f, r, like);
    FlagsMean(c5, f, r, like);
    SettlementMeans(c6, f, r, like);
    LastMeans(SettlementClauses(c6, f), f, r, like);
  }

  /**
   * The compiler preserves meaning: for every filter, the text it produces parses, uses up exactly
   * the parameters it produces in order, and is true of exactly the bookings the filter describes.
   */
  lemma CompilerPreservesMeaning(f: Filters, r: Row, like: Like)
    ensures var truth := Evaluate(Print(JoinAnd(Compiled(f))), Params(Compiled(f)), r, like);
            truth.Some? && (truth.value == True <==> Matches(f, r, like))
  {
    ClausesMean(f, r, like);
    JoinMeans(Compiled(f), r, like);
    PrintedMeansWhatWasMeant(JoinAnd(Compiled(f)), Params(Compiled(f)), r, like);
  }

  lemma IssueIsAction(r: Row, now: int)
    requires IsIssue(r, now)
    ensures NeedsAction(r, now)
  {
  }

  lemma IssueMatchIsActionMatch(f: Filters, r: Row, like: Like)
    requires f.issuesOnly && Matches(f, r, like)
    ensures Matches(f.(issuesOnly := false, needsActionOnly := true), r, like)
  {
    if !f.reviewRequestsOnly && f.exactBookingNumber == "" {
      IssueIsAction(r, f.operationsNow);
    }
  }

  /** Every booking the issues view selects, the needs-action view selects at the same instant. */
  lemma {:induction false} IssuesNeedAction(f: Filters, g: Filters, r: Row, like: Like)
    requires f.issuesOnly && g == f.(issuesOnly := false, needsActionOnly := true)
    requires Evaluate(Print(JoinAnd(Compiled(f))), Params(Compiled(f)), r, like) == Some(True)
    ensures Evaluate(Print(JoinAnd(Compiled(g))), Params(Compiled(g)), r, like) == Some(True)
  {
    CompilerPreservesMeaning(f, r, like);
    IssueMatchIsActionMatch(f, r, like);
    CompilerPreservesMeaning(g, r, like);
  }
}
