/**
 * The fragment of SQL the admin queue is written in: conditions with positional placeholders,
 * AND, OR and parentheses, read with SQL's precedence and evaluated in three-valued logic.
 * LIKE is a parameter: its pattern language is not part of this model.
 */
module SqlText {
  import opened Basics

  // ---------------------------------------------------------------- rows and values

  datatype BookingStatus =
    | PENDING | OPEN | CONFIRMED | DRIVER_ASSIGNED | ON_ROUTE | DRIVER_ARRIVED | PICKED_UP
    | SETTLEMENT_PENDING | COMPLETED | CANCELLED | NO_SHOW

  datatype CommissionStatus = NOT_DUE_YET | PENDING_AFTER_COMPLETION | DUE | OVERDUE | PAID | WAIVED

  datatype Value = Text(s: string) | Number(n: int) | Time(t: int) | State(status: BookingStatus)

  datatype TextColumn =
    | BookingNumber | ServiceCode | CustomerName | CustomerPhone | CustomerEmail
    | OriginAddress | DestinationAddress | FlightNumber | DriverName | DriverPhone | PlateNumber

  /** One row of the admin queue's join; None is NULL, and EXISTS subqueries are booleans. */
  datatype Row = Row(
    deleted: bool,
    archived: bool,
    text: map<TextColumn, string>,
    status: BookingStatus,
    driverId: Option<nat>,
    pickupAt: Option<int>,
    updatedAt: int,
    commissionStatus: CommissionStatus,
    receiptFile: Option<nat>,
    rejectionReason: Option<string>,
    hasLowRating: bool,
    hasActiveAssignment: bool,
    hasSuspendedRelease: bool,
    reviewDriver: Option<nat>,
    reviewEligibleAt: Option<int>,
    reviewOptedOut: Option<string>,
    reviewSentAt: Option<int>)

  type Like = (string, string) -> bool

  function TextOf(r: Row, c: TextColumn): Option<string> {
    if c in r.text then Some(r.text[c]) else None
  }

  // ---------------------------------------------------------------- three-valued logic

  datatype Truth = True | False | Unknown

  function Of(b: bool): Truth {
    if b then True else False
  }

  function And3(a: Truth, b: Truth): Truth {
    if a == False || b == False then False else if a == True && b == True then True else Unknown
  }

  function Or3(a: Truth, b: Truth): Truth {
    if a == True || b == True then True else if a == False && b == False then False else Unknown
  }

  // ---------------------------------------------------------------- conditions

  datatype Cond =
    | NotDeleted
    | ArchivedIs(flag: bool)
    | TextEq(c: TextColumn)                 // column = ?
    | TextLike(c: TextColumn)               // column LIKE ?
    | StatusEq                              // status = ?
    | StatusInParams(n: nat)                // status IN (?, ..., ?)
    | StatusIn(names: set<BookingStatus>)
    | StatusNotIn(names: set<BookingStatus>)
    | DriverEq                              // driver_id = ?
    | PickupFrom                            // scheduled_pickup_at >= ?
    | PickupBefore                          // scheduled_pickup_at < ?
    | UpdatedBefore(ms: int)                // updated_at < DATE_SUB(?, INTERVAL ...)
    | CommissionIn(commissions: set<CommissionStatus>)
    | ReceiptIsNull
    | ReceiptIsNotNull
    | ReasonIsNull
    | ReasonIsNotNull
    | ReasonIsEmpty
    | LowRatingExists
    | AssignmentExists
    | AssignmentMissing
    | SuspendedReleaseExists
    | ReviewDriverKnown
    | ReviewEligible
    | ReviewNotOptedOut
    | ReviewNotSent
    | Zero                                  // 0

  function Arity(c: Cond): nat {
    match c
    case TextEq(_) => 1
    case TextLike(_) => 1
    case StatusEq => 1
    case StatusInParams(n) => n
    case DriverEq => 1
    case PickupFrom => 1
    case PickupBefore => 1
    case UpdatedBefore(_) => 1
    case _ => 0
  }

  function Holds(c: Cond, ps: seq<Value>, r: Row, like: Like): Truth
    requires |ps| == Arity(c)
  {
    match c
    case NotDeleted => Of(!r.deleted)
    case ArchivedIs(flag) => Of(r.archived == flag)
    case TextEq(col) => var x := TextOf(r, col); if x.None? then Unknown else Of(Text(x.value) == ps[0])
    case TextLike(col) =>
      var x := TextOf(r, col);
      if x.None? || !ps[0].Text? then Unknown else Of(like(x.value, ps[0].s))
    case StatusEq => Of(State(r.status) == ps[0])
    case StatusInParams(_) => Of(State(r.status) in ps)
    case StatusIn(names) => Of(r.status in names)
    case StatusNotIn(names) => Of(r.status !in names)
    case DriverEq => if r.driverId.None? then Unknown else Of(Number(r.driverId.value) == ps[0])
    case PickupFrom => if r.pickupAt.None? || !ps[0].Time? then Unknown else Of(r.pickupAt.value >= ps[0].t)
    case PickupBefore => if r.pickupAt.None? || !ps[0].Time? then Unknown else Of(r.pickupAt.value < ps[0].t)
    case UpdatedBefore(ms) => if !ps[0].Time? then Unknown else Of(r.updatedAt < ps[0].t - ms)
    case CommissionIn(names) => Of(r.commissionStatus in names)
    case ReceiptIsNull => Of(r.receiptFile.None?)
    case ReceiptIsNotNull => Of(r.receiptFile.Some?)
    case ReasonIsNull => Of(r.rejectionReason.None?)
    case ReasonIsNotNull => Of(r.rejectionReason.Some?)
    case ReasonIsEmpty => if r.rejectionReason.None? then Unknown else Of(r.rejectionReason.value == "")
    case LowRatingExists => Of(r.hasLowRating)
    case AssignmentExists => Of(r.hasActiveAssignment)
    case AssignmentMissing => Of(!r.hasActiveAssignment)
    case SuspendedReleaseExists => Of(r.hasSuspendedRelease)
    case ReviewDriverKnown => Of(r.reviewDriver.Some?)
    case ReviewEligible => Of(r.reviewEligibleAt.Some?)
    case ReviewNotOptedOut => Of(r.reviewOptedOut.GetOr("false") != "true")
    case ReviewNotSent => Of(r.reviewSentAt.None?)
    case Zero => False
  }

  // ---------------------------------------------------------------- text

  /** A piece of SQL as the builder means it; parentheses appear only where it writes them. */
  datatype Expr = Leaf(c: Cond) | Both(l: Expr, r: Expr) | Either(l: Expr, r: Expr) | Paren(e: Expr)

  datatype Token = Atom(c: Cond) | AND | OR | LPAR | RPAR

  function Print(e: Expr): seq<Token> {
    match e
    case Leaf(c) => [Atom(c)]
    case Both(l, r) => Print(l) + [AND] + Print(r)
    case Either(l, r) => Print(l) + [OR] + Print(r)
    case Paren(e) => [LPAR] + Print(e) + [RPAR]
  }

  function Holes(e: Expr): nat {
    match e
    case Leaf(c) => Arity(c)
    case Both(l, r) => Holes(l) + Holes(r)
    case Either(l, r) => Holes(l) + Holes(r)
    case Paren(e) => Holes(e)
  }

  /** What the builder means, given the parameters of its placeholders in order. */
  function Meaning(e: Expr, ps: seq<Value>, r: Row, like: Like): Truth
    requires |ps| == Holes(e)
  {
    match e
    case Leaf(c) => Holds(c, ps, r, like)
    case Both(x, y) => And3(Meaning(x, ps[..Holes(x)], r, like), Meaning(y, ps[Holes(x)..], r, like))
    case Either(x, y) => Or3(Meaning(x, ps[..Holes(x)], r, like), Meaning(y, ps[Holes(x)..], r, like))
    case Paren(e) => Meaning(e, ps, r, like)
  }

  // Safe under AND: no OR outside parentheses.
  predicate AndLevel(e: Expr)
    decreases e, 0
  {
    match e
    case Leaf(_) => true
    case Both(l, r) => AndLevel(l) && AndLevel(r)
    case Either(_, _) => false
    case Paren(e) => OrLevel(e)
  }

  predicate OrLevel(e: Expr)
    decreases e, 1
  {
    match e
    case Either(l, r) => OrLevel(l) && OrLevel(r)
    case _ => AndLevel(e)
  }

  // ---------------------------------------------------------------- the database's reading of the text

  /** A value, and the tokens and parameters that remain; None when the text does not parse. */
  datatype Read = Read(v: Truth, ts: seq<Token>, ps: seq<Value>)

  function ReadPrimary(ts: seq<Token>, ps: seq<Value>, r: Row, like: Like): (x: Option<Read>)
    ensures x.Some? ==> |x.value.ts| < |ts|
    decreases |ts|, 0
  {
    if ts == [] then None
    else match ts[0]
      case Atom(c) =>
        if |ps| < Arity(c) then None
        else Some(Read(Holds(c, ps[..Arity(c)], r, like), ts[1..], ps[Arity(c)..]))
      case LPAR =>
        var x := ReadOr(ts[1..], ps, r, like);
        if x.Some? && x.value.ts != [] && x.value.ts[0] == RPAR
        then Some(x.value.(ts := x.value.ts[1..])) else None
      case _ => None
  }

  function ReadAnds(v: Truth, ts: seq<Token>, ps: seq<Value>, r: Row, like: Like): (x: Option<Read>)
    ensures x.Some? ==> |x.value.ts| <= |ts|
    decreases |ts|, 1
  {
    if ts == [] || ts[0] != AND then Some(Read(v, ts, ps))
    else
      var x := ReadPrimary(ts[1..], ps, r, like);
      if x.None? then None else ReadAnds(And3(v, x.value.v), x.value.ts, x.value.ps, r, like)
  }

  function ReadAnd(ts: seq<Token>, ps: seq<Value>, r: Row, like: Like): (x: Option<Read>)
    ensures x.Some? ==> |x.value.ts| < |ts|
    decreases |ts|, 2
  {
    var x := ReadPrimary(ts, ps, r, like);
    if x.None? then None else ReadAnds(x.value.v, x.value.ts, x.value.ps, r, like)
  }

  function ReadOrs(v: Truth, ts: seq<Token>, ps: seq<Value>, r: Row, like: Like): (x: Option<Read>)
    ensures x.Some? ==> |x.value.ts| <= |ts|
    decreases |ts|, 3
  {
    if ts == [] || ts[0] != OR then Some(Read(v, ts, ps))
    else
      var x := ReadAnd(ts[1..], ps, r, like);
      if x.None? then None else ReadOrs(Or3(v, x.value.v), x.value.ts, x.value.ps, r, like)
  }

  function ReadOr(ts: seq<Token>, ps: seq<Value>, r: Row, like: Like): (x: Option<Read>)
    ensures x.Some? ==> |x.value.ts| < |ts|
    decreases |ts|, 4
  {
    var x := ReadAnd(ts, ps, r, like);
    if x.None? then None else ReadOrs(x.value.v, x.value.ts, x.value.ps, r, like)
  }

  /** A WHERE text with its parameter list: every token and every parameter must be used up. */
  function Evaluate(ts: seq<Token>, ps: seq<Value>, r: Row, like: Like): Option<Truth> {
    var x := ReadOr(ts, ps, r, like);
    if x.Some? && x.value.ts == [] && x.value.ps == [] then Some(x.value.v) else None
  }

  // ---------------------------------------------------------------- printing and reading agree

  lemma Split(ps: seq<Value>, more: seq<Value>, n: nat)
    requires n <= |ps|
    ensures ps + more == ps[..n] + (ps[n..] + more)
  {
  }

  lemma Regroup(a: seq<Token>, op: Token, b: seq<Token>, ts: seq<Token>)
    ensures a + [op] + b + ts == a + ([op] + (b + ts))
  {
  }

  lemma {:induction false} ReadPrintedPrimary(e: Expr, ps: seq<Value>, ts: seq<Token>, more: seq<Value>, r: Row,
                                              like: Like)
    requires AndLevel(e) && !e.Both? && |ps| == Holes(e)
    ensures ReadPrimary(Print(e) + ts, ps + more, r, like) == Some(Read(Meaning(e, ps, r, like), ts, more))
    decreases e, 0
  {
    match e
    case Leaf(c) =>
      assert (Print(e) + ts)[1..] == ts;
      assert (ps + more)[..Arity(c)] == ps && (ps + more)[Arity(c)..] == more;
    case Paren(b) =>
      assert Print(e) + ts == [LPAR] + (Print(b) + ([RPAR] + ts));
      ReadPrintedOr(b, ps, [RPAR] + ts, more, r, like);
      assert ([RPAR] + ts)[1..] == ts;
  }

  // After a value, a printed AND-chain is folded into it.
  lemma {:induction false} ReadPrintedAnds(v: Truth, e: Expr, ps: seq<Value>, ts: seq<Token>, more: seq<Value>,
                                           r: Row, like: Like)
    requires AndLevel(e) && |ps| == Holes(e)
    ensures ReadAnds(v, [AND] + (Print(e) + ts), ps + more, r, like)
         == ReadAnds(And3(v, Meaning(e, ps, r, like)), ts, more, r, like)
    decreases e, 1
  {
    assert ([AND] + (Print(e) + ts))[1..] == Print(e) + ts;
    if e.Both? {
      var n := Holes(e.l);
      Split(ps, more, n);
      Regroup(Print(e.l), AND, Print(e.r), ts);
      ReadPrintedAnds(v, e.l, ps[..n], [AND] + (Print(e.r) + ts), ps[n..] + more, r, like);
      ReadPrintedAnds(And3(v, Meaning(e.l, ps[..n], r, like)), e.r, ps[n..], ts, more, r, like);
    } else {
      ReadPrintedPrimary(e, ps, ts, more, r, like);
    }
  }

  lemma {:induction false} ReadPrintedAnd(e: Expr, ps: seq<Value>, ts: seq<Token>, more: seq<Value>, r: Row, like: Like)
    requires AndLevel(e) && |ps| == Holes(e)
    ensures ReadAnd(Print(e) + ts, ps + more, r, like) == ReadAnds(Meaning(e, ps, r, like), ts, more, r, like)
    decreases e, 2
  {
    if e.Both? {
      var n := Holes(e.l);
      Split(ps, more, n);
      Regroup(Print(e.l), AND, Print(e.r), ts);
      ReadPrintedAnd(e.l, ps[..n], [AND] + (Print(e.r) + ts), ps[n..] + more, r, like);
      ReadPrintedAnds(Meaning(e.l, ps[..n], r, like), e.r, ps[n..], ts, more, r, like);
    } else {
      ReadPrintedPrimary(e, ps, ts, more, r, like);
    }
  }

  lemma {:induction false} ReadPrintedOrs(v: Truth, e: Expr, ps: seq<Value>, ts: seq<Token>, more: seq<Value>,
                                          r: Row, like: Like)
    requires OrLevel(e) && |ps| == Holes(e) && (ts != [] ==> ts[0] != AND)
    ensures ReadOrs(v, [OR] + (Print(e) + ts), ps + more, r, like)
         == ReadOrs(Or3(v, Meaning(e, ps, r, like)), ts, more, r, like)
    decreases e, 3
  {
    assert ([OR] + (Print(e) + ts))[1..] == Print(e) + ts;
    if e.Either? {
      var n := Holes(e.l);
      Split(ps, more, n);
      Regroup(Print(e.l), OR, Print(e.r), ts);
      ReadPrintedOrs(v, e.l, ps[..n], [OR] + (Print(e.r) + ts), ps[n..] + more, r, like);
      ReadPrintedOrs(Or3(v, Meaning(e.l, ps[..n], r, like)), e.r, ps[n..], ts, more, r, like);
    } else {
      ReadPrintedAnd(e, ps, ts, more, r, like);
    }
  }

  lemma {:induction false} ReadPrintedOr(e: Expr, ps: seq<Value>, ts: seq<Token>, more: seq<Value>, r: Row, like: Like)
    requires OrLevel(e) && |ps| == Holes(e) && (ts != [] ==> ts[0] != AND)
    ensures ReadOr(Print(e) + ts, ps + more, r, like) == ReadOrs(Meaning(e, ps, r, like), ts, more, r, like)
    decreases e, 4
  {
    if e.Either? {
      var n := Holes(e.l);
      Split(ps, more, n);
      Regroup(Print(e.l), OR, Print(e.r), ts);
      ReadPrintedOr(e.l, ps[..n], [OR] + (Print(e.r) + ts), ps[n..] + more, r, like);
      ReadPrintedOrs(Meaning(e.l, ps[..n], r, like), e.r, ps[n..], ts, more, r, like);
    } else {
      ReadPrintedAnd(e, ps, ts, more, r, like);
    }
  }

  /** Text whose ORs are parenthesised under ANDs is read as it was meant, parameter by parameter. */
  lemma PrintedMeansWhatWasMeant(e: Expr, ps: seq<Value>, r: Row, like: Like)
    requires OrLevel(e) && |ps| == Holes(e)
    ensures Evaluate(Print(e), ps, r, like) == Some(Meaning(e, ps, r, like))
  {
    ReadPrintedOr(e, ps, [], [], r, like);
    assert Print(e) + [] == Print(e) && ps + [] == ps;
  }
}
