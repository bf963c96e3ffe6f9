/**
 The SQL predicate of app/communication/reconcile.py, as an expression tree evaluated in
 three-valued logic, against the Python predicate of app/communication/priority.py.
 */
module StaleQuery {
  import opened Options
  import opened Policy

  datatype Tri = Yes | No | Unknown

  datatype Column = CreatedAt | LastInteractionAt | StatusUpdatedAt | CalculatedAt

  datatype Row = Row(createdAt: Time, lastInteractionAt: Time,
                     statusUpdatedAt: Option<Time>, calculatedAt: Option<Time>)

  datatype Expr =
    | Field(column: Column)
    | Literal(value: int)
    | Minus(left: Expr, right: Expr)
    | Case(when: Pred, result: int, otherwise: Expr)

  datatype Pred =
    | IsNull(e: Expr)
    | IsNotNull(e: Expr)
    | Less(a: Expr, b: Expr)
    | Greater(a: Expr, b: Expr)
    | NotEqual(a: Expr, b: Expr)
    | And(p: Pred, q: Pred)
    | Or(p: Pred, q: Pred)

  function Read(column: Column, row: Row): Option<int> {
    match column
    case CreatedAt => Some(row.createdAt)
    case LastInteractionAt => Some(row.lastInteractionAt)
    case StatusUpdatedAt => row.statusUpdatedAt
    case CalculatedAt => row.calculatedAt
  }

  function Truth(b: bool): Tri { if b then Yes else No }

  /** Value of an expression on a row; None is NULL. A CASE takes its branch on TRUE only. */
  function Eval(e: Expr, row: Row): Option<int> {
    match e
    case Field(c) => Read(c, row)
    case Literal(n) => Some(n)
    case Minus(l, r) =>
      var x, y := Eval(l, row), Eval(r, row);
      if x.None? || y.None? then None else Some(x.value - y.value)
    case Case(when, result, otherwise) =>
      if Holds(when, row) == Yes then Some(result) else Eval(otherwise, row)
  }

  /** Truth of a predicate on a row: a comparison with NULL is unknown, AND and OR follow Kleene. */
  function Holds(p: Pred, row: Row): Tri {
    match p
    case IsNull(e) => Truth(Eval(e, row).None?)
    case IsNotNull(e) => Truth(Eval(e, row).Some?)
    case Less(a, b) =>
      var x, y := Eval(a, row), Eval(b, row);
      if x.None? || y.None? then Unknown else Truth(x.value < y.value)
    case Greater(a, b) =>
      var x, y := Eval(a, row), Eval(b, row);
      if x.None? || y.None? then Unknown else Truth(x.value > y.value)
    case NotEqual(a, b) =>
      var x, y := Eval(a, row), Eval(b, row);
      if x.None? || y.None? then Unknown else Truth(x.value != y.value)
    case And(l, r) =>
      var x, y := Holds(l, row), Holds(r, row);
      if x == No || y == No then No else if x == Unknown || y == Unknown then Unknown else Yes
    case Or(l, r) =>
      var x, y := Holds(l, row), Holds(r, row);
      if x == Yes || y == Yes then Yes else if x == Unknown || y == Unknown then Unknown else No
  }

  /** The CASE over the age boundaries from `index` on, falling into the literal bucket count. */
  function BucketRankExpr(age: Expr, index: nat): Expr
    requires index <= |AGE_BUCKET_HOURS|
    decreases |AGE_BUCKET_HOURS| - index
  {
    if index == |AGE_BUCKET_HOURS| then Literal(|AGE_BUCKET_HOURS|)
    else Case(Less(age, Literal(AGE_BUCKET_HOURS[index] * HOUR)), index, BucketRankExpr(age, index + 1))
  }

  function NowAge(now: Time): Expr { Minus(Literal(now), Field(CreatedAt)) }

  function StampAge(): Expr { Minus(Field(CalculatedAt), Field(CreatedAt)) }

  function BucketMoved(now: Time): Pred {
    And(IsNotNull(Field(CalculatedAt)),
        NotEqual(BucketRankExpr(NowAge(now), 0), BucketRankExpr(StampAge(), 0)))
  }

  function StaleClause(now: Time): Pred {
    Or(IsNull(Field(CalculatedAt)),
       Or(Greater(Field(LastInteractionAt), Field(CalculatedAt)),
          Or(Greater(Field(StatusUpdatedAt), Field(CalculatedAt)),
             BucketMoved(now))))
  }

  /** The CASE computes the Python bucket rank; a NULL age falls through every WHEN to the last bucket. */
  lemma {:induction false} BucketRankExprEvaluates(age: Expr, index: nat, row: Row)
    requires index <= |AGE_BUCKET_HOURS|
    ensures Eval(BucketRankExpr(age, index), row)
         == Some(match Eval(age, row) case Some(a) => RankFrom(a, index) case None => |AGE_BUCKET_HOURS|)
    decreases |AGE_BUCKET_HOURS| - index
  {
    if index < |AGE_BUCKET_HOURS| {
      BucketRankExprEvaluates(age, index + 1, row);
      var bound := Literal(AGE_BUCKET_HOURS[index] * HOUR);
      assert Eval(bound, row) == Some(AGE_BUCKET_HOURS[index] * HOUR);
      assert Eval(age, row).None? ==> Holds(Less(age, bound), row) == Unknown;
      assert Eval(age, row).Some? ==>
        Holds(Less(age, bound), row) == Truth(Eval(age, row).value < AGE_BUCKET_HOURS[index] * HOUR);
    }
  }

  lemma BucketMovedEvaluates(now: Time, row: Row)
    ensures Holds(BucketMoved(now), row) ==
      if row.calculatedAt.None? then No
      else Truth(AgeBucket(now - row.createdAt) != AgeBucket(row.calculatedAt.value - row.createdAt))
  {
    BucketRankExprEvaluates(NowAge(now), 0, row);
    BucketRankExprEvaluates(StampAge(), 0, row);
    assert Eval(Field(CreatedAt), row) == Some(row.createdAt);
    assert Eval(Literal(now), row) == Some(now);
    assert Eval(Field(CalculatedAt), row) == row.calculatedAt;
    if row.calculatedAt.Some? {
      LabelsAreRanks(now - row.createdAt, row.calculatedAt.value - row.createdAt);
    }
  }

  /**
   Only TRUE selects a row, and TRUE is exactly what the Python predicate returns. The clause
   comes out unknown exactly where a stamped row is not stale and its item has no status time.
   */
  lemma StaleClauseIsIsStale(now: Time, row: Row)
    ensures Holds(StaleClause(now), row) == Yes
       <==> IsStale(now, row.createdAt, row.lastInteractionAt, row.statusUpdatedAt, row.calculatedAt)
    ensures Holds(StaleClause(now), row) == Unknown
       <==> row.statusUpdatedAt.None? && !IsStale(now, row.createdAt, row.lastInteractionAt, None, row.calculatedAt)
  {
    BucketMovedEvaluates(now, row);
    assert Eval(Field(CalculatedAt), row) == row.calculatedAt;
    assert Eval(Field(StatusUpdatedAt), row) == row.statusUpdatedAt;
    assert Eval(Field(LastInteractionAt), row) == Some(row.lastInteractionAt);
    var byStatus := Greater(Field(StatusUpdatedAt), Field(CalculatedAt));
    var byInteraction := Greater(Field(LastInteractionAt), Field(CalculatedAt));
    var rest := Or(byStatus, BucketMoved(now));
    assert Holds(StaleClause(now), row) == Holds(Or(IsNull(Field(CalculatedAt)), Or(byInteraction, rest)), row);
    assert Holds(IsNull(Field(CalculatedAt)), row) == Truth(row.calculatedAt.None?);
    if row.calculatedAt.Some? {
      assert Holds(byInteraction, row) == Truth(row.lastInteractionAt > row.calculatedAt.value);
      assert row.statusUpdatedAt.Some? ==>
        Holds(byStatus, row) == Truth(row.statusUpdatedAt.value > row.calculatedAt.value);
      assert row.statusUpdatedAt.None? ==> Holds(byStatus, row) == Unknown;
      assert Holds(rest, row) == Yes <==> Holds(byStatus, row) == Yes || Holds(BucketMoved(now), row) == Yes;
      assert Holds(rest, row) == Unknown ==> Holds(byStatus, row) == Unknown;
    }
  }
}
