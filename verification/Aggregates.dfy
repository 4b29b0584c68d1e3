/** Aggregate support functions run over an arbitrary parallel plan: partial scans, serialised hand-over, combining. */
module Aggregates {
  import opened Common

  type State(!new)
  type Row(==, !new)
  type Bytes
  type Final

  /** The user's aggregate class: default constructor, `update`, combining constructor, serialisation, `finalize`. */
  datatype Agg = Agg(
    init: State,
    update: (State, Row) -> State,
    combine: (State, State) -> State,
    serialize: State -> Bytes,
    deserialize: Bytes -> State,
    finalize: State -> Final)

  function Fold(agg: Agg, rows: seq<Row>): State {
    if rows == [] then agg.init else agg.update(Fold(agg, rows[..|rows| - 1]), rows[|rows| - 1])
  }

  /** What the class must promise about the states it can reach. */
  ghost predicate Lawful(agg: Agg) {
    && (forall xs: seq<Row>, a: Row, b: Row {:trigger agg.update(agg.update(Fold(agg, xs), a), b)} ::
          agg.update(agg.update(Fold(agg, xs), a), b) == agg.update(agg.update(Fold(agg, xs), b), a))
    && (forall xs: seq<Row> {:trigger agg.combine(Fold(agg, xs), agg.init)} ::
          agg.combine(Fold(agg, xs), agg.init) == Fold(agg, xs))
    && (forall xs: seq<Row>, ys: seq<Row>, r: Row
          {:trigger agg.combine(Fold(agg, xs), agg.update(Fold(agg, ys), r))} ::
          agg.combine(Fold(agg, xs), agg.update(Fold(agg, ys), r))
            == agg.update(agg.combine(Fold(agg, xs), Fold(agg, ys)), r))
    && (forall xs: seq<Row> {:trigger agg.serialize(Fold(agg, xs))} ::
          agg.deserialize(agg.serialize(Fold(agg, xs))) == Fold(agg, xs))
  }

  lemma FoldSnoc(agg: Agg, xs: seq<Row>, r: Row)
    ensures Fold(agg, []) == agg.init && Fold(agg, xs + [r]) == agg.update(Fold(agg, xs), r)
  {
    assert (xs + [r])[..|xs|] == xs;
  }

  lemma {:induction false} CombineIsFold(agg: Agg, xs: seq<Row>, ys: seq<Row>)
    requires Lawful(agg)
    ensures agg.combine(Fold(agg, xs), Fold(agg, ys)) == Fold(agg, xs + ys)
    decreases |ys|
  {
    if ys == [] {
      assert xs + ys == xs;
    } else {
      var init, r := ys[..|ys| - 1], ys[|ys| - 1];
      CombineIsFold(agg, xs, init);
      FoldSnoc(agg, xs + init, r);
      assert xs + init + [r] == xs + ys;
    }
  }

  lemma {:induction false} MoveToEnd(agg: Agg, xs: seq<Row>, r: Row, ys: seq<Row>)
    requires Lawful(agg)
    ensures Fold(agg, xs + [r] + ys) == Fold(agg, xs + ys + [r])
    decreases |ys|
  {
    if ys == [] {
      assert xs + [r] + ys == xs + ys + [r];
    } else {
      var init, last := ys[..|ys| - 1], ys[|ys| - 1];
      MoveToEnd(agg, xs, r, init);
      FoldSnoc(agg, xs + [r] + init, last);
      FoldSnoc(agg, xs + init, r);
      FoldSnoc(agg, xs + init, last);
      FoldSnoc(agg, xs + ys, r);
      assert xs + [r] + ys == xs + [r] + init + [last] && xs + ys == xs + init + [last];
    }
  }

  /** The order of the rows does not matter. */
  lemma {:induction false} FoldIgnoresOrder(agg: Agg, xs: seq<Row>, ys: seq<Row>)
    requires Lawful(agg) && multiset(xs) == multiset(ys)
    ensures Fold(agg, xs) == Fold(agg, ys)
    decreases |xs|
  {
    if xs == [] {
      assert |multiset(ys)| == 0;
    } else {
      var init, r := xs[..|xs| - 1], xs[|xs| - 1];
      assert xs == init + [r];
      assert r in multiset(ys);
      var k :| 0 <= k < |ys| && ys[k] == r;
      assert ys == ys[..k] + [r] + ys[k + 1..];
      var rest := ys[..k] + ys[k + 1..];
      assert multiset(xs) == multiset(init) + multiset{r} && multiset(ys) == multiset(rest) + multiset{r};
      assert multiset(init) == multiset(xs) - multiset{r} == multiset(rest);
      FoldIgnoresOrder(agg, init, rest);
      MoveToEnd(agg, ys[..k], r, ys[k + 1..]);
      FoldSnoc(agg, rest, r);
    }
  }

  // ---------------------------------------------------------------- plans

  /** How Postgres may evaluate an aggregate: a worker scans rows, a non-null partial state crosses a process
      boundary, two partial states are combined. */
  datatype Plan = Scan(rows: seq<Row>) | HandOver(child: Plan) | Combine(left: Plan, right: Plan)

  function Rows(p: Plan): seq<Row> {
    match p
    case Scan(rows) => rows
    case HandOver(child) => Rows(child)
    case Combine(left, right) => Rows(left) + Rows(right)
  }

  /** Every scanned row counts once, wherever it is in the plan. */
  lemma RowsOfPlans(rows: seq<Row>, left: Plan, right: Plan, row: Row)
    ensures multiset(Rows(Scan(rows)))[row] == multiset(rows)[row]
    ensures multiset(Rows(HandOver(left)))[row] == multiset(Rows(left))[row]
    ensures multiset(Rows(Combine(left, right)))[row] == multiset(Rows(left))[row] + multiset(Rows(right))[row]
  {
  }

  /** The plan does anything at all to a state. */
  predicate Touches(p: Plan) {
    match p
    case Scan(rows) => rows != []
    case HandOver(child) => Touches(child)
    case Combine(_, _) => true
  }

  // ---------------------------------------------------------------- internal states

  /** How many objects a plan constructs: one for each scan that sees a row, one on the other side of a process
      boundary, one for two that are combined and one for each of these that is missing. */
  function Made(p: Plan): nat {
    match p
    case Scan(rows) => if rows == [] then 0 else 1
    case HandOver(child) => Made(child) + if Touches(child) then 1 else 0
    case Combine(left, right) =>
      Made(left) + Made(right) + 1 + (if Touches(left) then 0 else 1) + (if Touches(right) then 0 else 1)
  }

  /** An aggregate object living in a memory context. */
  class Object {
    var value: State
    var alive: bool

    constructor (value: State)
      ensures this.value == value && alive
    {
      this.value, alive := value, true;
    }
  }

  /** The aggregate memory context with the objects it will destroy when it is reset, in construction order. */
  class Context {
    var objects: seq<Object>

    ghost predicate Valid()
      reads this, objects
    {
      && (forall i :: 0 <= i < |objects| ==> objects[i].alive)
      && (forall i, j :: 0 <= i < j < |objects| ==> objects[i] != objects[j])
    }

    constructor ()
      ensures Valid() && objects == []
    {
      objects := [];
    }

    method Construct(value: State) returns (o: Object)
      requires Valid()
      modifies this
      ensures Valid() && fresh(o) && o.value == value && objects == old(objects) + [o]
    {
      o := new Object(value);
      objects := objects + [o];
    }

    /** Runs the destructors, last constructed first, each on a live object. */
    method Reset()
      requires Valid()
      modifies this, objects
      ensures Valid() && objects == [] && forall o :: o in old(objects) ==> !o.alive
    {
      ghost var all := objects;
      while objects != []
        invariant Valid() && objects == all[..|objects|] && |objects| <= |all|
        invariant forall i :: |objects| <= i < |all| ==> !all[i].alive
        decreases |objects|
      {
        var o := objects[|objects| - 1];
        assert o == all[|objects| - 1];
        o.alive := false;
        objects := objects[..|objects| - 1];
      }
    }
  }

  /** `aggregate_sfunc`: a null state is constructed first; then the object is updated in place. */
  method Sfunc(agg: Agg, ctx: Context, state: Object?, r: Row) returns (result: Object)
    requires ctx.Valid()
    modifies ctx, state
    ensures ctx.Valid()
    ensures if state == null then fresh(result) && ctx.objects == old(ctx.objects) + [result]
            else result == state && ctx.objects == old(ctx.objects) && result.alive == old(state.alive)
    ensures result.value == agg.update(if state == null then agg.init else old(state.value), r)
  {
    if state == null {
      result := ctx.Construct(agg.init);
    } else {
      result := state;
    }
    result.value := agg.update(result.value, r);
  }

  /** `aggregate_serial`. */
  method Serial(agg: Agg, state: Object) returns (bytes: Bytes)
    ensures bytes == agg.serialize(state.value)
  {
    bytes := agg.serialize(state.value);
  }

  /** `aggregate_deserial`. */
  method Deserial(agg: Agg, ctx: Context, bytes: Bytes) returns (result: Object)
    requires ctx.Valid()
    modifies ctx
    ensures ctx.Valid() && fresh(result) && ctx.objects == old(ctx.objects) + [result]
    ensures result.value == agg.deserialize(bytes)
  {
    result := ctx.Construct(agg.deserialize(bytes));
  }

  /** `aggregate_combine`: null states are constructed, and a third object is built from two unchanged ones. */
  method CombineStates(agg: Agg, ctx: Context, state: Object?, other: Object?) returns (result: Object)
    requires ctx.Valid()
    modifies ctx
    ensures ctx.Valid() && fresh(result) && result in ctx.objects && old(ctx.objects) <= ctx.objects
    ensures |ctx.objects| == |old(ctx.objects)| + 1 + (if state == null then 1 else 0) + if other == null then 1 else 0
    ensures forall i :: |old(ctx.objects)| <= i < |ctx.objects| ==> fresh(ctx.objects[i])
    ensures result.value == agg.combine(if state == null then agg.init else state.value,
                                        if other == null then agg.init else other.value)
  {
    var state0, state1 := state, other;
    if state == null {
      state0 := ctx.Construct(agg.init);
    }
    if other == null {
      state1 := ctx.Construct(agg.init);
    }
    result := ctx.Construct(agg.combine(state0.value, state1.value));
  }

  /** `aggregate_ffunc`; here a null state is constructed in the current memory context. */
  method Ffunc(agg: Agg, ctx: Context, state: Object?) returns (result: Final)
    requires ctx.Valid()
    modifies ctx
    ensures ctx.Valid() && old(ctx.objects) <= ctx.objects
    ensures |ctx.objects| == |old(ctx.objects)| + if state == null then 1 else 0
    ensures forall i :: |old(ctx.objects)| <= i < |ctx.objects| ==> fresh(ctx.objects[i])
    ensures result == agg.finalize(if state == null then agg.init else state.value)
  {
    var state0 := state;
    if state == null {
      state0 := ctx.Construct(agg.init);
    }
    result := agg.finalize(state0.value);
  }

  /** A partial state stands for the rows below it; a plan without rows may have none. */
  ghost predicate StandsFor(agg: Agg, state: Object?, rows: seq<Row>)
    reads state
  {
    (if state == null then agg.init else state.value) == Fold(agg, rows)
  }

  /** A non-null partial state crosses a process boundary: the state made of its bytes stands for the same rows, and
      is owned by the other side's aggregate context. */
  method CrossOver(agg: Agg, ctx: Context, state: Object, ghost rows: seq<Row>) returns (result: Object)
    requires Lawful(agg) && ctx.Valid() && StandsFor(agg, state, rows)
    modifies ctx
    ensures ctx.Valid() && fresh(result) && ctx.objects == old(ctx.objects) + [result]
    ensures StandsFor(agg, result, rows)
  {
    var bytes := Serial(agg, state);
    result := Deserial(agg, ctx, bytes);
  }

  /** One process scans rows; without any there is no state. */
  method ScanRows(agg: Agg, ctx: Context, rows: seq<Row>) returns (state: Object?)
    requires ctx.Valid()
    modifies ctx
    ensures ctx.Valid() && StandsFor(agg, state, rows) && (state != null <==> rows != [])
    ensures state != null ==> fresh(state)
    ensures ctx.objects == old(ctx.objects) + if state == null then [] else [state]
  {
    state := null;
    for i := 0 to |rows|
      invariant ctx.Valid() && StandsFor(agg, state, rows[..i]) && (state != null <==> i > 0)
      invariant state != null ==> fresh(state)
      invariant ctx.objects == old(ctx.objects) + if state == null then [] else [state]
    {
      FoldSnoc(agg, rows[..i], rows[i]);
      assert rows[..i + 1] == rows[..i] + [rows[i]];
      state := Sfunc(agg, ctx, state, rows[i]);
    }
    assert rows[..|rows|] == rows;
  }

  /** A state made while running is in the context and new; operands stay owned by the context. */
  method RunPlan(agg: Agg, ctx: Context, p: Plan) returns (state: Object?)
    requires Lawful(agg) && ctx.Valid()
    modifies ctx
    ensures ctx.Valid() && old(ctx.objects) <= ctx.objects
    ensures forall i :: |old(ctx.objects)| <= i < |ctx.objects| ==> fresh(ctx.objects[i])
    ensures state != null ==> fresh(state) && state in ctx.objects
    ensures StandsFor(agg, state, Rows(p)) && (state != null <==> Touches(p))
    ensures |ctx.objects| == |old(ctx.objects)| + Made(p)
    decreases p
  {
    match p
    case Scan(rows) =>
      state := ScanRows(agg, ctx, rows);
    case HandOver(child) =>
      state := RunPlan(agg, ctx, child);
      if state != null {
        state := CrossOver(agg, ctx, state, Rows(child));
      }
    case Combine(_, _) =>
      state := CombinePlans(agg, ctx, p);
  }

  method CombinePlans(agg: Agg, ctx: Context, p: Plan) returns (state: Object)
    requires Lawful(agg) && ctx.Valid() && p.Combine?
    modifies ctx
    ensures ctx.Valid() && old(ctx.objects) <= ctx.objects
    ensures forall i :: |old(ctx.objects)| <= i < |ctx.objects| ==> fresh(ctx.objects[i])
    ensures fresh(state) && state in ctx.objects && StandsFor(agg, state, Rows(p))
    ensures |ctx.objects| == |old(ctx.objects)| + Made(p)
    decreases p, 0
  {
    var l := RunPlan(agg, ctx, p.left);
    var r := RunPlan(agg, ctx, p.right);
    CombineIsFold(agg, Rows(p.left), Rows(p.right));
    state := CombineStates(agg, ctx, l, r);
  }

  /** Whatever the plan, the final value is that of one sequential fold over the same rows, in any order, and every
      object constructed on the way, in the aggregate context or the one current at the end, is destroyed when these
      are reset. */
  method Execute(agg: Agg, p: Plan, ghost rows: seq<Row>) returns (result: Final, ghost built: seq<Object>)
    requires Lawful(agg) && multiset(rows) == multiset(Rows(p))
    ensures result == agg.finalize(Fold(agg, rows))
    ensures forall o :: o in built ==> fresh(o) && !o.alive
    ensures |built| == Made(p) + (if Touches(p) then 0 else 1)
    ensures forall i, j :: 0 <= i < j < |built| ==> built[i] != built[j]
  {
    var aggregate := new Context();
    var current := new Context();
    var state := RunPlan(agg, aggregate, p);
    result := Ffunc(agg, current, state);
    FoldIgnoresOrder(agg, rows, Rows(p));
    built := aggregate.objects + current.objects;
    current.Reset();
    aggregate.Reset();
  }

  // ---------------------------------------------------------------- states that are datums

  /** A state that converts to and from a datum is passed by value and never serialised; a null state cannot be
      converted. `initcond` is the initial state declared for the aggregate, if any. */
  datatype Outcome = Failed | Returned(state: Option<State>)

  function RunOnDatums(agg: Agg, initcond: Option<State>, p: Plan): Outcome {
    match p
    case Scan(rows) => ScanDatums(agg, initcond, rows)
    case HandOver(child) => RunOnDatums(agg, initcond, child)
    case Combine(left, right) =>
      match (RunOnDatums(agg, initcond, left), RunOnDatums(agg, initcond, right)) {
        case (Returned(Some(s)), Returned(Some(t))) => Returned(Some(agg.combine(s, t)))
        case _ => Failed
      }
  }

  function ScanDatums(agg: Agg, initcond: Option<State>, rows: seq<Row>): Outcome {
    if rows == [] then Returned(initcond)
    else
      match ScanDatums(agg, initcond, rows[..|rows| - 1]) {
        case Returned(Some(s)) => Returned(Some(agg.update(s, rows[|rows| - 1])))
        case _ => Failed
      }
  }

  lemma {:induction false} ScanDatumsIsFold(agg: Agg, initcond: Option<State>, rows: seq<Row>)
    requires initcond.None? || initcond.value == agg.init
    ensures initcond.Some? ==> ScanDatums(agg, initcond, rows) == Returned(Some(Fold(agg, rows)))
    ensures initcond.None? && rows != [] ==> ScanDatums(agg, initcond, rows) == Failed
    decreases |rows|
  {
    if rows != [] {
      ScanDatumsIsFold(agg, initcond, rows[..|rows| - 1]);
    }
  }

  /** With the default state declared as the initial one, datum states compute the same fold; without one, they fail
      exactly when any state is touched. */
  lemma {:induction false} DatumsComputeFold(agg: Agg, initcond: Option<State>, p: Plan)
    requires Lawful(agg) && (initcond.None? || initcond.value == agg.init)
    ensures initcond.Some? ==> RunOnDatums(agg, initcond, p) == Returned(Some(Fold(agg, Rows(p))))
    ensures initcond.None? ==> RunOnDatums(agg, initcond, p) == if Touches(p) then Failed else Returned(None)
  {
    match p
    case Scan(rows) => ScanDatumsIsFold(agg, initcond, rows);
    case HandOver(child) => DatumsComputeFold(agg, initcond, child);
    case Combine(left, right) =>
      DatumsComputeFold(agg, initcond, left);
      DatumsComputeFold(agg, initcond, right);
      CombineIsFold(agg, Rows(left), Rows(right));
  }

  /** What a query gets for a datum state: nothing but an error, the state itself, the value of the final function, or
      whatever is found where the datum is taken for a pointer to point. */
  datatype Answer = Error | Itself(state: Option<State>) | Value(final: Final) | Misread

  /** `finalFunction` says whether one is declared, and `finalizable` whether the class has `finalize`: then
      `aggregate_ffunc` constructs a missing state and takes any other for a pointer to one. */
  function Answered(agg: Agg, finalFunction: bool, finalizable: bool, outcome: Outcome): Answer {
    match outcome
    case Failed => Error
    case Returned(state) =>
      if !finalFunction then Itself(state)
      else if !finalizable then Error
      else if state.None? then Value(agg.finalize(agg.init))
      else Misread
  }

  lemma {:induction false} UntouchedIsEmpty(p: Plan)
    requires !Touches(p)
    ensures Rows(p) == []
  {
    match p
    case Scan(_) =>
    case HandOver(child) => UntouchedIsEmpty(child);
  }

  /** The final function computes the final value of the fold exactly when there is no state to finalize; without a
      final function the answer is the fold itself exactly when the initial state is declared. What happens otherwise
      does not depend on the rows. */
  lemma DatumsAnswerFoldExactlyWhen(agg: Agg, initcond: Option<State>, p: Plan, finalizable: bool)
    requires Lawful(agg) && (initcond.None? || initcond.value == agg.init)
    ensures var outcome := RunOnDatums(agg, initcond, p);
      && (Answered(agg, true, true, outcome) == Value(agg.finalize(Fold(agg, Rows(p))))
          <==> initcond.None? && !Touches(p))
      && (Answered(agg, true, true, outcome).Misread? <==> initcond.Some?)
      && (Answered(agg, true, true, outcome).Error? <==> initcond.None? && Touches(p))
      && (Answered(agg, false, finalizable, outcome) == Itself(Some(Fold(agg, Rows(p)))) <==> initcond.Some?)
      && (Answered(agg, false, finalizable, outcome) == Itself(None) <==> initcond.None? && !Touches(p))
      && Answered(agg, true, false, outcome).Error?
  {
    DatumsComputeFold(agg, initcond, p);
    if !Touches(p) {
      UntouchedIsEmpty(p);
    }
  }

  /** A missing state fails as soon as a row is to be added to it or it is to be combined with anything. */
  lemma MissingStatesFail(agg: Agg, initcond: Option<State>, row: Row, left: Plan, right: Plan)
    ensures RunOnDatums(agg, None, Scan([])) == Returned(None)
    ensures RunOnDatums(agg, None, Scan([row])) == Failed
    ensures RunOnDatums(agg, initcond, left) == Returned(None) ==>
      RunOnDatums(agg, initcond, Combine(left, right)) == RunOnDatums(agg, initcond, Combine(right, left)) == Failed
  {
    assert [row][..0] == [];
  }
}
