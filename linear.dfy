/** The solver-facing side of the model: the decision variables, linear expressions and
    constraint records that the construction hands to the MILP solver, and the meaning of
    a record under a candidate assignment of the variables
    (optimization_core.py, lines 41-49 and the `prob +=` statements of 52-93).
 */
module Linear {
  import opened Problem

  /** The six variable families: `D[i,j,t]`, `ActualDur[i,j]`, `S[i,j]`, `F[i,j]`, `R[k]`
      and `Late[i,j]`. */
  datatype Var =
    | Active(a: Activity, t: int)
    | Duration(a: Activity)
    | Start(a: Activity)
    | Finish(a: Activity)
    | Peak(k: string)
    | Late(a: Activity)

  /** A value for every variable, as the solver reports it: the binary, integer-valued
      families as `int`, the continuous ones as `real`. */
  datatype Assignment = Assignment(
    active: (Activity, int) -> int,
    duration: Activity -> int,
    start: Activity -> int,
    finish: Activity -> int,
    peak: string -> real,
    late: Activity -> real)

  datatype Term = Term(coef: real, v: Var)

  /** `Σ coef·v + constant`, the affine expressions PuLP builds with `+`, `*` and `lpSum`. */
  datatype LinExpr = LinExpr(terms: seq<Term>, constant: real)

  datatype Sense = Le | Ge | Eq

  /** `lhs <= rhs`, `lhs >= rhs` or `lhs == rhs`, as written in a `prob +=` statement. */
  datatype Constraint = Constraint(lhs: LinExpr, sense: Sense, rhs: LinExpr)

  /** The program handed to the solver: the objective to minimise, the bounds that the
      variable declarations carry, and the constraints added one by one. */
  datatype Lp = Lp(objective: LinExpr, bounds: seq<Constraint>, constraints: seq<Constraint>)

  function Value(asg: Assignment, v: Var): real
  {
    match v
    case Active(a, t) => asg.active(a, t) as real
    case Duration(a) => asg.duration(a) as real
    case Start(a) => asg.start(a) as real
    case Finish(a) => asg.finish(a) as real
    case Peak(k) => asg.peak(k)
    case Late(a) => asg.late(a)
  }

  function EvalTerms(ts: seq<Term>, asg: Assignment): real
  {
    if ts == [] then 0.0
    else EvalTerms(ts[..|ts| - 1], asg) + ts[|ts| - 1].coef * Value(asg, ts[|ts| - 1].v)
  }

  /** Evaluation distributes over concatenation of term lists. */
  lemma {:induction false} EvalTermsConcat(xs: seq<Term>, ys: seq<Term>, asg: Assignment)
    ensures EvalTerms(xs + ys, asg) == EvalTerms(xs, asg) + EvalTerms(ys, asg)
  {
    if ys != [] {
      assert (xs + ys)[..|xs + ys| - 1] == xs + ys[..|ys| - 1];
      EvalTermsConcat(xs, ys[..|ys| - 1], asg);
    } else {
      assert xs + ys == xs;
    }
  }

  function Eval(e: LinExpr, asg: Assignment): real
  {
    EvalTerms(e.terms, asg) + e.constant
  }

  /** The expression `v` alone. */
  function VarExpr(v: Var): LinExpr
  {
    LinExpr([Term(1.0, v)], 0.0)
  }

  /** A constant expression. */
  function ConstExpr(c: real): LinExpr
  {
    LinExpr([], c)
  }

  /** Evaluating a one-term expression: the value of its term plus the constant. */
  lemma EvalSingle(coef: real, v: Var, constant: real, asg: Assignment)
    ensures Eval(LinExpr([Term(coef, v)], constant), asg) == coef * Value(asg, v) + constant
  {
    var ts := [Term(coef, v)];
    assert ts[..0] == [];
    assert EvalTerms(ts, asg) == EvalTerms([], asg) + coef * Value(asg, v);
  }

  /** Evaluating a two-term expression. */
  lemma EvalPair(c1: real, v1: Var, c2: real, v2: Var, constant: real, asg: Assignment)
    ensures Eval(LinExpr([Term(c1, v1), Term(c2, v2)], constant), asg)
            == c1 * Value(asg, v1) + c2 * Value(asg, v2) + constant
  {
    var ts := [Term(c1, v1), Term(c2, v2)];
    assert ts[..1] == [Term(c1, v1)];
    assert [Term(c1, v1)][..0] == [];
    assert EvalTerms([Term(c1, v1)], asg) == EvalTerms([], asg) + c1 * Value(asg, v1);
    assert EvalTerms(ts, asg) == EvalTerms([Term(c1, v1)], asg) + c2 * Value(asg, v2);
  }

  predicate Holds(c: Constraint, asg: Assignment)
  {
    match c.sense
    case Le => Eval(c.lhs, asg) <= Eval(c.rhs, asg)
    case Ge => Eval(c.lhs, asg) >= Eval(c.rhs, asg)
    case Eq => Eval(c.lhs, asg) == Eval(c.rhs, asg)
  }

  predicate AllHold(cs: seq<Constraint>, asg: Assignment)
  {
    forall n | 0 <= n < |cs| :: Holds(cs[n], asg)
  }

  /** Every record holds exactly when the records of both parts hold. */
  lemma AllHoldConcat(xs: seq<Constraint>, ys: seq<Constraint>, asg: Assignment)
    ensures AllHold(xs + ys, asg) <==> AllHold(xs, asg) && AllHold(ys, asg)
  {
    if AllHold(xs, asg) && AllHold(ys, asg) {
      forall n | 0 <= n < |xs + ys| ensures Holds((xs + ys)[n], asg) {
        if n >= |xs| {
          assert (xs + ys)[n] == ys[n - |xs|];
        }
      }
    }
    if AllHold(xs + ys, asg) {
      forall n | 0 <= n < |xs| ensures Holds(xs[n], asg) {
        assert (xs + ys)[n] == xs[n];
      }
      forall n | 0 <= n < |ys| ensures Holds(ys[n], asg) {
        assert (xs + ys)[|xs| + n] == ys[n];
      }
    }
  }

  /** The assignment lies within every variable bound and meets every constraint. */
  predicate Satisfies(lp: Lp, asg: Assignment)
  {
    AllHold(lp.bounds, asg) && AllHold(lp.constraints, asg)
  }
}
