/**
 Expressions that are an error in every solution, because they need the value of a variable no
 pattern in scope binds; sound for the error logic of section 17.2 of SPARQL 1.1, whatever the
 strict functions compute and whatever BOUND and EXISTS answer.
 */
module ExpressionErrors {
  import opened Collections

  datatype Expr =
    | Var(name: string)
    | Const(id: nat)                                // an IRI or a literal
    | Tolerant(kind: string, args: seq<Expr>)       // BOUND, EXISTS, NOT EXISTS
    | If(cond: Expr, yes: Expr, no: Expr)
    | And(conjuncts: seq<Expr>)
    | Or(disjuncts: seq<Expr>)
    | Coalesce(choices: seq<Expr>)
    | In(tested: Expr, members: seq<Expr>, negated: bool)
    | Strict(op: string, args: seq<Expr>)           // every other operator and function

  type Scope = string -> bool

  // ---- the analysis ----

  predicate CertainlyError(e: Expr, inScope: Scope) {
    match e
    case Var(name) => !inScope(name)
    case Const(_) => false
    case Tolerant(_, _) => false
    case If(c, y, n) => CertainlyError(c, inScope) || (CertainlyError(y, inScope) && CertainlyError(n, inScope))
    case And(es) => es != [] && forall x :: x in es ==> CertainlyError(x, inScope)
    case Or(es) => es != [] && forall x :: x in es ==> CertainlyError(x, inScope)
    case Coalesce(es) => es != [] && forall x :: x in es ==> CertainlyError(x, inScope)
    case In(x, _, _) => CertainlyError(x, inScope)
    case Strict(_, es) => exists x :: x in es && CertainlyError(x, inScope)
  }

  // ---- evaluation ----

  datatype Value = BoolValue(b: bool) | OtherValue(id: nat)
  datatype Outcome = Val(v: Value) | Error
  type Solution = map<string, Value>

  /** A truth value with error. */
  datatype Truth = T | F | E

  /**
   What section 17.2 leaves to the operators: strict functions, effective boolean values, the
   answers of BOUND and EXISTS, and equality. An empty IN list is false as an empty
   disjunction, unless the tested value is evaluated first.
   */
  datatype Operators = Operators(
    strict: (string, seq<Value>) -> Outcome,
    ebv: Value -> Truth,
    tolerant: (Expr, Solution) -> Outcome,
    equal: (Value, Value) -> Truth,
    constant: nat -> Value,
    testedFirst: bool)

  function And3(a: Truth, b: Truth): Truth {
    if a == F || b == F then F else if a == E || b == E then E else T
  }

  function Or3(a: Truth, b: Truth): Truth {
    if a == T || b == T then T else if a == E || b == E then E else F
  }

  function Not3(a: Truth): Truth {
    match a case T => F case F => T case E => E
  }

  function OfTruth(t: Truth): Outcome {
    match t case T => Val(BoolValue(true)) case F => Val(BoolValue(false)) case E => Error
  }

  function Boolean(ops: Operators, o: Outcome): Truth {
    match o case Val(v) => ops.ebv(v) case Error => E
  }

  function Equal3(ops: Operators, a: Outcome, b: Outcome): Truth {
    if a.Val? && b.Val? then ops.equal(a.v, b.v) else E
  }

  function Eval(ops: Operators, e: Expr, mu: Solution): Outcome
    decreases e, 0
  {
    match e
    case Var(name) => if name in mu then Val(mu[name]) else Error
    case Const(id) => Val(ops.constant(id))
    case Tolerant(_, _) => ops.tolerant(e, mu)
    case If(c, y, n) =>
      (match Boolean(ops, Eval(ops, c, mu))
       case T => Eval(ops, y, mu)
       case F => Eval(ops, n, mu)
       case E => Error)
    case And(es) => OfTruth(EvalAnd(ops, es, mu))
    case Or(es) => OfTruth(EvalOr(ops, es, mu))
    case Coalesce(es) => EvalCoalesce(ops, es, mu)
    case In(x, es, negated) =>
      var tested := Eval(ops, x, mu);
      var found := if es == [] && ops.testedFirst && tested.Error? then E else EvalIn(ops, tested, es, mu);
      OfTruth(if negated then Not3(found) else found)
    case Strict(op, es) =>
      (match EvalArgs(ops, es, mu)
       case None => Error
       case Some(vs) => ops.strict(op, vs))
  }

  function EvalAnd(ops: Operators, es: seq<Expr>, mu: Solution): Truth
    decreases es, 1
  {
    if es == [] then T else And3(Boolean(ops, Eval(ops, es[0], mu)), EvalAnd(ops, es[1..], mu))
  }

  function EvalOr(ops: Operators, es: seq<Expr>, mu: Solution): Truth
    decreases es, 1
  {
    if es == [] then F else Or3(Boolean(ops, Eval(ops, es[0], mu)), EvalOr(ops, es[1..], mu))
  }

  function EvalCoalesce(ops: Operators, es: seq<Expr>, mu: Solution): Outcome
    decreases es, 1
  {
    if es == [] then Error
    else
      var first := Eval(ops, es[0], mu);
      if first.Val? then first else EvalCoalesce(ops, es[1..], mu)
  }

  /** x IN (e1, ...) is (x = e1) || ... */
  function EvalIn(ops: Operators, tested: Outcome, es: seq<Expr>, mu: Solution): Truth
    decreases es, 1
  {
    if es == [] then F
    else Or3(Equal3(ops, tested, Eval(ops, es[0], mu)), EvalIn(ops, tested, es[1..], mu))
  }

  function EvalArgs(ops: Operators, es: seq<Expr>, mu: Solution): Option<seq<Value>>
    decreases es, 1
  {
    if es == [] then Some([])
    else
      match (Eval(ops, es[0], mu), EvalArgs(ops, es[1..], mu))
      case (Val(v), Some(vs)) => Some([v] + vs)
      case _ => None
  }

  // ---- soundness ----

  predicate NoEmptyIn(e: Expr) {
    match e
    case Var(_) => true
    case Const(_) => true
    case Tolerant(_, _) => true
    case If(c, y, n) => NoEmptyIn(c) && NoEmptyIn(y) && NoEmptyIn(n)
    case And(es) => forall x :: x in es ==> NoEmptyIn(x)
    case Or(es) => forall x :: x in es ==> NoEmptyIn(x)
    case Coalesce(es) => forall x :: x in es ==> NoEmptyIn(x)
    case In(x, es, _) => es != [] && NoEmptyIn(x)
    case Strict(_, es) => forall x :: x in es ==> NoEmptyIn(x)
  }

  ghost predicate AllErrors(ops: Operators, es: seq<Expr>, mu: Solution) {
    forall x :: x in es ==> Eval(ops, x, mu) == Error
  }

  lemma {:induction false} AllErrorsFold(ops: Operators, es: seq<Expr>, mu: Solution)
    requires es != [] && AllErrors(ops, es, mu)
    ensures EvalAnd(ops, es, mu) == E && EvalOr(ops, es, mu) == E && EvalCoalesce(ops, es, mu) == Error
    decreases |es|
  {
    assert es[0] in es;
    assert forall x :: x in es[1..] ==> x in es;
    if |es| > 1 { AllErrorsFold(ops, es[1..], mu); }
    else { assert es[1..] == []; }
  }

  lemma {:induction false} ErrorTested(ops: Operators, es: seq<Expr>, mu: Solution)
    requires es != []
    ensures EvalIn(ops, Error, es, mu) == E
    decreases |es|
  {
    if |es| > 1 { ErrorTested(ops, es[1..], mu); }
    else { assert es[1..] == []; }
  }

  lemma {:induction false} ErrorArgument(ops: Operators, es: seq<Expr>, mu: Solution, x: Expr)
    requires x in es && Eval(ops, x, mu) == Error
    ensures EvalArgs(ops, es, mu) == None
    decreases |es|
  {
    if x != es[0] { ErrorArgument(ops, es[1..], mu, x); }
  }

  /**
   Soundness. Where the analysis says so, the expression is an error in every solution that
   leaves the out-of-scope variables unbound; an empty IN list must be evaluated tested-first.
   */
  lemma {:induction false} CertainErrorsAreErrors(ops: Operators, e: Expr, inScope: Scope, mu: Solution)
    requires CertainlyError(e, inScope) && forall v :: v in mu ==> inScope(v)
    requires ops.testedFirst || NoEmptyIn(e)
    ensures Eval(ops, e, mu) == Error
  {
    match e
    case Var(_) =>
    case If(c, y, n) =>
      if CertainlyError(c, inScope) {
        CertainErrorsAreErrors(ops, c, inScope, mu);
      } else {
        CertainErrorsAreErrors(ops, y, inScope, mu);
        CertainErrorsAreErrors(ops, n, inScope, mu);
      }
    case And(es) =>
      forall x | x in es ensures Eval(ops, x, mu) == Error { CertainErrorsAreErrors(ops, x, inScope, mu); }
      AllErrorsFold(ops, es, mu);
    case Or(es) =>
      forall x | x in es ensures Eval(ops, x, mu) == Error { CertainErrorsAreErrors(ops, x, inScope, mu); }
      AllErrorsFold(ops, es, mu);
    case Coalesce(es) =>
      forall x | x in es ensures Eval(ops, x, mu) == Error { CertainErrorsAreErrors(ops, x, inScope, mu); }
      AllErrorsFold(ops, es, mu);
    case In(x, es, _) =>
      CertainErrorsAreErrors(ops, x, inScope, mu);
      if es != [] { ErrorTested(ops, es, mu); }
    case Strict(_, es) =>
      var x :| x in es && CertainlyError(x, inScope);
      CertainErrorsAreErrors(ops, x, inScope, mu);
      ErrorArgument(ops, es, mu, x);
  }

  /** Shrinking the scope never makes a certain error uncertain. */
  lemma {:induction false} SmallerScopeKeepsErrors(e: Expr, wide: Scope, narrow: Scope)
    requires forall v :: narrow(v) ==> wide(v)
    requires CertainlyError(e, wide)
    ensures CertainlyError(e, narrow)
  {
    match e
    case Var(_) =>
    case If(c, y, n) =>
      if CertainlyError(c, wide) {
        SmallerScopeKeepsErrors(c, wide, narrow);
      } else {
        SmallerScopeKeepsErrors(y, wide, narrow);
        SmallerScopeKeepsErrors(n, wide, narrow);
      }
    case And(es) =>
      forall x | x in es ensures CertainlyError(x, narrow) { SmallerScopeKeepsErrors(x, wide, narrow); }
    case Or(es) =>
      forall x | x in es ensures CertainlyError(x, narrow) { SmallerScopeKeepsErrors(x, wide, narrow); }
    case Coalesce(es) =>
      forall x | x in es ensures CertainlyError(x, narrow) { SmallerScopeKeepsErrors(x, wide, narrow); }
    case In(x, _, _) =>
      SmallerScopeKeepsErrors(x, wide, narrow);
    case Strict(_, es) =>
      var x :| x in es && CertainlyError(x, wide);
      SmallerScopeKeepsErrors(x, wide, narrow);
  }

  /**
   An empty list: whatever is tested, if it is a certain error then the analysis says the same of the
   IN, and that is so in a solution if and only if the tested value is evaluated first. An empty
   disjunction is false.
   */
  lemma EmptyListIsNoError(ops: Operators, tested: Expr, inScope: Scope, mu: Solution, negated: bool)
    requires CertainlyError(tested, inScope) && forall v :: v in mu ==> inScope(v)
    ensures CertainlyError(In(tested, [], negated), inScope)
    ensures Eval(ops, In(tested, [], negated), mu) == Error <==> ops.testedFirst
  {
    if ops.testedFirst { CertainErrorsAreErrors(ops, tested, inScope, mu); }
  }

  // ---- errors under either reading of an empty list ----

  /** An IN with an empty list is at most false, a NOT IN at most true. */
  predicate EmptyList(e: Expr, negated: bool) {
    e.In? && e.members == [] && e.negated == negated
  }

  /** An error whether or not the tested value of an empty list is evaluated first. */
  predicate FailsEitherWay(e: Expr, inScope: Scope) {
    match e
    case Var(name) => !inScope(name)
    case Const(_) => false
    case Tolerant(_, _) => false
    case If(c, y, n) => FailsEitherWay(c, inScope) || (FailsEitherWay(y, inScope) && FailsEitherWay(n, inScope))
    case And(es) =>
      && (exists x :: x in es && FailsEitherWay(x, inScope))
      && forall x :: x in es ==> FailsEitherWay(x, inScope) || EmptyList(x, true)
    case Or(es) =>
      && (exists x :: x in es && FailsEitherWay(x, inScope))
      && forall x :: x in es ==> FailsEitherWay(x, inScope) || EmptyList(x, false)
    case Coalesce(es) => es != [] && forall x :: x in es ==> FailsEitherWay(x, inScope)
    case In(x, es, _) => es != [] && FailsEitherWay(x, inScope)
    case Strict(_, es) => exists x :: x in es && FailsEitherWay(x, inScope)
  }

  /** The effective boolean value of a boolean is the boolean. */
  predicate Booleans(ops: Operators) {
    ops.ebv(BoolValue(true)) == T && ops.ebv(BoolValue(false)) == F
  }

  lemma {:induction false} ErrorConjunct(ops: Operators, es: seq<Expr>, mu: Solution, x: Expr)
    requires x in es && Boolean(ops, Eval(ops, x, mu)) == E
    requires forall y :: y in es ==> Boolean(ops, Eval(ops, y, mu)) != F
    ensures EvalAnd(ops, es, mu) == E
    decreases |es|
  {
    if x in es[1..] {
      ErrorConjunct(ops, es[1..], mu, x);
    } else {
      NoFalseConjunct(ops, es[1..], mu);
    }
  }

  lemma {:induction false} NoFalseConjunct(ops: Operators, es: seq<Expr>, mu: Solution)
    requires forall y :: y in es ==> Boolean(ops, Eval(ops, y, mu)) != F
    ensures EvalAnd(ops, es, mu) != F
    decreases |es|
  {
    if es != [] { NoFalseConjunct(ops, es[1..], mu); }
  }

  lemma {:induction false} ErrorDisjunct(ops: Operators, es: seq<Expr>, mu: Solution, x: Expr)
    requires x in es && Boolean(ops, Eval(ops, x, mu)) == E
    requires forall y :: y in es ==> Boolean(ops, Eval(ops, y, mu)) != T
    ensures EvalOr(ops, es, mu) == E
    decreases |es|
  {
    if x in es[1..] {
      ErrorDisjunct(ops, es[1..], mu, x);
    } else {
      NoTrueDisjunct(ops, es[1..], mu);
    }
  }

  lemma {:induction false} NoTrueDisjunct(ops: Operators, es: seq<Expr>, mu: Solution)
    requires forall y :: y in es ==> Boolean(ops, Eval(ops, y, mu)) != T
    ensures EvalOr(ops, es, mu) != T
    decreases |es|
  {
    if es != [] { NoTrueDisjunct(ops, es[1..], mu); }
  }

  lemma EmptyListTruth(ops: Operators, e: Expr, negated: bool, mu: Solution)
    requires Booleans(ops) && EmptyList(e, negated)
    ensures Boolean(ops, Eval(ops, e, mu)) != if negated then F else T
  {}

  lemma {:induction false} EitherReadingErrors(ops: Operators, e: Expr, inScope: Scope, mu: Solution)
    requires Booleans(ops) && FailsEitherWay(e, inScope) && forall v :: v in mu ==> inScope(v)
    ensures Eval(ops, e, mu) == Error
  {
    match e
    case Var(_) =>
    case If(c, y, n) =>
      if FailsEitherWay(c, inScope) {
        EitherReadingErrors(ops, c, inScope, mu);
      } else {
        EitherReadingErrors(ops, y, inScope, mu);
        EitherReadingErrors(ops, n, inScope, mu);
      }
    case And(es) =>
      var x :| x in es && FailsEitherWay(x, inScope);
      EitherReadingErrors(ops, x, inScope, mu);
      forall y | y in es ensures Boolean(ops, Eval(ops, y, mu)) != F {
        if FailsEitherWay(y, inScope) {
          EitherReadingErrors(ops, y, inScope, mu);
        } else {
          EmptyListTruth(ops, y, true, mu);
        }
      }
      ErrorConjunct(ops, es, mu, x);
    case Or(es) =>
      var x :| x in es && FailsEitherWay(x, inScope);
      EitherReadingErrors(ops, x, inScope, mu);
      forall y | y in es ensures Boolean(ops, Eval(ops, y, mu)) != T {
        if FailsEitherWay(y, inScope) {
          EitherReadingErrors(ops, y, inScope, mu);
        } else {
          EmptyListTruth(ops, y, false, mu);
        }
      }
      ErrorDisjunct(ops, es, mu, x);
    case Coalesce(es) =>
      forall x | x in es ensures Eval(ops, x, mu) == Error { EitherReadingErrors(ops, x, inScope, mu); }
      AllErrorsFold(ops, es, mu);
    case In(x, es, _) =>
      EitherReadingErrors(ops, x, inScope, mu);
      ErrorTested(ops, es, mu);
    case Strict(_, es) =>
      var x :| x in es && FailsEitherWay(x, inScope);
      EitherReadingErrors(ops, x, inScope, mu);
      ErrorArgument(ops, es, mu, x);
  }

  /** Without empty lists that is what the analysis says. */
  lemma {:induction false} NoEmptyListFails(e: Expr, inScope: Scope)
    requires CertainlyError(e, inScope) && NoEmptyIn(e)
    ensures FailsEitherWay(e, inScope)
  {
    match e
    case Var(_) =>
    case If(c, y, n) =>
      if CertainlyError(c, inScope) {
        NoEmptyListFails(c, inScope);
      } else {
        NoEmptyListFails(y, inScope);
        NoEmptyListFails(n, inScope);
      }
    case And(es) =>
      forall x | x in es ensures FailsEitherWay(x, inScope) { NoEmptyListFails(x, inScope); }
      assert es[0] in es;
    case Or(es) =>
      forall x | x in es ensures FailsEitherWay(x, inScope) { NoEmptyListFails(x, inScope); }
      assert es[0] in es;
    case Coalesce(es) =>
      forall x | x in es ensures FailsEitherWay(x, inScope) { NoEmptyListFails(x, inScope); }
    case In(x, _, _) =>
      NoEmptyListFails(x, inScope);
    case Strict(_, es) =>
      var x :| x in es && CertainlyError(x, inScope);
      NoEmptyListFails(x, inScope);
  }

  // ---- what one operator decides ----

  predicate Leaf(e: Expr) {
    e.Var? || e.Const?
  }

  /** One operator over variables and constants. */
  predicate Flat(e: Expr) {
    match e
    case Var(_) => true
    case Const(_) => true
    case Tolerant(_, _) => true
    case If(c, y, n) => Leaf(c) && Leaf(y) && Leaf(n)
    case And(es) => forall x :: x in es ==> Leaf(x)
    case Or(es) => forall x :: x in es ==> Leaf(x)
    case Coalesce(es) => forall x :: x in es ==> Leaf(x)
    case In(x, es, _) => Leaf(x) && forall y :: y in es ==> Leaf(y)
    case Strict(_, es) => forall x :: x in es ==> Leaf(x)
  }

  /** A variable out of scope. */
  predicate Missing(e: Expr, inScope: Scope) {
    e.Var? && !inScope(e.name)
  }

  /** An error for all operators and in all solutions in scope, the tested value of an IN being evaluated first. */
  ghost predicate AlwaysError(e: Expr, inScope: Scope) {
    forall ops: Operators, mu: Solution :: ops.testedFirst && (forall v :: v in mu ==> inScope(v)) ==>
      Eval(ops, e, mu) == Error
  }

  /** Operators that give values wherever they may, all with this effective boolean value. */
  function Benign(truth: Truth): Operators {
    Operators((op, vs) => Val(BoolValue(true)), v => truth, (e, mu) => Val(BoolValue(true)), (a, b) => T,
              id => BoolValue(true), true)
  }

  /** Every variable in scope of these is bound. */
  predicate BindsScope(mu: Solution, inScope: Scope, es: seq<Expr>) {
    && (forall v :: v in mu ==> inScope(v))
    && forall x :: x in es && x.Var? && inScope(x.name) ==> x.name in mu
  }

  function ScopeOf(es: seq<Expr>, inScope: Scope): Solution {
    map x | x in (set e | e in es && e.Var? :: e.name) && inScope(x) :: BoolValue(true)
  }

  lemma LeafValue(truth: Truth, x: Expr, mu: Solution, inScope: Scope, es: seq<Expr>)
    requires BindsScope(mu, inScope, es) && x in es && Leaf(x)
    ensures Eval(Benign(truth), x, mu) == Error <==> Missing(x, inScope)
  {}

  lemma {:induction false} SomeConjunct(es: seq<Expr>, mu: Solution, inScope: Scope, x: Expr)
    requires BindsScope(mu, inScope, es) && (forall y :: y in es ==> Leaf(y)) && x in es && !Missing(x, inScope)
    ensures EvalAnd(Benign(F), es, mu) == F && EvalOr(Benign(T), es, mu) == T
    ensures EvalCoalesce(Benign(T), es, mu).Val?
    decreases |es|
  {
    LeafValue(F, es[0], mu, inScope, es);
    LeafValue(T, es[0], mu, inScope, es);
    if Missing(es[0], inScope) { SomeConjunct(es[1..], mu, inScope, x); }
  }

  lemma {:induction false} AllArguments(es: seq<Expr>, mu: Solution, inScope: Scope)
    requires BindsScope(mu, inScope, es) && forall y :: y in es ==> Leaf(y) && !Missing(y, inScope)
    ensures EvalArgs(Benign(T), es, mu).Some?
    decreases |es|
  {
    if es != [] {
      LeafValue(T, es[0], mu, inScope, es);
      AllArguments(es[1..], mu, inScope);
    }
  }

  lemma {:induction false} SomeMember(es: seq<Expr>, mu: Solution, inScope: Scope, x: Expr, v: Value)
    requires BindsScope(mu, inScope, es) && (forall y :: y in es ==> Leaf(y)) && x in es && !Missing(x, inScope)
    ensures EvalIn(Benign(T), Val(v), es, mu) == T
    decreases |es|
  {
    LeafValue(T, es[0], mu, inScope, es);
    if Missing(es[0], inScope) { SomeMember(es[1..], mu, inScope, x, v); }
  }

  /** The operands of a flat expression. */
  function Leaves(e: Expr): seq<Expr> {
    match e
    case If(c, y, n) => [c, y, n]
    case And(es) => es
    case Or(es) => es
    case Coalesce(es) => es
    case In(x, es, _) => [x] + es
    case Strict(_, es) => es
    case _ => [e]
  }

  /** The two errors the analysis does not report: no member of an IN has a value, or COALESCE has no choices. */
  predicate Unreported(e: Expr, inScope: Scope) {
    || (e.In? && e.members != [] && forall y :: y in e.members ==> Missing(y, inScope))
    || e == Coalesce([])
  }

  lemma {:induction false} MembersFail(ops: Operators, tested: Outcome, es: seq<Expr>, mu: Solution, inScope: Scope)
    requires es != [] && (forall y :: y in es ==> Missing(y, inScope)) && forall v :: v in mu ==> inScope(v)
    ensures EvalIn(ops, tested, es, mu) == E
    decreases |es|
  {
    assert es[0] in es && Eval(ops, es[0], mu) == Error;
    if |es| > 1 { MembersFail(ops, tested, es[1..], mu, inScope); } else { assert es[1..] == []; }
  }

  lemma UnreportedFails(ops: Operators, e: Expr, inScope: Scope, mu: Solution)
    requires Unreported(e, inScope) && forall v :: v in mu ==> inScope(v)
    ensures Eval(ops, e, mu) == Error
  {
    if e.In? { MembersFail(ops, Eval(ops, e.tested, mu), e.members, mu, inScope); }
  }

  /** An expression that is neither has a value under some operators, all it can being bound. */
  lemma FlatHasValue(e: Expr, inScope: Scope, mu: Solution) returns (ops: Operators)
    requires Flat(e) && BindsScope(mu, inScope, Leaves(e))
    requires !CertainlyError(e, inScope) && !Unreported(e, inScope)
    ensures ops.testedFirst && Eval(ops, e, mu) != Error
  {
    ops := Benign(T);
    match e
    case Var(_) => assert e in Leaves(e);
    case Const(_) =>
    case Tolerant(_, _) =>
    case If(c, y, n) => ops := IfHasValue(e, inScope, mu);
    case And(es) =>
      ops := Benign(F);
      if es != [] {
        var x :| x in es && !CertainlyError(x, inScope);
        SomeConjunct(es, mu, inScope, x);
      }
    case Or(es) =>
      if es != [] {
        var x :| x in es && !CertainlyError(x, inScope);
        SomeConjunct(es, mu, inScope, x);
      }
    case Coalesce(es) =>
      var x :| x in es && !CertainlyError(x, inScope);
      SomeConjunct(es, mu, inScope, x);
    case In(_, _, _) => InHasValue(e, inScope, mu);
    case Strict(_, es) => AllArguments(es, mu, inScope);
  }

  lemma IfHasValue(e: Expr, inScope: Scope, mu: Solution) returns (ops: Operators)
    requires e.If? && Flat(e) && BindsScope(mu, inScope, Leaves(e)) && !CertainlyError(e, inScope)
    ensures ops.testedFirst && Eval(ops, e, mu) != Error
  {
    ops := Benign(if CertainlyError(e.yes, inScope) then F else T);
    assert e.cond == Leaves(e)[0] && e.yes == Leaves(e)[1] && e.no == Leaves(e)[2];
    assert e.cond in Leaves(e) && e.yes in Leaves(e) && e.no in Leaves(e);
    LeafValue(if CertainlyError(e.yes, inScope) then F else T, e.cond, mu, inScope, Leaves(e));
    LeafValue(T, e.yes, mu, inScope, Leaves(e));
    LeafValue(F, e.no, mu, inScope, Leaves(e));
  }

  lemma InHasValue(e: Expr, inScope: Scope, mu: Solution)
    requires e.In? && Flat(e) && BindsScope(mu, inScope, Leaves(e))
    requires !CertainlyError(e, inScope) && !Unreported(e, inScope)
    ensures Eval(Benign(T), e, mu) != Error
  {
    assert e.tested in Leaves(e) && forall y :: y in e.members ==> y in Leaves(e);
    LeafValue(T, e.tested, mu, inScope, Leaves(e));
    if e.members != [] {
      var y :| y in e.members && !Missing(y, inScope);
      SomeMember(e.members, mu, inScope, y, Eval(Benign(T), e.tested, mu).v);
    }
  }

  /**
   For one operator over variables and constants the analysis is exact: it reports an error exactly
   where every choice of operators and every solution in scope gives one, but for an IN none of whose
   members has a value and for COALESCE without choices.
   */
  lemma CertainExactly(e: Expr, inScope: Scope)
    requires Flat(e)
    ensures AlwaysError(e, inScope) <==> CertainlyError(e, inScope) || Unreported(e, inScope)
  {
    if CertainlyError(e, inScope) || Unreported(e, inScope) {
      forall ops: Operators, mu: Solution | ops.testedFirst && forall v :: v in mu ==> inScope(v)
        ensures Eval(ops, e, mu) == Error
      {
        if CertainlyError(e, inScope) { CertainErrorsAreErrors(ops, e, inScope, mu); }
        else { UnreportedFails(ops, e, inScope, mu); }
      }
    } else {
      var mu := ScopeOf(Leaves(e), inScope);
      assert BindsScope(mu, inScope, Leaves(e));
      var ops := FlatHasValue(e, inScope, mu);
    }
  }

  // ---- unbound_variables ----

  function Operands(e: Expr): seq<Expr> {
    match e
    case Var(_) => []
    case Const(_) => []
    case Tolerant(_, es) => es
    case If(c, y, n) => [c, y, n]
    case And(es) => es
    case Or(es) => es
    case Coalesce(es) => es
    case In(x, es, _) => [x] + es
    case Strict(_, es) => es
  }

  ghost function Size(e: Expr): nat {
    1 + match e
    case Var(_) => 0
    case Const(_) => 0
    case Tolerant(_, es) => SizeAll(es)
    case If(c, y, n) => Size(c) + Size(y) + Size(n)
    case And(es) => SizeAll(es)
    case Or(es) => SizeAll(es)
    case Coalesce(es) => SizeAll(es)
    case In(x, es, _) => Size(x) + SizeAll(es)
    case Strict(_, es) => SizeAll(es)
  }

  ghost function SizeAll(es: seq<Expr>): nat {
    if es == [] then 0 else Size(es[0]) + SizeAll(es[1..])
  }

  lemma {:induction false} SizeOperand(es: seq<Expr>, k: nat)
    requires k < |es|
    ensures Size(es[k]) <= SizeAll(es)
    decreases |es|
  {
    if k > 0 { SizeOperand(es[1..], k - 1); }
  }

  lemma OperandSize(e: Expr, k: nat)
    requires k < |Operands(e)|
    ensures Size(Operands(e)[k]) < Size(e)
  {
    match e
    case Tolerant(_, es) => SizeOperand(es, k);
    case If(_, _, _) =>
    case And(es) => SizeOperand(es, k);
    case Or(es) => SizeOperand(es, k);
    case Coalesce(es) => SizeOperand(es, k);
    case In(x, es, _) => if k > 0 { SizeOperand(es, k - 1); }
    case Strict(_, es) => SizeOperand(es, k);
  }

  /** The expression reads the variable somewhere. */
  ghost predicate Reads(e: Expr, v: string)
    decreases Size(e)
  {
    || e == Var(v)
    || exists k :: 0 <= k < |Operands(e)| && (OperandSize(e, k); Reads(Operands(e)[k], v))
  }

  lemma SizeCons(e: Expr, es: seq<Expr>)
    ensures SizeAll([e] + es) == Size(e) + SizeAll(es)
  {
    assert ([e] + es)[1..] == es;
  }

  lemma OperandsSize(e: Expr)
    requires !e.Var?
    ensures SizeAll(Operands(e)) < Size(e)
  {
    match e
    case If(c, y, n) =>
      SizeCons(c, [y, n]);
      SizeCons(y, [n]);
      SizeCons(n, []);
      assert [c, y, n] == [c] + [y, n] && [y, n] == [y] + [n] && [n] == [n] + [];
    case In(x, es, _) => SizeCons(x, es);
    case _ =>
  }

  /** Every reading of an out-of-scope variable, from left to right. */
  ghost function Readings(e: Expr, inScope: Scope): seq<string>
    decreases Size(e), 0
  {
    if e.Var? then if inScope(e.name) then [] else [e.name]
    else
      OperandsSize(e);
      ReadingsAll(Operands(e), inScope)
  }

  ghost function ReadingsAll(es: seq<Expr>, inScope: Scope): seq<string>
    decreases SizeAll(es), 1
  {
    if es == [] then [] else Readings(es[0], inScope) + ReadingsAll(es[1..], inScope)
  }

  lemma {:induction false} ReadingsSnoc(es: seq<Expr>, e: Expr, inScope: Scope)
    ensures ReadingsAll(es + [e], inScope) == ReadingsAll(es, inScope) + Readings(e, inScope)
    decreases |es|
  {
    if es == [] {
      assert es + [e] == [e] && [e][1..] == [];
    } else {
      assert (es + [e])[1..] == es[1..] + [e];
      ReadingsSnoc(es[1..], e, inScope);
    }
  }

  lemma NextOperand(done: seq<Expr>, e: Expr, inScope: Scope, out: seq<string>, found: seq<string>)
    requires out == AddNew([], ReadingsAll(done, inScope)) && found == AddNew([], Readings(e, inScope))
    ensures AddNew(out, found) == AddNew([], ReadingsAll(done + [e], inScope))
  {
    ReadingsSnoc(done, e, inScope);
    AddNewNested(out, [], Readings(e, inScope));
    AddNewAppend([], ReadingsAll(done, inScope), Readings(e, inScope));
  }

  lemma {:induction false} ReadingsAre(e: Expr, inScope: Scope, v: string)
    ensures v in Readings(e, inScope) <==> Reads(e, v) && !inScope(v)
    decreases Size(e), 0
  {
    if !e.Var? {
      OperandsSize(e);
      ReadingsAllAre(Operands(e), inScope, v);
      if v in ReadingsAll(Operands(e), inScope) {
        var k :| 0 <= k < |Operands(e)| && Reads(Operands(e)[k], v);
        OperandSize(e, k);
      }
    }
  }

  lemma {:induction false} ReadingsAllAre(es: seq<Expr>, inScope: Scope, v: string)
    ensures v in ReadingsAll(es, inScope) <==> !inScope(v) && exists k :: 0 <= k < |es| && Reads(es[k], v)
    decreases SizeAll(es), 1
  {
    if es != [] {
      ReadingsAre(es[0], inScope, v);
      ReadingsAllAre(es[1..], inScope, v);
      assert forall k :: 0 <= k < |es[1..]| ==> es[1..][k] == es[k + 1];
    }
  }

  /** `unbound_variables`: exactly the out-of-scope variables the expression reads, each once, as first read. */
  method UnboundVariables(e: Expr, inScope: Scope) returns (out: seq<string>)
    ensures out == AddNew([], Readings(e, inScope))
    ensures Distinct(out)
    ensures forall v :: v in out <==> Reads(e, v) && !inScope(v)
    decreases Size(e), 1
  {
    AddNewMembers([], Readings(e, inScope));
    forall v ensures v in Readings(e, inScope) <==> Reads(e, v) && !inScope(v) { ReadingsAre(e, inScope, v); }
    if e.Var? {
      out := if inScope(e.name) then [] else [e.name];
    } else {
      out := FromOperands(e, inScope);
    }
  }

  method FromOperands(e: Expr, inScope: Scope) returns (out: seq<string>)
    requires !e.Var?
    ensures out == AddNew([], Readings(e, inScope))
    decreases Size(e), 0
  {
    out := [];
    var operands := Operands(e);
    for k := 0 to |operands|
      invariant out == AddNew([], ReadingsAll(operands[..k], inScope))
    {
      OperandSize(e, k);
      var found := UnboundVariables(operands[k], inScope);
      NextOperand(operands[..k], operands[k], inScope, out, found);
      assert operands[..k + 1] == operands[..k] + [operands[k]];
      out := AddNew(out, found);
    }
    assert operands[..|operands|] == operands;
  }

  /** A certain error reads some variable that is out of scope. */
  lemma {:induction false} CertainErrorNamesAVariable(e: Expr, inScope: Scope)
    requires CertainlyError(e, inScope)
    ensures exists v :: Reads(e, v) && !inScope(v)
    decreases Size(e)
  {
    if e.Var? {
      assert Reads(e, e.name);
    } else {
      var k := CertainOperand(e, inScope);
      OperandSize(e, k);
      CertainErrorNamesAVariable(Operands(e)[k], inScope);
      var v :| Reads(Operands(e)[k], v) && !inScope(v);
      assert Reads(e, v);
    }
  }

  lemma CertainOperand(e: Expr, inScope: Scope) returns (k: nat)
    requires CertainlyError(e, inScope) && !e.Var?
    ensures k < |Operands(e)| && CertainlyError(Operands(e)[k], inScope)
  {
    if e.If? {
      k := if CertainlyError(e.cond, inScope) then 0 else 1;
    } else if e.Strict? {
      var x :| x in e.args && CertainlyError(x, inScope);
      k :| 0 <= k < |e.args| && e.args[k] == x;
    } else {
      k := 0;
    }
  }

  // ---- and operator by operator ----

  /** An operand stood for by a variable that is out of scope, if it is certainly an error, or by a constant. */
  function Standing(x: Expr, inScope: Scope, missing: string): Expr {
    if CertainlyError(x, inScope) then Var(missing) else Const(0)
  }

  function AllStanding(es: seq<Expr>, inScope: Scope, missing: string): (r: seq<Expr>)
    ensures |r| == |es| && forall k :: 0 <= k < |es| ==> r[k] == Standing(es[k], inScope, missing)
  {
    if es == [] then [] else [Standing(es[0], inScope, missing)] + AllStanding(es[1..], inScope, missing)
  }

  /** The outermost operator alone, over what stands for its operands. */
  function Outermost(e: Expr, inScope: Scope, missing: string): Expr {
    match e
    case Var(_) => e
    case Const(_) => e
    case Tolerant(kind, _) => e
    case If(c, y, n) =>
      If(Standing(c, inScope, missing), Standing(y, inScope, missing), Standing(n, inScope, missing))
    case And(es) => And(AllStanding(es, inScope, missing))
    case Or(es) => Or(AllStanding(es, inScope, missing))
    case Coalesce(es) => Coalesce(AllStanding(es, inScope, missing))
    case In(x, es, negated) => In(Standing(x, inScope, missing), AllStanding(es, inScope, missing), negated)
    case Strict(op, es) => Strict(op, AllStanding(es, inScope, missing))
  }

  lemma StandingIs(es: seq<Expr>, inScope: Scope, missing: string, y: Expr) returns (x: Expr)
    requires !inScope(missing) && y in AllStanding(es, inScope, missing)
    ensures x in es && y == Standing(x, inScope, missing)
    ensures Leaf(y) && (CertainlyError(y, inScope) <==> CertainlyError(x, inScope))
  {
    var r := AllStanding(es, inScope, missing);
    var k :| 0 <= k < |r| && r[k] == y;
    x := es[k];
  }

  lemma StoodFor(es: seq<Expr>, inScope: Scope, missing: string, x: Expr)
    requires !inScope(missing) && x in es
    ensures Standing(x, inScope, missing) in AllStanding(es, inScope, missing)
    ensures CertainlyError(Standing(x, inScope, missing), inScope) <==> CertainlyError(x, inScope)
  {
    var k :| 0 <= k < |es| && es[k] == x;
    assert AllStanding(es, inScope, missing)[k] == Standing(x, inScope, missing);
  }

  lemma AllLeaves(es: seq<Expr>, inScope: Scope, missing: string)
    requires !inScope(missing)
    ensures forall y :: y in AllStanding(es, inScope, missing) ==> Leaf(y)
  {
    forall y | y in AllStanding(es, inScope, missing) ensures Leaf(y) { var x := StandingIs(es, inScope, missing, y); }
  }

  lemma AllErr(es: seq<Expr>, inScope: Scope, missing: string)
    requires !inScope(missing)
    ensures (forall y :: y in AllStanding(es, inScope, missing) ==> CertainlyError(y, inScope))
            <==> (forall x :: x in es ==> CertainlyError(x, inScope))
  {
    forall x | x in es && !CertainlyError(x, inScope)
      ensures exists y :: y in AllStanding(es, inScope, missing) && !CertainlyError(y, inScope)
    {
      StoodFor(es, inScope, missing, x);
    }
    forall y | y in AllStanding(es, inScope, missing) && !CertainlyError(y, inScope)
      ensures exists x :: x in es && !CertainlyError(x, inScope)
    {
      var x := StandingIs(es, inScope, missing, y);
    }
  }

  lemma SomeErr(es: seq<Expr>, inScope: Scope, missing: string)
    requires !inScope(missing)
    ensures (exists y :: y in AllStanding(es, inScope, missing) && CertainlyError(y, inScope))
            <==> (exists x :: x in es && CertainlyError(x, inScope))
  {
    forall x | x in es && CertainlyError(x, inScope)
      ensures exists y :: y in AllStanding(es, inScope, missing) && CertainlyError(y, inScope)
    {
      StoodFor(es, inScope, missing, x);
    }
    forall y | y in AllStanding(es, inScope, missing) && CertainlyError(y, inScope)
      ensures exists x :: x in es && CertainlyError(x, inScope)
    {
      var x := StandingIs(es, inScope, missing, y);
    }
  }

  lemma OutermostIsFlat(e: Expr, inScope: Scope, missing: string)
    requires !inScope(missing)
    ensures Flat(Outermost(e, inScope, missing))
  {
    match e {
      case And(es) => AllLeaves(es, inScope, missing);
      case Or(es) => AllLeaves(es, inScope, missing);
      case Coalesce(es) => AllLeaves(es, inScope, missing);
      case In(x, es, _) => AllLeaves(es, inScope, missing);
      case Strict(_, es) => AllLeaves(es, inScope, missing);
      case _ =>
    }
  }

  predicate AllFail(es: seq<Expr>, inScope: Scope) {
    forall x :: x in es ==> CertainlyError(x, inScope)
  }

  /** Of a conjunction, a disjunction or a COALESCE only whether all operands fail counts. */
  lemma ListFails(es: seq<Expr>, inScope: Scope)
    ensures CertainlyError(And(es), inScope) <==> es != [] && AllFail(es, inScope)
    ensures CertainlyError(Or(es), inScope) <==> es != [] && AllFail(es, inScope)
    ensures CertainlyError(Coalesce(es), inScope) <==> es != [] && AllFail(es, inScope)
  {}

  lemma StrictErrs(op: string, es: seq<Expr>, inScope: Scope, missing: string)
    requires !inScope(missing)
    ensures CertainlyError(Strict(op, AllStanding(es, inScope, missing)), inScope)
            <==> CertainlyError(Strict(op, es), inScope)
  {
    SomeErr(es, inScope, missing);
  }

  lemma OperandsErr(es: seq<Expr>, inScope: Scope, missing: string)
    requires !inScope(missing)
    ensures var r := AllStanding(es, inScope, missing);
            && (CertainlyError(And(r), inScope) <==> CertainlyError(And(es), inScope))
            && (CertainlyError(Or(r), inScope) <==> CertainlyError(Or(es), inScope))
            && (CertainlyError(Coalesce(r), inScope) <==> CertainlyError(Coalesce(es), inScope))
  {
    var r := AllStanding(es, inScope, missing);
    ListFails(es, inScope);
    ListFails(r, inScope);
    assert AllFail(r, inScope) <==> AllFail(es, inScope) by { AllErr(es, inScope, missing); }
  }

  lemma OutermostErrs(e: Expr, inScope: Scope, missing: string)
    requires !inScope(missing)
    ensures CertainlyError(e, inScope) <==> CertainlyError(Outermost(e, inScope, missing), inScope)
  {
    match e {
      case And(es) => OperandsErr(es, inScope, missing);
      case Or(es) => OperandsErr(es, inScope, missing);
      case Coalesce(es) => OperandsErr(es, inScope, missing);
      case Strict(op, es) => StrictErrs(op, es, inScope, missing);
      case _ =>
    }
  }

  /**
   The analysis goes by the operators: an expression is certainly an error exactly if its outermost
   operator is one with its operands in error where they certainly are; of that operator it is exact.
   */
  lemma CertainByOperators(e: Expr, inScope: Scope, missing: string)
    requires !inScope(missing)
    ensures var outermost := Outermost(e, inScope, missing);
            AlwaysError(outermost, inScope) <==> CertainlyError(e, inScope) || Unreported(outermost, inScope)
  {
    OutermostIsFlat(e, inScope, missing);
    OutermostErrs(e, inScope, missing);
    CertainExactly(Outermost(e, inScope, missing), inScope);
  }
}
