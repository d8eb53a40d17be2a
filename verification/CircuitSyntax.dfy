/** Parsed circuits: expressions, statements, what they mean, and what a name rests on. */
module CircuitSyntax {

  datatype Expr = Lit(value: nat) | Name(id: string) | Call(op: string, args: seq<Expr>)

  datatype Stmt = Assign(lhs: string, rhs: Expr) | CallStmt(op: string, args: seq<Expr>) | Other

  /** Declared names, the opcode vocabulary, and the witnesses declared free. */
  datatype Circuit = Circuit(
    constants: set<string>, witnesses: set<string>, opcodes: set<string>, free: set<string>)

  type Assignments = map<string, Expr>

  predicate IsEquality(op: string) {
    op == "constrain_equal_base" || op == "constrain_equal_point"
  }

  const EXPOSE := "constrain_instance"

  /** Text that starts like a constraint is never read as an assignment. */
  predicate Ignored(lhs: string) {
    "constrain" <= lhs || "range_check" <= lhs
  }

  // ----- meaning -----

  /** Opcodes, literals and names get any meaning in any set of values. */
  datatype Model<!V> = Model(op: (string, seq<V>) -> V, lit: nat -> V, val: string -> V)

  function Eval<V>(m: Model<V>, e: Expr): V
    decreases e, 1
  {
    match e
    case Lit(n) => m.lit(n)
    case Name(x) => m.val(x)
    case Call(op, args) => m.op(op, EvalAll(m, args))
  }

  function EvalAll<V>(m: Model<V>, es: seq<Expr>): seq<V>
    decreases es, 0
  {
    if es == [] then [] else [Eval(m, es[0])] + EvalAll(m, es[1..])
  }

  /** What a statement demands of a valuation; text that is never read as an assignment
      demands nothing. */
  predicate Holds<V(==)>(m: Model<V>, s: Stmt) {
    match s
    case Assign(x, e) => Ignored(x) || m.val(x) == Eval(m, e)
    case CallStmt(op, args) => IsEquality(op) && |args| == 2 ==> Eval(m, args[0]) == Eval(m, args[1])
    case Other => true
  }

  predicate Satisfies<V(==)>(m: Model<V>, stmts: seq<Stmt>) {
    forall i :: 0 <= i < |stmts| ==> Holds(m, stmts[i])
  }

  // ----- closed forms -----

  /** Every leaf is a literal or a declared name, every call a known opcode. */
  predicate Declared(c: Circuit, e: Expr)
    decreases e, 1
  {
    match e
    case Lit(_) => true
    case Name(x) => x in c.constants || x in c.witnesses
    case Call(op, args) => op in c.opcodes && AllDeclared(c, args)
  }

  predicate AllDeclared(c: Circuit, es: seq<Expr>)
    decreases es, 0
  {
    es == [] || (Declared(c, es[0]) && AllDeclared(c, es[1..]))
  }

  /** A literal, a declared constant, or an opcode expression over declared names; a lone
      witness is none of these. */
  predicate IsClosedForm(c: Circuit, e: Expr) {
    match e
    case Lit(_) => true
    case Name(x) => x in c.constants
    case Call(_, _) => Declared(c, e)
  }

  // ----- identifiers and reachability -----

  function Idents(e: Expr): set<string>
    decreases e, 1
  {
    match e
    case Lit(_) => {}
    case Name(x) => {x}
    case Call(op, args) => {op} + IdentsAll(args)
  }

  function IdentsAll(es: seq<Expr>): set<string>
    decreases es, 0
  {
    if es == [] then {} else Idents(es[0]) + IdentsAll(es[1..])
  }

  /** One hop: `x` is mentioned by what `y` is assigned. */
  predicate Mentions(assign: Assignments, y: string, x: string) {
    y in assign && x in Idents(assign[y])
  }

  ghost predicate IsTrail(assign: Assignments, e: Expr, trail: seq<string>) {
    && trail != [] && trail[0] in Idents(e)
    && forall i :: 0 < i < |trail| ==> Mentions(assign, trail[i - 1], trail[i])
  }

  /** `x` is reached from `e` by following assignments. */
  ghost predicate Reachable(assign: Assignments, e: Expr, x: string) {
    exists trail :: IsTrail(assign, e, trail) && trail[|trail| - 1] == x
  }

  lemma {:induction false} ReachFirst(assign: Assignments, e: Expr, x: string)
    requires x in Idents(e)
    ensures Reachable(assign, e, x)
  {
    assert IsTrail(assign, e, [x]);
  }

  lemma {:induction false} ReachNext(assign: Assignments, e: Expr, y: string, x: string)
    requires Reachable(assign, e, y) && Mentions(assign, y, x)
    ensures Reachable(assign, e, x)
  {
    var trail :| IsTrail(assign, e, trail) && trail[|trail| - 1] == y;
    var longer := trail + [x];
    forall i | 0 < i < |longer|
      ensures Mentions(assign, longer[i - 1], longer[i])
    {
      if i < |trail| { assert Mentions(assign, trail[i - 1], trail[i]); }
    }
    assert IsTrail(assign, e, longer);
  }

  /** A set that holds the identifiers of `e` and is closed under hops holds every trail. */
  lemma {:induction false} ClosedTrail(assign: Assignments, e: Expr, seen: set<string>, trail: seq<string>, k: nat)
    requires Idents(e) <= seen && Closed(assign, seen)
    requires IsTrail(assign, e, trail) && k < |trail|
    ensures trail[k] in seen
  {
    if k > 0 {
      ClosedTrail(assign, e, seen, trail, k - 1);
      assert Mentions(assign, trail[k - 1], trail[k]);
    }
  }

  predicate Closed(assign: Assignments, seen: set<string>) {
    forall y :: y in seen && y in assign ==> Idents(assign[y]) <= seen
  }

  lemma {:induction false} ClosedReach(assign: Assignments, e: Expr, seen: set<string>, x: string)
    requires Idents(e) <= seen && Closed(assign, seen) && Reachable(assign, e, x)
    ensures x in seen
  {
    var trail :| IsTrail(assign, e, trail) && trail[|trail| - 1] == x;
    ClosedTrail(assign, e, seen, trail, |trail| - 1);
  }

  /** Everything any expression of the map, or `e`, mentions. */
  function Universe(assign: Assignments, e: Expr): set<string> {
    Idents(e) + (set y, x | y in assign && x in Idents(assign[y]) :: x)
  }

  predicate Origin(assign: Assignments, e: Expr, seen: set<string>, b: Expr) {
    b == e || exists y :: y in seen && y in assign && b == assign[y]
  }

  /** Every expression on the stack is `e` or the assignment of a name seen from `e`. */
  predicate FromSeen(assign: Assignments, e: Expr, seen: set<string>, stack: seq<Expr>) {
    forall b :: b in stack ==> Origin(assign, e, seen, b)
  }

  /** Identifiers still owed: those of the stacked expressions. */
  predicate Covered(assign: Assignments, e: Expr, seen: set<string>, stack: seq<Expr>) {
    && (Idents(e) <= seen || e in stack)
    && forall y :: y in seen && y in assign ==> Idents(assign[y]) <= seen || assign[y] in stack
  }

  /** The worklist closure: exactly the identifiers reachable from `expr`. */
  method Support(expr: Expr, assign: Assignments) returns (seen: set<string>)
    ensures forall x :: x in seen <==> Reachable(assign, expr, x)
  {
    hide Reachable, FromSeen, Covered, Universe;
    seen := {};
    var stack := [expr];
    StartCovered(assign, expr);
    ghost var all := Universe(assign, expr);
    while stack != []
      invariant seen <= all
      invariant forall x :: x in seen ==> Reachable(assign, expr, x)
      invariant FromSeen(assign, expr, seen, stack)
      invariant Covered(assign, expr, seen, stack)
      decreases |all - seen|, |stack|
    {
      var top := stack[|stack| - 1];
      ghost var oldSeen := seen;
      assert stack[..|stack| - 1] + [top] == stack;
      seen, stack := Visit(assign, expr, top, seen, stack[..|stack| - 1]);
      if seen != oldSeen { SmallerSet(all, oldSeen, seen); }
    }
    CoveredDone(assign, expr, seen);
    forall x | Reachable(assign, expr, x)
      ensures x in seen
    {
      ClosedReach(assign, expr, seen, x);
    }
  }

  lemma {:induction false} StartCovered(assign: Assignments, e: Expr)
    ensures FromSeen(assign, e, {}, [e]) && Covered(assign, e, {}, [e])
  {
  }

  lemma {:induction false} CoveredDone(assign: Assignments, e: Expr, seen: set<string>)
    requires Covered(assign, e, seen, [])
    ensures Idents(e) <= seen && Closed(assign, seen)
  {
  }

  lemma {:induction false} SmallerSet(all: set<string>, a: set<string>, b: set<string>)
    requires a < b <= all
    ensures |all - b| < |all - a|
  {
    var gain := b - a;
    assert all - a == (all - b) + gain;
    assert gain != {};
  }

  /** One pass over the identifiers of a popped expression. */
  method Visit(assign: Assignments, ghost expr: Expr, top: Expr, before: set<string>, rest: seq<Expr>)
    returns (seen: set<string>, stack: seq<Expr>)
    requires before <= Universe(assign, expr)
    requires forall x :: x in before ==> Reachable(assign, expr, x)
    requires FromSeen(assign, expr, before, rest + [top]) && Covered(assign, expr, before, rest + [top])
    ensures before <= seen <= Universe(assign, expr)
    ensures forall x :: x in seen ==> Reachable(assign, expr, x)
    ensures FromSeen(assign, expr, seen, stack) && Covered(assign, expr, seen, stack)
    ensures seen == before ==> stack == rest
  {
    hide Reachable, Covered, Universe;
    seen, stack := before, rest;
    var todo := Idents(top);
    assert top in rest + [top];
    forall x | x in todo
      ensures x in Universe(assign, expr) && Reachable(assign, expr, x)
    {
      StackReach(assign, expr, before, top, x);
    }
    assert forall b :: b in rest ==> b in rest + [top];
    while todo != {}
      invariant todo <= Idents(top)
      invariant before <= seen <= Universe(assign, expr)
      invariant Idents(top) - todo <= seen
      invariant forall x :: x in seen ==> Reachable(assign, expr, x)
      invariant FromSeen(assign, expr, seen, stack)
      invariant Covered(assign, expr, seen, stack + [top])
      invariant seen == before ==> stack == rest
      decreases |todo|
    {
      hide FromSeen;
      var x :| x in todo;
      if x !in seen {
        ghost var oldSeen, oldStack := seen, stack;
        seen := seen + {x};
        if x in assign { stack := stack + [assign[x]]; }
        VisitKeeps(assign, expr, oldSeen, oldStack, top, x, stack);
      }
      todo := todo - {x};
    }
    VisitDone(assign, expr, seen, stack, top);
  }

  lemma {:induction false} StackReach(assign: Assignments, e: Expr, seen: set<string>, top: Expr, x: string)
    requires Origin(assign, e, seen, top) && x in Idents(top)
    requires forall y :: y in seen ==> Reachable(assign, e, y)
    ensures x in Universe(assign, e) && Reachable(assign, e, x)
  {
    if top == e {
      ReachFirst(assign, e, x);
    } else {
      var y :| y in seen && y in assign && top == assign[y];
      ReachNext(assign, e, y, x);
    }
  }

  lemma {:induction false} VisitDone(assign: Assignments, e: Expr, seen: set<string>, stack: seq<Expr>, top: Expr)
    requires Covered(assign, e, seen, stack + [top]) && Idents(top) <= seen
    ensures Covered(assign, e, seen, stack)
  {
    assert forall b :: b in stack + [top] ==> b in stack || b == top;
  }

  lemma {:induction false} VisitKeeps(
    assign: Assignments, e: Expr, seen: set<string>, stack: seq<Expr>, top: Expr, x: string, pushed: seq<Expr>)
    requires FromSeen(assign, e, seen, stack) && Covered(assign, e, seen, stack + [top])
    requires pushed == if x in assign then stack + [assign[x]] else stack
    ensures FromSeen(assign, e, seen + {x}, pushed) && Covered(assign, e, seen + {x}, pushed + [top])
  {
    assert forall b :: b in stack + [top] ==> b in pushed + [top];
    if x in assign { assert assign[x] in pushed + [top]; }
  }

  // ----- following a name -----

  const RESOLVE_DEPTH: nat := 16

  function ResolveFrom(e: Expr, assign: Assignments, seen: set<string>, depth: nat): Expr
    decreases depth
  {
    if depth == 0 || !e.Name? || e.id !in assign || e.id in seen then e
    else ResolveFrom(assign[e.id], assign, seen + {e.id}, depth - 1)
  }

  function Resolve(e: Expr, assign: Assignments): Expr {
    ResolveFrom(e, assign, {}, RESOLVE_DEPTH)
  }

  method ResolveName(expr: Expr, assign: Assignments) returns (e: Expr)
    ensures e == Resolve(expr, assign)
  {
    e := expr;
    var seen: set<string> := {};
    for i := 0 to RESOLVE_DEPTH
      invariant ResolveFrom(e, assign, seen, RESOLVE_DEPTH - i) == Resolve(expr, assign)
    {
      if !e.Name? || e.id !in assign || e.id in seen { return; }
      seen := seen + {e.id};
      e := assign[e.id];
    }
  }

  ghost predicate AssignmentsHold<V(!new)>(m: Model<V>, assign: Assignments) {
    forall x :: x in assign ==> m.val(x) == Eval(m, assign[x])
  }

  /** Following a name changes neither its value nor lets anything new be reached. */
  lemma {:induction false} ResolveKeeps<V(!new)>(
    m: Model<V>, e: Expr, assign: Assignments, seen: set<string>, depth: nat)
    requires AssignmentsHold(m, assign)
    ensures Eval(m, ResolveFrom(e, assign, seen, depth)) == Eval(m, e)
    decreases depth
  {
    if depth > 0 && e.Name? && e.id in assign && e.id !in seen {
      ResolveKeeps(m, assign[e.id], assign, seen + {e.id}, depth - 1);
    }
  }

  lemma {:induction false} ResolveReach(e: Expr, assign: Assignments, seen: set<string>, depth: nat, x: string)
    requires Reachable(assign, ResolveFrom(e, assign, seen, depth), x)
    ensures Reachable(assign, e, x)
    decreases depth
  {
    if depth > 0 && e.Name? && e.id in assign && e.id !in seen {
      ResolveReach(assign[e.id], assign, seen + {e.id}, depth - 1, x);
      var trail :| IsTrail(assign, assign[e.id], trail) && trail[|trail| - 1] == x;
      var longer := [e.id] + trail;
      forall i | 0 < i < |longer|
        ensures Mentions(assign, longer[i - 1], longer[i])
      {
        if i > 1 { assert Mentions(assign, trail[i - 2], trail[i - 1]); }
      }
      assert IsTrail(assign, e, longer);
    }
  }
}
