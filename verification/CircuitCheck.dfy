/** The check that every exposed value of a circuit is derived, bound, redundant or declared
    free. */
module CircuitCheck {
  import opened Options
  import opened CircuitSyntax

  // ----- derived and determined expressions -----

  predicate IsDerived(c: Circuit, derived: set<string>, e: Expr)
    decreases e, 1
  {
    match e
    case Lit(_) => true
    case Name(x) => x in derived || x in c.constants || x in c.witnesses
    case Call(op, args) => op in c.opcodes && AllDerived(c, derived, args)
  }

  predicate AllDerived(c: Circuit, derived: set<string>, es: seq<Expr>)
    decreases es, 0
  {
    es == [] || (IsDerived(c, derived, es[0]) && AllDerived(c, derived, es[1..]))
  }

  /** Determined as a whole: a bare witness is not. */
  predicate IsDetermined(c: Circuit, derived: set<string>, e: Expr) {
    if e.Name? then e.id in derived || e.id in c.constants else IsDerived(c, derived, e)
  }

  // ----- the walk over the statements -----

  datatype Kind = Derived | Bound | Constant | Unknown | Inline | Redundant | DeclaredFree

  datatype Finding =
    | BadArity(stmt: Stmt) | UnknownName(name: string) | NotDetermined(e: Expr) | FreeWitness(name: string)

  datatype State = State(
    derived: set<string>, bound: Assignments, assign: Assignments, pins: seq<Expr>, pending: seq<string>,
    findings: seq<Finding>, instances: seq<(Expr, Kind)>)

  const START := State({}, map[], map[], [], [], [], [])

  function BindTo(bound: Assignments, e: Expr, to: Expr, determined: bool): Assignments {
    if determined && e.Name? && e.id !in bound then bound[e.id := to] else bound
  }

  function Equate(c: Circuit, s: State, a: Expr, b: Expr): State {
    var first := BindTo(s.bound, b, a, IsDetermined(c, s.derived, a));
    s.(bound := BindTo(first, a, b, IsDetermined(c, s.derived, b)))
  }

  /** The expression that pins an exposed one, when something does. */
  function PinOf(c: Circuit, s: State, e: Expr): Option<Expr> {
    if !e.Name? then (if IsDetermined(c, s.derived, e) then Some(e) else None)
    else if e.id in s.derived then Some(Resolve(if e.id in s.assign then s.assign[e.id] else e, s.assign))
    else if e.id in s.bound then Some(Resolve(s.bound[e.id], s.assign))
    else None
  }

  function KindOf(s: State, e: Expr): Kind {
    if !e.Name? then Inline else if e.id in s.derived then Derived else Bound
  }

  function Expose(c: Circuit, s: State, e: Expr): State {
    match PinOf(c, s, e)
    case Some(pin) => s.(pins := s.pins + [pin], instances := s.instances + [(e, KindOf(s, e))])
    case None =>
      if !e.Name? then s.(findings := s.findings + [NotDetermined(e)])
      else if e.id in c.constants then s.(instances := s.instances + [(e, Constant)])
      else if e.id in c.witnesses then s.(pending := s.pending + [e.id])
      else s.(instances := s.instances + [(e, Unknown)], findings := s.findings + [UnknownName(e.id)])
  }

  function Next(c: Circuit, s: State, stmt: Stmt): State {
    match stmt
    case Assign(x, e) =>
      if Ignored(x) then s
      else s.(assign := s.assign[x := e],
              derived := if IsDetermined(c, s.derived, e) then s.derived + {x} else s.derived)
    case CallStmt(op, args) =>
      if IsEquality(op) then (if |args| == 2 then Equate(c, s, args[0], args[1]) else s)
      else if op == EXPOSE then
        (if |args| == 1 then Expose(c, s, args[0]) else s.(findings := s.findings + [BadArity(stmt)]))
      else s
    case Other => s
  }

  function Walk(c: Circuit, stmts: seq<Stmt>): State {
    if stmts == [] then START else Next(c, Walk(c, stmts[..|stmts| - 1]), stmts[|stmts| - 1])
  }

  // ----- settling the exposed witnesses -----

  ghost function FirstPin(assign: Assignments, pins: seq<Expr>, x: string): Option<Expr> {
    if pins == [] then None
    else if Reachable(assign, pins[0], x) then Some(pins[0])
    else FirstPin(assign, pins[1..], x)
  }

  datatype Report = Report(findings: seq<Finding>, instances: seq<(Expr, Kind)>, notes: seq<(string, Expr)>)

  ghost function SettleOne(c: Circuit, s: State, r: Report, x: string): Report {
    match FirstPin(s.assign, s.pins, x)
    case Some(pin) => r.(instances := r.instances + [(Name(x), Redundant)], notes := r.notes + [(x, pin)])
    case None =>
      if x in c.free then r.(instances := r.instances + [(Name(x), DeclaredFree)])
      else r.(findings := r.findings + [FreeWitness(x)])
  }

  ghost function Settle(c: Circuit, s: State, pending: seq<string>): Report {
    if pending == [] then Report(s.findings, s.instances, [])
    else SettleOne(c, s, Settle(c, s, pending[..|pending| - 1]), pending[|pending| - 1])
  }

  ghost function Outcome(c: Circuit, stmts: seq<Stmt>): Report {
    Settle(c, Walk(c, stmts), Walk(c, stmts).pending)
  }

  // ----- the imperative checker -----

  method Classify(c: Circuit, stmts: seq<Stmt>) returns (r: Report)
    ensures r == Outcome(c, stmts)
  {
    var s := START;
    for i := 0 to |stmts|
      invariant s == Walk(c, stmts[..i])
    {
      hide IsDetermined;
      assert stmts[..i + 1][..i] == stmts[..i];
      match stmts[i] {
        case Assign(x, e) =>
          if !Ignored(x) {
            var determined := IsDetermined(c, s.derived, e);
            s := s.(assign := s.assign[x := e]);
            if determined { s := s.(derived := s.derived + {x}); }
          }
        case CallStmt(op, args) =>
          if IsEquality(op) {
            if |args| == 2 {
              var a, b := args[0], args[1];
              var aDet := IsDetermined(c, s.derived, a);
              var bDet := IsDetermined(c, s.derived, b);
              if aDet && b.Name? && b.id !in s.bound { s := s.(bound := s.bound[b.id := a]); }
              if bDet && a.Name? && a.id !in s.bound { s := s.(bound := s.bound[a.id := b]); }
            }
          } else if op == EXPOSE {
            if |args| != 1 {
              s := s.(findings := s.findings + [BadArity(stmts[i])]);
            } else {
              s := ExposeArgument(c, s, args[0]);
            }
          }
        case Other =>
      }
    }
    assert stmts[..|stmts|] == stmts;
    r := SettlePending(c, s);
  }

  method ExposeArgument(c: Circuit, s: State, e: Expr) returns (t: State)
    ensures t == Expose(c, s, e)
  {
    t := s;
    if e.Name? {
      if e.id in s.derived {
        var pin := ResolveName(if e.id in s.assign then s.assign[e.id] else e, s.assign);
        t := s.(instances := s.instances + [(e, Derived)], pins := s.pins + [pin]);
      } else if e.id in s.bound {
        var pin := ResolveName(s.bound[e.id], s.assign);
        t := s.(instances := s.instances + [(e, Bound)], pins := s.pins + [pin]);
      } else if e.id in c.constants {
        t := s.(instances := s.instances + [(e, Constant)]);
      } else if e.id in c.witnesses {
        t := s.(pending := s.pending + [e.id]);
      } else {
        t := s.(instances := s.instances + [(e, Unknown)], findings := s.findings + [UnknownName(e.id)]);
      }
    } else if IsDetermined(c, s.derived, e) {
      t := s.(instances := s.instances + [(e, Inline)], pins := s.pins + [e]);
    } else {
      t := s.(findings := s.findings + [NotDetermined(e)]);
    }
  }

  method FindPin(assign: Assignments, pins: seq<Expr>, x: string) returns (pin: Option<Expr>)
    ensures pin == FirstPin(assign, pins, x)
  {
    hide Reachable;
    for i := 0 to |pins|
      invariant FirstPin(assign, pins[i..], x) == FirstPin(assign, pins, x)
    {
      assert pins[i..][1..] == pins[i + 1..];
      var support := Support(pins[i], assign);
      if x in support { return Some(pins[i]); }
    }
    return None;
  }

  method SettlePending(c: Circuit, s: State) returns (r: Report)
    ensures r == Settle(c, s, s.pending)
  {
    hide SettleOne;
    r := Report(s.findings, s.instances, []);
    for i := 0 to |s.pending|
      invariant r == Settle(c, s, s.pending[..i])
    {
      assert s.pending[..i + 1][..i] == s.pending[..i];
      r := SettleWitness(c, s, r, s.pending[i]);
    }
    assert s.pending[..|s.pending|] == s.pending;
  }

  method SettleWitness(c: Circuit, s: State, r: Report, x: string) returns (t: Report)
    ensures t == SettleOne(c, s, r, x)
  {
    hide FirstPin;
    var pin := FindPin(s.assign, s.pins, x);
    if pin.Some? {
      t := r.(instances := r.instances + [(Name(x), Redundant)], notes := r.notes + [(x, pin.value)]);
    } else if x in c.free {
      t := r.(instances := r.instances + [(Name(x), DeclaredFree)]);
    } else {
      t := r.(findings := r.findings + [FreeWitness(x)]);
    }
  }

  // ----- closed forms -----

  function Subst(g: Assignments, e: Expr): Expr
    decreases e, 1
  {
    match e
    case Lit(_) => e
    case Name(x) => if x in g then g[x] else e
    case Call(op, args) => Call(op, SubstAll(g, args))
  }

  function SubstAll(g: Assignments, es: seq<Expr>): seq<Expr>
    decreases es, 0
  {
    if es == [] then [] else [Subst(g, es[0])] + SubstAll(g, es[1..])
  }

  /** For every derived name, an expression over constants and witnesses alone. */
  function Ground(c: Circuit, stmts: seq<Stmt>): Assignments {
    if stmts == [] then map[]
    else
      var before, last := stmts[..|stmts| - 1], stmts[|stmts| - 1];
      var g := Ground(c, before);
      if last.Assign? && !Ignored(last.lhs) && IsDetermined(c, Walk(c, before).derived, last.rhs) then
        g[last.lhs := Subst(g, last.rhs)]
      else g
  }

  predicate GroundOk(c: Circuit, derived: set<string>, g: Assignments) {
    g.Keys == derived && forall x :: x in g ==> IsClosedForm(c, g[x])
  }

  lemma {:induction false} SubstDerived(c: Circuit, g: Assignments, derived: set<string>, e: Expr)
    requires GroundOk(c, derived, g) && IsDerived(c, derived, e)
    ensures Declared(c, Subst(g, e))
    decreases e, 1
  {
    match e
    case Lit(_) =>
    case Name(x) =>
    case Call(op, args) => SubstAllDerived(c, g, derived, args);
  }

  lemma {:induction false} SubstAllDerived(c: Circuit, g: Assignments, derived: set<string>, es: seq<Expr>)
    requires GroundOk(c, derived, g) && AllDerived(c, derived, es)
    ensures AllDeclared(c, SubstAll(g, es))
    decreases es, 0
  {
    if es != [] {
      SubstDerived(c, g, derived, es[0]);
      SubstAllDerived(c, g, derived, es[1..]);
      assert SubstAll(g, es)[1..] == SubstAll(g, es[1..]);
    }
  }

  lemma {:induction false} SubstDetermined(c: Circuit, g: Assignments, derived: set<string>, e: Expr)
    requires GroundOk(c, derived, g) && IsDetermined(c, derived, e)
    ensures IsClosedForm(c, Subst(g, e))
  {
    if !e.Name? { SubstDerived(c, g, derived, e); }
  }

  lemma {:induction false} GroundIsOk(c: Circuit, stmts: seq<Stmt>)
    ensures GroundOk(c, Walk(c, stmts).derived, Ground(c, stmts))
  {
    if stmts != [] {
      var before, last := stmts[..|stmts| - 1], stmts[|stmts| - 1];
      GroundIsOk(c, before);
      if last.Assign? && !Ignored(last.lhs) && IsDetermined(c, Walk(c, before).derived, last.rhs) {
        SubstDetermined(c, Ground(c, before), Walk(c, before).derived, last.rhs);
      }
      assert Walk(c, stmts).derived == Next(c, Walk(c, before), last).derived;
    }
  }

  // ----- values -----

  lemma {:induction false} SubstEval<V(!new)>(m: Model<V>, g: Assignments, e: Expr)
    requires AssignmentsHold(m, g)
    ensures Eval(m, Subst(g, e)) == Eval(m, e)
    decreases e, 1
  {
    match e
    case Lit(_) =>
    case Name(x) =>
    case Call(op, args) => SubstEvalAll(m, g, args);
  }

  lemma {:induction false} SubstEvalAll<V(!new)>(m: Model<V>, g: Assignments, es: seq<Expr>)
    requires AssignmentsHold(m, g)
    ensures EvalAll(m, SubstAll(g, es)) == EvalAll(m, es)
    decreases es, 0
  {
    if es != [] {
      SubstEval(m, g, es[0]);
      SubstEvalAll(m, g, es[1..]);
      assert SubstAll(g, es)[1..] == SubstAll(g, es[1..]);
    }
  }

  /** In a satisfying valuation every recorded assignment, binding and closed form holds. */
  ghost predicate Faithful<V(!new)>(m: Model<V>, c: Circuit, stmts: seq<Stmt>) {
    && AssignmentsHold(m, Walk(c, stmts).assign)
    && AssignmentsHold(m, Walk(c, stmts).bound)
    && AssignmentsHold(m, Ground(c, stmts))
  }

  lemma {:induction false} WalkFaithful<V(!new)>(m: Model<V>, c: Circuit, stmts: seq<Stmt>)
    requires Satisfies(m, stmts)
    ensures Faithful(m, c, stmts)
  {
    if stmts != [] {
      var before, last := stmts[..|stmts| - 1], stmts[|stmts| - 1];
      assert forall i :: 0 <= i < |before| ==> before[i] == stmts[i];
      WalkFaithful(m, c, before);
      assert Holds(m, last);
      if last.Assign? { SubstEval(m, Ground(c, before), last.rhs); }
      ExposeKeeps(c, Walk(c, before), last);
    }
  }

  lemma {:induction false} ExposeKeeps(c: Circuit, s: State, stmt: Stmt)
    ensures stmt.CallStmt? ==> Next(c, s, stmt).assign == s.assign && Next(c, s, stmt).derived == s.derived
    ensures stmt.CallStmt? && !IsEquality(stmt.op) ==> Next(c, s, stmt).bound == s.bound
  {
  }

  /** Everything bound was determined when it was bound, so it has a closed form. */
  ghost predicate BoundOk(c: Circuit, s: State) {
    forall x :: x in s.bound ==> IsDetermined(c, s.derived, s.bound[x])
  }

  lemma {:induction false} DerivedGrows(c: Circuit, small: set<string>, big: set<string>, e: Expr)
    requires small <= big && IsDerived(c, small, e)
    ensures IsDerived(c, big, e)
    decreases e, 1
  {
    if e.Call? { AllDerivedGrows(c, small, big, e.args); }
  }

  lemma {:induction false} AllDerivedGrows(c: Circuit, small: set<string>, big: set<string>, es: seq<Expr>)
    requires small <= big && AllDerived(c, small, es)
    ensures AllDerived(c, big, es)
    decreases es, 0
  {
    if es != [] {
      DerivedGrows(c, small, big, es[0]);
      AllDerivedGrows(c, small, big, es[1..]);
    }
  }

  lemma {:induction false} WalkBoundOk(c: Circuit, stmts: seq<Stmt>)
    ensures BoundOk(c, Walk(c, stmts))
  {
    if stmts != [] {
      var s, last := Walk(c, stmts[..|stmts| - 1]), stmts[|stmts| - 1];
      WalkBoundOk(c, stmts[..|stmts| - 1]);
      ExposeKeeps(c, s, last);
      var t := Next(c, s, last);
      assert s.derived <= t.derived;
      forall x | x in t.bound
        ensures IsDetermined(c, t.derived, t.bound[x])
      {
        var e := t.bound[x];
        assert IsDetermined(c, s.derived, e);
        if !e.Name? { DerivedGrows(c, s.derived, t.derived, e); }
      }
    }
  }

  // ----- soundness -----

  /** The closed form of an exposed expression, as far as the walk has one. */
  function FormOf(c: Circuit, stmts: seq<Stmt>, e: Expr): Expr {
    var s := Walk(c, stmts);
    Subst(Ground(c, stmts), if e.Name? && e.id !in s.derived && e.id in s.bound then s.bound[e.id] else e)
  }

  /** An exposed expression with a pin has a closed form over declared names; in every
      satisfying valuation the expression, its pin and its closed form are equal. */
  lemma {:induction false} PinnedSound<V(!new)>(m: Model<V>, c: Circuit, stmts: seq<Stmt>, e: Expr)
    requires Satisfies(m, stmts) && PinOf(c, Walk(c, stmts), e).Some?
    ensures IsClosedForm(c, FormOf(c, stmts, e))
    ensures Eval(m, e) == Eval(m, FormOf(c, stmts, e)) == Eval(m, PinOf(c, Walk(c, stmts), e).value)
  {
    hide Walk, Ground, Subst;
    var s, g := Walk(c, stmts), Ground(c, stmts);
    WalkFaithful(m, c, stmts);
    GroundIsOk(c, stmts);
    WalkBoundOk(c, stmts);
    var source := if e.Name? && e.id !in s.derived && e.id in s.bound then s.bound[e.id] else e;
    SubstDetermined(c, g, s.derived, source);
    SubstEval(m, g, source);
    if e.Name? {
      if e.id in s.derived {
        ResolveKeeps(m, if e.id in s.assign then s.assign[e.id] else e, s.assign, {}, RESOLVE_DEPTH);
      } else {
        ResolveKeeps(m, source, s.assign, {}, RESOLVE_DEPTH);
      }
    }
  }

  /** Statement `i` exposes one expression, pinned by `pin`. */
  predicate PinnedBy(c: Circuit, stmts: seq<Stmt>, i: nat, pin: Expr) {
    && i < |stmts| && stmts[i].CallStmt? && stmts[i].op == EXPOSE && |stmts[i].args| == 1
    && PinOf(c, Walk(c, stmts[..i]), stmts[i].args[0]) == Some(pin)
  }

  /** An exposed witness is reached from the pin of some exposed expression. */
  ghost predicate IsRedundant(c: Circuit, stmts: seq<Stmt>, x: string) {
    exists i, pin :: PinnedBy(c, stmts, i, pin) && Reachable(Walk(c, stmts).assign, pin, x)
  }

  /** The rule for statement `i`: an exposure has one argument, and that is pinned, a
      constant, or a witness that is redundant or declared free. */
  ghost predicate Obeys(c: Circuit, stmts: seq<Stmt>, i: nat)
    requires i < |stmts|
  {
    stmts[i].CallStmt? && stmts[i].op == EXPOSE ==>
      && |stmts[i].args| == 1
      && var e := stmts[i].args[0];
         || PinOf(c, Walk(c, stmts[..i]), e).Some?
         || (e.Name? && e.id in c.constants)
         || (e.Name? && e.id in c.witnesses && (IsRedundant(c, stmts, e.id) || e.id in c.free))
  }

  /** Statement `i` exposes a witness nothing pins so far. */
  predicate IsPending(c: Circuit, stmts: seq<Stmt>, i: nat, x: string) {
    && i < |stmts| && stmts[i].CallStmt? && stmts[i].op == EXPOSE && stmts[i].args == [Name(x)]
    && PinOf(c, Walk(c, stmts[..i]), Name(x)).None? && x !in c.constants && x in c.witnesses
  }

  /** What the walk alone accepts at statement `i`. */
  predicate WalksThrough(c: Circuit, stmts: seq<Stmt>, i: nat)
    requires i < |stmts|
  {
    stmts[i].CallStmt? && stmts[i].op == EXPOSE ==>
      && |stmts[i].args| == 1
      && var e := stmts[i].args[0];
         PinOf(c, Walk(c, stmts[..i]), e).Some? || (e.Name? && (e.id in c.constants || e.id in c.witnesses))
  }

  lemma {:induction false} WalkPins(c: Circuit, stmts: seq<Stmt>, pin: Expr)
    ensures pin in Walk(c, stmts).pins <==> exists i :: PinnedBy(c, stmts, i, pin)
  {
    if stmts != [] {
      var n := |stmts| - 1;
      var before := stmts[..n];
      WalkPins(c, before, pin);
      forall i: nat | i < n
        ensures PinnedBy(c, before, i, pin) <==> PinnedBy(c, stmts, i, pin)
      {
        assert before[..i] == stmts[..i];
      }
      assert Walk(c, stmts).pins ==
             Walk(c, before).pins + (if PinnedBy(c, stmts, n, pin) then [pin] else LastPin(c, stmts));
    }
  }

  /** The pin the last statement adds, if any. */
  function LastPin(c: Circuit, stmts: seq<Stmt>): seq<Expr>
    requires stmts != []
  {
    var n := |stmts| - 1;
    if stmts[n].CallStmt? && stmts[n].op == EXPOSE && |stmts[n].args| == 1 then
      var p := PinOf(c, Walk(c, stmts[..n]), stmts[n].args[0]);
      if p.Some? then [p.value] else []
    else []
  }

  lemma {:induction false} WalkPending(c: Circuit, stmts: seq<Stmt>, x: string)
    ensures x in Walk(c, stmts).pending <==> exists i :: IsPending(c, stmts, i, x)
  {
    if stmts != [] {
      var n := |stmts| - 1;
      var before, last := stmts[..n], stmts[n];
      WalkPending(c, before, x);
      forall i: nat | i < n
        ensures IsPending(c, before, i, x) <==> IsPending(c, stmts, i, x)
      {
        assert before[..i] == stmts[..i];
      }
      var s, t := Walk(c, before), Walk(c, stmts);
      assert x in t.pending <==> x in s.pending || IsPending(c, stmts, n, x) by {
        if last.CallStmt? && last.op == EXPOSE && |last.args| == 1 && last.args[0].Name? {
          assert last.args == [Name(last.args[0].id)];
        }
      }
    }
  }

  lemma {:induction false} WalkFindings(c: Circuit, stmts: seq<Stmt>)
    ensures Walk(c, stmts).findings == [] <==> forall i :: 0 <= i < |stmts| ==> WalksThrough(c, stmts, i)
  {
    if stmts != [] {
      var n := |stmts| - 1;
      var before := stmts[..n];
      WalkFindings(c, before);
      forall i: nat | i < n
        ensures WalksThrough(c, before, i) <==> WalksThrough(c, stmts, i)
      {
        assert before[..i] == stmts[..i];
      }
      assert Walk(c, stmts).findings == [] <==> Walk(c, before).findings == [] && WalksThrough(c, stmts, n);
    }
  }

  lemma {:induction false} FirstPinFinds(assign: Assignments, pins: seq<Expr>, x: string)
    ensures FirstPin(assign, pins, x).Some? <==> exists p :: p in pins && Reachable(assign, p, x)
    ensures FirstPin(assign, pins, x).Some? ==>
              FirstPin(assign, pins, x).value in pins && Reachable(assign, FirstPin(assign, pins, x).value, x)
  {
    hide Reachable;
    if pins != [] { FirstPinFinds(assign, pins[1..], x); }
  }

  /** Some pin collected so far reaches `x`. */
  ghost predicate IsReached(s: State, x: string) {
    exists p :: p in s.pins && Reachable(s.assign, p, x)
  }

  lemma {:induction false} SettleFindings(c: Circuit, s: State, pending: seq<string>)
    ensures Settle(c, s, pending).findings == [] <==>
            s.findings == [] &&
            forall x :: x in pending ==> x in c.free || IsReached(s, x)
  {
    hide Reachable, FirstPin;
    if pending != [] {
      var before, x := pending[..|pending| - 1], pending[|pending| - 1];
      SettleFindings(c, s, before);
      FirstPinFinds(s.assign, s.pins, x);
      assert forall y :: y in pending <==> y in before || y == x;
    }
  }

  /** The checker reports nothing exactly when every exposure obeys the rule. */
  lemma {:induction false} NoFindingsIff(c: Circuit, stmts: seq<Stmt>)
    ensures Outcome(c, stmts).findings == [] <==> forall i :: 0 <= i < |stmts| ==> Obeys(c, stmts, i)
  {
    hide Walk, PinOf, Reachable, Settle;
    var s := Walk(c, stmts);
    WalkFindings(c, stmts);
    SettleFindings(c, s, s.pending);
    forall x
      ensures IsReached(s, x) <==> IsRedundant(c, stmts, x)
      ensures x in s.pending <==> exists i :: IsPending(c, stmts, i, x)
    {
      RedundantPins(c, stmts, x);
      WalkPending(c, stmts, x);
    }
    if Outcome(c, stmts).findings == [] {
      forall i | 0 <= i < |stmts|
        ensures Obeys(c, stmts, i)
      {
        assert WalksThrough(c, stmts, i);
        PendingObeys(c, stmts, i);
      }
    }
    if forall i :: 0 <= i < |stmts| ==> Obeys(c, stmts, i) {
      forall i | 0 <= i < |stmts|
        ensures WalksThrough(c, stmts, i)
      {
        assert Obeys(c, stmts, i);
      }
      forall x | x in s.pending
        ensures x in c.free || IsRedundant(c, stmts, x)
      {
        var i :| IsPending(c, stmts, i, x);
        assert Obeys(c, stmts, i);
      }
    }
  }

  lemma {:induction false} RedundantPins(c: Circuit, stmts: seq<Stmt>, x: string)
    ensures IsReached(Walk(c, stmts), x) <==> IsRedundant(c, stmts, x)
  {
    hide Walk, Reachable, PinnedBy;
    var s := Walk(c, stmts);
    if IsReached(s, x) {
      var p :| p in s.pins && Reachable(s.assign, p, x);
      WalkPins(c, stmts, p);
      var i :| PinnedBy(c, stmts, i, p);
    }
    if IsRedundant(c, stmts, x) {
      var i, p :| PinnedBy(c, stmts, i, p) && Reachable(s.assign, p, x);
      WalkPins(c, stmts, p);
    }
  }

  lemma {:induction false} PendingObeys(c: Circuit, stmts: seq<Stmt>, i: nat)
    requires i < |stmts| && WalksThrough(c, stmts, i)
    requires forall x :: IsPending(c, stmts, i, x) ==> x in c.free || IsRedundant(c, stmts, x)
    ensures Obeys(c, stmts, i)
  {
    hide Walk, PinOf, IsRedundant;
    if stmts[i].CallStmt? && stmts[i].op == EXPOSE && stmts[i].args[0].Name? {
      var x := stmts[i].args[0].id;
      assert stmts[i].args == [Name(x)];
      assert IsPending(c, stmts, i, x) || PinOf(c, Walk(c, stmts[..i]), Name(x)).Some? || x in c.constants;
    }
  }

  /** Soundness: when nothing is reported, in every valuation that satisfies the circuit each
      exposed value is a declared constant, equals a closed form over declared names, or is a
      witness declared free or reached from the pin of an exposed expression that equals one. */
  lemma {:induction false} CheckerSound<V(!new)>(m: Model<V>, c: Circuit, stmts: seq<Stmt>, i: nat)
    requires Outcome(c, stmts).findings == [] && Satisfies(m, stmts)
    requires i < |stmts| && stmts[i].CallStmt? && stmts[i].op == EXPOSE
    ensures |stmts[i].args| == 1
    ensures var e := stmts[i].args[0];
            || (IsClosedForm(c, FormOf(c, stmts[..i], e)) && Eval(m, e) == Eval(m, FormOf(c, stmts[..i], e)))
            || (e.Name? && e.id in c.constants)
            || (e.Name? && e.id in c.witnesses && e.id in c.free)
            || (e.Name? && e.id in c.witnesses && exists j: nat, pin ::
                  && PinnedBy(c, stmts, j, pin) && Reachable(Walk(c, stmts).assign, pin, e.id)
                  && IsClosedForm(c, FormOf(c, stmts[..j], stmts[j].args[0]))
                  && Eval(m, pin) == Eval(m, stmts[j].args[0]) == Eval(m, FormOf(c, stmts[..j], stmts[j].args[0])))
  {
    hide Walk, Reachable, PinOf, FormOf, Outcome, IsClosedForm;
    NoFindingsIff(c, stmts);
    assert Obeys(c, stmts, i);
    var e := stmts[i].args[0];
    if PinOf(c, Walk(c, stmts[..i]), e).Some? {
      PrefixSatisfies(m, stmts, i);
      PinnedSound(m, c, stmts[..i], e);
    } else if e.Name? && e.id in c.witnesses && e.id !in c.constants && e.id !in c.free {
      var j: nat, pin :| PinnedBy(c, stmts, j, pin) && Reachable(Walk(c, stmts).assign, pin, e.id);
      PrefixSatisfies(m, stmts, j);
      PinnedSound(m, c, stmts[..j], stmts[j].args[0]);
    }
  }

  // ----- no freedom beyond the declared names -----

  /** Same opcodes and literals, same values of the declared names. */
  ghost predicate SameInputs<V(!new)>(c: Circuit, m: Model<V>, n: Model<V>) {
    m.op == n.op && m.lit == n.lit && forall x :: x in c.constants || x in c.witnesses ==> m.val(x) == n.val(x)
  }

  lemma {:induction false} ClosedAgree<V(!new)>(c: Circuit, m: Model<V>, n: Model<V>, e: Expr)
    requires SameInputs(c, m, n) && Declared(c, e)
    ensures Eval(m, e) == Eval(n, e)
    decreases e, 1
  {
    if e.Call? { ClosedAllAgree(c, m, n, e.args); }
  }

  lemma {:induction false} ClosedAllAgree<V(!new)>(c: Circuit, m: Model<V>, n: Model<V>, es: seq<Expr>)
    requires SameInputs(c, m, n) && AllDeclared(c, es)
    ensures EvalAll(m, es) == EvalAll(n, es)
    decreases es, 0
  {
    if es != [] {
      ClosedAgree(c, m, n, es[0]);
      ClosedAllAgree(c, m, n, es[1..]);
    }
  }

  /** When nothing is reported, the declared names fix the public inputs: two satisfying
      valuations that agree on constants and witnesses agree on every exposed value. */
  lemma {:induction false} NoFreedom<V(!new)>(m: Model<V>, n: Model<V>, c: Circuit, stmts: seq<Stmt>, i: nat)
    requires Outcome(c, stmts).findings == [] && Satisfies(m, stmts) && Satisfies(n, stmts) && SameInputs(c, m, n)
    requires i < |stmts| && stmts[i].CallStmt? && stmts[i].op == EXPOSE
    ensures |stmts[i].args| == 1 && Eval(m, stmts[i].args[0]) == Eval(n, stmts[i].args[0])
  {
    hide Walk, PinOf, FormOf, Outcome, IsRedundant;
    NoFindingsIff(c, stmts);
    assert Obeys(c, stmts, i);
    var e := stmts[i].args[0];
    if PinOf(c, Walk(c, stmts[..i]), e).Some? {
      PrefixSatisfies(m, stmts, i);
      PrefixSatisfies(n, stmts, i);
      PinnedSound(m, c, stmts[..i], e);
      PinnedSound(n, c, stmts[..i], e);
      ClosedAgree(c, m, n, FormOf(c, stmts[..i], e));
    }
  }

  lemma {:induction false} PrefixSatisfies<V(!new)>(m: Model<V>, stmts: seq<Stmt>, i: nat)
    requires Satisfies(m, stmts) && i <= |stmts|
    ensures Satisfies(m, stmts[..i])
  {
    assert forall k :: 0 <= k < i ==> stmts[..i][k] == stmts[k];
  }
}
