/** The circuit check without its walk: which names a prefix of the circuit determines, what is
    bound to what, how each exposure is classified and what is reported. */
module CircuitLaws {
  import opened Options
  import opened CircuitSyntax
  import opened CircuitCheck

  // ----- what a prefix determines -----

  /** One of the first `n` statements assigns `x` something determined by the statements before
      it. */
  ghost predicate DerivedBy(c: Circuit, stmts: seq<Stmt>, n: nat, x: string)
    requires n <= |stmts|
    decreases n, 0
  {
    exists j: nat ::
      j < n && stmts[j].Assign? && stmts[j].lhs == x && IsRead(x) && Determined(c, stmts, j, stmts[j].rhs)
  }

  /** The left side does not look like a constraint or a range check. */
  predicate IsRead(x: string) {
    !("constrain" <= x) && !("range_check" <= x)
  }

  /** As a whole: a literal, a constant, a name derived so far, or an opcode expression. */
  ghost predicate Determined(c: Circuit, stmts: seq<Stmt>, n: nat, e: Expr)
    requires n <= |stmts|
    decreases n, 2, e, 1
  {
    match e
    case Lit(_) => true
    case Name(x) => x in c.constants || DerivedBy(c, stmts, n, x)
    case Call(op, args) => op in c.opcodes && AllHeld(c, stmts, n, args)
  }

  /** Every leaf is a literal, a declared name or a name derived so far. */
  ghost predicate AllHeld(c: Circuit, stmts: seq<Stmt>, n: nat, es: seq<Expr>)
    requires n <= |stmts|
    decreases n, 1, es, 0
  {
    es == [] || (HeldExpr(c, stmts, n, es[0]) && AllHeld(c, stmts, n, es[1..]))
  }

  ghost predicate HeldExpr(c: Circuit, stmts: seq<Stmt>, n: nat, e: Expr)
    requires n <= |stmts|
    decreases n, 1, e, 1
  {
    match e
    case Lit(_) => true
    case Name(x) => x in c.constants || x in c.witnesses || DerivedBy(c, stmts, n, x)
    case Call(op, args) => op in c.opcodes && AllHeld(c, stmts, n, args)
  }

  lemma {:induction false} HeldMeans(c: Circuit, stmts: seq<Stmt>, n: nat, derived: set<string>, e: Expr)
    requires n <= |stmts| && forall x :: x in derived <==> DerivedBy(c, stmts, n, x)
    ensures IsDerived(c, derived, e) <==> HeldExpr(c, stmts, n, e)
    decreases e, 1
  {
    if e.Call? { AllHeldMeans(c, stmts, n, derived, e.args); }
  }

  lemma {:induction false} AllHeldMeans(c: Circuit, stmts: seq<Stmt>, n: nat, derived: set<string>, es: seq<Expr>)
    requires n <= |stmts| && forall x :: x in derived <==> DerivedBy(c, stmts, n, x)
    ensures AllDerived(c, derived, es) <==> AllHeld(c, stmts, n, es)
    decreases es, 0
  {
    if es != [] {
      HeldMeans(c, stmts, n, derived, es[0]);
      AllHeldMeans(c, stmts, n, derived, es[1..]);
    }
  }

  lemma {:induction false} DeterminedMeans(c: Circuit, stmts: seq<Stmt>, n: nat, derived: set<string>, e: Expr)
    requires n <= |stmts| && forall x :: x in derived <==> DerivedBy(c, stmts, n, x)
    ensures IsDetermined(c, derived, e) <==> Determined(c, stmts, n, e)
  {
    if e.Call? { AllHeldMeans(c, stmts, n, derived, e.args); }
  }

  lemma {:induction false} PrefixNext(c: Circuit, stmts: seq<Stmt>, n: nat)
    requires n < |stmts|
    ensures Walk(c, stmts[..n + 1]) == Next(c, Walk(c, stmts[..n]), stmts[n])
  {
    assert stmts[..n + 1][..n] == stmts[..n];
  }

  /** The walk collects exactly the derived names, and its test of an expression is whether the
      prefix determines it. */
  lemma {:induction false} WalkDerives(c: Circuit, stmts: seq<Stmt>, n: nat)
    requires n <= |stmts|
    ensures forall x :: x in Walk(c, stmts[..n]).derived <==> DerivedBy(c, stmts, n, x)
    ensures forall e :: IsDetermined(c, Walk(c, stmts[..n]).derived, e) <==> Determined(c, stmts, n, e)
  {
    if n > 0 {
      WalkDerives(c, stmts, n - 1);
      PrefixNext(c, stmts, n - 1);
      NextDerives(c, stmts, n - 1);
    }
    hide Walk;
    forall e
      ensures IsDetermined(c, Walk(c, stmts[..n]).derived, e) <==> Determined(c, stmts, n, e)
    {
      DeterminedMeans(c, stmts, n, Walk(c, stmts[..n]).derived, e);
    }
  }

  lemma {:induction false} NextDerives(c: Circuit, stmts: seq<Stmt>, n: nat)
    requires n < |stmts|
    requires forall x :: x in Walk(c, stmts[..n]).derived <==> DerivedBy(c, stmts, n, x)
    requires forall e :: IsDetermined(c, Walk(c, stmts[..n]).derived, e) <==> Determined(c, stmts, n, e)
    ensures forall x :: x in Next(c, Walk(c, stmts[..n]), stmts[n]).derived <==> DerivedBy(c, stmts, n + 1, x)
  {
    hide Walk, IsDetermined, Determined;
    var before := Walk(c, stmts[..n]);
    forall x
      ensures x in Next(c, before, stmts[n]).derived <==> DerivedBy(c, stmts, n + 1, x)
    {
      DerivedNext(c, stmts, n, x);
      ExposeKeeps(c, before, stmts[n]);
    }
  }

  lemma {:induction false} DerivedNext(c: Circuit, stmts: seq<Stmt>, n: nat, x: string)
    requires n < |stmts|
    ensures DerivedBy(c, stmts, n + 1, x) <==>
            || DerivedBy(c, stmts, n, x)
            || (stmts[n].Assign? && stmts[n].lhs == x && IsRead(x) && Determined(c, stmts, n, stmts[n].rhs))
  {
    hide Determined;
  }

  // ----- what is bound, and to what -----

  predicate IsEquation(s: Stmt) {
    s.CallStmt? && (s.op == "constrain_equal_base" || s.op == "constrain_equal_point") && |s.args| == 2
  }

  /** Statement `j` equates the name `x` with a determined expression, read left to right. */
  ghost predicate Equates(c: Circuit, stmts: seq<Stmt>, j: nat, x: string, e: Expr)
    requires j < |stmts|
  {
    && IsEquation(stmts[j])
    && var a, b := stmts[j].args[0], stmts[j].args[1];
       if b == Name(x) && Determined(c, stmts, j, a) then e == a
       else a == Name(x) && Determined(c, stmts, j, b) && e == b
  }

  /** The first of the first `n` statements to equate `x` with something determined equates it
      with `e`. */
  ghost predicate BoundTo(c: Circuit, stmts: seq<Stmt>, n: nat, x: string, e: Expr)
    requires n <= |stmts|
  {
    exists j: nat :: j < n && Equates(c, stmts, j, x, e) && NotEquated(c, stmts, j, x)
  }

  ghost predicate NotEquated(c: Circuit, stmts: seq<Stmt>, n: nat, x: string)
    requires n <= |stmts|
  {
    forall j: nat :: j < n ==> !EquatesSome(c, stmts, j, x)
  }

  ghost predicate EquatesSome(c: Circuit, stmts: seq<Stmt>, j: nat, x: string)
    requires j < |stmts|
  {
    exists e :: Equates(c, stmts, j, x, e)
  }

  predicate IsBound(bound: Assignments, x: string, e: Expr) {
    x in bound && bound[x] == e
  }

  lemma {:induction false} BoundNext(c: Circuit, stmts: seq<Stmt>, n: nat, x: string, e: Expr)
    requires n < |stmts|
    ensures BoundTo(c, stmts, n + 1, x, e) <==>
            BoundTo(c, stmts, n, x, e) || (Equates(c, stmts, n, x, e) && NotEquated(c, stmts, n, x))
  {
    hide Equates, NotEquated;
  }

  lemma {:induction false} EquatedNext(c: Circuit, stmts: seq<Stmt>, n: nat, x: string)
    requires n < |stmts|
    ensures NotEquated(c, stmts, n + 1, x) <==> NotEquated(c, stmts, n, x) && !EquatesSome(c, stmts, n, x)
  {
    hide EquatesSome;
  }

  /** The walk binds exactly the names equated with something determined, to the first such
      expression. */
  lemma {:induction false} WalkBinds(c: Circuit, stmts: seq<Stmt>, n: nat, x: string)
    requires n <= |stmts|
    ensures x !in Walk(c, stmts[..n]).bound <==> NotEquated(c, stmts, n, x)
    ensures forall e :: IsBound(Walk(c, stmts[..n]).bound, x, e) <==> BoundTo(c, stmts, n, x, e)
  {
    if n > 0 {
      WalkBinds(c, stmts, n - 1, x);
      WalkDerives(c, stmts, n - 1);
      PrefixNext(c, stmts, n - 1);
      NextBinds(c, stmts, n - 1, x);
    }
  }

  lemma {:induction false} NextBinds(c: Circuit, stmts: seq<Stmt>, n: nat, x: string)
    requires n < |stmts|
    requires forall e :: IsDetermined(c, Walk(c, stmts[..n]).derived, e) <==> Determined(c, stmts, n, e)
    requires x !in Walk(c, stmts[..n]).bound <==> NotEquated(c, stmts, n, x)
    requires forall e :: IsBound(Walk(c, stmts[..n]).bound, x, e) <==> BoundTo(c, stmts, n, x, e)
    ensures x !in Next(c, Walk(c, stmts[..n]), stmts[n]).bound <==> NotEquated(c, stmts, n + 1, x)
    ensures forall e :: IsBound(Next(c, Walk(c, stmts[..n]), stmts[n]).bound, x, e) <==> BoundTo(c, stmts, n + 1, x, e)
  {
    hide Walk, IsDetermined, Determined, NotEquated, BoundTo, Equates, EquatesSome, Next;
    var before, after := Walk(c, stmts[..n]).bound, Next(c, Walk(c, stmts[..n]), stmts[n]).bound;
    EquateBinds(c, stmts, n, x);
    EquatedNext(c, stmts, n, x);
    forall e
      ensures IsBound(after, x, e) <==> BoundTo(c, stmts, n + 1, x, e)
    {
      BoundNext(c, stmts, n, x, e);
      assert IsBound(before, x, e) <==> BoundTo(c, stmts, n, x, e);
      assert x !in before ==> (IsBound(after, x, e) <==> Equates(c, stmts, n, x, e));
    }
  }

  /** One statement's effect on the binding of `x`. */
  lemma {:induction false} EquateBinds(c: Circuit, stmts: seq<Stmt>, n: nat, x: string)
    requires n < |stmts|
    requires forall e :: IsDetermined(c, Walk(c, stmts[..n]).derived, e) <==> Determined(c, stmts, n, e)
    ensures var before := Walk(c, stmts[..n]).bound;
            var after := Next(c, Walk(c, stmts[..n]), stmts[n]).bound;
            && (x in before ==> x in after && after[x] == before[x])
            && (x !in before ==> (x in after <==> EquatesSome(c, stmts, n, x)))
            && (x !in before ==> forall e :: IsBound(after, x, e) <==> Equates(c, stmts, n, x, e))
  {
    hide Walk, IsDetermined, Determined;
    var s, before := stmts[n], Walk(c, stmts[..n]);
    if !IsEquation(s) {
      ExposeKeeps(c, before, s);
    } else {
      var a, b := s.args[0], s.args[1];
      if x !in before.bound && b == Name(x) && Determined(c, stmts, n, a) {
        assert Equates(c, stmts, n, x, a);
      } else if x !in before.bound && a == Name(x) && Determined(c, stmts, n, b) {
        assert Equates(c, stmts, n, x, b);
      }
    }
  }

  // ----- what a name is assigned -----

  /** The last of the first `n` statements to assign `x` assigns it `e`. */
  ghost predicate LastAssigned(stmts: seq<Stmt>, n: nat, x: string, e: Expr)
    requires n <= |stmts|
  {
    exists j: nat :: j < n && stmts[j] == Assign(x, e) && IsRead(x) && NotAssigned(stmts, j + 1, n, x)
  }

  ghost predicate NotAssigned(stmts: seq<Stmt>, low: nat, n: nat, x: string)
    requires n <= |stmts|
  {
    forall j: nat :: low <= j < n ==> !(stmts[j].Assign? && stmts[j].lhs == x && IsRead(x))
  }

  lemma {:induction false} WalkAssigns(c: Circuit, stmts: seq<Stmt>, n: nat, x: string, e: Expr)
    requires n <= |stmts|
    ensures IsBound(Walk(c, stmts[..n]).assign, x, e) <==> LastAssigned(stmts, n, x, e)
  {
    if n > 0 {
      WalkAssigns(c, stmts, n - 1, x, e);
      PrefixNext(c, stmts, n - 1);
      ExposeKeeps(c, Walk(c, stmts[..n - 1]), stmts[n - 1]);
      AssignedNext(stmts, n - 1, x, e);
      hide Walk, LastAssigned, IsDetermined;
    }
  }

  lemma {:induction false} AssignedNext(stmts: seq<Stmt>, n: nat, x: string, e: Expr)
    requires n < |stmts|
    ensures LastAssigned(stmts, n + 1, x, e) <==>
            if stmts[n].Assign? && stmts[n].lhs == x && IsRead(x) then stmts[n].rhs == e
            else LastAssigned(stmts, n, x, e)
  {
    if stmts[n].Assign? && stmts[n].lhs == x && IsRead(x) {
      if stmts[n].rhs == e { assert stmts[n] == Assign(x, e) && NotAssigned(stmts, n + 1, n + 1, x); }
    } else if LastAssigned(stmts, n, x, e) {
      var j: nat :| j < n && stmts[j] == Assign(x, e) && IsRead(x) && NotAssigned(stmts, j + 1, n, x);
      assert NotAssigned(stmts, j + 1, n + 1, x);
    } else if LastAssigned(stmts, n + 1, x, e) {
      var j: nat :| j < n + 1 && stmts[j] == Assign(x, e) && IsRead(x) && NotAssigned(stmts, j + 1, n + 1, x);
      assert NotAssigned(stmts, j + 1, n, x);
    }
  }

  // ----- how an exposure is classified -----

  predicate IsExposure(s: Stmt) {
    s.CallStmt? && s.op == "constrain_instance"
  }

  /** The statements before `i` determine `e`, or equate the name `e` with something determined. */
  ghost predicate IsPinned(c: Circuit, stmts: seq<Stmt>, i: nat, e: Expr)
    requires i <= |stmts|
  {
    if e.Name? then DerivedBy(c, stmts, i, e.id) || !NotEquated(c, stmts, i, e.id) else Determined(c, stmts, i, e)
  }

  lemma {:induction false} PinnedMeans(c: Circuit, stmts: seq<Stmt>, i: nat, e: Expr)
    requires i <= |stmts|
    ensures PinOf(c, Walk(c, stmts[..i]), e).Some? <==> IsPinned(c, stmts, i, e)
  {
    hide Walk, Resolve, Determined, DerivedBy, NotEquated, IsDetermined;
    WalkDerives(c, stmts, i);
    if e.Name? { WalkBinds(c, stmts, i, e.id); }
  }

  /** One exposure with one argument: its class, and whether it is reported at once or held
      back, by what the statements before it say about the argument. */
  lemma {:induction false} ExposureMeans(c: Circuit, stmts: seq<Stmt>, i: nat)
    requires i < |stmts| && IsExposure(stmts[i]) && |stmts[i].args| == 1
    ensures var before, after := Walk(c, stmts[..i]), Walk(c, stmts[..i + 1]);
            var e := stmts[i].args[0];
            if !e.Name? then
              if Determined(c, stmts, i, e) then
                after == before.(pins := before.pins + [e], instances := before.instances + [(e, Inline)])
              else after == before.(findings := before.findings + [NotDetermined(e)])
            else if DerivedBy(c, stmts, i, e.id) then
              && after.instances == before.instances + [(e, Derived)] && |after.pins| == |before.pins| + 1
              && after.findings == before.findings && after.pending == before.pending
            else if !NotEquated(c, stmts, i, e.id) then
              && after.instances == before.instances + [(e, Bound)] && |after.pins| == |before.pins| + 1
              && after.findings == before.findings && after.pending == before.pending
            else if e.id in c.constants then after == before.(instances := before.instances + [(e, Constant)])
            else if e.id in c.witnesses then after == before.(pending := before.pending + [e.id])
            else after == before.(instances := before.instances + [(e, Unknown)],
                                  findings := before.findings + [UnknownName(e.id)])
  {
    hide Walk, Resolve, Determined, DerivedBy, NotEquated, IsDetermined;
    var e := stmts[i].args[0];
    WalkDerives(c, stmts, i);
    if e.Name? { WalkBinds(c, stmts, i, e.id); }
    PrefixNext(c, stmts, i);
  }

  /** Any other statement leaves classes, pins, held-back names and findings alone; an exposure
      without exactly one argument is reported. */
  lemma {:induction false} OtherStatements(c: Circuit, stmts: seq<Stmt>, i: nat)
    requires i < |stmts|
    ensures var before, after := Walk(c, stmts[..i]), Walk(c, stmts[..i + 1]);
            && (!IsExposure(stmts[i]) ==>
                  && after.instances == before.instances && after.pins == before.pins
                  && after.pending == before.pending && after.findings == before.findings)
            && (IsExposure(stmts[i]) && |stmts[i].args| != 1 ==>
                  after == before.(findings := before.findings + [BadArity(stmts[i])]))
  {
    hide Walk, IsDetermined;
    PrefixNext(c, stmts, i);
  }

  /** What pins an exposed name: what it was last assigned or first bound to, followed through
      the assignments made so far. */
  lemma {:induction false} PinMeans(c: Circuit, stmts: seq<Stmt>, i: nat, x: string, source: Expr)
    requires i <= |stmts|
    requires if DerivedBy(c, stmts, i, x) then LastAssigned(stmts, i, x, source) else BoundTo(c, stmts, i, x, source)
    ensures PinOf(c, Walk(c, stmts[..i]), Name(x)) == Some(Resolve(source, Walk(c, stmts[..i]).assign))
  {
    hide Walk, Resolve, Determined, DerivedBy, BoundTo, LastAssigned, IsDetermined;
    WalkDerives(c, stmts, i);
    WalkBinds(c, stmts, i, x);
    WalkAssigns(c, stmts, i, x, source);
    assert !DerivedBy(c, stmts, i, x) ==> IsBound(Walk(c, stmts[..i]).bound, x, source);
  }

  // ----- following a name -----

  /** `k` hops along the assignments. */
  function Hops(e: Expr, assign: Assignments, k: nat): Expr {
    if k == 0 then e
    else
      var d := Hops(e, assign, k - 1);
      if d.Name? && d.id in assign then assign[d.id] else d
  }

  /** The name reached after `k` hops has an assignment and was not reached before. */
  ghost predicate Fresh(e: Expr, assign: Assignments, k: nat) {
    var d := Hops(e, assign, k);
    d.Name? && d.id in assign && forall i: nat :: i < k ==> Hops(e, assign, i) != d
  }

  lemma {:induction false} HopFirst(e: Expr, assign: Assignments, k: nat)
    requires e.Name? && e.id in assign
    ensures Hops(assign[e.id], assign, k) == Hops(e, assign, k + 1)
  {
    if k > 0 { HopFirst(e, assign, k - 1); }
  }

  /** Following makes as many hops as reach new assigned names, sixteen at most. */
  lemma {:induction false} ResolveExactly(e: Expr, assign: Assignments)
    ensures exists k: nat ::
              && k <= 16 && Resolve(e, assign) == Hops(e, assign, k)
              && (forall i: nat :: i < k ==> Fresh(e, assign, i))
              && (k == 16 || !Fresh(e, assign, k))
  {
    var k := ResolveHops(e, assign, {}, 0, e);
    assert Resolve(e, assign) == Hops(e, assign, k);
  }

  ghost predicate Visited(e: Expr, assign: Assignments, n: nat, x: string) {
    exists i: nat :: i < n && Hops(e, assign, i) == Name(x)
  }

  lemma {:induction false} VisitedNext(e: Expr, assign: Assignments, n: nat, x: string)
    ensures Visited(e, assign, n + 1, x) <==> Visited(e, assign, n, x) || Hops(e, assign, n) == Name(x)
  {
    hide Hops;
  }

  lemma {:induction false} FreshMeans(e: Expr, assign: Assignments, n: nat)
    ensures var d := Hops(e, assign, n);
            Fresh(e, assign, n) <==> d.Name? && d.id in assign && !Visited(e, assign, n, d.id)
  {
    hide Hops;
    var d := Hops(e, assign, n);
    if d.Name? { assert d == Name(d.id); }
  }

  /** From the state after `n` hops. */
  lemma {:induction false} ResolveHops(e: Expr, assign: Assignments, seen: set<string>, n: nat, d: Expr)
    returns (k: nat)
    requires n <= 16 && d == Hops(e, assign, n)
    requires forall i: nat :: i < n ==> Fresh(e, assign, i)
    requires forall x :: x in seen <==> Visited(e, assign, n, x)
    ensures n <= k <= 16 && ResolveFrom(d, assign, seen, 16 - n) == Hops(e, assign, k)
    ensures forall i: nat :: i < k ==> Fresh(e, assign, i)
    ensures k == 16 || !Fresh(e, assign, k)
    decreases 16 - n
  {
    FreshMeans(e, assign, n);
    if n == 16 || !d.Name? || d.id !in assign || d.id in seen {
      k := n;
    } else {
      var next := assign[d.id];
      assert Hops(e, assign, n + 1) == next && ResolveFrom(d, assign, seen, 16 - n) ==
             ResolveFrom(next, assign, seen + {d.id}, 16 - (n + 1));
      hide Hops, ResolveFrom, Fresh, Visited;
      forall x
        ensures x in seen + {d.id} <==> Visited(e, assign, n + 1, x)
      {
        VisitedNext(e, assign, n, x);
      }
      k := ResolveHops(e, assign, seen + {d.id}, n + 1, next);
    }
  }

  // ----- the report -----

  /** A witness exposed by statement `i` and not pinned before it. */
  ghost predicate IsHeldBack(c: Circuit, stmts: seq<Stmt>, i: nat, x: string)
    requires i < |stmts|
  {
    && IsExposure(stmts[i]) && stmts[i].args == [Name(x)] && x in c.witnesses && x !in c.constants
    && !IsPinned(c, stmts, i, Name(x))
  }

  /** The rule for one exposure, in these terms. */
  ghost predicate InOrder(c: Circuit, stmts: seq<Stmt>, i: nat)
    requires i < |stmts|
  {
    IsExposure(stmts[i]) ==>
      && |stmts[i].args| == 1
      && var e := stmts[i].args[0];
         || IsPinned(c, stmts, i, e)
         || (e.Name? && e.id in c.constants)
         || (e.Name? && e.id in c.witnesses && (e.id in c.free || IsRedundant(c, stmts, e.id)))
  }

  /** Nothing is reported exactly when every exposure is in order. */
  lemma {:induction false} NoFindingsExactly(c: Circuit, stmts: seq<Stmt>)
    ensures Outcome(c, stmts).findings == [] <==> forall i: nat :: i < |stmts| ==> InOrder(c, stmts, i)
  {
    hide Outcome, Walk, PinOf, IsRedundant, IsPinned;
    NoFindingsIff(c, stmts);
    forall i: nat | i < |stmts|
      ensures Obeys(c, stmts, i) <==> InOrder(c, stmts, i)
    {
      if |stmts[..i]| == i && stmts[i].CallStmt? && |stmts[i].args| == 1 {
        PinnedMeans(c, stmts, i, stmts[i].args[0]);
      }
    }
  }

  /** What settling adds for one held-back name: redundant when some pin reaches it, else
      declared free when it is, else a finding; a note names the first pin that reaches it. */
  lemma {:induction false} SettleMembers(c: Circuit, s: CircuitCheck.State, pending: seq<string>, x: string)
    ensures var r := Settle(c, s, pending);
            && (FreeWitness(x) in r.findings <==>
                  FreeWitness(x) in s.findings || (x in pending && !IsReached(s, x) && x !in c.free))
            && ((Name(x), Redundant) in r.instances <==>
                  (Name(x), Redundant) in s.instances || (x in pending && IsReached(s, x)))
            && ((Name(x), DeclaredFree) in r.instances <==>
                  (Name(x), DeclaredFree) in s.instances || (x in pending && !IsReached(s, x) && x in c.free))
            && (forall p :: (x, p) in r.notes <==> x in pending && FirstPin(s.assign, s.pins, x) == Some(p))
  {
    hide Reachable, FirstPin, IsReached;
    if pending != [] {
      var before, last := pending[..|pending| - 1], pending[|pending| - 1];
      SettleMembers(c, s, before, x);
      assert x in pending <==> x in before || x == last;
      ReachedMeans(s, last);
    }
  }

  lemma {:induction false} ReachedMeans(s: CircuitCheck.State, x: string)
    ensures FirstPin(s.assign, s.pins, x).Some? <==> IsReached(s, x)
  {
    FirstPinFinds(s.assign, s.pins, x);
  }

  /** The first pin is the earliest of the list that reaches the name. */
  lemma {:induction false} FirstPinExactly(assign: Assignments, pins: seq<Expr>, x: string)
    ensures FirstPin(assign, pins, x).Some? ==>
              exists j :: 0 <= j < |pins| && pins[j] == FirstPin(assign, pins, x).value
                          && Reachable(assign, pins[j], x) && forall i :: 0 <= i < j ==> !Reachable(assign, pins[i], x)
  {
    hide Reachable;
    if pins != [] && !Reachable(assign, pins[0], x) {
      var rest := pins[1..];
      FirstPinExactly(assign, rest, x);
      if FirstPin(assign, rest, x).Some? {
        var j :| 0 <= j < |rest| && rest[j] == FirstPin(assign, rest, x).value
                 && Reachable(assign, rest[j], x) && forall i :: 0 <= i < j ==> !Reachable(assign, rest[i], x);
        assert pins[j + 1] == rest[j];
        assert forall i :: 1 <= i < j + 1 ==> pins[i] == rest[i - 1];
      }
    }
  }

  /** The walk itself never reports a free witness and never classes one as redundant or free. */
  lemma {:induction false} WalkKinds(c: Circuit, stmts: seq<Stmt>, x: string)
    ensures var s := Walk(c, stmts);
            && FreeWitness(x) !in s.findings
            && (Name(x), Redundant) !in s.instances && (Name(x), DeclaredFree) !in s.instances
  {
    hide IsDetermined, PinOf;
    if stmts != [] { WalkKinds(c, stmts[..|stmts| - 1], x); }
  }

  /** Some exposure holds `x` back. */
  ghost predicate HeldBack(c: Circuit, stmts: seq<Stmt>, x: string) {
    exists i: nat :: i < |stmts| && IsHeldBack(c, stmts, i, x)
  }

  lemma {:induction false} HeldBackMeans(c: Circuit, stmts: seq<Stmt>, x: string)
    ensures x in Walk(c, stmts).pending <==> HeldBack(c, stmts, x)
  {
    hide Walk, PinOf, IsPinned;
    WalkPending(c, stmts, x);
    forall i: nat | i < |stmts|
      ensures CircuitCheck.IsPending(c, stmts, i, x) <==> IsHeldBack(c, stmts, i, x)
    {
      PinnedMeans(c, stmts, i, Name(x));
    }
  }

  /** Every held-back witness ends in exactly one way: redundant when an exposed determination
      reaches it, else declared free, else reported by name; nothing else ends so. */
  lemma {:induction false} HeldBackEnds(c: Circuit, stmts: seq<Stmt>, x: string)
    ensures var r := Outcome(c, stmts);
            && ((Name(x), Redundant) in r.instances <==> HeldBack(c, stmts, x) && IsRedundant(c, stmts, x))
            && ((Name(x), DeclaredFree) in r.instances <==>
                  HeldBack(c, stmts, x) && !IsRedundant(c, stmts, x) && x in c.free)
            && (FreeWitness(x) in r.findings <==>
                  HeldBack(c, stmts, x) && !IsRedundant(c, stmts, x) && x !in c.free)
  {
    hide Walk, IsRedundant, HeldBack, Settle, IsReached;
    var s := Walk(c, stmts);
    WalkKinds(c, stmts, x);
    HeldBackMeans(c, stmts, x);
    RedundantPins(c, stmts, x);
    SettleMembers(c, s, s.pending, x);
  }

  /** An equality with a name that is neither a constant nor derived determines nothing. */
  lemma {:induction false} BareEqualitiesPinNothing(c: Circuit, stmts: seq<Stmt>, i: nat, x: string)
    requires i <= |stmts| && !DerivedBy(c, stmts, i, x)
    requires forall j: nat :: j < i && IsEquation(stmts[j]) && Name(x) in stmts[j].args ==>
               stmts[j].args[0].Name? && stmts[j].args[1].Name?
    requires forall j: nat, y ::
               j < i && IsEquation(stmts[j]) && Name(x) in stmts[j].args && Name(y) in stmts[j].args ==>
               y !in c.constants && !DerivedBy(c, stmts, j, y)
    ensures !IsPinned(c, stmts, i, Name(x))
  {
    forall j: nat | j < i
      ensures !EquatesSome(c, stmts, j, x)
    {
    }
  }

  const TWO_WITNESSES := Circuit({}, {"v", "w"}, {}, {})
  const RELAYED := [
    CallStmt("constrain_equal_base", [Name("w"), Name("v")]),
    CallStmt("constrain_instance", [Name("v")])]

  /** A witness exposed after being equated with another one is reported. */
  lemma {:induction false} RelayedWitnessReported()
    ensures FreeWitness("v") in Outcome(TWO_WITNESSES, RELAYED).findings
  {
    var c, stmts := TWO_WITNESSES, RELAYED;
    assert forall n: nat, x :: n <= 2 ==> !DerivedBy(c, stmts, n, x);
    BareEqualitiesPinNothing(c, stmts, 1, "v");
    assert IsHeldBack(c, stmts, 1, "v");
    forall i: nat, pin
      ensures !PinnedBy(c, stmts, i, pin)
    {
      if PinnedBy(c, stmts, i, pin) {
        PinnedMeans(c, stmts, 1, Name("v"));
      }
    }
    assert HeldBack(c, stmts, "v") && !IsRedundant(c, stmts, "v");
    HeldBackEnds(c, stmts, "v");
  }
}
