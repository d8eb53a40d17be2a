/** The check that compared operands rest on range-checked witnesses, and how far it depends on
    the order of the statements. */
module Comparisons {
  import opened CircuitSyntax

  predicate IsComparison(op: string) {
    op == "less_than_strict" || op == "less_than_or_equal" || op == "less_than_loose"
  }

  predicate Bounds(s: Stmt, x: string) {
    s.CallStmt? && s.op == "range_check" && |s.args| == 2 && s.args[0].Lit? && s.args[1] == Name(x)
  }

  /** Names a range check bounds directly. */
  function Ranged(stmts: seq<Stmt>): set<string> {
    if stmts == [] then {}
    else
      var before, s := Ranged(stmts[..|stmts| - 1]), stmts[|stmts| - 1];
      if s.CallStmt? && s.op == "range_check" && |s.args| == 2 && s.args[0].Lit? && s.args[1].Name? then
        before + {s.args[1].id}
      else before
  }

  /** The last assignment to each name. */
  function Assigned(stmts: seq<Stmt>): Assignments {
    if stmts == [] then map[]
    else
      var before, s := Assigned(stmts[..|stmts| - 1]), stmts[|stmts| - 1];
      if s.Assign? && !Ignored(s.lhs) then before[s.lhs := s.rhs] else before
  }

  // ----- the verdict -----

  /** A comparison as the exception file names it. */
  type Label = (string, Expr, Expr)

  datatype Finding = TooFewOperands(op: string) | Unbounded(tag: Label, operand: Expr, witnesses: set<string>)

  datatype Verdict = Verdict(findings: seq<Finding>, excused: seq<Label>)

  const CLEAR := Verdict([], [])

  function Join(a: Verdict, b: Verdict): Verdict {
    Verdict(a.findings + b.findings, a.excused + b.excused)
  }

  /** The witnesses under an operand that no range check of the circuit bounds. */
  ghost function Unchecked(c: Circuit, stmts: seq<Stmt>, operand: Expr): set<string> {
    set x | x in c.witnesses && x !in Ranged(stmts) && Reachable(Assigned(stmts), operand, x)
  }

  ghost function JudgeOperand(c: Circuit, stmts: seq<Stmt>, exceptions: set<Label>, tag: Label, operand: Expr)
    : Verdict
  {
    var unchecked := Unchecked(c, stmts, operand);
    if unchecked == {} then CLEAR
    else if tag in exceptions then Verdict([], [tag])
    else Verdict([Unbounded(tag, operand, unchecked)], [])
  }

  /** What one statement contributes, judged against the whole circuit. */
  ghost function Judge(c: Circuit, stmts: seq<Stmt>, exceptions: set<Label>, s: Stmt): Verdict {
    if !(s.CallStmt? && IsComparison(s.op)) then CLEAR
    else if |s.args| < 2 then Verdict([TooFewOperands(s.op)], [])
    else
      var tag := (s.op, s.args[0], s.args[1]);
      Join(JudgeOperand(c, stmts, exceptions, tag, s.args[0]), JudgeOperand(c, stmts, exceptions, tag, s.args[1]))
  }

  ghost function JudgeAll(c: Circuit, stmts: seq<Stmt>, exceptions: set<Label>, n: nat): Verdict
    requires n <= |stmts|
  {
    if n == 0 then CLEAR
    else Join(JudgeAll(c, stmts, exceptions, n - 1), Judge(c, stmts, exceptions, stmts[n - 1]))
  }

  // ----- the two passes -----

  method UncheckedLeaves(c: Circuit, assign: Assignments, ranged: set<string>, operand: Expr)
    returns (unchecked: set<string>)
    ensures unchecked == set x | x in c.witnesses && x !in ranged && Reachable(assign, operand, x)
  {
    hide Reachable;
    var support := Support(operand, assign);
    unchecked := set x | x in support && x in c.witnesses && x !in ranged;
  }

  /** First pass over the whole circuit: what is range-checked and what is assigned. */
  method Collect(stmts: seq<Stmt>) returns (ranged: set<string>, assign: Assignments)
    ensures ranged == Ranged(stmts) && assign == Assigned(stmts)
  {
    ranged, assign := {}, map[];
    for i := 0 to |stmts|
      invariant ranged == Ranged(stmts[..i]) && assign == Assigned(stmts[..i])
    {
      assert stmts[..i + 1][..i] == stmts[..i];
      match stmts[i] {
        case CallStmt(op, args) =>
          if op == "range_check" && |args| == 2 && args[0].Lit? && args[1].Name? {
            ranged := ranged + {args[1].id};
          }
        case Assign(x, e) =>
          if !Ignored(x) { assign := assign[x := e]; }
        case Other =>
      }
    }
    assert stmts[..|stmts|] == stmts;
  }

  method CheckOperand(c: Circuit, ghost stmts: seq<Stmt>, assign: Assignments, ranged: set<string>,
                      exceptions: set<Label>, tag: Label, operand: Expr)
    returns (v: Verdict)
    requires ranged == Ranged(stmts) && assign == Assigned(stmts)
    ensures v == JudgeOperand(c, stmts, exceptions, tag, operand)
  {
    hide Reachable, Ranged, Assigned;
    var unchecked := UncheckedLeaves(c, assign, ranged, operand);
    assert unchecked == Unchecked(c, stmts, operand);
    if unchecked == {} { return CLEAR; }
    if tag in exceptions { return Verdict([], [tag]); }
    return Verdict([Unbounded(tag, operand, unchecked)], []);
  }

  /** Second pass: every comparison, in order, against what the first pass collected. */
  method ComparisonFindings(c: Circuit, stmts: seq<Stmt>, exceptions: set<Label>) returns (v: Verdict)
    ensures v == JudgeAll(c, stmts, exceptions, |stmts|)
  {
    hide JudgeOperand;
    var ranged, assign := Collect(stmts);
    v := CLEAR;
    for i := 0 to |stmts|
      invariant v == JudgeAll(c, stmts, exceptions, i)
    {
      var s := stmts[i];
      if s.CallStmt? && IsComparison(s.op) {
        if |s.args| < 2 {
          v := Verdict(v.findings + [TooFewOperands(s.op)], v.excused);
          assert v.excused + [] == v.excused;
        } else {
          var tag := (s.op, s.args[0], s.args[1]);
          var left := CheckOperand(c, stmts, assign, ranged, exceptions, tag, s.args[0]);
          var right := CheckOperand(c, stmts, assign, ranged, exceptions, tag, s.args[1]);
          v := Join(v, Join(left, right));
        }
      } else {
        assert Join(v, CLEAR) == v;
      }
    }
  }

  // ----- what the verdict means -----

  /** The operand rests on no witness that is left unchecked. */
  ghost predicate Bounded(c: Circuit, stmts: seq<Stmt>, operand: Expr) {
    forall x :: x in c.witnesses && Reachable(Assigned(stmts), operand, x) ==> x in Ranged(stmts)
  }

  /** A comparison passes if it has two operands and is excused or both are bounded. */
  ghost predicate ComparisonOk(c: Circuit, stmts: seq<Stmt>, exceptions: set<Label>, s: Stmt) {
    s.CallStmt? && s.op in {"less_than_strict", "less_than_or_equal", "less_than_loose"} ==>
      && |s.args| >= 2
      && ((s.op, s.args[0], s.args[1]) in exceptions
          || (Bounded(c, stmts, s.args[0]) && Bounded(c, stmts, s.args[1])))
  }

  /** A comparison is excused when an exception names it and it needs one. */
  ghost predicate Excuses(c: Circuit, stmts: seq<Stmt>, exceptions: set<Label>, s: Stmt, tag: Label) {
    && s.CallStmt? && s.op in {"less_than_strict", "less_than_or_equal", "less_than_loose"} && |s.args| >= 2
    && tag == (s.op, s.args[0], s.args[1]) && tag in exceptions
    && !(Bounded(c, stmts, s.args[0]) && Bounded(c, stmts, s.args[1]))
  }

  lemma {:induction false} EmptyBounded(c: Circuit, stmts: seq<Stmt>, operand: Expr)
    ensures Unchecked(c, stmts, operand) == {} <==> Bounded(c, stmts, operand)
  {
    hide Reachable, Ranged, Assigned;
    if !Bounded(c, stmts, operand) {
      var x :| x in c.witnesses && Reachable(Assigned(stmts), operand, x) && x !in Ranged(stmts);
      assert x in Unchecked(c, stmts, operand);
    }
  }

  lemma {:induction false} JudgeMeans(c: Circuit, stmts: seq<Stmt>, exceptions: set<Label>, s: Stmt, tag: Label)
    ensures Judge(c, stmts, exceptions, s).findings == [] <==> ComparisonOk(c, stmts, exceptions, s)
    ensures tag in Judge(c, stmts, exceptions, s).excused <==> Excuses(c, stmts, exceptions, s, tag)
  {
    hide Bounded, Unchecked;
    if s.CallStmt? && |s.args| >= 2 {
      EmptyBounded(c, stmts, s.args[0]);
      EmptyBounded(c, stmts, s.args[1]);
    }
  }

  /** The finding that statement `s` deserves: too few operands, or one operand with exactly the
      witnesses under it that no range check bounds, unless an exception names the comparison. */
  ghost predicate Deserves(c: Circuit, stmts: seq<Stmt>, exceptions: set<Label>, s: Stmt, f: Finding) {
    && s.CallStmt? && s.op in {"less_than_strict", "less_than_or_equal", "less_than_loose"}
    && if |s.args| < 2 then f == TooFewOperands(s.op)
       else
         && f.Unbounded? && f.tag == (s.op, s.args[0], s.args[1]) && f.tag !in exceptions
         && (f.operand == s.args[0] || f.operand == s.args[1])
         && f.witnesses != {}
         && forall x :: x in f.witnesses <==>
              x in c.witnesses && x !in Ranged(stmts) && Reachable(Assigned(stmts), f.operand, x)
  }

  lemma {:induction false} JudgeFinds(c: Circuit, stmts: seq<Stmt>, exceptions: set<Label>, s: Stmt, f: Finding)
    ensures f in Judge(c, stmts, exceptions, s).findings <==> Deserves(c, stmts, exceptions, s, f)
  {
    hide Reachable, Ranged, Assigned;
    if Deserves(c, stmts, exceptions, s, f) && f.Unbounded? {
      assert f.witnesses == Unchecked(c, stmts, f.operand);
    }
  }

  /** Exactly the deserved findings of the first `n` statements are found. */
  lemma {:induction false} FindingsExactly(c: Circuit, stmts: seq<Stmt>, exceptions: set<Label>, n: nat, f: Finding)
    requires n <= |stmts|
    ensures f in JudgeAll(c, stmts, exceptions, n).findings <==>
            exists i :: 0 <= i < n && Deserves(c, stmts, exceptions, stmts[i], f)
  {
    hide Judge, Deserves;
    if n > 0 {
      FindingsExactly(c, stmts, exceptions, n - 1, f);
      JudgeFinds(c, stmts, exceptions, stmts[n - 1], f);
    }
  }

  /** Over the first `n` statements: nothing is found exactly when every comparison is in order
      with respect to the whole circuit, and exactly the comparisons that an exception names and
      that need it are listed as excused. */
  lemma {:induction false} VerdictMeans(c: Circuit, stmts: seq<Stmt>, exceptions: set<Label>, n: nat, tag: Label)
    requires n <= |stmts|
    ensures JudgeAll(c, stmts, exceptions, n).findings == [] <==>
            forall i :: 0 <= i < n ==> ComparisonOk(c, stmts, exceptions, stmts[i])
    ensures tag in JudgeAll(c, stmts, exceptions, n).excused <==>
            exists i :: 0 <= i < n && Excuses(c, stmts, exceptions, stmts[i], tag)
  {
    hide Judge, ComparisonOk, Excuses;
    if n > 0 {
      VerdictMeans(c, stmts, exceptions, n - 1, tag);
      JudgeMeans(c, stmts, exceptions, stmts[n - 1], tag);
    }
  }

  // ----- source order -----

  lemma {:induction false} RangedMembers(stmts: seq<Stmt>, x: string)
    ensures x in Ranged(stmts) <==> exists s :: s in stmts && Bounds(s, x)
  {
    if stmts != [] {
      var before, last := stmts[..|stmts| - 1], stmts[|stmts| - 1];
      RangedMembers(before, x);
      assert forall s :: s in stmts <==> s in before || s == last;
      assert x in Ranged(stmts) <==> x in Ranged(before) || Bounds(last, x);
    }
  }

  ghost predicate SameStatements(a: seq<Stmt>, b: seq<Stmt>) {
    forall s :: s in a <==> s in b
  }

  lemma {:induction false} SameRanged(a: seq<Stmt>, b: seq<Stmt>)
    requires SameStatements(a, b)
    ensures Ranged(a) == Ranged(b)
  {
    hide Ranged;
    forall x
      ensures x in Ranged(a) <==> x in Ranged(b)
    {
      RangedMembers(a, x);
      RangedMembers(b, x);
    }
  }

  /** The same statements, with the same last assignment to each name, get the same verdict
      statement by statement, in any order and with any repeats. */
  lemma {:induction false} OrderIrrelevant(c: Circuit, a: seq<Stmt>, b: seq<Stmt>, exceptions: set<Label>, s: Stmt)
    requires SameStatements(a, b) && Assigned(a) == Assigned(b)
    ensures Judge(c, a, exceptions, s) == Judge(c, b, exceptions, s)
  {
    hide Reachable, Ranged, Assigned;
    SameRanged(a, b);
    assert forall e :: Unchecked(c, a, e) == Unchecked(c, b, e);
  }

  /** No name is given two different values. */
  predicate SingleAssignment(stmts: seq<Stmt>) {
    forall s, t :: s in stmts && t in stmts && s.Assign? && t.Assign? && s.lhs == t.lhs ==> s == t
  }

  predicate Gives(assign: Assignments, x: string, e: Expr) {
    x in assign && assign[x] == e
  }

  lemma {:induction false} AssignedMembers(stmts: seq<Stmt>, x: string, e: Expr)
    requires SingleAssignment(stmts)
    ensures Gives(Assigned(stmts), x, e) <==> Assign(x, e) in stmts && !Ignored(x)
  {
    if stmts != [] {
      var before, last := stmts[..|stmts| - 1], stmts[|stmts| - 1];
      assert forall s :: s in stmts <==> s in before || s == last;
      AssignedMembers(before, x, e);
      if last.Assign? && last.lhs == x && x in Assigned(before) {
        AssignedMembers(before, x, Assigned(before)[x]);
      }
    }
  }

  lemma {:induction false} SameAssignments(a: Assignments, b: Assignments)
    requires forall x, e :: Gives(a, x, e) <==> Gives(b, x, e)
    ensures a == b
  {
    assert forall x :: x in a ==> Gives(a, x, a[x]);
    assert forall x :: x in b ==> Gives(b, x, b[x]);
  }

  /** Where each name is assigned once, any order has the same last assignments. */
  lemma {:induction false} SingleAssigned(a: seq<Stmt>, b: seq<Stmt>)
    requires SingleAssignment(a) && SameStatements(a, b)
    ensures Assigned(a) == Assigned(b)
  {
    hide Assigned;
    forall x, e
      ensures Gives(Assigned(a), x, e) <==> Gives(Assigned(b), x, e)
    {
      AssignedMembers(a, x, e);
      AssignedMembers(b, x, e);
    }
    SameAssignments(Assigned(a), Assigned(b));
  }

  // ----- exactly when two orders agree -----

  ghost predicate Passes(c: Circuit, stmts: seq<Stmt>) {
    forall s :: s in stmts ==> ComparisonOk(c, stmts, {}, s)
  }

  predicate IsShort(s: Stmt) {
    s.CallStmt? && IsComparison(s.op) && |s.args| < 2
  }

  predicate Compares(s: Stmt, e: Expr) {
    s.CallStmt? && IsComparison(s.op) && |s.args| >= 2 && (e == s.args[0] || e == s.args[1])
  }

  /** Some compared operand rests on `x`, which no range check bounds. */
  ghost predicate Exposes(stmts: seq<Stmt>, x: string) {
    x !in Ranged(stmts) && exists s, e :: s in stmts && Compares(s, e) && Reachable(Assigned(stmts), e, x)
  }

  lemma {:induction false} PassesExactly(c: Circuit, stmts: seq<Stmt>)
    ensures Passes(c, stmts) <==>
            (forall s :: s in stmts ==> !IsShort(s)) && (forall x :: x in c.witnesses ==> !Exposes(stmts, x))
  {
    hide Reachable, Ranged, Assigned;
    if Passes(c, stmts) {
      forall s | s in stmts
        ensures !IsShort(s)
      {
        assert ComparisonOk(c, stmts, {}, s);
      }
      forall x | x in c.witnesses
        ensures !Exposes(stmts, x)
      {
        assert forall s :: s in stmts ==> ComparisonOk(c, stmts, {}, s);
      }
    }
    if (forall s :: s in stmts ==> !IsShort(s)) && (forall x :: x in c.witnesses ==> !Exposes(stmts, x)) {
      forall s | s in stmts
        ensures ComparisonOk(c, stmts, {}, s)
      {
        if s.CallStmt? && IsComparison(s.op) {
          assert !IsShort(s) && Compares(s, s.args[0]) && Compares(s, s.args[1]);
        }
      }
    }
  }

  /** Two orders of the same statements get the same verdict whatever the witnesses are exactly
      when some comparison is short of operands or the same unbounded names lie under the
      compared operands of both. */
  lemma {:induction false} OrderExactly(a: seq<Stmt>, b: seq<Stmt>)
    requires SameStatements(a, b)
    ensures (forall c :: Passes(c, a) <==> Passes(c, b)) <==>
            (exists s :: s in a && IsShort(s)) || (forall x :: Exposes(a, x) <==> Exposes(b, x))
  {
    hide Passes, Exposes;
    forall c
      ensures Passes(c, a) <==> (forall s :: s in a ==> !IsShort(s)) && forall x :: x in c.witnesses ==> !Exposes(a, x)
      ensures Passes(c, b) <==> (forall s :: s in b ==> !IsShort(s)) && forall x :: x in c.witnesses ==> !Exposes(b, x)
    {
      PassesExactly(c, a);
      PassesExactly(c, b);
    }
    if (forall c :: Passes(c, a) <==> Passes(c, b)) && !(exists s :: s in a && IsShort(s)) {
      forall x
        ensures Exposes(a, x) <==> Exposes(b, x)
      {
        var c := Circuit({}, {x}, {}, {});
        assert Passes(c, a) <==> Passes(c, b);
        assert x in c.witnesses;
      }
    }
  }

  // ----- two orders with different verdicts -----

  const GUARDED := Circuit({}, {"w"}, {}, {})
  const FROM_WITNESS := Assign("x", Name("w"))
  const FROM_LITERAL := Assign("x", Lit(0))
  const COMPARED := CallStmt("less_than_strict", [Name("x"), Lit(1)])

  lemma {:induction false} LiteralLast()
    ensures Assigned([FROM_WITNESS, FROM_LITERAL, COMPARED]) == map["x" := Lit(0)]
    ensures Assigned([FROM_LITERAL, FROM_WITNESS, COMPARED]) == map["x" := Name("w")]
    ensures Ranged([FROM_LITERAL, FROM_WITNESS, COMPARED]) == {}
  {
    assert !Ignored("x");
    var a, b := [FROM_WITNESS, FROM_LITERAL, COMPARED], [FROM_LITERAL, FROM_WITNESS, COMPARED];
    assert a[..2] == [FROM_WITNESS, FROM_LITERAL] && b[..2] == [FROM_LITERAL, FROM_WITNESS];
    assert [FROM_WITNESS, FROM_LITERAL][..1] == [FROM_WITNESS] && [FROM_LITERAL, FROM_WITNESS][..1] == [FROM_LITERAL];
    assert [FROM_WITNESS][..0] == [] && [FROM_LITERAL][..0] == [];
    assert Assigned([FROM_WITNESS]) == map["x" := Name("w")];
    assert Assigned([FROM_LITERAL]) == map["x" := Lit(0)];
    assert Ranged([FROM_LITERAL]) == {} && Ranged([FROM_LITERAL, FROM_WITNESS]) == {};
  }

  lemma {:induction false} LiteralReach(operand: Expr)
    requires operand in [Name("x"), Lit(1)]
    ensures !Reachable(map["x" := Lit(0)], operand, "w")
  {
    var assign: Assignments := map["x" := Lit(0)];
    if Reachable(assign, operand, "w") {
      ClosedReach(assign, operand, {"x"}, "w");
    }
  }

  /** With a name assigned twice the order decides: the same three statements pass when the
      literal is assigned last and are reported when the witness is. */
  lemma {:induction false} OrderMatters()
    ensures var a, b := [FROM_WITNESS, FROM_LITERAL, COMPARED], [FROM_LITERAL, FROM_WITNESS, COMPARED];
            SameStatements(a, b) && Passes(GUARDED, a) && !Passes(GUARDED, b)
  {
    hide Reachable, Assigned, Ranged;
    var a, b := [FROM_WITNESS, FROM_LITERAL, COMPARED], [FROM_LITERAL, FROM_WITNESS, COMPARED];
    LiteralLast();
    LiteralReach(Name("x"));
    LiteralReach(Lit(1));
    var assign: Assignments := map["x" := Name("w")];
    ReachFirst(assign, Name("x"), "x");
    ReachNext(assign, Name("x"), "x", "w");
    assert COMPARED in b;
    assert !ComparisonOk(GUARDED, b, {}, COMPARED);
  }
}
