/** Clients of the scope that replay its documented behaviour on concrete names,
    using nothing but the contracts of `Scope`. */
module ScopeScenarios {
  import opened Outcomes
  import opened Expression
  import opened InputAllocation
  import opened GiskardScope

  /** The allocator after declaring joints "j0", "j1" and then the vector "v". */
  function JointsThenVectorTable(): InputTable {
    InputTable(true, 5, map[
      "j0" := InputRecord("j0", 0, Joint, InputExpr(Joint, 0)),
      "j1" := InputRecord("j1", 1, Joint, InputExpr(Joint, 1)),
      "v" := InputRecord("v", 2, Vector3, InputExpr(Vector3, 2))])
  }

  /** A fresh scope in which joints "j0", "j1" and then the vector "v" are declared. */
  method DeclareJointsThenVector() returns (scope: Scope)
    ensures fresh(scope) && scope.Valid()
    ensures scope.Table() == JointsThenVectorTable()
  {
    scope := new Scope();
    var r := scope.AddInput(Joint, "j0");
    ghost var t1 := InputTable(false, 1, map["j0" := InputRecord("j0", 0, Joint, InputExpr(Joint, 0))]);
    assert scope.Table() == t1;
    r := scope.AddInput(Joint, "j1");
    ghost var t2 := InputTable(false, 2, t1.records["j1" := InputRecord("j1", 1, Joint, InputExpr(Joint, 1))]);
    assert "j1" !in t1.records;
    assert scope.Table() == t2;
    r := scope.AddInput(Vector3, "v");
    assert "v" !in t2.records;
  }

  /** Two joints and then a vector in a fresh scope take the indices 0, 1 and
      2 .. 4, and each record reads its own slots. */
  method JointsThenVectorIndices() returns (j0: nat, j1: nat, v: nat, next: nat)
    ensures j0 == 0 && j1 == 1 && v == 2 && next == 5
  {
    var scope := DeclareJointsThenVector();
    var found := scope.FindInputOfType(Joint, "j0");
    j0 := found.value.idx;
    found := scope.FindInputOfType(Joint, "j1");
    j1 := found.value.idx;
    found := scope.FindInputOfType(Vector3, "v");
    v := found.value.idx;
    next := scope.nextInputIndex;
  }

  /** Once the vector is declared, a new joint is refused while re-adding a known
      joint is still accepted; neither consumes an index. */
  method LateJoint() returns (late: Outcome, again: Outcome, next: nat)
    ensures late == Fail(JointAfterNonJoint)
    ensures again == Pass
    ensures next == 5
  {
    var scope := DeclareJointsThenVector();
    assert "j2" !in scope.inputs;
    late := scope.AddInput(Joint, "j2");
    again := scope.AddInput(Joint, "j0");
    next := scope.nextInputIndex;
  }

  /** Declaring the scalar input "s" twice yields one record and one slot;
      declaring it again as a vector is refused. */
  method RedeclareScalar() returns (first: Outcome, second: Outcome, clash: Outcome, names: seq<string>, next: nat)
    ensures first == Pass && second == Pass
    ensures clash == Fail(TypeConflict)
    ensures names == ["s"] && next == 1
  {
    var scope := new Scope();
    first := scope.AddInput(Scalar, "s");
    second := scope.AddInput(Scalar, "s");
    clash := scope.AddInput(Vector3, "s");
    names := scope.GetInputNames();
    assert names[0] in scope.inputs;
    next := scope.nextInputIndex;
  }

  /** One name may be registered once in each of the four registries, but a
      second double expression under it is refused. */
  method SharedName() returns (added: seq<Outcome>, duplicate: Outcome)
    ensures added == [Pass, Pass, Pass, Pass]
    ensures duplicate == Fail(NameTaken)
  {
    var scope := new Scope();
    var d := scope.AddExpression(DoubleSort, "x", Stored(0, DoubleSort));
    assert "x" !in scope.Refs(VectorSort);
    var v := scope.AddExpression(VectorSort, "x", Stored(1, VectorSort));
    assert "x" !in scope.Refs(RotationSort);
    var r := scope.AddExpression(RotationSort, "x", Stored(2, RotationSort));
    assert "x" !in scope.Refs(FrameSort);
    var f := scope.AddExpression(FrameSort, "x", Stored(3, FrameSort));
    assert "x" in scope.Refs(DoubleSort);
    added := [d, v, r, f];
    duplicate := scope.AddExpression(DoubleSort, "x", Stored(4, DoubleSort));
  }
}
