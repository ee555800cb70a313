/** The compilation environment of the expression compiler: four independent
    name registries, one per expression type, and the allocator of the flat
    runtime input index space. */
module GiskardScope {
  import opened Outcomes
  import opened Expression
  import opened OrderedNames
  import opened InputAllocation

  /** Every expression in the registry for sort `s` is of sort `s`. */
  ghost predicate WellSorted(s: Sort, refs: map<string, Term>) {
    forall n :: n in refs ==> SortOf(refs[n]) == Some(s)
  }

  /** Is the record's struct the one for input type `u`? */
  predicate IsKind(rec: InputRecord, u: InputType) {
    rec.kind == u
  }

  class Scope {
    var jointVectorCompleted: bool
    var nextInputIndex: nat
    var inputs: map<string, InputRecord>

    var doubleReferences: map<string, Term>
    var vectorReferences: map<string, Term>
    var rotationReferences: map<string, Term>
    var frameReferences: map<string, Term>

    /** The allocator part of the state, as a value. */
    function Table(): InputTable
      reads this
    {
      InputTable(jointVectorCompleted, nextInputIndex, inputs)
    }

    /** The registry that holds expressions of sort `s`. */
    function Refs(s: Sort): map<string, Term>
      reads this
    {
      match s
      case DoubleSort => doubleReferences
      case VectorSort => vectorReferences
      case RotationSort => rotationReferences
      case FrameSort => frameReferences
    }

    ghost predicate Valid()
      reads this
    {
      && WellFormed(Table())
      && WellSorted(DoubleSort, doubleReferences)
      && WellSorted(VectorSort, vectorReferences)
      && WellSorted(RotationSort, rotationReferences)
      && WellSorted(FrameSort, frameReferences)
    }

    constructor ()
      ensures Valid()
      ensures Table() == EmptyTable
      ensures forall s :: Refs(s) == map[]
    {
      jointVectorCompleted := false;
      nextInputIndex := 0;
      inputs := map[];
      doubleReferences := map[];
      vectorReferences := map[];
      rotationReferences := map[];
      frameReferences := map[];
    }

    /** `has_<type>_expression`: is the name registered for that type? A
        registered expression has the registry's type. */
    function HasExpression(s: Sort, name: string): (found: bool)
      reads this
      ensures found <==> name in Refs(s)
      ensures found && Valid() ==> SortOf(Refs(s)[name]) == Some(s)
    {
      name in Refs(s)
    }

    /** `find_<type>_expression`: fails exactly when the name is not registered
        for that type, and otherwise yields the registered expression. */
    function FindExpression(s: Sort, name: string): (r: Result<Term>)
      reads this
      ensures r.Ok? <==> HasExpression(s, name)
      ensures r.Err? ==> r.error == NotFound
      ensures r.Ok? ==> name in Refs(s) && r.value == Refs(s)[name]
      ensures Valid() && r.Ok? ==> SortOf(r.value) == Some(s)
    {
      if !HasExpression(s, name) then Err(NotFound) else Ok(Refs(s)[name])
    }

    /** `add_<type>_expression`: refuses a name already taken in that registry
        and changes nothing; otherwise files the expression under the name and
        leaves the other three registries and the inputs alone. */
    method AddExpression(s: Sort, name: string, e: Term) returns (r: Outcome)
      requires Valid()
      requires SortOf(e) == Some(s)
      modifies this
      ensures Valid()
      ensures r == if name in old(Refs(s)) then Fail(NameTaken) else Pass
      ensures r.Fail? ==> Refs(s) == old(Refs(s))
      ensures r.Pass? ==> Refs(s) == old(Refs(s))[name := e]
      ensures r.Pass? ==> FindExpression(s, name) == Ok(e)
      ensures forall other :: other != s ==> Refs(other) == old(Refs(other))
      ensures Table() == old(Table())
    {
      if HasExpression(s, name) {
        return Fail(NameTaken);
      }
      match s {
        case DoubleSort => doubleReferences := doubleReferences[name := e];
        case VectorSort => vectorReferences := vectorReferences[name := e];
        case RotationSort => rotationReferences := rotationReferences[name := e];
        case FrameSort => frameReferences := frameReferences[name := e];
      }
      r := Pass;
    }

    /** `has_input`: is the name declared as an input of any type? A declared
        input's record is filed under its own name and owns slots below the
        counter. */
    function HasInput(name: string): (found: bool)
      reads this
      ensures found <==> name in inputs
      ensures found && Valid() ==>
                inputs[name].name == name && inputs[name].idx + Width(inputs[name].kind) <= nextInputIndex
    {
      name in inputs
    }

    /** `has_input<T>`: the name is declared and its record is of kind `t`. No
        record struct derives from another, so at most one kind matches. */
    function HasInputOfType(t: InputType, name: string): (found: bool)
      reads this
      ensures found <==> name in inputs && inputs[name].kind == t
      ensures found ==> forall u :: IsKind(inputs[name], u) ==> u == t
    {
      name in inputs && inputs[name].kind == t
    }

    /** Untyped `find_input`: fails exactly for an undeclared name. */
    function FindInput(name: string): (r: Result<InputRecord>)
      reads this
      ensures r.Ok? <==> HasInput(name)
      ensures r.Err? ==> r.error == NotFound
      ensures r.Ok? ==> name in inputs && r.value == inputs[name]
      ensures Valid() && r.Ok? ==> r.value.name == name
    {
      if !HasInput(name) then Err(NotFound) else Ok(inputs[name])
    }

    /** `find_input<T>`: fails unless the name is declared with kind `t`; a found
        record owns the slots [idx, idx + Width(t)) below the counter and its
        expression reads exactly those slots. */
    function FindInputOfType(t: InputType, name: string): (r: Result<InputRecord>)
      reads this
      ensures r.Ok? <==> HasInputOfType(t, name)
      ensures r.Err? ==> r.error == NotFound
      ensures r.Ok? ==> name in inputs && r.value == inputs[name] && r.value.kind == t
      ensures Valid() && r.Ok? ==>
                && r.value.idx + Width(t) <= nextInputIndex
                && Slots(r.value.expr) == Block(r.value.idx, Width(t))
                && SortOf(r.value.expr) == Some(InputSort(t))
    {
      if !HasInputOfType(t, name) then Err(NotFound) else Ok(inputs[name])
    }

    /** `add_joint_input`, `add_scalar_input`, `add_vector_input`,
        `add_rotation_input` and `add_frame_input`, told apart by `t`. */
    method AddInput(t: InputType, name: string) returns (r: Outcome)
      requires Valid()
      modifies this
      ensures Valid()
      ensures r.Pass? <==> Declare(old(Table()), t, name).Ok?
      ensures r.Pass? ==> Table() == Declare(old(Table()), t, name).value
      ensures r.Fail? ==> Declare(old(Table()), t, name) == Err(r.error) && Table() == old(Table())
      ensures forall s :: Refs(s) == old(Refs(s))
    {
      ghost var before := Table();
      if name in inputs {
        if inputs[name].kind != t {
          return Fail(TypeConflict);
        }
        return Pass;
      }
      if t == Joint {
        if jointVectorCompleted {
          return Fail(JointAfterNonJoint);
        }
      } else {
        jointVectorCompleted := true;
      }
      var expr := InputExpr(t, nextInputIndex);
      inputs := inputs[name := InputRecord(name, nextInputIndex, t, expr)];
      nextInputIndex := nextInputIndex + Width(t);
      r := Pass;
      DeclarePreservesWellFormed(before, t, name);
      assert Table() == Declare(before, t, name).value;
    }

    /** `get_double_names`, `get_vector_names`, `get_rotation_names` and
        `get_frame_names`: every name of the registry once, ascending. */
    method GetNames(s: Sort) returns (names: seq<string>)
      ensures StrictlySorted(names)
      ensures forall x :: x in names <==> x in Refs(s)
      ensures |names| == |Refs(s)|
    {
      names := SortedKeys(Refs(s));
    }

    /** `get_input_names`: every declared input name once, ascending. */
    method GetInputNames() returns (names: seq<string>)
      ensures StrictlySorted(names)
      ensures forall x :: x in names <==> x in inputs
      ensures |names| == |inputs|
    {
      names := SortedKeys(inputs);
    }
  }
}
