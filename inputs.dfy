/** The scope's input allocator as a value: which names are declared as runtime
    inputs, which block of the flat input index space each one owns, and the
    counter and flag that govern the next declaration. */
module InputAllocation {
  import opened Outcomes
  import opened Expression

  /** The semantic type of an input; one C++ record struct per case. */
  datatype InputType = Scalar | Joint | Vector3 | Rotation | Frame

  /** Raw slots an input of type `t` consumes: a rotation is an axis vector and
      an angle, a frame a rotation followed by a position. */
  function Width(t: InputType): (w: nat)
    ensures w >= 1
    ensures w == 1 <==> InputSort(t) == DoubleSort
  {
    match t
    case Joint => 1
    case Scalar => 1
    case Vector3 => 3
    case Rotation => 4
    case Frame => 7
  }

  /** The expression type of the record's `expr_` member. */
  function InputSort(t: InputType): Sort {
    match t
    case Joint => DoubleSort
    case Scalar => DoubleSort
    case Vector3 => VectorSort
    case Rotation => RotationSort
    case Frame => FrameSort
  }

  /** A vector read from slots i, i + 1, i + 2. */
  function VectorAt(i: nat): (e: Term)
    ensures SortOf(e) == Some(VectorSort)
    ensures Slots(e) == Block(i, 3)
  {
    Vec(Input(i), Input(i + 1), Input(i + 2))
  }

  /** A rotation about the axis in slots i .. i + 2 by the angle in slot i + 3. */
  function RotationAt(i: nat): (e: Term)
    ensures SortOf(e) == Some(RotationSort)
    ensures Slots(e) == Block(i, 4)
  {
    BlockSplit(i, 3, 1);
    RotVec(VectorAt(i), Input(i + 3))
  }

  /** The composite expression built for a new input whose block starts at
      `start`: it has the record's expression type and reads exactly the slots of
      the input's own block, in order. */
  function InputExpr(t: InputType, start: nat): (e: Term)
    ensures SortOf(e) == Some(InputSort(t))
    ensures Slots(e) == Block(start, Width(t))
  {
    match t
    case Joint => Input(start)
    case Scalar => Input(start)
    case Vector3 => VectorAt(start)
    case Rotation => RotationAt(start)
    case Frame =>
      BlockSplit(start, 4, 3);
      FrameOf(RotationAt(start), VectorAt(start + 4))
  }

  /** One declared input: the C++ `AInput` base fields, the type tag standing for
      the concrete record struct, and that struct's expression. */
  datatype InputRecord = InputRecord(name: string, idx: nat, kind: InputType, expr: Term)

  /** Does `slot` belong to the record's block [idx, idx + width)? */
  predicate InBlock(rec: InputRecord, slot: nat) {
    rec.idx <= slot < rec.idx + Width(rec.kind)
  }

  predicate Disjoint(a: InputRecord, b: InputRecord) {
    a.idx + Width(a.kind) <= b.idx || b.idx + Width(b.kind) <= a.idx
  }

  /** The allocator state: `bJointvectorCompleted`, `nextInputIndex` and `inputs_`. */
  datatype InputTable = InputTable(jointsClosed: bool, next: nat, records: map<string, InputRecord>)

  const EmptyTable: InputTable := InputTable(false, 0, map[])

  ghost predicate Covered(tab: InputTable, slot: nat) {
    exists n :: n in tab.records && InBlock(tab.records[n], slot)
  }

  /** What every reachable allocator state satisfies. */
  ghost predicate WellFormed(tab: InputTable) {
    // each record is filed under its own name, owns a block below the counter
    // and reads exactly that block
    && (forall n :: n in tab.records ==>
          && tab.records[n].name == n
          && tab.records[n].idx + Width(tab.records[n].kind) <= tab.next
          && tab.records[n].expr == InputExpr(tab.records[n].kind, tab.records[n].idx))
    // no slot is shared by two inputs
    && (forall a, b :: a in tab.records && b in tab.records && a != b ==>
          Disjoint(tab.records[a], tab.records[b]))
    // joints occupy the lowest indices
    && (forall a, b ::
          (a in tab.records && b in tab.records &&
           tab.records[a].kind == Joint && tab.records[b].kind != Joint) ==>
          tab.records[a].idx < tab.records[b].idx)
    // the flag is raised exactly when some non-joint input exists
    && (tab.jointsClosed <==> exists n :: n in tab.records && tab.records[n].kind != Joint)
    // no slot below the counter is left unused
    && (forall slot: nat :: slot < tab.next ==> Covered(tab, slot))
  }

  /** `add_<type>_input(name)`: the existence check comes first, so a repeated
      declaration with the same type is a no-op even for a joint after the joint
      block is closed. */
  function Declare(tab: InputTable, t: InputType, name: string): (r: Result<InputTable>)
    ensures r.Ok? <==>
              if name in tab.records then tab.records[name].kind == t
              else !(t == Joint && tab.jointsClosed)
    ensures r.Err? ==> r.error == (if name in tab.records then TypeConflict else JointAfterNonJoint)
    ensures r.Ok? && name in tab.records ==> r.value == tab
    ensures r.Ok? ==>
              && r.value.records.Keys == tab.records.Keys + {name}
              && (forall m :: m in tab.records ==> r.value.records[m] == tab.records[m])
              && name in r.value.records && r.value.records[name].kind == t
              && r.value.next >= tab.next
    ensures r.Ok? && name !in tab.records ==>
              && r.value.records[name].idx == tab.next
              && r.value.next == tab.next + Width(t)
              && (r.value.jointsClosed <==> tab.jointsClosed || t != Joint)
  {
    if name in tab.records then
      if tab.records[name].kind != t then Err(TypeConflict) else Ok(tab)
    else if t == Joint && tab.jointsClosed then
      Err(JointAfterNonJoint)
    else
      var rec := InputRecord(name, tab.next, t, InputExpr(t, tab.next));
      Ok(InputTable(tab.jointsClosed || t != Joint, tab.next + Width(t), tab.records[name := rec]))
  }

  lemma EmptyTableWellFormed()
    ensures WellFormed(EmptyTable)
  {
  }

  /** Every successful declaration keeps the allocator well formed. */
  lemma DeclarePreservesWellFormed(tab: InputTable, t: InputType, name: string)
    requires WellFormed(tab)
    requires Declare(tab, t, name).Ok?
    ensures WellFormed(Declare(tab, t, name).value)
  {
    if name !in tab.records {
      var tab' := Declare(tab, t, name).value;
      var rec := tab'.records[name];
      forall slot: nat | slot < tab'.next
        ensures Covered(tab', slot)
      {
        if slot < tab.next {
          assert Covered(tab, slot);
          var n :| n in tab.records && InBlock(tab.records[n], slot);
          assert tab'.records[n] == tab.records[n];
        } else {
          assert InBlock(rec, slot);
        }
      }
      if t != Joint {
        assert tab'.records[name].kind != Joint;
      }
    }
  }

  /** Once some non-joint input exists, a joint under a new name is refused. */
  lemma NewJointAfterNonJointRejected(tab: InputTable, name: string, other: string)
    requires WellFormed(tab)
    requires other in tab.records && tab.records[other].kind != Joint
    requires name !in tab.records
    ensures Declare(tab, Joint, name) == Err(JointAfterNonJoint)
  {
  }

  /** Declaring the same input twice is the same as declaring it once. */
  lemma DeclareIdempotent(tab: InputTable, t: InputType, name: string)
    requires Declare(tab, t, name).Ok?
    ensures Declare(Declare(tab, t, name).value, t, name) == Declare(tab, t, name)
  {
  }

  /** One `add_<type>_input` call. */
  datatype Declaration = Declaration(kind: InputType, name: string)

  /** A sequence of declarations, stopping at the first refused one. */
  function DeclareAll(tab: InputTable, decls: seq<Declaration>): Result<InputTable>
    decreases |decls|
  {
    if decls == [] then Ok(tab)
    else
      match Declare(tab, decls[0].kind, decls[0].name)
      case Err(e) => Err(e)
      case Ok(tab') => DeclareAll(tab', decls[1..])
  }

  /** Any run of successful declarations keeps the allocator well formed, never
      lowers the counter, never changes a record once made, and leaves every
      declared name with the type every one of its declarations asked for. */
  lemma {:induction false} DeclareAllPreservesWellFormed(tab: InputTable, decls: seq<Declaration>)
    requires WellFormed(tab)
    requires DeclareAll(tab, decls).Ok?
    ensures WellFormed(DeclareAll(tab, decls).value)
    ensures DeclareAll(tab, decls).value.next >= tab.next
    ensures forall m :: m in tab.records ==>
              m in DeclareAll(tab, decls).value.records &&
              DeclareAll(tab, decls).value.records[m] == tab.records[m]
    ensures forall i :: 0 <= i < |decls| ==> decls[i].name in DeclareAll(tab, decls).value.records
    ensures forall i :: 0 <= i < |decls| ==>
              DeclareAll(tab, decls).value.records[decls[i].name].kind == decls[i].kind
    decreases |decls|
  {
    if decls != [] {
      var tab' := Declare(tab, decls[0].kind, decls[0].name).value;
      DeclarePreservesWellFormed(tab, decls[0].kind, decls[0].name);
      DeclareAllPreservesWellFormed(tab', decls[1..]);
      assert DeclareAll(tab, decls) == DeclareAll(tab', decls[1..]);
      var final := DeclareAll(tab', decls[1..]).value;
      forall i | 0 <= i < |decls|
        ensures decls[i].name in final.records && final.records[decls[i].name].kind == decls[i].kind
      {
        if i > 0 {
          assert decls[i] == decls[1..][i - 1];
        } else {
          assert decls[0].name in tab'.records && tab'.records[decls[0].name].kind == decls[0].kind;
        }
      }
    }
  }
}
