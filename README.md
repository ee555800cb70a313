# giskard Scope — a verified model

This project models the `Scope` class of giskard's expression compiler
(`include/giskard_core/scope.hpp`). A scope is the compilation environment in
which robot-motion expressions are built. It has two parts.

* **Four name registries**, one each for double, vector, rotation and frame
  expressions. Each registry maps a name to an expression. A name is unique
  within its registry. The same name may appear in all four registries at once.
* **The input allocator.** It maps each runtime input name to a record of type
  Joint, Scalar, Vector3, Rotation or Frame. Each new input gets a contiguous
  block of the flat input index space: 1, 1, 3, 4 or 7 slots. The block starts
  at the counter `nextInputIndex`. The flag `bJointvectorCompleted` is raised by
  the first non-joint input, and after that a new joint is refused. Re-declaring
  a name with its own type is a no-op; with another type it is an error.

Files:

* `outcomes.dfy`: the error kinds (`NotFound`, `NameTaken`, `TypeConflict`,
  `JointAfterNonJoint`) and the result types that stand for the C++ exceptions.
* `expression.dfy`: the expressions of the differentiation engine as symbolic
  terms (`Input`, `Vec`, `RotVec`, `FrameOf`, `Stored`). Also their sort (what
  kind of value they yield) and the raw slots they read.
* `inputs.dfy`: the allocator as a value (`InputTable`). It holds the
  declaration function `Declare`, the invariant `WellFormed` and the lemmas
  about both.
* `names.dfy`: `std::string` ordering, and the ascending enumeration of map keys
  that a `std::map` iterator performs.
* `scope.dfy`: the class `Scope`. Its fields are the C++ members. Its
  state-changing methods are proved against `Declare` and the registry maps.
* `scenarios.dfy`: clients that replay documented behaviour on concrete names.

The `has_*` operations are the predicates `Scope.HasExpression`,
`Scope.HasInput` and `Scope.HasInputOfType`. The contracts of the matching find
functions state what they mean. The four `find_/has_/add_<type>_expression`
families and the `get_<type>_names` methods are each one member, parameterised
by the registry's `Sort`. The five `add_<type>_input` methods are one method,
`AddInput`, parameterised by the `InputType`.

The name listings are sometimes described as unordered. The code returns them
in ascending key order (`std::map` iteration), and the model follows the code.

## Model

| member | source | states |
|---|---|---|
| `InputAllocation.Width` | include/giskard_core/scope.hpp:224-290 | The counter step per input type is at least one slot, and exactly one slot iff the input is scalar-valued (Joint or Scalar). The values are Joint 1, Scalar 1, Vector3 3, Rotation 4, Frame 7, as the increments at lines 226, 240, 255, 271 and 290 show |
| `InputAllocation.VectorAt` | include/giskard_core/scope.hpp:251-253 | A vector input's expression is a vector and reads slots i, i+1, i+2 in order |
| `InputAllocation.RotationAt` | include/giskard_core/scope.hpp:266-269 | A rotation input's expression is a rotation and reads the axis slots i..i+2, then the angle slot i+3 |
| `InputAllocation.InputExpr` | include/giskard_core/scope.hpp:224-288 | Each new input's expression has the type of its record's `expr_` member and reads exactly the slots of its own block, in order. For a frame: rotation from i..i+3, position from i+4..i+6 |
| `InputAllocation.Declare` | include/giskard_core/scope.hpp:214-292 | Declaring succeeds iff the name is undeclared (and is not a joint after the joint block closed) or is declared with the same type. Errors are TypeConflict or JointAfterNonJoint. A same-type repeat changes nothing, even for a joint after the block closed. A first declaration adds exactly that name, keeps all old records, records `idx == old next` and advances the counter by the type's width. The flag is raised iff the new input is not a joint. The counter never decreases |
| `InputAllocation.EmptyTableWellFormed` | include/giskard_core/scope.hpp:96-98 | A fresh scope's allocator satisfies the invariant |
| `InputAllocation.DeclarePreservesWellFormed` | include/giskard_core/scope.hpp:214-292 | Declaring keeps the invariant. Each record sits under its own name, owns a block below the counter and reads exactly that block. Blocks of distinct inputs are disjoint. Every joint index is below every non-joint index. The flag is up iff a non-joint exists. Every slot below the counter belongs to some input |
| `InputAllocation.NewJointAfterNonJointRejected` | include/giskard_core/scope.hpp:216-221 | Once any non-joint input is declared, a joint under a new name is refused with JointAfterNonJoint |
| `InputAllocation.DeclareIdempotent` | include/giskard_core/scope.hpp:215-218 | Declaring the same name with the same type twice equals declaring it once |
| `InputAllocation.DeclareAllPreservesWellFormed` | include/giskard_core/scope.hpp:214-292 | After any run of successful declarations, the invariant still holds. The counter has not decreased and no earlier record has changed. Every declared name is present, with the type each of its declarations asked for |
| `OrderedNames.LeastName` | include/giskard_core/scope.hpp:297-298 | Returns the member of a non-empty name set that is below every other in `std::string` order, which is the key a map iterator visits first |
| `OrderedNames.SortedKeys` | include/giskard_core/scope.hpp:326-331 | Lists every key of a map exactly once, in strictly ascending order |
| `OrderedNames.SortedUnique` | include/giskard_core/scope.hpp:294-331 | Two strictly ascending listings of the same names are equal, so the listing is determined by the key set |
| `GiskardScope.Scope.constructor` | include/giskard_core/scope.hpp:96-98 | A new scope has no inputs, counter 0, the flag down and four empty registries |
| `GiskardScope.Scope.HasExpression` | include/giskard_core/scope.hpp:145-163 | Holds iff the name is in that type's registry. A registered expression has the registry's type |
| `GiskardScope.Scope.FindExpression` | include/giskard_core/scope.hpp:100-130 | Succeeds iff `has_<type>_expression` holds, and fails with NotFound otherwise. Returns the expression registered under the name, which has the registry's type |
| `GiskardScope.Scope.AddExpression` | include/giskard_core/scope.hpp:178-212 | Fails with NameTaken iff the name is already in that registry, and then changes nothing. Otherwise it inserts exactly that name, after which find returns the added expression. The other three registries and the inputs are untouched |
| `GiskardScope.Scope.HasInput` | include/giskard_core/scope.hpp:165-167 | Holds iff the name is declared as an input of any type. The record is then filed under its own name and owns slots below the counter |
| `GiskardScope.Scope.HasInputOfType` | include/giskard_core/scope.hpp:169-176 | Holds iff the name is declared and its record is of kind `t`. `dynamic_pointer_cast<T>` succeeds exactly when the record's struct is T, because no record struct derives from another (lines 49-87). So at most one kind matches, and a Joint record is not a Scalar record |
| `GiskardScope.Scope.FindInput` | include/giskard_core/scope.hpp:132-136 | Fails with NotFound iff the name is undeclared. Otherwise returns the record filed under that name |
| `GiskardScope.Scope.FindInputOfType` | include/giskard_core/scope.hpp:138-143 | Succeeds iff the name is declared with exactly that kind, so a Joint record is never found as Scalar. The record's block lies below the counter, and its expression has the kind's type and reads exactly that block |
| `GiskardScope.Scope.AddInput` | include/giskard_core/scope.hpp:214-292 | Succeeds iff `Declare` does. On success the allocator state becomes `Declare`'s result. On failure it returns `Declare`'s error and leaves the state unchanged. Registries are never touched and the scope invariant is kept |
| `GiskardScope.Scope.GetNames` | include/giskard_core/scope.hpp:294-324 | Lists every name of the registry exactly once, in ascending order |
| `GiskardScope.Scope.GetInputNames` | include/giskard_core/scope.hpp:326-331 | Lists every declared input name exactly once, in ascending order |
| `ScopeScenarios.DeclareJointsThenVector` | include/giskard_core/scope.hpp:214-257 | Declaring joints j0, j1 and then vector v in a fresh scope gives the blocks 0, 1 and 2..4 with counter 5 and the flag up |
| `ScopeScenarios.JointsThenVectorIndices` | include/giskard_core/scope.hpp:224-255 | In that scope, find yields indices 0, 1 and 2 and the counter is 5 |
| `ScopeScenarios.LateJoint` | include/giskard_core/scope.hpp:214-228 | In that scope, a new joint fails with JointAfterNonJoint. Re-adding j0 succeeds. The counter stays at 5 |
| `ScopeScenarios.RedeclareScalar` | include/giskard_core/scope.hpp:230-248 | Adding scalar s twice gives one record and one slot. Adding it as a vector fails with TypeConflict |
| `ScopeScenarios.SharedName` | include/giskard_core/scope.hpp:178-212 | One name can be added to all four registries. A second double expression under it fails with NameTaken |

## Left out

- Numeric evaluation (`value()`, derivatives, setting input values, rotation algebra) is left out. It is floating-point work done by the external KDL expression library, so expressions are symbolic terms here.
- `Stored` terms stand for expressions built outside the scope. The raw slots they read are not tracked, so `Slots` reports none for them.
- `boost::shared_ptr` and `dynamic_pointer_cast` are left out. The record's concrete struct is a type tag, and lookups return values rather than shared pointers. So aliasing between a registry entry and its users is not modelled.
- `has_input<T>` and `find_input<T>` with `T = AInput` (the base struct, which matches every record) are not modelled separately. The untyped `FindInput` covers that case.
- The C++ static types of `add_<type>_expression`'s argument become the precondition `SortOf(e) == Some(s)`.
- Exception message strings are left out. Only the error kinds are kept.
- `std::string` is a Dafny `string` (a sequence of characters). `Less` compares characters by code point where `std::map` compares bytes as `unsigned char`. The order is the same whether a byte is read as the character of the same value or UTF-8 bytes are set against code points, so key listings come out in the same order.
- `nextInputIndex` is a `size_t` in C++. It is an unbounded `nat` here, so wrap-around after 2^64 slots is not modelled.
- The Spec expression classes, their structural equality and their lowering against a scope are not part of this model. Their source is not among the modelled files.
- Thread safety is not modelled. The scope is plain single-threaded state.
