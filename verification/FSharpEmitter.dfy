/** The emitter that lowers native tables: which F# definitions are made, in which order. */
module FSharpEmitter {
  import opened Bytes
  import opened Decimals
  import opened FSharpModel
  import opened Names
  import opened Permutations
  import opened FSharpAcceptance
  import opened FSharpState
  import opened FSharpSteps
  import opened FSharpVerdict

  class Emitter {
    const target: Target
    var models: Models
    var completed: set<string>
    var visiting: set<string>
    var pointed: set<string>
    ghost var taken: set<string>
    var names: set<string>
    var arrays: seq<ArrayLayout>
    var values: seq<ValueLayout>
    var ordered: seq<Definition>
    var errors: seq<Code>
    ghost var allowed: set<string>
    ghost var claimed: multiset<string>
    ghost var clean: bool

    ghost function Now(): State
      reads this
    {
      State(models, completed, visiting, pointed, taken, names, arrays, values, ordered, errors, allowed, claimed, clean)
    }

    constructor (target: Target)
      ensures this.target == target
      ensures Now() == Fresh(map[], {}, [], {})
    {
      this.target := target;
      models := map[];
      completed, visiting, pointed, taken, names := {}, {}, {}, {}, {};
      arrays, values, ordered, errors := [], [], [], [];
      allowed, claimed, clean := {}, multiset{}, true;
    }

    method Error(code: Code)
      modifies this
      ensures Now() == old(Now()).(errors := old(errors) + [code])
    {
      errors := errors + [code];
    }

    method Reserve(name: string)
      modifies this
      ensures Now() == Reserved(old(Now()), name)
    {
      claimed := claimed + multiset{name};
      if !IsIdentifier(name) {
        Error(BadName);
      } else if name in names {
        Error(NameCollision);
      } else {
        names := names + {name};
      }
    }

    /** An error that is not about a name; what is known about the definitions does not change. */
    method Complain(code: Code)
      requires Inv(Now(), target)
      modifies this
      ensures Now() == WithError(old(Now()), code)
      ensures Inv(Now(), target) && Grew(old(Now()), Now())
    {
      SetsChange(Now(), WithError(Now(), code), target);
      Error(code);
      clean := false;
    }

    /** The type cannot be used. */
    method Reject() returns (r: Lowered)
      requires Inv(Now(), target)
      modifies this
      ensures Now() == WithError(old(Now()), UnsupportedType) && r == REFUSED
      ensures Inv(Now(), target) && Grew(old(Now()), Now())
    {
      Complain(UnsupportedType);
      return REFUSED;
    }

    /** The F# type of `t`, after the definitions it needs. */
    method Lower(t: Type, context: string, allowVoid: bool) returns (r: Lowered)
      requires Inv(Now(), target) && TypeWithin(target, models, allowed, t)
      requires visiting == {} || IsSimple(models, target.pointerWidth, t, visiting)
      modifies this
      ensures Inv(Now(), target) && Grew(old(Now()), Now())
      ensures Now().IsKnown(r.name, |ordered|)
      ensures clean ==> Spelled(target, models, t, context, allowVoid) == Some(r) && TypeHeld(Now(), t)
      ensures clean ==> HasArrays(Now(), target, t, context)
      ensures TypeTracked(Now(), target, t)
      ensures Step(old(Now()), Now(), target, Lowers(target, models, t, allowVoid), ArrayNames(t, context))
      decreases models.Keys - visiting, 1, t
    {
      hide Inv, Grew, Step, MeaningOf;
      ghost var start := Now();
      GrewSelf(start);
      BuiltInNames();
      StepNone(start, start, target);
      if t.isVolatile {
        r := Reject();
        StepError(start, target, UnsupportedType, false, ArrayNames(t, context));
        return;
      }
      if t.kind == VoidType && allowVoid {
        return Lowered("unit", 0, 1);
      }
      if IsNativePointer(target, t) {
        r := LowerPointer(t);
        return;
      }
      if t.kind == RecordType || t.kind == EnumType {
        if !IsRepresentable(models, target.pointerWidth, t.declaration, {}) {
          r := Reject();
          StepError(start, target, UnsupportedType, false, ArrayNames(t, context));
          return;
        }
        r := LowerNamed(t);
        GrewKeeps(start, Now());
        return;
      }
      if t.kind == ArrayType {
        if !IsInlineArray(t) {
          r := Reject();
          StepError(start, target, UnsupportedType, false, ArrayNames(t, context));
          return;
        }
        r := LowerArray(t, context + "_Array");
        return;
      }
      r := LowerScalar(t, context);
    }

    /** A number, or a type that cannot be used. */
    method LowerScalar(t: Type, ghost context: string) returns (r: Lowered)
      requires Inv(Now(), target) && !t.isVolatile && t.kind != RecordType && t.kind != EnumType && t.kind != ArrayType
      requires !IsNativePointer(target, t)
      modifies this
      ensures Inv(Now(), target) && Grew(old(Now()), Now())
      ensures Now().IsKnown(r.name, |ordered|)
      ensures clean ==> Spelled(target, models, t, context, false) == Some(r)
      ensures Step(old(Now()), Now(), target, Spelled(target, models, t, context, false).Some?, multiset{})
    {
      hide Inv, Grew, Step, MeaningOf, IntegerName;
      ghost var start := Now();
      GrewSelf(start);
      BuiltInNames();
      StepNone(start, start, target);
      if t.kind == SignedType || t.kind == UnsignedType || IsWideCharacter(t) {
        if HasIntegerSize(t) {
          IntegerNameMeans(t);
          return Lowered(IntegerName(t), t.size, t.align);
        }
      } else if IsFloat(t) {
        return if t.canonical == "float" then Lowered("float32", 4, t.align) else Lowered("float", 8, t.align);
      }
      r := Reject();
      StepError(start, target, UnsupportedType, false, multiset{});
    }

    /** The name of a value type, once it is defined. */
    method LowerNamed(t: Type) returns (r: Lowered)
      requires Inv(Now(), target) && TypeWithin(target, models, allowed, t)
      requires (t.kind == RecordType || t.kind == EnumType) && !t.isVolatile
      requires IsRepresentable(models, target.pointerWidth, t.declaration, {})
      requires visiting == {} || IsSimple(models, target.pointerWidth, t, visiting)
      modifies this
      ensures Inv(Now(), target) && Grew(old(Now()), Now())
      ensures r == Lowered(FsName(Flatten(t.declaration)), t.size, t.align) && Now().IsKnown(r.name, |ordered|)
      ensures t.declaration in completed
      ensures Step(old(Now()), Now(), target, true, multiset{})
      decreases models.Keys - visiting, 1, t, 0
    {
      hide Inv, Grew, Step, State.IsKnown;
      assert Uses(target, models, t, t.declaration);
      LowerValue(t.declaration);
      CompletedIsKnown(Now(), target, t.declaration);
      return Lowered(FsName(Flatten(t.declaration)), t.size, t.align);
    }

    /** An address; what it points to is declared later, if it can be. */
    method LowerPointer(t: Type) returns (r: Lowered)
      requires Inv(Now(), target) && !t.isVolatile && IsNativePointer(target, t)
      requires TypeWithin(target, models, allowed, t)
      modifies this
      ensures Inv(Now(), target) && Grew(old(Now()), Now())
      ensures Now().IsKnown(r.name, |ordered|)
      ensures clean ==> Spelled(target, models, t, "", false) == Some(r)
      ensures TypeTracked(Now(), target, t)
      ensures Step(old(Now()), Now(), target, Spelled(target, models, t, "", false).Some?, multiset{})
    {
      hide Step, MeaningOf;
      var pointee := t.pointee.value;
      ghost var start := Now();
      BuiltInNames();
      StepNone(start, start, target);
      if pointee.kind == FunctionType {
        if !HasKnownPrototype(pointee) {
          r := Reject();
          StepError(start, target, UnsupportedType, false, multiset{});
          return;
        }
        var convention := FindConvention(pointee);
      }
      ghost var before := Now();
      if (pointee.kind == RecordType || pointee.kind == EnumType)
        && IsRepresentable(models, target.pointerWidth, pointee.declaration, {}) {
        if pointee.declaration !in completed && pointee.declaration !in visiting {
          assert Uses(target, models, t, pointee.declaration);
          pointed := pointed + {pointee.declaration};
        }
      }
      SetsChange(before, Now(), target);
      StepNone(before, Now(), target);
      StepTwice(start, before, Now(), target, Spelled(target, models, t, "", false).Some?, multiset{}, true, multiset{});
      return Lowered("nativeint", t.size, t.align);
    }

    method FindConvention(function_: Type) returns (r: string)
      requires Inv(Now(), target)
      modifies this
      ensures Inv(Now(), target) && Grew(old(Now()), Now())
      ensures clean ==> CallingConvention(target, function_) == Some(r)
      ensures completed == old(completed) && pointed == old(pointed)
      ensures Step(old(Now()), Now(), target, CallingConvention(target, function_).Some?, multiset{})
    {
      hide Inv;
      var convention := CallingConvention(target, function_);
      if convention.Some? {
        return convention.value;
      }
      Complain(UnsupportedType);
      return "";
    }

    /** An inline array is a definition of its own, after its element's. */
    method LowerArray(t: Type, name: string) returns (r: Lowered)
      requires Inv(Now(), target) && !t.isVolatile && IsInlineArray(t) && TypeWithin(target, models, allowed, t)
      requires visiting == {} || IsSimple(models, target.pointerWidth, t, visiting)
      modifies this
      ensures Inv(Now(), target) && Grew(old(Now()), Now())
      ensures r == Lowered(FsName(name), t.size, t.align) && Now().IsKnown(r.name, |ordered|)
      ensures clean ==> TypeHeld(Now(), t)
      ensures clean ==>
                && (exists k :: 0 <= k < |arrays| && IsArrayOf(arrays[k], target, models, t, name))
                && HasArrays(Now(), target, t.element.value, name + "_Element")
      ensures TypeTracked(Now(), target, t)
      ensures Step(old(Now()), Now(), target, Lowers(target, models, t.element.value, false),
                   multiset{name} + ArrayNames(t.element.value, name + "_Element"))
      decreases models.Keys - visiting, 1, t, 0
    {
      hide Inv, IsNewName, State.IsKnown, TypeTracked, IsSimple, IsIdentifier, Grew, Step, Lowers, ArrayNames, TypeWithin,
           HasArrays, Spelled;
      ghost var start := Now();
      ReservedFits(start, target, name);
      Reserve(name);
      ReservedKeeps(start, name);
      ghost var reserved := Now();
      if visiting != {} {
        ElementIsSimple(models, target.pointerWidth, t, visiting);
      }
      ElementWithin(target, models, allowed, t);
      var element := Lower(t.element.value, name + "_Element", false);
      ghost var lowered := Now();
      var layout := ArrayLayout(name, element, t.length, t.size, t.align);
      GrewKeeps(reserved, lowered);
      ArrayLowered(start, lowered, target, t, layout, Lowers(target, models, t.element.value, false),
                   ArrayNames(t.element.value, name + "_Element"));
      arrays := arrays + [layout];
      ordered := ordered + [ArrayDefinition(|arrays| - 1)];
      return Lowered(FsName(name), t.size, t.align);
    }

    /** Defines a value type, after everything it holds by value. */
    method LowerValue(name: string)
      requires Inv(Now(), target) && name in models && name in allowed
      requires IsQualified(name, "::") ==> IsRepresentable(models, target.pointerWidth, name, visiting)
      modifies this
      ensures Inv(Now(), target) && Grew(old(Now()), Now())
      ensures IsQualified(name, "::") ==> name in completed
      ensures name in old(completed) ==> Now() == old(Now())
      ensures Step(old(Now()), Now(), target, name in old(completed) + old(visiting) || IsQualified(name, "::"), multiset{})
      decreases models.Keys - visiting, 0
    {
      hide Step;
      ghost var start := Now();
      StepNone(start, start, target);
      if name in completed || name in visiting {
        return;
      }
      var value := models[name];
      if !IsQualified(name, "::") {
        Complain(BadLayout);
        StepError(start, target, BadLayout, false, multiset{});
        return;
      }
      DefineValue(name, value);
    }

    method DefineValue(name: string, value: Value)
      requires Inv(Now(), target) && name in models && value == models[name] && name in allowed
      requires name !in completed && name !in visiting
      requires IsRepresentable(models, target.pointerWidth, name, visiting)
      modifies this
      ensures Inv(Now(), target) && Grew(old(Now()), Now()) && name in completed
      ensures Step(old(Now()), Now(), target, true, multiset{})
      decreases models.Keys - visiting, 0, 0
    {
      hide Inv, IsNewName, ValueTracked, ValueHeld, IsLayoutOf, State.IsKnown, IsRepresentable, IsIdentifier, Flatten, Grew,
           Step, ValueLowers, PartNames, IsQualified, Reserved, ValueHasArrays;
      ghost var start := Now();
      VisitValue(name);
      ghost var reserved := Now();
      assert visiting - {name} == start.visiting;
      var fields := LowerFields(name, value);
      GrewKeeps(reserved, Now());
      var layout := ValueLayout(name, Flatten(name), fields);
      ValueLowered(start, Now(), target, layout);
      values := values + [layout];
      ordered := ordered + [ValueDefinition(|values| - 1)];
      visiting := visiting - {name};
      completed := completed + {name};
    }

    method VisitValue(name: string)
      requires Inv(Now(), target) && name in models && name in allowed && name !in completed && name !in visiting
      modifies this
      ensures Now() == Reserved(old(Now()).(visiting := old(visiting) + {name}), Flatten(name))
      ensures Inv(Now(), target) && visiting == old(visiting) + {name}
      ensures models == old(models) && allowed == old(allowed)
    {
      hide Inv, IsIdentifier, Flatten, IsNewName;
      ValueEntered(Now(), target, name);
      visiting := visiting + {name};
      ReservedKeeps(Now(), Flatten(name));
      Reserve(Flatten(name));
    }

    /** The F# types of what the value holds: the underlying integer of an enum, or the fields of a record. */
    method LowerFields(name: string, value: Value) returns (fields: seq<Lowered>)
      requires Inv(Now(), target) && name in models && value == models[name] && name in visiting
      requires IsRepresentable(models, target.pointerWidth, name, visiting - {name})
      modifies this
      ensures Inv(Now(), target) && Grew(old(Now()), Now())
      ensures forall p :: 0 <= p < |fields| ==> Now().IsKnown(fields[p].name, |ordered|)
      ensures clean ==> IsLayoutOf(ValueLayout(name, Flatten(name), fields), models, target)
      ensures clean ==> ValueHasArrays(Now(), target, Flatten(name), value)
      ensures ValueTracked(Now(), target, value) && (clean ==> ValueHeld(Now(), value))
      ensures Step(old(Now()), Now(), target, ValueLowers(target, models, name), PartNames(name, value))
      decreases models.Keys - visiting, 3
    {
      hide Step;
      assert visiting - {name} + {name} == visiting;
      if value.target.kind == EnumType {
        fields := LowerEnum(name, value);
      } else {
        fields := LowerRecord(name, value);
      }
    }

    /** The underlying integer; the names of the cases are distinct identifiers. */
    method LowerEnum(name: string, value: Value) returns (fields: seq<Lowered>)
      requires Inv(Now(), target) && name in models && value == models[name] && name in visiting
      requires value.target.kind == EnumType
      requires IsSimple(models, target.pointerWidth, value.underlying, visiting)
      modifies this
      ensures Inv(Now(), target) && Grew(old(Now()), Now())
      ensures forall p :: 0 <= p < |fields| ==> Now().IsKnown(fields[p].name, |ordered|)
      ensures clean ==> IsLayoutOf(ValueLayout(name, Flatten(name), fields), models, target) && CasesFit(value.cases)
      ensures clean ==> HasArrays(Now(), target, value.underlying, Flatten(name))
      ensures TypeTracked(Now(), target, value.underlying) && (clean ==> TypeHeld(Now(), value.underlying))
      ensures Step(old(Now()), Now(), target,
                   Lowers(target, models, value.underlying, false) && CasesFit(value.cases),
                   ArrayNames(value.underlying, Flatten(name)))
      decreases models.Keys - visiting, 2
    {
      hide Inv, State.IsKnown, IsSimple, Spelled, TypeTracked, Flatten, Step, Lowers, ArrayNames, CasesFit, HasArrays;
      ghost var start := Now();
      PartWithin(Now(), target, name, value.underlying);
      var underlying := Lower(value.underlying, Flatten(name), false);
      ghost var lowered := Now();
      CheckCases(value.cases);
      GrewTwice(start, lowered, Now());
      KnownStays(lowered, Now(), underlying.name);
      TrackedStays(lowered, Now(), target, value.underlying);
      StepBefore(start, lowered, Now(), target, Lowers(target, models, value.underlying, false),
                 ArrayNames(value.underlying, Flatten(name)), CasesFit(value.cases));
      StepIsOk(lowered, Now(), target, CasesFit(value.cases), multiset{});
      if clean {
        ArraysStay(lowered, Now(), target, value.underlying, Flatten(name));
      }
      return [underlying];
    }

    method LowerRecord(name: string, value: Value) returns (fields: seq<Lowered>)
      requires Inv(Now(), target) && name in models && value == models[name] && name in visiting
      requires value.target.kind != EnumType
      requires FieldsFit(models, target.pointerWidth, value, 0, 0, 1, visiting)
      modifies this
      ensures Inv(Now(), target) && Grew(old(Now()), Now())
      ensures forall p :: 0 <= p < |fields| ==> Now().IsKnown(fields[p].name, |ordered|)
      ensures clean ==> IsLayoutOf(ValueLayout(name, Flatten(name), fields), models, target)
      ensures clean ==> ValueHasArrays(Now(), target, Flatten(name), value)
      ensures forall i :: 0 <= i < |value.fields| ==> TypeTracked(Now(), target, value.fields[i].fieldType)
      ensures clean ==> forall i :: 0 <= i < |value.fields| ==> TypeHeld(Now(), value.fields[i].fieldType)
      ensures Step(old(Now()), Now(), target, RecordLowers(target, models, value.fields, |value.fields|),
                   RecordNames(value.fields, |value.fields|, Flatten(name)))
      decreases models.Keys - visiting, 2
    {
      hide Inv, IsSimple, Spelled, TypeTracked, TypeHeld, Flatten, FieldsFit, Step, Lowers, ArrayNames, Grew, State.IsKnown,
           TypeWithin, HasArrays, IsLayoutOf, ValueHasArrays;
      ghost var start := Now();
      RecordStart(start, target, name, value);
      fields := [];
      for k := 0 to |value.fields|
        invariant Grew(start, Now()) && RecordSoFar(start, Now(), target, name, value, fields, k)
      {
        ghost var before := Now();
        GrewKeeps(start, before);
        FieldIsSimple(models, target.pointerWidth, value, 0, 0, 1, visiting, k);
        PartWithin(before, target, name, value.fields[k].fieldType);
        var field := Lower(value.fields[k].fieldType, Flatten(name) + "_" + value.fields[k].name, false);
        GrewKeeps(before, Now());
        RecordNext(start, before, Now(), target, name, value, fields, k, field);
        GrewTwice(start, before, Now());
        fields := fields + [field];
      }
      GrewKeeps(start, Now());
      RecordEnd(start, Now(), target, name, value, fields);
    }

    /** Case names are distinct identifiers. */
    method CheckCases(cases: seq<Case>)
      requires Inv(Now(), target)
      modifies this
      ensures Inv(Now(), target) && Grew(old(Now()), Now())
      ensures Now() == old(Now()).(errors := errors, clean := clean)
      ensures Step(old(Now()), Now(), target, CasesFit(cases), multiset{})
    {
      hide Inv, IsIdentifier;
      var seen: set<string> := {};
      for i := 0 to |cases|
        invariant Inv(Now(), target) && Grew(old(Now()), Now())
        invariant Now() == old(Now()).(errors := errors, clean := clean)
        invariant forall c :: c in seen <==> exists j :: 0 <= j < i && cases[j].name == c && IsIdentifier(c)
        invariant clean <==> old(clean) && CasesFit(cases[..i])
      {
        assert cases[..i + 1] == cases[..i] + [cases[i]];
        CasesMore(cases, i, seen);
        if !IsIdentifier(cases[i].name) || cases[i].name in seen {
          Complain(BadLayout);
        }
        if IsIdentifier(cases[i].name) {
          seen := seen + {cases[i].name};
        }
      }
      assert cases[..|cases|] == cases;
    }

    method ReserveFor(name: string)
      requires Inv(Now(), target)
      modifies this
      ensures Now() == Reserved(old(Now()), name)
      ensures Inv(Now(), target) && Grew(old(Now()), Now())
      ensures Step(old(Now()), Now(), target, true, multiset{name})
    {
      StepReserved(Now(), target, name);
      ReservedFits(Now(), target, name);
      Reserve(name);
    }

    /** The delegate of one function pointer. */
    method LowerFunction(t: Table, f: Field) returns (layout: FunctionLayout)
      requires Inv(Now(), target) && visiting == {} && SignatureWithin(target, models, allowed, f)
      requires f.fieldType.pointee.Some? && HasKnownPrototype(f.fieldType.pointee.value) && !IsHeader(t, f)
      modifies this
      ensures Inv(Now(), target) && Grew(old(Now()), Now())
      ensures layout.field == f && SignatureFits(Now(), target, t, layout)
      ensures Step(old(Now()), Now(), target, SignatureLowers(target, models, f.fieldType.pointee.value), FieldNames(t, f))
    {
      hide Inv, State.IsKnown, Spelled, TypeTracked, CallingConvention, ToString, Step, Lowers, ArrayNames, ParametersLower;
      ghost var start := Now();
      var function_ := f.fieldType.pointee.value;
      var delegate := DelegateName(t, f);
      var convention := FindConvention(function_);
      ghost var known := Now();
      ReserveFor(delegate);
      GrewTwice(start, known, Now());
      ghost var named := Now();
      ReserveFor(CallbackName(t, f));
      GrewTwice(start, named, Now());
      ghost var rooted := Now();
      StepSignatureNames(start, known, named, rooted, target, CallingConvention(target, function_).Some?, delegate,
                         CallbackName(t, f));
      PartsWithin(target, models, allowed, f);
      var result := Lower(function_.result.value, delegate + "_Result", true);
      GrewTwice(start, rooted, Now());
      ghost var spelled := Now();
      StepTwice(start, rooted, spelled, target, CallingConvention(target, function_).Some?,
                multiset{delegate} + multiset{CallbackName(t, f)}, Lowers(target, models, function_.result.value, true),
                ArrayNames(function_.result.value, delegate + "_Result"));
      var parameters := LowerParameters(function_, delegate, result);
      GrewTwice(start, spelled, Now());
      StepBefore(start, spelled, Now(), target,
                 CallingConvention(target, function_).Some? && Lowers(target, models, function_.result.value, true),
                 FieldNames(t, f), ParametersLower(target, models, function_.parameters, |function_.parameters|));
      layout := FunctionLayout(f, delegate, convention, result, parameters);
    }

    method LowerParameters(function_: Type, delegate: string, result: Lowered) returns (parameters: seq<Lowered>)
      requires Inv(Now(), target) && visiting == {} && function_.result.Some?
      requires forall i :: 0 <= i < |function_.parameters| ==>
                 TypeWithin(target, models, allowed, function_.parameters[i])
      requires PartFits(Now(), target, function_.result.value, delegate + "_Result", true, result)
      modifies this
      ensures Inv(Now(), target) && Grew(old(Now()), Now())
      ensures PartFits(Now(), target, function_.result.value, delegate + "_Result", true, result)
      ensures |parameters| == |function_.parameters|
      ensures forall i :: 0 <= i < |parameters| ==>
                PartFits(Now(), target, function_.parameters[i], delegate + "_Argument" + ToString(i), false, parameters[i])
      ensures Step(old(Now()), Now(), target,
                   ParametersLower(target, models, function_.parameters, |function_.parameters|), multiset{})
    {
      hide Inv, PartFits, ToString, Step, Lowers, TypeWithin, Grew;
      ghost var start := Now();
      ParametersStart(start, target, delegate, function_.parameters);
      parameters := [];
      for k := 0 to |function_.parameters|
        invariant Grew(start, Now())
        invariant ParametersSoFar(start, Now(), target, delegate, function_.parameters, parameters, k)
      {
        ghost var before := Now();
        GrewKeeps(start, before);
        var parameter := LowerParameter(function_.parameters[k], delegate + "_Argument" + ToString(k));
        GrewKeeps(before, Now());
        ParametersNext(start, before, Now(), target, delegate, function_.parameters, parameters, k, parameter);
        GrewTwice(start, before, Now());
        parameters := parameters + [parameter];
      }
      GrewKeeps(start, Now());
      PartStays(start, Now(), target, function_.result.value, delegate + "_Result", true, result);
    }

    /** An array cannot be a parameter. */
    method LowerParameter(t: Type, context: string) returns (r: Lowered)
      requires Inv(Now(), target) && visiting == {} && TypeWithin(target, models, allowed, t)
      modifies this
      ensures Inv(Now(), target) && Grew(old(Now()), Now())
      ensures PartFits(Now(), target, t, context, false, r)
      ensures Step(old(Now()), Now(), target, t.kind != ArrayType && Lowers(target, models, t, false), multiset{})
    {
      hide Inv, State.IsKnown, Spelled, TypeTracked, Step, Lowers;
      ghost var start := Now();
      StepNone(start, start, target);
      if t.kind == ArrayType {
        Complain(UnsupportedType);
        StepError(start, target, UnsupportedType, false, multiset{});
      }
      ghost var middle := Now();
      r := Lower(t, context, false);
      GrewTwice(start, middle, Now());
      if t.kind == ArrayType {
        StepTwice(start, middle, Now(), target, false, multiset{}, Lowers(target, models, t, false), ArrayNames(t, context));
        StepNotOk(start, Now(), target, multiset{} + ArrayNames(t, context), multiset{});
      } else {
        StepBefore(start, middle, Now(), target, true, multiset{}, Lowers(target, models, t, false));
      }
    }

    /** One field of a table: part of the header, a function pointer, or an error. */
    method LowerField(t: Table, f: Field, layout: TableLayout) returns (next: TableLayout)
      requires Inv(Now(), target) && visiting == {} && layout.table == t
      requires !IsHeader(t, f) ==> SignatureWithin(target, models, allowed, f)
      requires forall i :: 0 <= i < |layout.functions| ==> SignatureFits(Now(), target, t, layout.functions[i])
      modifies this
      ensures Inv(Now(), target) && Grew(old(Now()), Now()) && next.table == t
      ensures forall i :: 0 <= i < |next.functions| ==> SignatureFits(Now(), target, t, next.functions[i])
      ensures clean ==> IsNextLayout(t, f, layout, next)
      ensures Step(old(Now()), Now(), target, FieldLowers(target, models, t, f), FieldNames(t, f))
    {
      hide Inv, SignatureFits, Step, SignatureLowers;
      ghost var start := Now();
      StepNone(start, start, target);
      if IsHeader(t, f) {
        if !IsHeaderInteger(f) {
          Complain(BadLayout);
          StepError(start, target, BadLayout, false, FieldNames(t, f));
        }
        SignaturesStay(start, Now(), target, t, layout.functions);
        return if f.name == t.versionField then layout.(versionOffset := f.offset)
               else layout.(sizeOffset := f.offset);
      }
      if !IsFunctionPointer(target, f) {
        Complain(BadLayout);
        StepError(start, target, BadLayout, false, FieldNames(t, f));
        SignaturesStay(start, Now(), target, t, layout.functions);
        return layout;
      }
      if !HasKnownPrototype(f.fieldType.pointee.value) {
        Complain(UnsupportedType);
        StepError(start, target, UnsupportedType, false, FieldNames(t, f));
        SignaturesStay(start, Now(), target, t, layout.functions);
        return layout;
      }
      var method_ := LowerMember(t, f);
      SignaturesStay(start, Now(), target, t, layout.functions);
      return layout.(functions := layout.functions + [method_]);
    }

    /** A function pointer, whose name must not be one that the binding has. */
    method LowerMember(t: Table, f: Field) returns (layout: FunctionLayout)
      requires Inv(Now(), target) && visiting == {} && SignatureWithin(target, models, allowed, f)
      requires IsFunctionPointer(target, f) && HasKnownPrototype(f.fieldType.pointee.value) && !IsHeader(t, f)
      modifies this
      ensures Inv(Now(), target) && Grew(old(Now()), Now())
      ensures layout.field == f && SignatureFits(Now(), target, t, layout)
      ensures Step(old(Now()), Now(), target, FunctionLowers(target, models, f), FieldNames(t, f))
    {
      hide Inv, SignatureFits, Step, SignatureLowers, FieldNames;
      ghost var start := Now();
      layout := LowerFunction(t, f);
      ghost var lowered := Now();
      StepNone(lowered, lowered, target);
      if f.name == "Bind" || f.name == "Address" || f.name == "AvailableBytes" {
        Complain(NameCollision);
        StepError(lowered, target, NameCollision, false, multiset{});
        SignatureStays(lowered, Now(), target, t, layout);
      }
      GrewTwice(start, lowered, Now());
      StepBefore(start, lowered, Now(), target, SignatureLowers(target, models, f.fieldType.pointee.value), FieldNames(t, f),
                 f.name != "Bind" && f.name != "Address" && f.name != "AvailableBytes");
    }

    method LowerTable(t: Table) returns (r: Option<TableLayout>)
      requires Inv(Now(), target) && visiting == {} && TableWithin(target, models, allowed, t)
      modifies this
      ensures Inv(Now(), target) && Grew(old(Now()), Now())
      ensures clean ==> r.Some?
      ensures r.Some? ==> r.value.table == t && TableFits(Now(), target, r.value)
      ensures Step(old(Now()), Now(), target, TableLowers(target, models, t), FieldsNames(t, |t.table.fields|))
    {
      hide Inv, SignatureFits, IsTable, Step, FieldsLower, FieldsNames, IsOffsetOf, HasField;
      ghost var start := Now();
      if !IsTable(target, t) {
        Complain(BadLayout);
        StepError(start, target, BadLayout, false, FieldsNames(t, |t.table.fields|));
        return None;
      }
      var layout := LowerTableFields(t);
      ghost var before := Now();
      StepIsOk(start, before, target, FieldsLower(target, models, t, |t.table.fields|), FieldsNames(t, |t.table.fields|));
      HeadFieldsDiffer(target, t);
      if before.clean {
        HeadersDiffer(target, models, t, layout.versionOffset, layout.sizeOffset);
      }
      ghost var isWhole := HasField(t, t.versionField, |t.table.fields|)
                           && HasField(t, t.sizeField, |t.table.fields|) && Payload(t, 0) != [];
      StepNone(before, before, target);
      if layout.versionOffset < 0 || layout.sizeOffset < 0 || layout.versionOffset == layout.sizeOffset
         || layout.functions == [] {
        Complain(BadLayout);
        StepError(before, target, BadLayout, isWhole, multiset{});
        SignaturesStay(before, Now(), target, t, layout.functions);
        GrewTwice(start, before, Now());
      } else {
        StepSameOk(before, Now(), target, true, isWhole, multiset{});
      }
      StepBefore(start, before, Now(), target, FieldsLower(target, models, t, |t.table.fields|),
                 FieldsNames(t, |t.table.fields|), isWhole);
      return Some(layout);
    }

    /** The fields of a table in their order. */
    method LowerTableFields(t: Table) returns (layout: TableLayout)
      requires Inv(Now(), target) && visiting == {} && TableWithin(target, models, allowed, t)
      requires IsTable(target, t)
      modifies this
      ensures Inv(Now(), target) && Grew(old(Now()), Now()) && layout.table == t
      ensures forall i :: 0 <= i < |layout.functions| ==> SignatureFits(Now(), target, t, layout.functions[i])
      ensures clean ==>
                && FieldsOf(layout.functions) == Payload(t, 0)
                && IsOffsetOf(t, t.versionField, |t.table.fields|, layout.versionOffset)
                && IsOffsetOf(t, t.sizeField, |t.table.fields|, layout.sizeOffset)
      ensures Step(old(Now()), Now(), target, FieldsLower(target, models, t, |t.table.fields|),
                   FieldsNames(t, |t.table.fields|))
    {
      hide Inv, SignatureFits, Step, FieldLowers, FieldNames, IsHeader, IsIdentifier, IsOffsetOf, Grew, TableWithin, Payload,
           FieldsNames, FieldsLower, IsTable;
      ghost var start := Now();
      HeadFieldsDiffer(target, t);
      FieldsStart(start, target, t);
      StepNone(start, start, target);
      layout := TableLayout(t, -1, -1, []);
      var end := 0;
      var seen: set<string> := {};
      for k := 0 to |t.table.fields|
        invariant Grew(start, Now()) && layout.table == t && FieldsSoFar(start, Now(), target, layout, k)
        invariant clean ==> end == EndBefore(t, k) && seen == NamesBefore(t, k)
      {
        var f := t.table.fields[k];
        ghost var before, earlier := Now(), layout;
        GrewKeeps(start, before);
        if !f.isPublic || f.isBitfield || !IsIdentifier(f.name) || f.name in seen || f.offset < end
           || f.fieldType.size <= 0 || f.offset > t.table.target.size - f.fieldType.size {
          if f.isPublic && !f.isBitfield && IsIdentifier(f.name) {
            seen := seen + {f.name};
          }
          Complain(BadLayout);
          StepError(before, target, BadLayout, IsInPlace(t, k) && FieldLowers(target, models, t, f), FieldNames(t, f));
          SignaturesStay(before, Now(), target, t, layout.functions);
        } else {
          seen := seen + {f.name};
          end := f.offset + f.fieldType.size;
          FieldWithin(target, models, allowed, t, k);
          layout := LowerField(t, f, layout);
          GrewKeeps(before, Now());
          GrewTracks(before, Now());
          StepSameOk(before, Now(), target, FieldLowers(target, models, t, f),
                     IsInPlace(t, k) && FieldLowers(target, models, t, f), FieldNames(t, f));
        }
        FieldsNext(start, before, Now(), target, earlier, k, layout);
        GrewTwice(start, before, Now());
      }
      GrewKeeps(start, Now());
      PayloadEnds(t, FieldsOf(layout.functions));
    }

    // The whole lowering

    /** The value layouts the tables name; the first one of a name counts, and another one must look the same. */
    method AddModels(t: Table)
      requires Now() == Fresh(models, names, errors, allowed)
      modifies this
      ensures Now() == Fresh(models, names, errors, allowed) && names == old(names) && allowed == old(allowed)
      ensures models == WithValues(old(models), t.values)
      ensures errors == [] <==> old(errors) == [] && ValuesAgree(models, t.values)
    {
      hide Image, ValuesAgree;
      NoValues(models);
      for k := 0 to |t.values|
        invariant Now() == Fresh(models, names, errors, allowed) && names == old(names) && allowed == old(allowed)
        invariant models == WithValues(old(models), t.values[..k])
        invariant errors == [] <==> old(errors) == [] && ValuesAgree(models, t.values[..k])
      {
        assert t.values[..k + 1][..k] == t.values[..k];
        WithValuesKeeps(old(models), t.values[..k]);
        ghost var before := models;
        AddModel(t.values[k]);
        AgreementGrows(before, models, t.values, k);
      }
      assert t.values[..|t.values|] == t.values;
    }

    method AddModel(value: Value)
      requires Now() == Fresh(models, names, errors, allowed)
      modifies this
      ensures Now() == Fresh(models, names, errors, allowed) && names == old(names) && allowed == old(allowed)
      ensures models == if value.target.declaration in old(models) then old(models)
                        else old(models)[value.target.declaration := value]
      ensures errors == [] <==> old(errors) == [] && Image(models[value.target.declaration]) == Image(value)
    {
      hide Image;
      if value.target.declaration !in models {
        models := models[value.target.declaration := value];
      } else if Image(models[value.target.declaration]) != Image(value) {
        Error(BadLayout);
        clean := false;
      }
    }

    /** Declares what is only pointed to; a new declaration can add more. */
    method DrainPointed(layouts: seq<TableLayout>)
      requires Inv(Now(), target) && visiting == {} && taken == {} && TablesFit(Now(), target, layouts)
      modifies this
      ensures Inv(Now(), target) && visiting == {} && pointed == {} && taken == {} && TablesFit(Now(), target, layouts)
      ensures models == old(models) && allowed == old(allowed) && old(errors) <= errors
      ensures old(values) <= values && Step(old(Now()), Now(), target, true, multiset{})
    {
      hide TablesFit, Inv, Step;
      ghost var start := Now();
      StepNone(start, start, target);
      while pointed != {}
        invariant Inv(Now(), target) && visiting == {} && taken == {} && TablesFit(Now(), target, layouts)
        invariant models == old(models) && allowed == old(allowed) && old(errors) <= errors
        invariant start.values <= values && Step(start, Now(), target, true, multiset{})
        decreases models.Keys - completed, pointed
      {
        ghost var before := Now();
        DeclareOne(layouts);
        CompletedIsInModels(Now(), target);
        StepOn(start, before, Now(), target, true, multiset{});
      }
    }

    /** Takes one name off the worklist: either a new declaration is made, or the worklist is shorter. */
    method DeclareOne(layouts: seq<TableLayout>)
      requires Inv(Now(), target) && visiting == {} && taken == {} && TablesFit(Now(), target, layouts)
      requires pointed != {}
      modifies this
      ensures Inv(Now(), target) && visiting == {} && taken == {} && TablesFit(Now(), target, layouts)
      ensures models == old(models) && allowed == old(allowed) && old(errors) <= errors
      ensures old(values) <= values && Step(old(Now()), Now(), target, true, multiset{})
      ensures old(completed) < completed || (completed == old(completed) && pointed < old(pointed))
    {
      hide Inv, TablesFit, Step;
      ghost var start := Now();
      var name :| name in pointed;
      NameTaken(start, target, layouts, name);
      pointed := pointed - {name};
      taken := {name};
      ghost var popped := Now();
      LowerValue(name);
      ghost var lowered := Now();
      taken := {};
      NameReleased(start, popped, lowered, target, layouts, name);
    }

    /**
     Lowers the tables, sorted by name. There is an output exactly when they are accepted; its definitions are then
     complete, and the emitter's state says what they are.
     */
    method Run(tables: seq<Table>, options: Options) returns (r: Option<seq<TableLayout>>)
      requires Now() == Fresh(map[], {}, [], {})
      modifies this
      ensures r.Some? <==> errors == []
      ensures r.Some? <==> Accepts(target, options, tables)
      ensures r.Some? ==> IsFinished(Now(), target) && TablesFit(Now(), target, r.value)
      ensures r.Some? ==>
                multiset(TablesOf(r.value)) == multiset(tables) && SortedBy(TablesOf(r.value), ManagedName)
      ensures r.Some? ==> completed == Declared(target, models, TablesOf(r.value))
      ensures r.Some? ==> OutputStands(Now(), target, r.value)
    {
      hide IsLowered, OutputStands, Accepts, Declared, IsFinished, TablesFit, ModelsOf, HeadFits, TablesAgree, SortedBy;
      CheckHead(tables, options);
      var sorted := SortBy(tables, ManagedName);
      SameHead(target, options, tables, sorted);
      CollectModels(sorted);
      var layouts := LowerSorted(sorted, options);
      AcceptedExactly(target, options, tables, sorted);
      if errors != [] {
        return None;
      }
      OutputIsFaithful(Now(), target, layouts);
      return Some(layouts);
    }

    /** Sorted tables, whose value layouts are collected. */
    method LowerSorted(tables: seq<Table>, ghost options: Options) returns (layouts: seq<TableLayout>)
      requires Now() == Fresh(ModelsOf(tables), {}, errors, {})
      requires errors == [] <==> HeadFits(target, options, tables) && TablesAgree(ModelsOf(tables), tables)
      modifies this
      ensures errors == [] <==> IsLowered(target, options, tables)
      ensures errors == [] ==>
                && IsFinished(Now(), target) && TablesFit(Now(), target, layouts) && TablesOf(layouts) == tables
                && completed == Declared(target, models, tables)
    {
      hide IsLowered, Declared, Inv, TablesFit, Step, Grew, AllTableNames, AllLower, ModelsOf, HeadFits, TablesAgree,
           IsClosed, HasRoots, TableWithin, NamesFit, IsIdentifier, TablesOf;
      allowed := Declared(target, models, tables);
      names := HELPERS;
      claimed := multiset(HELPERS);
      ghost var start := Now();
      DeclaredIsClosed(target, models, tables);
      RootsWithin(target, models, tables, allowed);
      HelpersFit();
      FreshFits(models, names, errors, allowed, target);
      layouts := LowerTables(tables);
      ghost var lowered := Now();
      GrewKeeps(start, lowered);
      if clean {
        TablesMatch(layouts, tables);
      }
      DrainPointed(layouts);
      StepIsOk(lowered, Now(), target, true, multiset{});
      StepOn(start, lowered, Now(), target, AllLower(target, models, tables), AllTableNames(tables));
      ErrorsExactly(start, Now(), target, options, tables, layouts);
    }

    method CheckHead(tables: seq<Table>, options: Options)
      requires Now() == Fresh(map[], {}, [], {})
      modifies this
      ensures Now() == Fresh(map[], {}, errors, {})
      ensures errors == [] <==> HeadFits(target, options, tables)
    {
      hide IsIdentifier, IsQualified, IsSupported;
      if !IsIdentifier(options.moduleName) || !IsQualified(options.namespace_, ".") {
        Error(BadName);
        clean := false;
      }
      if tables != [] && !IsSupported(target) {
        Error(UnsupportedType);
        clean := false;
      }
    }

    method CollectModels(tables: seq<Table>)
      requires Now() == Fresh(map[], {}, errors, {})
      modifies this
      ensures Now() == Fresh(models, {}, errors, {}) && models == ModelsOf(tables)
      ensures errors == [] <==> old(errors) == [] && TablesAgree(models, tables)
    {
      hide WithValues, ValuesAgree;
      for i := 0 to |tables|
        invariant Now() == Fresh(models, {}, errors, {}) && models == ModelsOf(tables[..i])
        invariant errors == [] <==> old(errors) == [] && TablesAgree(models, tables[..i])
      {
        assert tables[..i + 1][..i] == tables[..i];
        AddModels(tables[i]);
        TablesAgreeMore(tables, i);
      }
      assert tables[..|tables|] == tables;
    }

    method LowerTables(tables: seq<Table>) returns (layouts: seq<TableLayout>)
      requires Inv(Now(), target) && visiting == {} && taken == {}
      requires forall i :: 0 <= i < |tables| ==> TableWithin(target, models, allowed, tables[i])
      modifies this
      ensures Inv(Now(), target) && visiting == {} && taken == {} && Grew(old(Now()), Now())
      ensures TablesFit(Now(), target, layouts)
      ensures clean ==>
                |layouts| == |tables| && forall i :: 0 <= i < |tables| ==> layouts[i].table == tables[i]
      ensures Step(old(Now()), Now(), target, AllLower(target, models, tables), AllTableNames(tables))
    {
      hide Inv, Grew, TablesFit, TableFits, TableWithin, Step, TableLowers, TableNames, AllLower, AllTableNames;
      ghost var start := Now();
      layouts := [];
      TablesStart(start, target, tables);
      for k := 0 to |tables|
        invariant Grew(start, Now()) && TablesSoFar(start, Now(), target, tables, layouts, k)
      {
        ghost var before, earlier := Now(), layouts;
        GrewKeeps(start, before);
        var layout := LowerOne(tables[k]);
        if layout.Some? {
          layouts := layouts + [layout.value];
        }
        TablesNext(start, before, Now(), target, tables, earlier, k, layout);
        GrewTwice(start, before, Now());
      }
      GrewKeeps(start, Now());
      TablesEnd(start, Now(), target, tables, layouts);
    }

    /** The names of a table, and its fields. */
    method LowerOne(t: Table) returns (r: Option<TableLayout>)
      requires Inv(Now(), target) && visiting == {} && TableWithin(target, models, allowed, t)
      modifies this
      ensures Inv(Now(), target) && Grew(old(Now()), Now())
      ensures clean ==> r.Some?
      ensures r.Some? ==> r.value.table == t && TableFits(Now(), target, r.value)
      ensures Step(old(Now()), Now(), target, TableLowers(target, models, t), TableNames(t))
    {
      hide Inv, TableFits, TableWithin, Step, TableLowers, FieldsNames;
      ghost var start := Now();
      ReserveFor(t.managedName);
      ghost var first := Now();
      ReserveFor(t.managedName + "Version");
      ghost var second := Now();
      ReserveFor(t.managedName + "Size");
      ghost var third := Now();
      r := LowerTable(t);
      GrewTwice(start, first, second);
      GrewTwice(start, second, third);
      GrewTwice(start, third, Now());
      StepTwice(start, first, second, target, true, multiset{t.managedName}, true, multiset{t.managedName + "Version"});
      StepTwice(start, second, third, target, true, multiset{t.managedName} + multiset{t.managedName + "Version"}, true,
                multiset{t.managedName + "Size"});
      StepTwice(start, third, Now(), target, true,
                multiset{t.managedName} + multiset{t.managedName + "Version"} + multiset{t.managedName + "Size"},
                TableLowers(target, models, t), FieldsNames(t, |t.table.fields|));
    }
  }
}
