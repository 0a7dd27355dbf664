/** The state of a lowering of native tables, and what every step of it keeps. */
module FSharpState {
  import opened Bytes
  import opened Decimals
  import opened FSharpModel
  import opened Names
  import opened FSharpAcceptance

  datatype Code = BadName | BadLayout | UnsupportedType | NameCollision

  datatype ArrayLayout = ArrayLayout(name: string, element: Lowered, count: int, size: int, align: int)

  datatype ValueLayout = ValueLayout(declaration: string, name: string, fields: seq<Lowered>)

  datatype FunctionLayout = FunctionLayout(field: Field, delegate: string, convention: string,
                                           result: Lowered, parameters: seq<Lowered>)

  datatype TableLayout = TableLayout(table: Table, versionOffset: int, sizeOffset: int, functions: seq<FunctionLayout>)

  /** A definition of the generated file: an inline array, or a struct or an enum. */
  datatype Definition = ArrayDefinition(index: nat) | ValueDefinition(index: nat)

  const REFUSED := Lowered("", -1, -1)

  // The state of a lowering

  /**
   The fields of an emitter, and what a lowering is judged by: the value types that may be declared, the names
   that were claimed whether or not they were free, and whether anything but a name was wrong.
   */
  datatype State = State(
    models: Models,
    completed: set<string>,
    visiting: set<string>,
    pointed: set<string>,
    taken: set<string>,
    names: set<string>,
    arrays: seq<ArrayLayout>,
    values: seq<ValueLayout>,
    ordered: seq<Definition>,
    errors: seq<Code>,
    allowed: set<string>,
    claimed: multiset<string>,
    clean: bool)
  {
    predicate InRange(k: nat) {
      k < |ordered|
      && if ordered[k].ArrayDefinition? then ordered[k].index < |arrays| else ordered[k].index < |values|
    }

    function NameOf(k: nat): string
      requires InRange(k)
    {
      if ordered[k].ArrayDefinition? then arrays[ordered[k].index].name else values[ordered[k].index].name
    }

    /** The types of which the definition is made. */
    function PartsOf(k: nat): seq<Lowered>
      requires InRange(k)
    {
      if ordered[k].ArrayDefinition? then [arrays[ordered[k].index].element] else values[ordered[k].index].fields
    }

    /** Known to be declared now or later; `taken` was just taken off the worklist. */
    function Tracked(): set<string> {
      completed + visiting + pointed + taken
    }

    /** One of the names a definition before number `limit` gives. */
    ghost predicate IsDefined(name: string, limit: nat) {
      exists k :: 0 <= k < limit && InRange(k) && FsName(NameOf(k)) == name
    }

    /** A name that may stand in a definition: built in, defined before, or missing because of an error. */
    ghost predicate IsKnown(name: string, limit: nat) {
      (name == REFUSED.name && errors != []) || IsBuiltIn(name) || IsDefined(name, limit)
    }
  }

  predicate IsBuiltIn(name: string) {
    MeaningOf(name).Some?
  }

  /** Every part of a definition is known before it. */
  ghost predicate InOrder(s: State) {
    forall k :: 0 <= k < |s.ordered| ==> PartsKnown(s, k)
  }

  ghost predicate PartsKnown(s: State, k: nat) {
    s.InRange(k) && forall p :: 0 <= p < |s.PartsOf(k)| ==> s.IsKnown(s.PartsOf(k)[p].name, k)
  }

  /** Number `k` is the definition of the value type. */
  ghost predicate Defines(s: State, k: nat, name: string) {
    && s.InRange(k) && s.ordered[k].ValueDefinition?
    && s.values[s.ordered[k].index].declaration == name && s.values[s.ordered[k].index].name == Flatten(name)
  }

  /** The completed value types are the defined ones, and each is defined once. */
  ghost predicate DefinedOnce(s: State) {
    && (forall n :: n in s.completed ==> exists k :: 0 <= k < |s.ordered| && Defines(s, k, n))
    && (forall i :: 0 <= i < |s.values| ==> s.values[i].declaration in s.completed)
    && (forall i, j :: 0 <= i < j < |s.values| ==> s.values[i].declaration != s.values[j].declaration)
    && (forall k, l :: 0 <= k < l < |s.ordered| ==> s.ordered[k] != s.ordered[l])
  }

  /** Without an error, the names of definitions are reserved, and no two are equal. */
  ghost predicate NamesDiffer(s: State) {
    && (forall k :: 0 <= k < |s.ordered| ==> s.InRange(k) && (s.errors == [] ==> s.NameOf(k) in s.names))
    && (s.errors == [] ==>
          forall k, l :: 0 <= k < l < |s.ordered| && s.InRange(k) && s.InRange(l) ==> s.NameOf(k) != s.NameOf(l))
  }

  /** Each value definition has the F# types of its fields, in their order, and its arrays are defined. */
  ghost predicate FieldsSpelled(s: State, target: Target) {
    s.clean ==> forall i :: 0 <= i < |s.values| ==>
                  IsLayoutOf(s.values[i], s.models, target) && LayoutHasArrays(s, target, s.values[i])
  }

  /** The inline array of that name, with the count of the native one and the F# type of its elements. */
  predicate IsArrayOf(a: ArrayLayout, target: Target, models: Models, t: Type, name: string)
    requires IsInlineArray(t)
  {
    && a.name == name && a.count == t.length && a.size == t.size && a.align == t.align
    && Spelled(target, models, t.element.value, name + "_Element", false) == Some(a.element)
  }

  /** Every inline array in the type is defined. */
  ghost predicate HasArrays(s: State, target: Target, t: Type, context: string)
    decreases t
  {
    IsInlineArray(t) ==>
      && (exists k :: 0 <= k < |s.arrays| && IsArrayOf(s.arrays[k], target, s.models, t, context + "_Array"))
      && HasArrays(s, target, t.element.value, context + "_Array" + "_Element")
  }

  ghost predicate LayoutHasArrays(s: State, target: Target, layout: ValueLayout) {
    layout.declaration in s.models ==> ValueHasArrays(s, target, layout.name, s.models[layout.declaration])
  }

  ghost predicate ValueHasArrays(s: State, target: Target, name: string, value: Value) {
    if value.target.kind == EnumType then HasArrays(s, target, value.underlying, name)
    else forall i :: 0 <= i < |value.fields| ==> FieldHasArrays(s, target, name, value.fields[i])
  }

  ghost predicate FieldHasArrays(s: State, target: Target, name: string, f: Field) {
    HasArrays(s, target, f.fieldType, name + "_" + f.name)
  }

  predicate IsLayoutOf(layout: ValueLayout, models: Models, target: Target) {
    && layout.declaration in models
    && var value := models[layout.declaration];
       && layout.name == Flatten(layout.declaration)
       && if value.target.kind == EnumType then
            && |layout.fields| == 1 && CasesFit(value.cases)
            && Spelled(target, models, value.underlying, layout.name, false) == Some(layout.fields[0])
          else
            && |layout.fields| == |value.fields|
            && forall i :: 0 <= i < |value.fields| ==>
                 Spelled(target, models, value.fields[i].fieldType, layout.name + "_" + value.fields[i].name, false)
                 == Some(layout.fields[i])
  }

  ghost predicate TypeTracked(s: State, target: Target, t: Type) {
    match PointedBy(target, t)
    case None => true
    case Some(name) => IsRepresentable(s.models, target.pointerWidth, name, {}) ==> name in s.Tracked()
  }

  ghost predicate ValueTracked(s: State, target: Target, value: Value) {
    if value.target.kind == EnumType then TypeTracked(s, target, value.underlying)
    else forall i :: 0 <= i < |value.fields| ==> TypeTracked(s, target, value.fields[i].fieldType)
  }

  /** What a defined value type points to, if it can be declared, is declared or will be. */
  ghost predicate PointersTracked(s: State, target: Target) {
    forall n :: n in s.completed && n in s.models ==> ValueTracked(s, target, s.models[n])
  }

  /** What the type holds by value is defined. */
  predicate TypeHeld(s: State, t: Type) {
    Held(t).Some? ==> Held(t).value in s.completed
  }

  predicate ValueHeld(s: State, value: Value) {
    if value.target.kind == EnumType then TypeHeld(s, value.underlying)
    else forall i :: 0 <= i < |value.fields| ==> TypeHeld(s, value.fields[i].fieldType)
  }

  /** What a value type holds by value is defined before it. */
  ghost predicate HeldFirst(s: State) {
    s.clean ==>
      forall k: nat, n, inner :: Defines(s, k, n) && Holds(s.models, n, inner) ==>
        exists l: nat :: l < k && Defines(s, l, inner)
  }

  ghost predicate SetsFit(s: State, target: Target) {
    && s.completed <= s.models.Keys && s.visiting <= s.models.Keys && s.pointed <= s.models.Keys
    && s.completed !! s.visiting && s.Tracked() <= s.allowed
    && (forall p :: p in s.pointed ==> IsRepresentable(s.models, target.pointerWidth, p, {}))
  }

  /** An error is a type, a value or a table that cannot be lowered, or a name that is taken or no identifier. */
  ghost predicate IsExact(s: State) {
    && (s.errors == [] <==> s.clean && NamesFit(s.claimed))
    && (s.errors == [] ==> forall x :: x in s.names <==> x in s.claimed)
  }

  ghost predicate Inv(s: State, target: Target) {
    && SetsFit(s, target) && InOrder(s) && DefinedOnce(s) && NamesDiffer(s)
    && FieldsSpelled(s, target) && PointersTracked(s, target) && HeldFirst(s)
    && IsExact(s) && IsClosed(target, s.models, s.allowed)
  }

  /** From `a` to `b` definitions, names and errors were only added, and new definitions have new names. */
  ghost predicate Grew(a: State, b: State) {
    && a.models == b.models && a.visiting == b.visiting && a.taken == b.taken
    && a.allowed == b.allowed && (b.clean ==> a.clean)
    && a.completed <= b.completed && a.names <= b.names && a.Tracked() <= b.Tracked()
    && a.arrays <= b.arrays && a.values <= b.values && a.ordered <= b.ordered && a.errors <= b.errors
    && (forall k :: |a.ordered| <= k < |b.ordered| ==> b.InRange(k) && (b.errors == [] ==> b.NameOf(k) !in a.names))
  }

  // Function tables

  /** A delegate whose result and parameters are known, tracked, and, if all is clean, those of the field. */
  ghost predicate SignatureFits(s: State, target: Target, t: Table, l: FunctionLayout) {
    && l.field.fieldType.pointee.Some? && l.field.fieldType.pointee.value.result.Some?
    && var f := l.field.fieldType.pointee.value;
       && l.delegate == DelegateName(t, l.field)
       && |l.parameters| == |f.parameters|
       && PartFits(s, target, f.result.value, l.delegate + "_Result", true, l.result)
       && (s.clean ==> CallingConvention(target, f) == Some(l.convention))
       && forall i :: 0 <= i < |f.parameters| ==>
            PartFits(s, target, f.parameters[i], l.delegate + "_Argument" + ToString(i), false, l.parameters[i])
  }

  ghost predicate PartFits(s: State, target: Target, t: Type, context: string, allowVoid: bool, part: Lowered) {
    && s.IsKnown(part.name, |s.ordered|)
    && TypeTracked(s, target, t)
    && (s.clean ==>
          && Spelled(target, s.models, t, context, allowVoid) == Some(part) && TypeHeld(s, t)
          && HasArrays(s, target, t, context))
  }

  /** The fields are in place, both header fields are there, and every other field has its delegate, in order. */
  ghost predicate TableFits(s: State, target: Target, l: TableLayout) {
    && (forall i :: 0 <= i < |l.functions| ==> SignatureFits(s, target, l.table, l.functions[i]))
    && (s.clean ==>
          && TableLowers(target, s.models, l.table)
          && 0 <= l.versionOffset <= 4 && 0 <= l.sizeOffset <= 4 && l.versionOffset != l.sizeOffset
          && l.functions != []
          && FieldsOf(l.functions) == Payload(l.table, 0))
  }

  function FieldsOf(functions: seq<FunctionLayout>): (fields: seq<Field>)
    ensures |fields| == |functions|
  {
    seq(|functions|, i requires 0 <= i < |functions| => functions[i].field)
  }

  ghost predicate TablesFit(s: State, target: Target, layouts: seq<TableLayout>) {
    forall i :: 0 <= i < |layouts| ==> TableFits(s, target, layouts[i])
  }

  lemma PartStays(a: State, b: State, target: Target, t: Type, context: string, allowVoid: bool, part: Lowered)
    requires Grew(a, b) && PartFits(a, target, t, context, allowVoid, part)
    ensures PartFits(b, target, t, context, allowVoid, part)
  {
    hide State.IsKnown, Spelled, HasArrays;
    KnownStays(a, b, part.name);
    TrackedStays(a, b, target, t);
    if b.clean {
      ArraysStay(a, b, target, t, context);
    }
  }

  /** What is defined stays so. */
  lemma {:induction false} ArraysStay(a: State, b: State, target: Target, t: Type, context: string)
    requires a.models == b.models && a.arrays <= b.arrays && HasArrays(a, target, t, context)
    ensures HasArrays(b, target, t, context)
    decreases t
  {
    if IsInlineArray(t) {
      var k :| 0 <= k < |a.arrays| && IsArrayOf(a.arrays[k], target, a.models, t, context + "_Array");
      assert b.arrays[k] == a.arrays[k];
      ArraysStay(a, b, target, t.element.value, context + "_Array" + "_Element");
    }
  }

  lemma ValueArraysStay(a: State, b: State, target: Target, name: string, value: Value)
    requires a.models == b.models && a.arrays <= b.arrays && ValueHasArrays(a, target, name, value)
    ensures ValueHasArrays(b, target, name, value)
  {
    hide HasArrays;
    if value.target.kind == EnumType {
      ArraysStay(a, b, target, value.underlying, name);
    } else {
      forall i | 0 <= i < |value.fields|
        ensures FieldHasArrays(b, target, name, value.fields[i])
      {
        assert FieldHasArrays(a, target, name, value.fields[i]);
        ArraysStay(a, b, target, value.fields[i].fieldType, name + "_" + value.fields[i].name);
      }
    }
  }

  /** The layouts there were stay as they are. */
  lemma SpelledStays(a: State, b: State, target: Target)
    requires a.models == b.models && a.arrays <= b.arrays && FieldsSpelled(a, target) && (b.clean ==> a.clean)
    requires a.values <= b.values
    ensures b.clean ==> forall i :: 0 <= i < |a.values| ==>
                          IsLayoutOf(b.values[i], b.models, target) && LayoutHasArrays(b, target, b.values[i])
  {
    hide IsLayoutOf, ValueHasArrays;
    if b.clean {
      forall i | 0 <= i < |a.values|
        ensures IsLayoutOf(b.values[i], b.models, target) && LayoutHasArrays(b, target, b.values[i])
      {
        assert b.values[i] == a.values[i];
        assert IsLayoutOf(a.values[i], a.models, target) && LayoutHasArrays(a, target, a.values[i]);
        if a.values[i].declaration in a.models {
          ValueArraysStay(a, b, target, a.values[i].name, a.models[a.values[i].declaration]);
        }
      }
    }
  }

  lemma SignatureStays(a: State, b: State, target: Target, t: Table, l: FunctionLayout)
    requires Grew(a, b) && SignatureFits(a, target, t, l)
    ensures SignatureFits(b, target, t, l)
  {
    hide PartFits, DelegateName;
    var f := l.field.fieldType.pointee.value;
    PartStays(a, b, target, f.result.value, l.delegate + "_Result", true, l.result);
    forall i | 0 <= i < |f.parameters|
      ensures PartFits(b, target, f.parameters[i], l.delegate + "_Argument" + ToString(i), false, l.parameters[i])
    {
      PartStays(a, b, target, f.parameters[i], l.delegate + "_Argument" + ToString(i), false, l.parameters[i]);
    }
  }

  lemma TablesStay(a: State, b: State, target: Target, layouts: seq<TableLayout>)
    requires Grew(a, b) && TablesFit(a, target, layouts)
    ensures TablesFit(b, target, layouts)
  {
    hide SignatureFits, IsTable;
    forall i | 0 <= i < |layouts|
      ensures TableFits(b, target, layouts[i])
    {
      assert TableFits(a, target, layouts[i]);
      forall j | 0 <= j < |layouts[i].functions|
        ensures SignatureFits(b, target, layouts[i].table, layouts[i].functions[j])
      {
        SignatureStays(a, b, target, layouts[i].table, layouts[i].functions[j]);
      }
    }
  }

  lemma GrewTwice(a: State, b: State, c: State)
    requires Grew(a, b) && Grew(b, c)
    ensures Grew(a, c)
  {
    forall k | |a.ordered| <= k < |c.ordered|
      ensures c.InRange(k) && (c.errors == [] ==> c.NameOf(k) !in a.names)
    {
      if k < |b.ordered| {
        assert b.InRange(k) && (b.errors == [] ==> b.NameOf(k) !in a.names);
        SameDefinition(b, c, k);
      }
    }
  }

  /** Definitions stay what they are. */
  lemma SameDefinition(a: State, b: State, k: nat)
    requires a.arrays <= b.arrays && a.values <= b.values && a.ordered <= b.ordered && a.InRange(k)
    ensures b.InRange(k) && b.NameOf(k) == a.NameOf(k) && b.PartsOf(k) == a.PartsOf(k)
  {
  }

  lemma DefinedStays(a: State, b: State, name: string, limit: nat)
    requires a.arrays <= b.arrays && a.values <= b.values && a.ordered <= b.ordered
    requires b.errors == [] ==> a.errors == []
    requires a.IsKnown(name, limit)
    ensures b.IsKnown(name, limit)
  {
    if a.IsDefined(name, limit) {
      var k :| 0 <= k < limit && a.InRange(k) && FsName(a.NameOf(k)) == name;
      SameDefinition(a, b, k);
    }
  }

  lemma KnownLater(s: State, name: string, limit: nat, later: nat)
    requires s.IsKnown(name, limit) && limit <= later
    ensures s.IsKnown(name, later)
  {
  }

  lemma KnownStays(a: State, b: State, name: string)
    requires Grew(a, b) && a.IsKnown(name, |a.ordered|)
    ensures b.IsKnown(name, |b.ordered|)
  {
    DefinedStays(a, b, name, |a.ordered|);
    KnownLater(b, name, |a.ordered|, |b.ordered|);
  }

  lemma TrackedStays(a: State, b: State, target: Target, t: Type)
    requires a.models == b.models && a.Tracked() <= b.Tracked() && TypeTracked(a, target, t)
    ensures TypeTracked(b, target, t)
  {
  }

  lemma PointersStayTracked(a: State, b: State, target: Target)
    requires a.models == b.models && a.Tracked() <= b.Tracked() && PointersTracked(a, target)
    requires b.completed <= a.completed
    ensures PointersTracked(b, target)
  {
    forall n | n in b.completed && n in b.models
      ensures ValueTracked(b, target, b.models[n])
    {
      assert ValueTracked(a, target, a.models[n]);
    }
  }

  /** The same definitions, with other sets around them. */
  lemma OrderedStays(a: State, b: State)
    requires a.arrays == b.arrays && a.values == b.values && a.ordered == b.ordered && InOrder(a)
    requires b.errors == [] ==> a.errors == []
    ensures InOrder(b)
  {
    forall k | 0 <= k < |b.ordered|
      ensures PartsKnown(b, k)
    {
      assert PartsKnown(a, k);
      forall p | 0 <= p < |b.PartsOf(k)|
        ensures b.IsKnown(b.PartsOf(k)[p].name, k)
      {
        DefinedStays(a, b, a.PartsOf(k)[p].name, k);
      }
    }
  }

  lemma NamesStayDifferent(a: State, b: State)
    requires a.arrays == b.arrays && a.values == b.values && a.ordered == b.ordered
    requires a.names <= b.names && (b.errors == [] ==> a.errors == []) && NamesDiffer(a)
    ensures NamesDiffer(b)
  {
    forall k | 0 <= k < |b.ordered|
      ensures b.InRange(k) && (b.errors == [] ==> b.NameOf(k) in b.names)
    {
      assert a.InRange(k) && (a.errors == [] ==> a.NameOf(k) in a.names);
    }
    if b.errors == [] {
      forall k, l | 0 <= k < l < |b.ordered| && b.InRange(k) && b.InRange(l)
        ensures b.NameOf(k) != b.NameOf(l)
      {
        assert a.NameOf(k) != a.NameOf(l);
      }
    }
  }

  lemma HeldStaysFirst(a: State, b: State)
    requires a.models == b.models && a.arrays == b.arrays && a.values == b.values && a.ordered == b.ordered
    requires HeldFirst(a) && (b.clean ==> a.clean)
    ensures HeldFirst(b)
  {
    if b.clean {
      forall k: nat, n, inner | Defines(b, k, n) && Holds(b.models, n, inner)
        ensures exists l: nat :: l < k && Defines(b, l, inner)
      {
        assert Defines(a, k, n) && Holds(a.models, n, inner);
        var l: nat :| l < k && Defines(a, l, inner);
        assert Defines(b, l, inner);
      }
    }
  }

  /** A definition added at the end comes after everything it holds. */
  lemma HeldAddedFirst(a: State, b: State)
    requires a.models == b.models && a.clean == b.clean && HeldFirst(a) && DefinedOnce(a)
    requires a.arrays <= b.arrays && a.values <= b.values && a.ordered <= b.ordered && |b.ordered| == |a.ordered| + 1
    requires forall k :: 0 <= k < |a.ordered| ==> a.InRange(k)
    requires b.ordered[|a.ordered|].ValueDefinition? && b.InRange(|a.ordered|) && b.clean ==>
               var n := b.values[b.ordered[|a.ordered|].index].declaration;
               n in a.models && ValueHeld(a, a.models[n])
    ensures HeldFirst(b)
  {
    if b.clean {
      forall k: nat, n, inner | Defines(b, k, n) && Holds(b.models, n, inner)
        ensures exists l: nat :: l < k && Defines(b, l, inner)
      {
        if k < |a.ordered| {
          assert a.InRange(k) && Defines(a, k, n);
          var l: nat :| l < k && Defines(a, l, inner);
          DefinesStays(a, b, l, inner);
        } else {
          assert inner in a.completed;
          var l :| 0 <= l < |a.ordered| && Defines(a, l, inner);
          DefinesStays(a, b, l, inner);
        }
      }
    }
  }

  /** An error, a reserved name, a value to visit or to declare later: the definitions stay sound. */
  lemma SetsChange(a: State, b: State, target: Target)
    requires Inv(a, target) && SetsFit(b, target) && IsExact(b)
    requires a.models == b.models && a.allowed == b.allowed && a.completed == b.completed && (b.clean ==> a.clean)
    requires a.arrays == b.arrays && a.values == b.values && a.ordered == b.ordered
    requires a.names <= b.names && a.Tracked() <= b.Tracked() && (b.errors == [] ==> a.errors == [])
    ensures Inv(b, target)
  {
    SpelledStays(a, b, target);
    OrderedStays(a, b);
    PointersStayTracked(a, b, target);
    NamesStayDifferent(a, b);
    HeldStaysFirst(a, b);
    forall n | n in b.completed
      ensures exists k :: 0 <= k < |b.ordered| && Defines(b, k, n)
    {
      var k :| 0 <= k < |a.ordered| && Defines(a, k, n);
      assert Defines(b, k, n);
    }
  }

  // A new definition

  function WithArray(s: State, layout: ArrayLayout): State {
    s.(arrays := s.arrays + [layout], ordered := s.ordered + [ArrayDefinition(|s.arrays|)])
  }

  /** The value type is no longer visited, but completed. */
  function WithValue(s: State, layout: ValueLayout): State {
    s.(values := s.values + [layout], ordered := s.ordered + [ValueDefinition(|s.values|)],
       visiting := s.visiting - {layout.declaration}, completed := s.completed + {layout.declaration})
  }

  ghost predicate IsNewName(s: State, name: string) {
    s.errors == [] ==>
      name in s.names && forall k :: 0 <= k < |s.ordered| && s.InRange(k) ==> s.NameOf(k) != name
  }

  /** What a definition added at the end needs to be in order. */
  lemma AddedInOrder(a: State, b: State, parts: seq<Lowered>)
    requires InOrder(a) && a.arrays <= b.arrays && a.values <= b.values && a.errors == b.errors
    requires |b.ordered| == |a.ordered| + 1 && a.ordered <= b.ordered
    requires b.InRange(|a.ordered|) && b.PartsOf(|a.ordered|) == parts
    requires forall p :: 0 <= p < |parts| ==> a.IsKnown(parts[p].name, |a.ordered|)
    ensures InOrder(b)
  {
    forall k | 0 <= k < |b.ordered|
      ensures PartsKnown(b, k)
    {
      if k < |a.ordered| {
        assert PartsKnown(a, k);
        SameDefinition(a, b, k);
        forall p | 0 <= p < |b.PartsOf(k)|
          ensures b.IsKnown(b.PartsOf(k)[p].name, k)
        {
          DefinedStays(a, b, a.PartsOf(k)[p].name, k);
        }
      } else {
        forall p | 0 <= p < |parts|
          ensures b.IsKnown(parts[p].name, k)
        {
          DefinedStays(a, b, parts[p].name, k);
        }
      }
    }
  }

  lemma AddedDiffers(a: State, b: State, name: string)
    requires NamesDiffer(a) && IsNewName(a, name) && a.names == b.names && a.errors == b.errors
    requires a.arrays <= b.arrays && a.values <= b.values
    requires |b.ordered| == |a.ordered| + 1 && a.ordered <= b.ordered
    requires b.InRange(|a.ordered|) && b.NameOf(|a.ordered|) == name
    ensures NamesDiffer(b)
  {
    forall k | 0 <= k < |b.ordered|
      ensures b.InRange(k) && (b.errors == [] ==> b.NameOf(k) in b.names)
    {
      if k < |a.ordered| {
        assert a.InRange(k) && (a.errors == [] ==> a.NameOf(k) in a.names);
        SameDefinition(a, b, k);
      }
    }
    if b.errors == [] {
      forall k, l | 0 <= k < l < |b.ordered| && b.InRange(k) && b.InRange(l)
        ensures b.NameOf(k) != b.NameOf(l)
      {
        assert a.InRange(k) && a.NameOf(k) in a.names;
        SameDefinition(a, b, k);
        if l < |a.ordered| {
          assert a.InRange(l) && a.NameOf(l) in a.names;
          SameDefinition(a, b, l);
        }
      }
    }
  }

  lemma DefinesStays(a: State, b: State, k: nat, name: string)
    requires a.arrays <= b.arrays && a.values <= b.values && a.ordered <= b.ordered && Defines(a, k, name)
    ensures Defines(b, k, name)
  {
  }

  lemma ArrayAdded(s: State, target: Target, layout: ArrayLayout)
    requires Inv(s, target) && IsNewName(s, layout.name) && s.IsKnown(layout.element.name, |s.ordered|)
    ensures Inv(WithArray(s, layout), target)
    ensures WithArray(s, layout).IsDefined(FsName(layout.name), |s.ordered| + 1)
  {
    var b := WithArray(s, layout);
    assert b.InRange(|s.ordered|) && b.NameOf(|s.ordered|) == layout.name;
    SpelledStays(s, b, target);
    AddedInOrder(s, b, [layout.element]);
    AddedDiffers(s, b, layout.name);
    PointersStayTracked(s, b, target);
    HeldAddedFirst(s, b);
    forall n | n in b.completed
      ensures exists k :: 0 <= k < |b.ordered| && Defines(b, k, n)
    {
      var k :| 0 <= k < |s.ordered| && Defines(s, k, n);
      DefinesStays(s, b, k, n);
    }
    forall k, l | 0 <= k < l < |b.ordered|
      ensures b.ordered[k] != b.ordered[l]
    {
      assert s.InRange(k);
    }
  }

  lemma ValueAdded(s: State, target: Target, layout: ValueLayout)
    requires Inv(s, target) && IsNewName(s, layout.name)
    requires layout.declaration in s.visiting && layout.name == Flatten(layout.declaration)
    requires forall p :: 0 <= p < |layout.fields| ==> s.IsKnown(layout.fields[p].name, |s.ordered|)
    requires s.clean ==>
               IsLayoutOf(layout, s.models, target)
               && ValueHasArrays(s, target, layout.name, s.models[layout.declaration])
    requires ValueTracked(s, target, s.models[layout.declaration])
    requires s.clean ==> ValueHeld(s, s.models[layout.declaration])
    ensures Inv(WithValue(s, layout), target)
    ensures WithValue(s, layout).IsDefined(FsName(layout.name), |s.ordered| + 1)
  {
    hide IsClosed, NamesFit, IsRepresentable, Flatten, IsLayoutOf, ValueTracked, TypeHeld, ValueHasArrays, FieldsSpelled;
    var b := WithValue(s, layout);
    assert b.InRange(|s.ordered|) && b.NameOf(|s.ordered|) == layout.name;
    AddedInOrder(s, b, layout.fields);
    AddedDiffers(s, b, layout.name);
    ValueAddedOnce(s, b, layout);
    HeldAddedFirst(s, b);
    ValueAddedTracked(s, b, target, layout);
    ValueAddedSpelled(s, b, target, layout);
  }

  lemma ValueAddedSpelled(s: State, b: State, target: Target, layout: ValueLayout)
    requires FieldsSpelled(s, target) && b == WithValue(s, layout) && layout.declaration in s.models
    requires s.clean ==>
               IsLayoutOf(layout, s.models, target)
               && ValueHasArrays(s, target, layout.name, s.models[layout.declaration])
    ensures FieldsSpelled(b, target)
  {
    hide IsLayoutOf, ValueHasArrays;
    SpelledStays(s, b, target);
    if b.clean {
      ValueArraysStay(s, b, target, layout.name, s.models[layout.declaration]);
      assert b.values[|s.values|] == layout;
    }
  }

  lemma ValueAddedTracked(s: State, b: State, target: Target, layout: ValueLayout)
    requires PointersTracked(s, target) && b == WithValue(s, layout) && layout.declaration in s.visiting
    requires layout.declaration in s.models ==> ValueTracked(s, target, s.models[layout.declaration])
    ensures b.Tracked() == s.Tracked() && PointersTracked(b, target)
  {
    hide TypeTracked;
    forall n | n in b.completed && n in b.models
      ensures ValueTracked(b, target, b.models[n])
    {
      assert n == layout.declaration || ValueTracked(s, target, s.models[n]);
      ValueStaysTracked(s, b, target, s.models[n]);
    }
  }

  lemma ValueStaysTracked(a: State, b: State, target: Target, value: Value)
    requires a.models == b.models && a.Tracked() <= b.Tracked() && ValueTracked(a, target, value)
    ensures ValueTracked(b, target, value)
  {
  }

  lemma ValueAddedOnce(s: State, b: State, layout: ValueLayout)
    requires DefinedOnce(s) && InOrder(s) && b == WithValue(s, layout) && s.completed !! s.visiting
    requires layout.declaration in s.visiting && layout.name == Flatten(layout.declaration)
    ensures DefinedOnce(b)
  {
    assert Defines(b, |s.ordered|, layout.declaration);
    forall n | n in b.completed
      ensures exists k :: 0 <= k < |b.ordered| && Defines(b, k, n)
    {
      if n != layout.declaration {
        var k :| 0 <= k < |s.ordered| && Defines(s, k, n);
        DefinesStays(s, b, k, n);
      }
    }
    forall k, l | 0 <= k < l < |b.ordered|
      ensures b.ordered[k] != b.ordered[l]
    {
      assert PartsKnown(s, k);
    }
  }

  /** A completed value type is defined under its flattened name. */
  lemma CompletedIsKnown(s: State, target: Target, name: string)
    requires Inv(s, target) && name in s.completed
    ensures s.IsKnown(FsName(Flatten(name)), |s.ordered|)
  {
    var k :| 0 <= k < |s.ordered| && Defines(s, k, name);
  }

  function WithError(s: State, code: Code): State {
    s.(errors := s.errors + [code], clean := false)
  }

  function Reserved(s: State, name: string): State {
    var claimed := s.(claimed := s.claimed + multiset{name});
    if !IsIdentifier(name) then claimed.(errors := s.errors + [BadName])
    else if name in s.names then claimed.(errors := s.errors + [NameCollision])
    else claimed.(names := s.names + {name})
  }

  lemma ReservedIsExact(s: State, name: string)
    requires IsExact(s)
    ensures IsExact(Reserved(s, name))
  {
    hide IsIdentifier;
    var b := Reserved(s, name);
    assert forall x :: b.claimed[x] == s.claimed[x] + if x == name then 1 else 0;
    if b.errors != [] && b.clean {
      if s.errors != [] {
        var x :| x in s.claimed && !(IsIdentifier(x) && s.claimed[x] == 1);
        assert b.claimed[x] >= s.claimed[x];
        assert x in b.claimed;
      } else {
        assert name in b.claimed;
      }
    }
  }

  lemma ReservedFits(s: State, target: Target, name: string)
    requires Inv(s, target)
    ensures Inv(Reserved(s, name), target) && Grew(s, Reserved(s, name)) && IsNewName(Reserved(s, name), name)
  {
    hide IsClosed, NamesFit, IsIdentifier, IsRepresentable;
    var b := Reserved(s, name);
    ReservedIsExact(s, name);
    SetsChange(s, b, target);
    if b.errors == [] {
      forall k | 0 <= k < |b.ordered| && b.InRange(k)
        ensures b.NameOf(k) != name
      {
        assert s.InRange(k) && s.NameOf(k) in s.names;
      }
    }
  }

  /** A reserved name stays free while other definitions are added. */
  lemma StaysNew(a: State, b: State, target: Target, name: string)
    requires IsNewName(a, name) && Grew(a, b) && Inv(a, target)
    ensures IsNewName(b, name)
  {
    if b.errors == [] {
      forall k | 0 <= k < |b.ordered| && b.InRange(k)
        ensures b.NameOf(k) != name
      {
        if k < |a.ordered| {
          assert PartsKnown(a, k);
          SameDefinition(a, b, k);
        }
      }
    }
  }

  /** New definitions up to `mid` have names unknown at the start, and so has the one after them. */
  lemma OneMoreGrew(start: State, mid: State, b: State)
    requires start.models == b.models && start.visiting == b.visiting && start.taken == b.taken
    requires start.allowed == b.allowed && (b.clean ==> start.clean)
    requires start.completed <= b.completed && start.Tracked() <= b.Tracked()
    requires start.names <= b.names && mid.errors == b.errors
    requires start.errors <= mid.errors && start.arrays <= mid.arrays && start.values <= mid.values
    requires start.ordered <= mid.ordered <= b.ordered && mid.arrays <= b.arrays && mid.values <= b.values
    requires forall k :: |start.ordered| <= k < |mid.ordered| ==>
               mid.InRange(k) && (mid.errors == [] ==> mid.NameOf(k) !in start.names)
    requires |b.ordered| == |mid.ordered| + 1 && b.InRange(|mid.ordered|)
    requires b.errors == [] ==> b.NameOf(|mid.ordered|) !in start.names
    ensures Grew(start, b)
  {
    forall k | |start.ordered| <= k < |b.ordered|
      ensures b.InRange(k) && (b.errors == [] ==> b.NameOf(k) !in start.names)
    {
      if k < |mid.ordered| {
        assert mid.InRange(k) && (mid.errors == [] ==> mid.NameOf(k) !in start.names);
        SameDefinition(mid, b, k);
      }
    }
  }

  /** Visiting a value type and reserving its name. */
  lemma ValueEntered(start: State, target: Target, name: string)
    requires Inv(start, target) && name in start.models
    requires name !in start.completed && name !in start.visiting && name in start.allowed
    ensures var entered := start.(visiting := start.visiting + {name});
            && Inv(entered, target)
            && Inv(Reserved(entered, Flatten(name)), target)
            && IsNewName(Reserved(entered, Flatten(name)), Flatten(name))
  {
    var entered := start.(visiting := start.visiting + {name});
    SetsChange(start, entered, target);
    ReservedFits(entered, target, Flatten(name));
  }

  lemma ValueFinished(start: State, lowered: State, target: Target, layout: ValueLayout)
    requires Inv(start, target) && Inv(lowered, target)
    requires var entered := start.(visiting := start.visiting + {layout.declaration});
             && layout.declaration !in start.visiting
             && IsNewName(Reserved(entered, layout.name), layout.name)
             && Inv(Reserved(entered, layout.name), target)
             && Grew(Reserved(entered, layout.name), lowered)
    requires layout.declaration in start.models && layout.name == Flatten(layout.declaration)
    requires forall p :: 0 <= p < |layout.fields| ==> lowered.IsKnown(layout.fields[p].name, |lowered.ordered|)
    requires lowered.clean ==>
               IsLayoutOf(layout, lowered.models, target)
               && ValueHasArrays(lowered, target, layout.name, lowered.models[layout.declaration])
    requires ValueTracked(lowered, target, lowered.models[layout.declaration])
    requires lowered.clean ==> ValueHeld(lowered, lowered.models[layout.declaration])
    ensures Inv(WithValue(lowered, layout), target) && Grew(start, WithValue(lowered, layout))
  {
    hide Inv, IsNewName, ValueTracked, ValueHeld, IsLayoutOf, State.IsKnown, IsIdentifier, Flatten, ValueHasArrays;
    var reserved := Reserved(start.(visiting := start.visiting + {layout.declaration}), layout.name);
    StaysNew(reserved, lowered, target, layout.name);
    ValueAdded(lowered, target, layout);
    OneMoreGrew(start, lowered, WithValue(lowered, layout));
  }

  lemma ArrayFinished(start: State, lowered: State, target: Target, layout: ArrayLayout)
    requires Inv(start, target) && Inv(lowered, target) && Grew(Reserved(start, layout.name), lowered)
    requires lowered.IsKnown(layout.element.name, |lowered.ordered|)
    ensures Inv(WithArray(lowered, layout), target) && Grew(start, WithArray(lowered, layout))
    ensures WithArray(lowered, layout).IsKnown(FsName(layout.name), |lowered.ordered| + 1)
  {
    hide Inv, IsNewName, IsIdentifier;
    var reserved := Reserved(start, layout.name);
    ReservedFits(start, target, layout.name);
    StaysNew(reserved, lowered, target, layout.name);
    ArrayAdded(lowered, target, layout);
    OneMoreGrew(start, lowered, WithArray(lowered, layout));
  }

  lemma GrewSelf(s: State)
    ensures Grew(s, s)
  {
  }

  lemma ElementIsSimple(models: Models, width: int, t: Type, seen: set<string>)
    requires IsSimple(models, width, t, seen) && IsInlineArray(t)
    ensures IsSimple(models, width, t.element.value, seen)
  {
  }

  lemma ReservedKeeps(s: State, name: string)
    ensures Reserved(s, name).models == s.models && Reserved(s, name).visiting == s.visiting
  {
  }

  lemma GrewKeeps(a: State, b: State)
    requires Grew(a, b)
    ensures a.models == b.models && a.visiting == b.visiting && a.allowed == b.allowed && a.taken == b.taken
    ensures a.errors <= b.errors && a.completed <= b.completed && a.values <= b.values
  {
  }

  /** An array points to what its element points to. */
  lemma PointedThrough(s: State, target: Target, t: Type)
    requires !t.isVolatile && IsInlineArray(t) && TypeTracked(s, target, t.element.value)
    ensures TypeTracked(s, target, t)
  {
  }

  lemma PointedIsRepresentable(s: State, target: Target, name: string)
    requires Inv(s, target) && name in s.pointed
    ensures name in s.models && IsRepresentable(s.models, target.pointerWidth, name, {}) && IsQualified(name, "::")
  {
  }

  /** A name moved between the sets that track it. */
  lemma Retracked(a: State, b: State, target: Target, layouts: seq<TableLayout>)
    requires Inv(a, target) && TablesFit(a, target, layouts)
    requires b == a.(pointed := b.pointed, taken := b.taken) && b.pointed <= a.pointed
    requires a.Tracked() <= b.Tracked() <= a.allowed
    ensures Inv(b, target) && TablesFit(b, target, layouts)
  {
    SetsChange(a, b, target);
    forall i | 0 <= i < |layouts|
      ensures TableFits(b, target, layouts[i])
    {
      assert TableFits(a, target, layouts[i]);
      forall j | 0 <= j < |layouts[i].functions|
        ensures SignatureFits(b, target, layouts[i].table, layouts[i].functions[j])
      {
        SignatureRetracked(a, b, target, layouts[i].table, layouts[i].functions[j]);
      }
    }
  }

  lemma SignatureRetracked(a: State, b: State, target: Target, t: Table, l: FunctionLayout)
    requires SignatureFits(a, target, t, l)
    requires b == a.(pointed := b.pointed, taken := b.taken) && a.Tracked() <= b.Tracked()
    ensures SignatureFits(b, target, t, l)
  {
    var f := l.field.fieldType.pointee.value;
    PartRetracked(a, b, target, f.result.value, l.delegate + "_Result", true, l.result);
    forall i | 0 <= i < |f.parameters|
      ensures PartFits(b, target, f.parameters[i], l.delegate + "_Argument" + ToString(i), false, l.parameters[i])
    {
      PartRetracked(a, b, target, f.parameters[i], l.delegate + "_Argument" + ToString(i), false, l.parameters[i]);
    }
  }

  lemma PartRetracked(a: State, b: State, target: Target, t: Type, context: string, allowVoid: bool, part: Lowered)
    requires PartFits(a, target, t, context, allowVoid, part)
    requires b == a.(pointed := b.pointed, taken := b.taken) && a.Tracked() <= b.Tracked()
    ensures PartFits(b, target, t, context, allowVoid, part)
  {
    DefinedStays(a, b, part.name, |a.ordered|);
    TrackedStays(a, b, target, t);
    if b.clean {
      ArraysStay(a, b, target, t, context);
    }
  }

  lemma SignaturesStay(a: State, b: State, target: Target, t: Table, functions: seq<FunctionLayout>)
    requires Grew(a, b)
    requires forall i :: 0 <= i < |functions| ==> SignatureFits(a, target, t, functions[i])
    ensures forall i :: 0 <= i < |functions| ==> SignatureFits(b, target, t, functions[i])
  {
    forall i | 0 <= i < |functions|
      ensures SignatureFits(b, target, t, functions[i])
    {
      SignatureStays(a, b, target, t, functions[i]);
    }
  }

  lemma PayloadStep(t: Table, k: nat, fields: seq<Field>)
    requires k < |t.table.fields|
    ensures var f := t.table.fields[k];
            fields + (if IsHeader(t, f) then [] else [f]) + Payload(t, k + 1) == fields + Payload(t, k)
  {
  }

  /** Nothing defined yet. */
  function Fresh(models: Models, names: set<string>, errors: seq<Code>, allowed: set<string>): State {
    State(models, {}, {}, {}, {}, names, [], [], [], errors, allowed, multiset(names), errors == [])
  }

  lemma FreshFits(models: Models, names: set<string>, errors: seq<Code>, allowed: set<string>, target: Target)
    requires IsClosed(target, models, allowed) && forall x :: x in names ==> IsIdentifier(x)
    ensures Inv(Fresh(models, names, errors, allowed), target)
    ensures TablesFit(Fresh(models, names, errors, allowed), target, [])
  {
  }

  /** Nothing is left to do, and nothing went wrong. */
  ghost predicate IsFinished(s: State, target: Target) {
    Inv(s, target) && s.errors == [] && s.visiting == {} && s.pointed == {} && s.taken == {}
  }

  // What a finished lowering promises

  /** Every type name in a definition is built in, or given by exactly one definition, which comes before. */
  lemma DefinedBeforeUse(s: State, target: Target, k: nat, p: nat)
    requires IsFinished(s, target) && k < |s.ordered| && s.InRange(k) && p < |s.PartsOf(k)|
    ensures || IsBuiltIn(s.PartsOf(k)[p].name)
            || exists l :: 0 <= l < k && IsOnlyDefinition(s, l, s.PartsOf(k)[p].name)
  {
    assert PartsKnown(s, k);
    var name := s.PartsOf(k)[p].name;
    if !IsBuiltIn(name) {
      assert s.IsDefined(name, k);
      var l :| 0 <= l < k && s.InRange(l) && FsName(s.NameOf(l)) == name;
      forall m | 0 <= m < |s.ordered| && s.InRange(m) && FsName(s.NameOf(m)) == name
        ensures m == l
      {
        FsNameIsInjective(s.NameOf(m), s.NameOf(l));
      }
      assert IsOnlyDefinition(s, l, name);
    }
  }

  ghost predicate IsOnlyDefinition(s: State, l: nat, name: string) {
    && s.InRange(l) && FsName(s.NameOf(l)) == name
    && forall m :: 0 <= m < |s.ordered| && s.InRange(m) && FsName(s.NameOf(m)) == name ==> m == l
  }

  /** Each value type that was lowered has one definition. */
  lemma DefinedExactlyOnce(s: State, target: Target, name: string) returns (k: nat)
    requires IsFinished(s, target) && name in s.completed
    ensures Defines(s, k, name)
    ensures forall l: nat :: Defines(s, l, name) ==> l == k
  {
    k :| 0 <= k < |s.ordered| && Defines(s, k, name);
    forall l: nat | Defines(s, l, name)
      ensures l == k
    {
      assert s.values[s.ordered[l].index].declaration == s.values[s.ordered[k].index].declaration;
    }
  }

  /** What a value type holds by value, directly or in inline arrays, is defined, and before it. */
  lemma HeldIsDefinedBefore(s: State, target: Target, outer: string, inner: string, k: nat, l: nat)
    requires IsFinished(s, target) && Holds(s.models, outer, inner) && Defines(s, k, outer)
    ensures inner in s.completed
    ensures Defines(s, l, inner) ==> l < k
  {
    var m: nat :| m < k && Defines(s, m, inner);
    assert s.values[s.ordered[m].index].declaration in s.completed;
    var only := DefinedExactlyOnce(s, target, inner);
  }

  /** What a lowered value type points to is defined too, if it can be, although pointers may form cycles. */
  lemma PointedIsDefined(s: State, target: Target, name: string, t: Type)
    requires IsFinished(s, target) && name in s.completed && HasPart(s.models[name], t)
    requires PointedBy(target, t).Some?
    requires IsRepresentable(s.models, target.pointerWidth, PointedBy(target, t).value, {})
    ensures PointedBy(target, t).value in s.completed
  {
    assert ValueTracked(s, target, s.models[name]);
    assert TypeTracked(s, target, t);
  }

  /** The same for the types in the signatures of a table. */
  lemma SignatureIsDefined(s: State, target: Target, layouts: seq<TableLayout>, i: nat, j: nat, t: Type)
    requires IsFinished(s, target) && TablesFit(s, target, layouts)
    requires i < |layouts| && j < |layouts[i].functions|
    requires layouts[i].functions[j].field.fieldType.pointee.Some?
    requires var f := layouts[i].functions[j].field.fieldType.pointee.value;
             f.result == Some(t) || t in f.parameters
    ensures Held(t).Some? ==> Held(t).value in s.completed
    ensures PointedBy(target, t).Some? && IsRepresentable(s.models, target.pointerWidth, PointedBy(target, t).value, {}) ==>
              PointedBy(target, t).value in s.completed
  {
    var l := layouts[i].functions[j];
    assert TableFits(s, target, layouts[i]);
    assert SignatureFits(s, target, layouts[i].table, l);
    var f := l.field.fieldType.pointee.value;
    if f.result != Some(t) {
      var p :| 0 <= p < |f.parameters| && f.parameters[p] == t;
      assert PartFits(s, target, f.parameters[p], l.delegate + "_Argument" + ToString(p), false, l.parameters[p]);
    }
  }

  // What the names in a finished output mean

  /** The lowered type stands for its native type, and so do the elements of the inline arrays in it. */
  ghost predicate Stands(s: State, target: Target, t: Type, context: string, part: Lowered)
    decreases t
  {
    && StandsFor(target, t, context, part)
    && (IsInlineArray(t) ==>
          exists k :: 0 <= k < |s.arrays| && IsSizedArray(s.arrays[k], t, context + "_Array")
                      && Stands(s, target, t.element.value, context + "_Array" + "_Element", s.arrays[k].element))
  }

  predicate IsSizedArray(a: ArrayLayout, t: Type, name: string) {
    a.name == name && a.count == t.length && a.size == t.size && a.align == t.align
  }

  lemma {:induction false} SpelledStands(s: State, target: Target, t: Type, context: string, allowVoid: bool,
                                         part: Lowered)
    requires Spelled(target, s.models, t, context, allowVoid) == Some(part) && HasArrays(s, target, t, context)
    ensures Stands(s, target, t, context, part)
    decreases t
  {
    SpelledStandsFor(target, s.models, t, context, allowVoid);
    hide StandsFor, Spelled;
    if IsInlineArray(t) {
      var k :| 0 <= k < |s.arrays| && IsArrayOf(s.arrays[k], target, s.models, t, context + "_Array");
      SpelledStands(s, target, t.element.value, context + "_Array" + "_Element", false, s.arrays[k].element);
    }
  }

  ghost predicate LayoutStands(s: State, target: Target, layout: ValueLayout) {
    && layout.declaration in s.models
    && var value := s.models[layout.declaration];
       && layout.name == Flatten(layout.declaration)
       && if value.target.kind == EnumType then
            |layout.fields| == 1 && Stands(s, target, value.underlying, layout.name, layout.fields[0])
          else
            && |layout.fields| == |value.fields|
            && forall i :: 0 <= i < |value.fields| ==>
                 FieldStands(s, target, layout.name, value.fields[i], layout.fields[i])
  }

  ghost predicate FieldStands(s: State, target: Target, name: string, f: Field, part: Lowered) {
    Stands(s, target, f.fieldType, name + "_" + f.name, part)
  }

  ghost predicate FunctionStands(s: State, target: Target, l: FunctionLayout) {
    && l.field.fieldType.pointee.Some? && l.field.fieldType.pointee.value.result.Some?
    && var f := l.field.fieldType.pointee.value;
       && Stands(s, target, f.result.value, l.delegate + "_Result", l.result)
       && |l.parameters| == |f.parameters|
       && forall i :: 0 <= i < |f.parameters| ==>
            ParameterStands(s, target, f.parameters[i], l.delegate, i, l.parameters[i])
  }

  ghost predicate ParameterStands(s: State, target: Target, t: Type, delegate: string, i: nat, part: Lowered) {
    Stands(s, target, t, delegate + "_Argument" + ToString(i), part)
  }

  /** Every type in the definitions and the delegates stands for the native type it was lowered from. */
  ghost predicate OutputStands(s: State, target: Target, layouts: seq<TableLayout>) {
    && (forall i :: 0 <= i < |s.values| ==> LayoutStands(s, target, s.values[i]))
    && forall i, j :: 0 <= i < |layouts| && 0 <= j < |layouts[i].functions| ==>
         FunctionStands(s, target, layouts[i].functions[j])
  }

  lemma LayoutIsFaithful(s: State, target: Target, layout: ValueLayout)
    requires IsLayoutOf(layout, s.models, target) && LayoutHasArrays(s, target, layout)
    ensures LayoutStands(s, target, layout)
  {
    hide Stands, Spelled, HasArrays, Flatten;
    var value := s.models[layout.declaration];
    if value.target.kind == EnumType {
      SpelledStands(s, target, value.underlying, layout.name, false, layout.fields[0]);
    } else {
      forall i | 0 <= i < |value.fields|
        ensures FieldStands(s, target, layout.name, value.fields[i], layout.fields[i])
      {
        assert FieldHasArrays(s, target, layout.name, value.fields[i]);
        SpelledStands(s, target, value.fields[i].fieldType, layout.name + "_" + value.fields[i].name, false, layout.fields[i]);
      }
    }
  }

  lemma FunctionIsFaithful(s: State, target: Target, t: Table, l: FunctionLayout)
    requires SignatureFits(s, target, t, l) && s.clean
    ensures FunctionStands(s, target, l)
  {
    hide Stands, Spelled, HasArrays, State.IsKnown, TypeTracked, DelegateName;
    var f := l.field.fieldType.pointee.value;
    SpelledStands(s, target, f.result.value, l.delegate + "_Result", true, l.result);
    forall i | 0 <= i < |f.parameters|
      ensures ParameterStands(s, target, f.parameters[i], l.delegate, i, l.parameters[i])
    {
      assert PartFits(s, target, f.parameters[i], l.delegate + "_Argument" + ToString(i), false, l.parameters[i]);
      SpelledStands(s, target, f.parameters[i], l.delegate + "_Argument" + ToString(i), false, l.parameters[i]);
    }
  }

  /** In a finished output every built-in name has the sign and the size of its native type. */
  lemma OutputIsFaithful(s: State, target: Target, layouts: seq<TableLayout>)
    requires IsFinished(s, target) && TablesFit(s, target, layouts)
    ensures OutputStands(s, target, layouts)
  {
    hide IsLayoutOf, LayoutHasArrays, LayoutStands, SignatureFits, FunctionStands, TableLowers;
    forall i | 0 <= i < |s.values|
      ensures LayoutStands(s, target, s.values[i])
    {
      LayoutIsFaithful(s, target, s.values[i]);
    }
    forall i, j | 0 <= i < |layouts| && 0 <= j < |layouts[i].functions|
      ensures FunctionStands(s, target, layouts[i].functions[j])
    {
      assert TableFits(s, target, layouts[i]);
      FunctionIsFaithful(s, target, layouts[i].table, layouts[i].functions[j]);
    }
  }
}
