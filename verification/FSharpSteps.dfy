/** What a stretch of a lowering does to what the lowering is judged by. */
module FSharpSteps {
  import opened Bytes
  import opened Decimals
  import opened FSharpModel
  import opened Names
  import opened FSharpAcceptance
  import opened FSharpState

  function Declarations(values: seq<ValueLayout>): (names: seq<string>)
    ensures |names| == |values|
  {
    seq(|values|, i requires 0 <= i < |values| => values[i].declaration)
  }

  function DefinedNames(s: State): multiset<string> {
    AllValueNames(s.models, Declarations(s.values))
  }

  /** All values defined since `a` can be lowered. */
  ghost predicate NewLower(a: State, b: State, target: Target) {
    forall i :: |a.values| <= i < |b.values| ==> ValueLowers(target, b.models, b.values[i].declaration)
  }

  /**
   From `a` to `b` the lowering stays clean exactly when `ok` holds and all values defined on the way can be
   lowered; and then it claims `names` and the names of those values, each as often as it occurs.
   */
  ghost predicate Step(a: State, b: State, target: Target, ok: bool, names: multiset<string>) {
    && (b.clean <==> a.clean && ok && NewLower(a, b, target))
    && (b.clean ==> b.claimed + DefinedNames(a) == a.claimed + names + DefinedNames(b))
  }

  /** Everything the type uses may be declared. */
  ghost predicate TypeWithin(target: Target, models: Models, allowed: set<string>, t: Type) {
    forall n :: Uses(target, models, t, n) ==> n in allowed
  }

  ghost predicate SignatureWithin(target: Target, models: Models, allowed: set<string>, f: Field) {
    forall part :: IsSignaturePart(f, part) ==> TypeWithin(target, models, allowed, part)
  }

  ghost predicate TableWithin(target: Target, models: Models, allowed: set<string>, t: Table) {
    forall k :: 0 <= k < |t.table.fields| && !IsHeader(t, t.table.fields[k]) ==>
      SignatureWithin(target, models, allowed, t.table.fields[k])
  }

  lemma StepTwice(a: State, b: State, c: State, target: Target, first: bool, names: multiset<string>, second: bool,
                  more: multiset<string>)
    requires Grew(a, b) && Grew(b, c)
    requires Step(a, b, target, first, names) && Step(b, c, target, second, more)
    ensures Step(a, c, target, first && second, names + more)
  {
    hide Step;
    StepChain(a, b, c, target, first, names, second, more);
  }

  lemma StepChain(a: State, b: State, c: State, target: Target, first: bool, names: multiset<string>, second: bool,
                  more: multiset<string>)
    requires a.models == b.models == c.models && a.values <= b.values <= c.values
    requires Step(a, b, target, first, names) && Step(b, c, target, second, more)
    ensures Step(a, c, target, first && second, names + more)
  {
    hide ValueLowers, AllValueNames, Declarations, DefinedNames;
    if c.clean {
      forall i | |a.values| <= i < |c.values|
        ensures ValueLowers(target, c.models, c.values[i].declaration)
      {
        assert i < |b.values| ==> b.values[i] == c.values[i];
      }
      SumsAdd(a.claimed, b.claimed, c.claimed, DefinedNames(a), DefinedNames(b), DefinedNames(c), names, more);
    }
    if NewLower(a, c, target) {
      assert forall i :: |a.values| <= i < |b.values| ==> b.values[i] == c.values[i];
    }
  }

  lemma SumsAdd(a: multiset<string>, b: multiset<string>, c: multiset<string>, x: multiset<string>, y: multiset<string>,
                z: multiset<string>, names: multiset<string>, more: multiset<string>)
    requires b + x == a + names + y && c + y == b + more + z
    ensures c + x == a + (names + more) + z
  {
    forall n: string
      ensures (c + x)[n] == (a + (names + more) + z)[n]
    {
      assert (b + x)[n] == (a + names + y)[n] && (c + y)[n] == (b + more + z)[n];
    }
  }

  /** What claims nothing but for its values. */
  lemma StepOn(a: State, b: State, c: State, target: Target, ok: bool, names: multiset<string>)
    requires a.models == b.models == c.models && a.values <= b.values <= c.values
    requires Step(a, b, target, ok, names) && Step(b, c, target, true, multiset{})
    ensures Step(a, c, target, ok, names)
  {
    hide Step;
    StepChain(a, b, c, target, ok, names, true, multiset{});
    assert names + multiset{} == names;
  }

  /** The condition may be said in other words, and the names of what is not clean do not matter. */
  lemma StepSameOk(a: State, b: State, target: Target, ok: bool, other: bool, names: multiset<string>)
    requires Step(a, b, target, ok, names) && (a.clean ==> (ok <==> other))
    ensures Step(a, b, target, other, names)
  {
  }

  lemma StepNotOk(a: State, b: State, target: Target, names: multiset<string>, other: multiset<string>)
    requires Step(a, b, target, false, names)
    ensures Step(a, b, target, false, other)
  {
  }

  /** Nothing defined, nothing claimed. */
  lemma StepNone(a: State, b: State, target: Target)
    requires a.values == b.values && a.models == b.models && a.claimed == b.claimed && a.clean == b.clean
    ensures Step(a, b, target, true, multiset{})
  {
  }

  /** An error, where there should be one. */
  lemma StepError(a: State, target: Target, code: Code, ok: bool, names: multiset<string>)
    requires a.clean ==> !ok
    ensures Step(a, WithError(a, code), target, ok, names)
  {
  }

  lemma StepIsOk(a: State, b: State, target: Target, ok: bool, names: multiset<string>)
    requires Step(a, b, target, ok, names)
    ensures b.clean ==> a.clean && ok
  {
  }

  lemma StepReserved(a: State, target: Target, name: string)
    ensures Step(a, Reserved(a, name), target, true, multiset{name})
  {
    hide IsIdentifier, AllValueNames;
  }

  /** An array definition added at the end counts for nothing. */
  lemma StepArray(a: State, b: State, target: Target, ok: bool, names: multiset<string>, layout: ArrayLayout)
    requires Step(a, b, target, ok, names)
    ensures Step(a, WithArray(b, layout), target, ok, names)
  {
  }

  lemma StepBehind(a: State, b: State, c: State, target: Target, names: multiset<string>, ok: bool, more: multiset<string>)
    requires a.values <= b.values <= c.values && a.models == b.models == c.models
    requires Step(a, b, target, true, names) && Step(b, c, target, ok, more)
    ensures Step(a, c, target, ok, names + more)
  {
    hide Step;
    StepChain(a, b, c, target, true, names, ok, more);
  }

  lemma StepBefore(a: State, b: State, c: State, target: Target, ok: bool, names: multiset<string>, more: bool)
    requires a.values <= b.values <= c.values && a.models == b.models == c.models
    requires Step(a, b, target, ok, names) && Step(b, c, target, more, multiset{})
    ensures Step(a, c, target, ok && more, names)
  {
    hide Step;
    StepChain(a, b, c, target, ok, names, more, multiset{});
    assert names + multiset{} == names;
  }

  /** The calling convention is found, and the two names of a function claimed. */
  lemma StepSignatureNames(start: State, known: State, named: State, rooted: State, target: Target, ok: bool,
                           delegate: string, callback: string)
    requires Grew(start, known) && Step(start, known, target, ok, multiset{})
    requires Grew(known, named) && Step(known, named, target, true, multiset{delegate})
    requires Grew(named, rooted) && Step(named, rooted, target, true, multiset{callback})
    ensures Step(start, rooted, target, ok, multiset{delegate} + multiset{callback})
  {
    hide Step;
    StepTwice(start, known, named, target, ok, multiset{}, true, multiset{delegate});
    GrewTwice(start, known, named);
    StepTwice(start, named, rooted, target, ok, multiset{} + multiset{delegate}, true, multiset{callback});
    assert multiset{} + multiset{delegate} + multiset{callback} == multiset{delegate} + multiset{callback};
  }

  lemma PartsWithin(target: Target, models: Models, allowed: set<string>, f: Field)
    requires SignatureWithin(target, models, allowed, f)
    requires f.fieldType.pointee.Some? && f.fieldType.pointee.value.result.Some?
    ensures TypeWithin(target, models, allowed, f.fieldType.pointee.value.result.value)
    ensures forall i :: 0 <= i < |f.fieldType.pointee.value.parameters| ==>
              TypeWithin(target, models, allowed, f.fieldType.pointee.value.parameters[i])
  {
    hide TypeWithin;
    assert IsSignaturePart(f, f.fieldType.pointee.value.result.value);
    forall i | 0 <= i < |f.fieldType.pointee.value.parameters|
      ensures TypeWithin(target, models, allowed, f.fieldType.pointee.value.parameters[i])
    {
      assert IsSignaturePart(f, f.fieldType.pointee.value.parameters[i]);
    }
  }

  lemma RootsWithin(target: Target, models: Models, tables: seq<Table>, allowed: set<string>)
    requires HasRoots(target, models, tables, allowed)
    ensures forall i :: 0 <= i < |tables| ==> TableWithin(target, models, allowed, tables[i])
  {
    hide Uses, IsSignaturePart, IsHeader;
    forall i, k, part, n | 0 <= i < |tables| && 0 <= k < |tables[i].table.fields|
      && !IsHeader(tables[i], tables[i].table.fields[k]) && IsSignaturePart(tables[i].table.fields[k], part)
      && Uses(target, models, part, n)
      ensures n in allowed
    {
      assert InSignature(tables[i], part);
    }
  }

  lemma TrackedIsAllowed(s: State, target: Target)
    requires Inv(s, target)
    ensures s.Tracked() <= s.allowed
  {
  }

  lemma CompletedIsInModels(s: State, target: Target)
    requires Inv(s, target)
    ensures s.completed <= s.models.Keys
  {
  }

  lemma HeadFieldsDiffer(target: Target, t: Table)
    requires IsTable(target, t)
    ensures t.versionField != t.sizeField
  {
  }

  lemma FieldWithin(target: Target, models: Models, allowed: set<string>, t: Table, k: nat)
    requires k < |t.table.fields| && TableWithin(target, models, allowed, t)
    ensures !IsHeader(t, t.table.fields[k]) ==> SignatureWithin(target, models, allowed, t.table.fields[k])
  {
  }

  lemma PayloadEnds(t: Table, fields: seq<Field>)
    ensures fields + Payload(t, |t.table.fields|) == fields
  {
  }

  lemma ElementWithin(target: Target, models: Models, allowed: set<string>, t: Type)
    requires !t.isVolatile && IsInlineArray(t) && TypeWithin(target, models, allowed, t)
    ensures TypeWithin(target, models, allowed, t.element.value)
  {
    hide IsRepresentable;
    forall n | Uses(target, models, t.element.value, n)
      ensures n in allowed
    {
      assert Uses(target, models, t, n);
    }
  }

  /** What an allowed value type uses is allowed. */
  lemma PartWithin(s: State, target: Target, name: string, part: Type)
    requires Inv(s, target) && name in s.models && name in s.visiting && HasPart(s.models[name], part)
    ensures TypeWithin(target, s.models, s.allowed, part)
  {
    hide HasPart, Uses, InOrder, DefinedOnce, NamesDiffer, FieldsSpelled, PointersTracked, HeldFirst, IsExact;
  }

  /** One more case. */
  lemma CasesMore(cases: seq<Case>, i: nat, seen: set<string>)
    requires i < |cases|
    requires forall c :: c in seen <==> exists j :: 0 <= j < i && cases[j].name == c && IsIdentifier(c)
    ensures CasesFit(cases[..i + 1]) <==>
              CasesFit(cases[..i]) && IsIdentifier(cases[i].name) && cases[i].name !in seen
  {
    hide IsIdentifier;
    var front, more := cases[..i], cases[..i + 1];
    assert forall j :: 0 <= j < i ==> front[j] == cases[j] && more[j] == cases[j];
    assert more[i] == cases[i];
    if CasesFit(more) {
      assert CasesFit(front);
    }
  }

  /** The value type is visited, its name claimed, its parts lowered, and its definition added. */
  lemma StepValue(start: State, lowered: State, target: Target, layout: ValueLayout)
    requires layout.declaration in start.models && layout.name == Flatten(layout.declaration)
    requires var entered := start.(visiting := start.visiting + {layout.declaration});
             && Grew(Reserved(entered, layout.name), lowered)
             && Step(Reserved(entered, layout.name), lowered, target,
                     ValueLowers(target, lowered.models, layout.declaration),
                     PartNames(layout.declaration, lowered.models[layout.declaration]))
    ensures Step(start, WithValue(lowered, layout), target, true, multiset{})
  {
    hide ValueLowers, IsIdentifier, PartNames, Flatten, Grew, Reserved, AllValueNames, Declarations, DefinedNames;
    var name := layout.declaration;
    var entered := start.(visiting := start.visiting + {name});
    ReservedClaims(entered, layout.name);
    SameDefined(start, entered);
    GrewKeeps(Reserved(entered, layout.name), lowered);
    var b := WithValue(lowered, layout);
    OneMoreLowers(start, lowered, target, layout);
    if b.clean {
      OneMoreDefined(lowered, layout);
      SumMoves(start.claimed, lowered.claimed, DefinedNames(start), DefinedNames(lowered), multiset{layout.name},
               PartNames(name, lowered.models[name]));
    }
  }

  lemma ReservedClaims(s: State, name: string)
    ensures var b := Reserved(s, name);
            && b.models == s.models && b.values == s.values && b.clean == s.clean
            && b.claimed == s.claimed + multiset{name} && DefinedNames(b) == DefinedNames(s)
  {
  }

  lemma SameDefined(a: State, b: State)
    requires a.models == b.models && a.values == b.values
    ensures DefinedNames(a) == DefinedNames(b)
  {
  }

  lemma OneMoreLowers(start: State, lowered: State, target: Target, layout: ValueLayout)
    requires start.values <= lowered.values
    ensures NewLower(start, WithValue(lowered, layout), target)
       <==> NewLower(start, lowered, target) && ValueLowers(target, lowered.models, layout.declaration)
  {
    hide ValueLowers;
    var b := WithValue(lowered, layout);
    assert forall i :: 0 <= i < |lowered.values| ==> b.values[i] == lowered.values[i];
    assert b.values[|lowered.values|] == layout;
  }

  lemma OneMoreDefined(s: State, layout: ValueLayout)
    ensures DefinedNames(WithValue(s, layout)) == DefinedNames(s) + ValueNames(s.models, layout.declaration)
  {
    hide ValueNames;
    var b := WithValue(s, layout);
    assert Declarations(b.values)[..|s.values|] == Declarations(s.values);
  }

  lemma SumMoves(a: multiset<string>, b: multiset<string>, x: multiset<string>, y: multiset<string>,
                 name: multiset<string>, parts: multiset<string>)
    requires b + x == a + name + parts + y
    ensures b + x == a + multiset{} + (y + (name + parts))
  {
  }

  // Definitions

  /** The array's name was claimed and its element lowered; its definition is added. */
  lemma ArrayLowered(start: State, lowered: State, target: Target, t: Type, layout: ArrayLayout, ok: bool,
                     names: multiset<string>)
    requires !t.isVolatile && IsInlineArray(t)
    requires Inv(start, target) && Inv(lowered, target) && Grew(Reserved(start, layout.name), lowered)
    requires lowered.IsKnown(layout.element.name, |lowered.ordered|)
    requires TypeTracked(lowered, target, t.element.value)
    requires layout.count == t.length && layout.size == t.size && layout.align == t.align
    requires lowered.clean ==>
               && Spelled(target, lowered.models, t.element.value, layout.name + "_Element", false) == Some(layout.element)
               && HasArrays(lowered, target, t.element.value, layout.name + "_Element")
    requires Step(Reserved(start, layout.name), lowered, target, ok, names)
    ensures var b := WithArray(lowered, layout);
            && Inv(b, target) && Grew(start, b) && b.IsKnown(FsName(layout.name), |b.ordered|)
            && TypeTracked(b, target, t) && Step(start, b, target, ok, multiset{layout.name} + names)
            && (b.clean ==>
                  && (exists k :: 0 <= k < |b.arrays| && IsArrayOf(b.arrays[k], target, b.models, t, layout.name))
                  && HasArrays(b, target, t.element.value, layout.name + "_Element"))
  {
    hide Inv, Grew, Step, State.IsKnown, TypeTracked, Reserved, HasArrays, Spelled;
    var b := WithArray(lowered, layout);
    if b.clean {
      assert b.arrays[|lowered.arrays|] == layout;
      assert IsArrayOf(b.arrays[|lowered.arrays|], target, b.models, t, layout.name);
      ArraysStay(lowered, b, target, t.element.value, layout.name + "_Element");
    }
    ArrayFinished(start, lowered, target, layout);
    GrewKeeps(Reserved(start, layout.name), lowered);
    ReservedClaims(start, layout.name);
    TrackedStays(lowered, b, target, t.element.value);
    PointedThrough(b, target, t);
    StepReserved(start, target, layout.name);
    StepArray(Reserved(start, layout.name), lowered, target, ok, names, layout);
    StepBehind(start, Reserved(start, layout.name), b, target, multiset{layout.name}, ok, names);
  }

  // The fields of a record

  /** The first `k` fields of a record are lowered. */
  ghost predicate RecordSoFar(start: State, s: State, target: Target, name: string, value: Value, fields: seq<Lowered>,
                              k: nat)
    requires k <= |value.fields|
  {
    && Inv(s, target) && Grew(start, s) && |fields| == k
    && (forall p :: 0 <= p < k ==> s.IsKnown(fields[p].name, |s.ordered|))
    && (forall i :: 0 <= i < k ==> TypeTracked(s, target, value.fields[i].fieldType))
    && (s.clean ==> forall i :: 0 <= i < k ==> FieldSpelled(s, target, name, value.fields[i], fields[i]))
    && Step(start, s, target, RecordLowers(target, s.models, value.fields, k), RecordNames(value.fields, k, Flatten(name)))
  }

  ghost predicate FieldSpelled(s: State, target: Target, name: string, f: Field, field: Lowered) {
    && TypeHeld(s, f.fieldType)
    && HasArrays(s, target, f.fieldType, Flatten(name) + "_" + f.name)
    && Spelled(target, s.models, f.fieldType, Flatten(name) + "_" + f.name, false) == Some(field)
  }

  lemma RecordStart(s: State, target: Target, name: string, value: Value)
    requires Inv(s, target)
    ensures RecordSoFar(s, s, target, name, value, [], 0)
  {
    hide Inv, Step;
    GrewSelf(s);
    StepNone(s, s, target);
  }

  lemma RecordNext(start: State, a: State, b: State, target: Target, name: string, value: Value, fields: seq<Lowered>,
                   k: nat, field: Lowered)
    requires k < |value.fields| && RecordSoFar(start, a, target, name, value, fields, k)
    requires Inv(b, target) && Grew(a, b) && b.IsKnown(field.name, |b.ordered|)
    requires TypeTracked(b, target, value.fields[k].fieldType)
    requires b.clean ==> FieldSpelled(b, target, name, value.fields[k], field)
    requires Step(a, b, target, Lowers(target, b.models, value.fields[k].fieldType, false),
                  ArrayNames(value.fields[k].fieldType, Flatten(name) + "_" + value.fields[k].name))
    ensures RecordSoFar(start, b, target, name, value, fields + [field], k + 1)
  {
    hide Inv, Step, Grew, State.IsKnown, TypeTracked, FieldSpelled, Lowers, ArrayNames, Flatten;
    GrewKeeps(a, b);
    GrewKeeps(start, a);
    GrewTwice(start, a, b);
    forall p | 0 <= p < k
      ensures b.IsKnown(fields[p].name, |b.ordered|)
    {
      KnownStays(a, b, fields[p].name);
    }
    forall i | 0 <= i < k
      ensures TypeTracked(b, target, value.fields[i].fieldType)
    {
      GrewTracks(a, b);
      TrackedStays(a, b, target, value.fields[i].fieldType);
    }
    GrewTracks(a, b);
    if b.clean {
      forall i | 0 <= i < k
        ensures FieldSpelled(b, target, name, value.fields[i], fields[i])
      {
        assert FieldSpelled(a, target, name, value.fields[i], fields[i]);
        FieldStaysSpelled(a, b, target, name, value.fields[i], fields[i]);
      }
    }
    StepTwice(start, a, b, target, RecordLowers(target, a.models, value.fields, k),
              RecordNames(value.fields, k, Flatten(name)), Lowers(target, b.models, value.fields[k].fieldType, false),
              ArrayNames(value.fields[k].fieldType, Flatten(name) + "_" + value.fields[k].name));
    GrewTracks(a, b);
  }

  lemma FieldStaysSpelled(a: State, b: State, target: Target, name: string, f: Field, field: Lowered)
    requires Grew(a, b) && FieldSpelled(a, target, name, f, field)
    ensures FieldSpelled(b, target, name, f, field)
  {
    ArraysStay(a, b, target, f.fieldType, Flatten(name) + "_" + f.name);
  }

  /** All fields of a record are lowered. */
  lemma RecordEnd(start: State, s: State, target: Target, name: string, value: Value, fields: seq<Lowered>)
    requires RecordSoFar(start, s, target, name, value, fields, |value.fields|) && value.target.kind != EnumType
    requires name in s.models && s.models[name] == value
    ensures s.clean ==>
              && IsLayoutOf(ValueLayout(name, Flatten(name), fields), s.models, target)
              && ValueHasArrays(s, target, Flatten(name), value)
              && forall i :: 0 <= i < |value.fields| ==> TypeHeld(s, value.fields[i].fieldType)
  {
    hide Inv, Step, Grew, State.IsKnown, TypeTracked, Spelled, Flatten, HasArrays;
    if s.clean {
      forall i | 0 <= i < |value.fields|
        ensures FieldSpelled(s, target, name, value.fields[i], fields[i])
      {
      }
    }
  }

  lemma GrewTracks(a: State, b: State)
    requires Grew(a, b)
    ensures a.models == b.models && a.Tracked() <= b.Tracked() && (b.clean ==> a.clean)
  {
  }

  // The parameters of a function

  /** The first `k` parameters are lowered. */
  ghost predicate ParametersSoFar(start: State, s: State, target: Target, delegate: string, parameters: seq<Type>,
                                  lowered: seq<Lowered>, k: nat)
    requires k <= |parameters|
  {
    && Inv(s, target) && Grew(start, s) && |lowered| == k
    && (forall i :: 0 <= i < k ==>
          PartFits(s, target, parameters[i], delegate + "_Argument" + ToString(i), false, lowered[i]))
    && Step(start, s, target, ParametersLower(target, s.models, parameters, k), multiset{})
  }

  lemma ParametersStart(s: State, target: Target, delegate: string, parameters: seq<Type>)
    requires Inv(s, target)
    ensures ParametersSoFar(s, s, target, delegate, parameters, [], 0)
  {
    hide Inv, Step;
    GrewSelf(s);
    StepNone(s, s, target);
  }

  lemma ParametersNext(start: State, a: State, b: State, target: Target, delegate: string, parameters: seq<Type>,
                       lowered: seq<Lowered>, k: nat, parameter: Lowered)
    requires k < |parameters| && ParametersSoFar(start, a, target, delegate, parameters, lowered, k)
    requires Inv(b, target) && Grew(a, b)
    requires PartFits(b, target, parameters[k], delegate + "_Argument" + ToString(k), false, parameter)
    requires Step(a, b, target, parameters[k].kind != ArrayType && Lowers(target, b.models, parameters[k], false),
                  multiset{})
    ensures ParametersSoFar(start, b, target, delegate, parameters, lowered + [parameter], k + 1)
  {
    hide Inv, Step, Grew, PartFits, Lowers, ToString;
    GrewKeeps(a, b);
    GrewKeeps(start, a);
    GrewTwice(start, a, b);
    forall i | 0 <= i < k
      ensures PartFits(b, target, parameters[i], delegate + "_Argument" + ToString(i), false, lowered[i])
    {
      PartStays(a, b, target, parameters[i], delegate + "_Argument" + ToString(i), false, lowered[i]);
    }
    StepBefore(start, a, b, target, ParametersLower(target, a.models, parameters, k), multiset{},
               parameters[k].kind != ArrayType && Lowers(target, b.models, parameters[k], false));
  }

  // The fields of a table

  /** The first `k` fields of a table are looked at. */
  ghost predicate FieldsSoFar(start: State, s: State, target: Target, layout: TableLayout, k: nat)
    requires k <= |layout.table.table.fields|
  {
    var t := layout.table;
    && Inv(s, target) && Grew(start, s)
    && (forall i :: 0 <= i < |layout.functions| ==> SignatureFits(s, target, t, layout.functions[i]))
    && (s.clean ==>
          && FieldsOf(layout.functions) + Payload(t, k) == Payload(t, 0)
          && IsOffsetOf(t, t.versionField, k, layout.versionOffset)
          && IsOffsetOf(t, t.sizeField, k, layout.sizeOffset))
    && Step(start, s, target, FieldsLower(target, s.models, t, k), FieldsNames(t, k))
  }

  lemma FieldsStart(s: State, target: Target, t: Table)
    requires Inv(s, target)
    ensures FieldsSoFar(s, s, target, TableLayout(t, -1, -1, []), 0)
  {
    hide Inv, Step;
    GrewSelf(s);
    StepNone(s, s, target);
    NoOffsets(t);
    assert FieldsOf([]) + Payload(t, 0) == Payload(t, 0);
  }

  /** The layout with one more field. */
  ghost predicate IsNextLayout(t: Table, f: Field, layout: TableLayout, next: TableLayout) {
    && next.table == layout.table == t
    && FieldsOf(next.functions) == FieldsOf(layout.functions) + (if IsHeader(t, f) then [] else [f])
    && next.versionOffset == (if f.name == t.versionField then f.offset else layout.versionOffset)
    && next.sizeOffset == (if f.name == t.sizeField && f.name != t.versionField then f.offset else layout.sizeOffset)
  }

  lemma FieldsNext(start: State, a: State, b: State, target: Target, layout: TableLayout, k: nat, next: TableLayout)
    requires k < |layout.table.table.fields| && FieldsSoFar(start, a, target, layout, k)
    requires layout.table.versionField != layout.table.sizeField && next.table == layout.table
    requires Inv(b, target) && Grew(a, b)
    requires forall i :: 0 <= i < |next.functions| ==> SignatureFits(b, target, layout.table, next.functions[i])
    requires b.clean ==> IsNextLayout(layout.table, layout.table.table.fields[k], layout, next)
    requires Step(a, b, target,
                  IsInPlace(layout.table, k) && FieldLowers(target, b.models, layout.table, layout.table.table.fields[k]),
                  FieldNames(layout.table, layout.table.table.fields[k]))
    ensures FieldsSoFar(start, b, target, next, k + 1)
  {
    hide Inv, Step, Grew, SignatureFits, IsInPlace, FieldLowers, FieldNames, IsOffsetOf, IsHeader;
    var t := layout.table;
    var f := t.table.fields[k];
    GrewKeeps(a, b);
    GrewKeeps(start, a);
    GrewTwice(start, a, b);
    GrewTracks(a, b);
    StepTwice(start, a, b, target, FieldsLower(target, a.models, t, k), FieldsNames(t, k),
              IsInPlace(t, k) && FieldLowers(target, b.models, t, f), FieldNames(t, f));
    if b.clean {
      PayloadStep(t, k, FieldsOf(layout.functions));
      OffsetStep(t, t.versionField, k, layout.versionOffset, next.versionOffset);
      OffsetStep(t, t.sizeField, k, layout.sizeOffset, next.sizeOffset);
    }
  }

  // Tables

  /** The first `k` tables are lowered. */
  ghost predicate TablesSoFar(start: State, s: State, target: Target, tables: seq<Table>, layouts: seq<TableLayout>, k: nat)
    requires k <= |tables|
  {
    && Inv(s, target) && Grew(start, s) && TablesFit(s, target, layouts)
    && (s.clean ==> |layouts| == k && forall i :: 0 <= i < k ==> layouts[i].table == tables[i])
    && Step(start, s, target, AllLower(target, s.models, tables[..k]), AllTableNames(tables[..k]))
  }

  lemma TablesStart(s: State, target: Target, tables: seq<Table>)
    requires Inv(s, target)
    ensures TablesSoFar(s, s, target, tables, [], 0)
  {
    hide Inv, Step;
    GrewSelf(s);
    StepNone(s, s, target);
  }

  lemma TablesNext(start: State, a: State, b: State, target: Target, tables: seq<Table>, layouts: seq<TableLayout>, k: nat,
                   layout: Option<TableLayout>)
    requires k < |tables| && TablesSoFar(start, a, target, tables, layouts, k)
    requires Inv(b, target) && Grew(a, b) && (b.clean ==> layout.Some?)
    requires layout.Some? ==> layout.value.table == tables[k] && TableFits(b, target, layout.value)
    requires Step(a, b, target, TableLowers(target, b.models, tables[k]), TableNames(tables[k]))
    ensures TablesSoFar(start, b, target, tables, if layout.Some? then layouts + [layout.value] else layouts, k + 1)
  {
    hide Inv, Step, Grew, TableFits, AllLower, AllTableNames, TableLowers, TableNames;
    GrewKeeps(a, b);
    GrewKeeps(start, a);
    GrewTwice(start, a, b);
    GrewTracks(a, b);
    TablesStay(a, b, target, layouts);
    AllLowerMore(target, b.models, tables, k);
    StepTwice(start, a, b, target, AllLower(target, a.models, tables[..k]), AllTableNames(tables[..k]),
              TableLowers(target, b.models, tables[k]), TableNames(tables[k]));
  }

  lemma TablesEnd(start: State, s: State, target: Target, tables: seq<Table>, layouts: seq<TableLayout>)
    requires TablesSoFar(start, s, target, tables, layouts, |tables|)
    ensures Inv(s, target) && Grew(start, s) && TablesFit(s, target, layouts)
    ensures s.clean ==> |layouts| == |tables| && forall i :: 0 <= i < |tables| ==> layouts[i].table == tables[i]
    ensures Step(start, s, target, AllLower(target, s.models, tables), AllTableNames(tables))
  {
    hide Inv, Step, Grew, TablesFit, AllLower, AllTableNames;
    assert tables[..|tables|] == tables;
  }

  /** The value type was visited, its name claimed and its parts lowered; its definition is added. */
  lemma ValueLowered(start: State, lowered: State, target: Target, layout: ValueLayout)
    requires Inv(start, target) && Inv(lowered, target)
    requires layout.declaration in start.models && layout.declaration in start.allowed
    requires layout.declaration !in start.completed && layout.declaration !in start.visiting
    requires layout.name == Flatten(layout.declaration)
    requires var entered := start.(visiting := start.visiting + {layout.declaration});
             && Grew(Reserved(entered, layout.name), lowered)
             && Step(Reserved(entered, layout.name), lowered, target,
                     ValueLowers(target, lowered.models, layout.declaration),
                     PartNames(layout.declaration, start.models[layout.declaration]))
    requires forall p :: 0 <= p < |layout.fields| ==> lowered.IsKnown(layout.fields[p].name, |lowered.ordered|)
    requires lowered.clean ==>
               IsLayoutOf(layout, lowered.models, target)
               && ValueHasArrays(lowered, target, layout.name, start.models[layout.declaration])
    requires ValueTracked(lowered, target, start.models[layout.declaration])
    requires lowered.clean ==> ValueHeld(lowered, start.models[layout.declaration])
    ensures var b := WithValue(lowered, layout);
            Inv(b, target) && Grew(start, b) && Step(start, b, target, true, multiset{})
  {
    hide Inv, IsNewName, ValueTracked, ValueHeld, IsLayoutOf, State.IsKnown, IsIdentifier, Flatten, Grew, Step,
         ValueLowers, PartNames, Reserved, ValueHasArrays;
    var entered := start.(visiting := start.visiting + {layout.declaration});
    ValueEntered(start, target, layout.declaration);
    ReservedClaims(entered, layout.name);
    GrewKeeps(Reserved(entered, layout.name), lowered);
    ValueFinished(start, lowered, target, layout);
    StepValue(start, lowered, target, layout);
  }

  // The worklist

  /** A name is taken off the worklist. */
  lemma NameTaken(s: State, target: Target, layouts: seq<TableLayout>, name: string)
    requires Inv(s, target) && TablesFit(s, target, layouts) && name in s.pointed && s.taken == {}
    ensures name in s.models && name in s.allowed
    ensures IsRepresentable(s.models, target.pointerWidth, name, {}) && IsQualified(name, "::")
    ensures var popped := s.(pointed := s.pointed - {name}, taken := {name});
            Inv(popped, target) && TablesFit(popped, target, layouts)
  {
    hide Inv, TablesFit, IsRepresentable, IsQualified;
    PointedIsRepresentable(s, target, name);
    TrackedIsAllowed(s, target);
    var popped := s.(pointed := s.pointed - {name}, taken := {name});
    Retracked(s, popped, target, layouts);
  }

  /** The name is defined, and need not be remembered any more. */
  lemma NameReleased(s: State, popped: State, lowered: State, target: Target, layouts: seq<TableLayout>, name: string)
    requires popped == s.(pointed := s.pointed - {name}, taken := {name}) && name in s.pointed && s.taken == {}
    requires TablesFit(popped, target, layouts)
    requires Inv(lowered, target) && Grew(popped, lowered) && name in lowered.completed
    requires name in s.completed ==> lowered == popped
    requires Step(popped, lowered, target, true, multiset{})
    ensures var b := lowered.(taken := {});
            && Inv(b, target) && TablesFit(b, target, layouts) && Step(s, b, target, true, multiset{})
            && s.values <= b.values && s.models == b.models && s.allowed == b.allowed && s.errors <= b.errors
            && b.visiting == s.visiting
            && (s.completed < b.completed || (b.completed == s.completed && b.pointed < s.pointed))
  {
    hide Inv, TablesFit, Step;
    var b := lowered.(taken := {});
    TablesStay(popped, lowered, target, layouts);
    TrackedIsAllowed(lowered, target);
    Retracked(lowered, b, target, layouts);
    StepNone(s, popped, target);
    StepNone(lowered, b, target);
    StepOn(s, popped, lowered, target, true, multiset{});
    StepOn(s, lowered, b, target, true, multiset{});
  }
}
