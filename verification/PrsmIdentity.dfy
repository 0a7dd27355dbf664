/**
 When two calls are the same to the ABI: which facts of a call, of its module and of the value types it refers
 to make up its descriptor, and which never do.
 */
module PrsmIdentity {
  import opened Netstrings
  import opened PrsmModel
  import opened PrsmDescriptor

  predicate SameDefinition(v: ValueType, w: ValueType) {
    && v.cppName == w.cppName && v.isRecord == w.isRecord
    && if v.isRecord then v.size == w.size && v.align == w.align && v.fields == w.fields
       else v.underlying == w.underlying && v.cases == w.cases
  }

  /** A slot is the value type it names, or its scalar. */
  predicate SameSlot(scalar: Scalar, name: string, otherScalar: Scalar, otherName: string) {
    name == otherName && (name == "" ==> scalar == otherScalar)
  }

  /**
   The facts that count. The names that scripts use, sources and spellings of native types are not among them,
   nor are the other types, values and calls of the modules.
   */
  predicate SameAbi(m: Input, c: Callable, n: Input, d: Callable)
    requires SlotsResolve(m.values, c) && SlotsResolve(n.values, d)
  {
    && m.name == n.name && m.triple == n.triple && m.pointerWidth == n.pointerWidth
    && c.symbol == d.symbol && c.operation == d.operation && c.effect == d.effect
    && c.receiver == d.receiver && c.receiverKind == d.receiverKind
    && c.cppName == d.cppName && c.cppSignature == d.cppSignature
    && c.handleResult == d.handleResult
    && (c.handleResult == "" ==> SameSlot(c.result, c.resultValue, d.result, d.resultValue))
    && |c.parameters| == |d.parameters|
    && (forall i :: 0 <= i < |c.parameters| ==>
          SameSlot(c.parameters[i], ParameterValue(c, i), d.parameters[i], ParameterValue(d, i)))
    && SameValues(m, c, n, d)
  }

  predicate SameValues(m: Input, c: Callable, n: Input, d: Callable) {
    && ReferencedNames(c) == ReferencedNames(d)
    && forall name :: name in ReferencedNames(c) ==>
         && FindValue(m.values, name).Some? && FindValue(n.values, name).Some?
         && SameDefinition(FindValue(m.values, name).value, FindValue(n.values, name).value)
  }

  lemma {:induction false} FoundHasName(values: seq<ValueType>, name: string)
    ensures FindValue(values, name).Some? ==> FindValue(values, name).value.cppName == name
  {
    if values != [] && values[0].cppName != name {
      FoundHasName(values[1..], name);
    }
  }

  lemma {:induction false} NamedIsNoted(names: seq<string>, i: nat)
    requires i < |names| && names[i] != ""
    ensures names[i] in Noted(names)
    decreases |names|
  {
    if i < |names| - 1 {
      NamedIsNoted(names[..|names| - 1], i);
    }
  }

  lemma SlotTells(m: seq<ValueType>, s: Scalar, name: string, n: seq<ValueType>, t: Scalar, other: string)
    requires Resolves(m, name) && Resolves(n, other) && SlotOf(m, s, name) == SlotOf(n, t, other)
    ensures SameSlot(s, name, t, other)
  {
  }

  lemma SlotIsTold(m: seq<ValueType>, s: Scalar, name: string, n: seq<ValueType>, t: Scalar, other: string)
    requires Resolves(m, name) && Resolves(n, other) && SameSlot(s, name, t, other)
    requires name != "" ==> SameDefinition(FindValue(m, name).value, FindValue(n, name).value)
    ensures SlotOf(m, s, name) == SlotOf(n, t, other)
  {
  }

  lemma DefinitionTells(v: ValueType, w: ValueType)
    ensures DefinitionOf(v) == DefinitionOf(w) <==> SameDefinition(v, w)
  {
  }

  /** Equal facts are the same ABI. */
  lemma FactsTell(m: Input, c: Callable, n: Input, d: Callable)
    requires SlotsResolve(m.values, c) && SlotsResolve(n.values, d) && FactsOf(m, c) == FactsOf(n, d)
    ensures SameAbi(m, c, n, d)
  {
    hide SlotOf, ReferencedNames, FindValue, DefinitionOf, SameDefinition, SameSlot;
    var f := FactsOf(m, c);
    if c.handleResult == "" && d.handleResult == "" {
      SlotTells(m.values, c.result, c.resultValue, n.values, d.result, d.resultValue);
    } else {
      NoHandle(m.values, c.result, c.resultValue);
      NoHandle(n.values, d.result, d.resultValue);
    }
    assert |c.parameters| == |ParameterSlots(m.values, c)| == |ParameterSlots(n.values, d)|;
    forall i | 0 <= i < |c.parameters|
      ensures SameSlot(c.parameters[i], ParameterValue(c, i), d.parameters[i], ParameterValue(d, i))
    {
      assert f.parameters[i] == ParameterSlots(m.values, c)[i] == ParameterSlots(n.values, d)[i];
      SlotTells(m.values, c.parameters[i], ParameterValue(c, i), n.values, d.parameters[i], ParameterValue(d, i));
    }
    ValuesTell(m, c, n, d);
  }

  lemma NoHandle(values: seq<ValueType>, s: Scalar, name: string)
    requires Resolves(values, name)
    ensures !SlotOf(values, s, name).HandleSlot?
  {
  }

  lemma ValuesTell(m: Input, c: Callable, n: Input, d: Callable)
    requires SlotsResolve(m.values, c) && SlotsResolve(n.values, d) && FactsOf(m, c).values == FactsOf(n, d).values
    ensures SameValues(m, c, n, d)
  {
    hide ReferencedNames, FindValue, SameDefinition, ResultSlot, ParameterSlots, SlotsResolve, DefinitionOf;
    ReferencedResolve(m.values, c);
    ReferencedResolve(n.values, d);
    var a, b, ds := ReferencedNames(c), ReferencedNames(d), FactsOf(m, c).values;
    assert |a| == |ds| == |b|;
    forall i | 0 <= i < |a|
      ensures a[i] == b[i] && SameDefinition(FindValue(m.values, a[i]).value, FindValue(n.values, a[i]).value)
    {
      var v, w := FindValue(m.values, a[i]).value, FindValue(n.values, b[i]).value;
      assert ds[i] == DefinitionOf(v) == DefinitionOf(w);
      DefinitionTells(v, w);
      DefinedNames(v, w);
      FoundHasName(m.values, a[i]);
      FoundHasName(n.values, b[i]);
    }
  }

  lemma DefinedNames(v: ValueType, w: ValueType)
    requires SameDefinition(v, w)
    ensures v.cppName == w.cppName
  {
  }

  /** The same ABI has equal facts. */
  lemma FactsAreTold(m: Input, c: Callable, n: Input, d: Callable)
    requires SlotsResolve(m.values, c) && SlotsResolve(n.values, d) && SameAbi(m, c, n, d)
    ensures FactsOf(m, c) == FactsOf(n, d)
  {
    hide SlotOf, FindValue, DefinitionOf, SameDefinition, SameSlot, Noted;
    var names := [c.resultValue] + c.parameterValues;
    if c.handleResult == "" {
      if c.resultValue != "" {
        NamedIsNoted(names, 0);
      }
      SameName(c.result, c.resultValue, d.result, d.resultValue);
      SlotIsTold(m.values, c.result, c.resultValue, n.values, d.result, d.resultValue);
    }
    forall i | 0 <= i < |c.parameters|
      ensures ParameterSlots(m.values, c)[i] == ParameterSlots(n.values, d)[i]
    {
      if ParameterValue(c, i) != "" {
        NamedIsNoted(names, i + 1);
      }
      SameName(c.parameters[i], ParameterValue(c, i), d.parameters[i], ParameterValue(d, i));
      SlotIsTold(m.values, c.parameters[i], ParameterValue(c, i), n.values, d.parameters[i], ParameterValue(d, i));
    }
    assert ParameterSlots(m.values, c) == ParameterSlots(n.values, d);
    ValuesAreTold(m, c, n, d);
  }

  lemma SameName(s: Scalar, name: string, t: Scalar, other: string)
    requires SameSlot(s, name, t, other)
    ensures name == other
  {
  }

  lemma ValuesAreTold(m: Input, c: Callable, n: Input, d: Callable)
    requires SlotsResolve(m.values, c) && SlotsResolve(n.values, d) && SameValues(m, c, n, d)
    ensures FactsOf(m, c).values == FactsOf(n, d).values
  {
    hide ReferencedNames, FindValue, SameDefinition, ResultSlot, ParameterSlots, SlotsResolve, DefinitionOf;
    ReferencedResolve(m.values, c);
    ReferencedResolve(n.values, d);
    var a := ReferencedNames(c);
    forall i | 0 <= i < |a|
      ensures DefinitionOf(FindValue(m.values, a[i]).value) == DefinitionOf(FindValue(n.values, a[i]).value)
    {
      DefinitionTells(FindValue(m.values, a[i]).value, FindValue(n.values, a[i]).value);
    }
    assert FactsOf(m, c).values == DefinitionsOf(m.values, a);
    assert DefinitionsOf(m.values, a) == DefinitionsOf(n.values, a);
  }

  /** Two calls have equal descriptors exactly if they are the same to the ABI. */
  lemma EqualExactlyWhenSameAbi(m: Input, c: Callable, n: Input, d: Callable)
    requires SlotsResolve(m.values, c) && SlotsResolve(n.values, d)
    ensures Join(Items(FactsOf(m, c))) == Join(Items(FactsOf(n, d))) <==> SameAbi(m, c, n, d)
  {
    hide FactsOf, SameAbi, Items, Join, SlotsResolve;
    if Join(Items(FactsOf(m, c))) == Join(Items(FactsOf(n, d))) {
      DescriptorIsInjective(FactsOf(m, c), FactsOf(n, d));
      FactsTell(m, c, n, d);
    }
    if SameAbi(m, c, n, d) {
      FactsAreTold(m, c, n, d);
    }
  }
}
