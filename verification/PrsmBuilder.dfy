/** Building a binding module: checking it, sorting its declarations, and describing its calls. */
module PrsmBuilder {
  import opened Bytes
  import opened Names
  import opened Netstrings
  import opened Permutations
  import opened PrsmModel
  import opened PrsmDescriptor
  import opened PrsmAcceptance

  /** A call, its descriptor, and the digest of that. */
  datatype Contract = Contract(declaration: Callable, descriptor: string, digest: string)

  datatype Module = Module(input: Input, calls: seq<Contract>)

  function DescriptorOf(m: Input, c: Callable): string
    requires SlotsResolve(m.values, c)
  {
    Join(Items(FactsOf(m, c)))
  }

  /** The input with its declarations sorted, and a contract for each of its callables. */
  ghost predicate IsModuleOf(r: Module, m: Input, digest: string -> string) {
    && Permuted(r.input, m)
    && SortedBy(r.input.types, TypeCppName) && SortedBy(r.input.values, ValueCppName)
    && SortedBy(r.input.callables, SymbolOf)
    && |r.calls| == |r.input.callables|
    && forall i :: 0 <= i < |r.calls| ==>
         && SlotsResolve(r.input.values, r.input.callables[i])
         && r.calls[i].declaration == r.input.callables[i]
         && r.calls[i].descriptor == DescriptorOf(r.input, r.input.callables[i])
         && r.calls[i].digest == digest(r.calls[i].descriptor)
  }

  // One module for all orders

  lemma TypeNamesDiffer(m: Input, t: NominalType, u: NominalType)
    requires Distinct(CppNames(m)) && t in m.types && u in m.types && t.cppName == u.cppName
    ensures t == u
  {
    var i :| 0 <= i < |m.types| && m.types[i] == t;
    var j :| 0 <= j < |m.types| && m.types[j] == u;
    assert CppNames(m)[i] == t.cppName && CppNames(m)[j] == u.cppName;
  }

  lemma SymbolsDiffer(m: Input, c: Callable, d: Callable)
    requires Distinct(Map(SymbolOf, m.callables)) && c in m.callables && d in m.callables && c.symbol == d.symbol
    ensures c == d
  {
    var i :| 0 <= i < |m.callables| && m.callables[i] == c;
    var j :| 0 <= j < |m.callables| && m.callables[j] == d;
    assert Map(SymbolOf, m.callables)[i] == c.symbol && Map(SymbolOf, m.callables)[j] == d.symbol;
  }

  lemma SortedInputsAreEqual(a: Input, x: Input, y: Input)
    requires Accepts(a) && Permuted(x, a) && Permuted(y, a)
    requires SortedBy(x.types, TypeCppName) && SortedBy(x.values, ValueCppName) && SortedBy(x.callables, SymbolOf)
    requires SortedBy(y.types, TypeCppName) && SortedBy(y.values, ValueCppName) && SortedBy(y.callables, SymbolOf)
    ensures x == y
  {
    hide HeaderFits, GlobalsFit, CallFits, ValueFits, NamesFit, MembersFit, SortedBy, CppNames, ScriptNames;
    forall t, u | t in x.types && u in x.types && TypeCppName(t) == TypeCppName(u)
      ensures t == u
    {
      InPermutes(x.types, a.types, t);
      InPermutes(x.types, a.types, u);
      TypeNamesDiffer(a, t, u);
    }
    SortedIsUnique(x.types, y.types, TypeCppName);
    forall v, w | v in x.values && w in x.values && ValueCppName(v) == ValueCppName(w)
      ensures v == w
    {
      InPermutes(x.values, a.values, v);
      InPermutes(x.values, a.values, w);
      ValueNamesDiffer(a, v, w);
    }
    SortedIsUnique(x.values, y.values, ValueCppName);
    forall c, d | c in x.callables && d in x.callables && SymbolOf(c) == SymbolOf(d)
      ensures c == d
    {
      InPermutes(x.callables, a.callables, c);
      InPermutes(x.callables, a.callables, d);
      SymbolsDiffer(a, c, d);
    }
    SortedIsUnique(x.callables, y.callables, SymbolOf);
  }

  /** Permuting the declarations changes neither whether the module is accepted nor what is built from it. */
  lemma OrderDoesNotMatter(a: Input, b: Input, x: Module, y: Module, digest: string -> string)
    requires Permuted(a, b) && Accepts(a)
    requires IsModuleOf(x, a, digest) && IsModuleOf(y, b, digest)
    ensures Accepts(b) && x == y
  {
    hide Accepts, SortedBy, DescriptorOf, SlotsResolve;
    AcceptancePermutes(a, b);
    SortedInputsAreEqual(a, x.input, y.input);
    forall i | 0 <= i < |x.calls|
      ensures x.calls[i] == y.calls[i]
    {
    }
  }

  // Building

  method CheckSources(sources: seq<Source>) returns (ok: bool)
    ensures ok <==> (forall i :: 0 <= i < |sources| ==> SourceFits(sources[i])) && Distinct(sources)
  {
    hide SourceFits, Distinct;
    ok := true;
    var names: set<Source> := {};
    assert sources[..0] == [];
    DistinctNothing<Source>();
    for k := 0 to |sources|
      invariant ok <==> (forall i :: 0 <= i < k ==> SourceFits(sources[i])) && Distinct(sources[..k])
      invariant ok ==> names == set s | s in sources[..k]
    {
      assert sources[..k + 1] == sources[..k] + [sources[k]];
      DistinctAppend(sources[..k], sources[k]);
      if !SourceFits(sources[k]) || sources[k] in names {
        ok := false;
      }
      names := names + {sources[k]};
    }
    assert sources[..|sources|] == sources;
  }

  lemma DistinctNothing<T>()
    ensures Distinct<T>([])
  {
  }

  lemma NothingMapped<T, U>(f: T -> U, s: seq<T>)
    ensures Map(f, s[..0]) == []
  {
  }

  lemma MapAppend<T, U>(f: T -> U, s: seq<T>, k: nat)
    requires k < |s|
    ensures Map(f, s[..k + 1]) == Map(f, s[..k]) + [f(s[k])]
  {
    assert s[..k + 1][..k] == s[..k];
  }

  /** The set of what a module has used so far holds what the sequence holds. */
  ghost predicate Used<T(!new)>(names: set<T>, all: seq<T>) {
    forall n :: n in names <==> n in all
  }

  lemma UsedNothing<T(!new)>(empty: set<T>)
    requires empty == {}
    ensures Used(empty, []) && Distinct<T>([])
  {
  }

  /** One more element, which must be new. */
  lemma OneMore<T, U(!new)>(f: T -> U, s: seq<T>, k: nat, names: set<U>)
    requires k < |s|
    ensures Distinct(Map(f, s[..k + 1])) <==> Distinct(Map(f, s[..k])) && f(s[k]) !in Map(f, s[..k])
    ensures Used(names, Map(f, s[..k])) ==> Used(names + {f(s[k])}, Map(f, s[..k + 1]))
    ensures Used(names, Map(f, s[..k])) ==> (f(s[k]) in names <==> f(s[k]) in Map(f, s[..k]))
  {
    MapAppend(f, s, k);
    DistinctAppend(Map(f, s[..k]), f(s[k]));
  }

  method CheckTypes(m: Input) returns (ok: bool, cppNames: set<string>, scriptNames: set<string>)
    ensures ok <==>
              && (forall i :: 0 <= i < |m.types| ==>
                    NamesFit(m.types[i].cppName, m.types[i].scriptName, m.types[i].source, |m.sources|))
              && Distinct(Map(TypeCppName, m.types)) && Distinct(Map(TypeScriptName, m.types))
    ensures ok ==> Used(cppNames, Map(TypeCppName, m.types)) && Used(scriptNames, Map(TypeScriptName, m.types))
  {
    hide NamesFit, Distinct, Used, Map;
    ok, cppNames, scriptNames := true, {}, {};
    NothingMapped(TypeCppName, m.types);
    NothingMapped(TypeScriptName, m.types);
    UsedNothing(cppNames);
    for k := 0 to |m.types|
      invariant ok <==>
                  && (forall i :: 0 <= i < k ==>
                        NamesFit(m.types[i].cppName, m.types[i].scriptName, m.types[i].source, |m.sources|))
                  && Distinct(Map(TypeCppName, m.types[..k])) && Distinct(Map(TypeScriptName, m.types[..k]))
      invariant ok ==> Used(cppNames, Map(TypeCppName, m.types[..k]))
                       && Used(scriptNames, Map(TypeScriptName, m.types[..k]))
    {
      var t := m.types[k];
      OneMore(TypeCppName, m.types, k, cppNames);
      OneMore(TypeScriptName, m.types, k, scriptNames);
      if !NamesFit(t.cppName, t.scriptName, t.source, |m.sources|) || t.cppName in cppNames || t.scriptName in scriptNames {
        ok := false;
      }
      cppNames, scriptNames := cppNames + {t.cppName}, scriptNames + {t.scriptName};
    }
    assert m.types[..|m.types|] == m.types;
  }

  /** Fields of a record in order, each past the end of the one before. */
  method CheckFields(fields: seq<ValueField>, size: nat) returns (ok: bool)
    ensures ok <==> Distinct(Map(FieldName, fields)) && FieldsFit(fields, 0, 0, size)
  {
    hide Distinct, FieldFits, Used;
    ok := true;
    var names: set<string> := {};
    var end: nat := 0;
    NothingMapped(FieldName, fields);
    UsedNothing(names);
    for k := 0 to |fields|
      invariant ok ==> Distinct(Map(FieldName, fields[..k])) && Used(names, Map(FieldName, fields[..k]))
      invariant ok ==> (FieldsFit(fields, 0, 0, size) <==> FieldsFit(fields, k, end, size))
      invariant !ok ==> !(Distinct(Map(FieldName, fields)) && FieldsFit(fields, 0, 0, size))
    {
      var f := fields[k];
      OneMore(FieldName, fields, k, names);
      DistinctPrefix(Map(FieldName, fields), Map(FieldName, fields[..k + 1]));
      if !FieldFits(f, end, size) || f.name in names {
        ok := false;
      }
      names := names + {f.name};
      end := f.offset + ScalarWidth(f.scalar);
    }
    assert fields[..|fields|] == fields;
  }

  lemma DistinctPrefix<T>(s: seq<T>, prefix: seq<T>)
    requires |prefix| <= |s| && forall i :: 0 <= i < |prefix| ==> prefix[i] == s[i]
    ensures Distinct(s) ==> Distinct(prefix)
  {
  }

  method CheckCases(cases: seq<ValueCase>, underlying: Scalar) returns (ok: bool)
    ensures ok <==>
              && (forall i :: 0 <= i < |cases| ==>
                    IsIdentifier(cases[i].name) && IsEnumerator(cases[i].value, underlying))
              && Distinct(Map(CaseName, cases)) && Distinct(Map(CaseNumber, cases))
  {
    hide Distinct, IsIdentifier, IsEnumerator, Used, Map;
    ok := true;
    var names: set<string>, numbers: set<string> := {}, {};
    NothingMapped(CaseName, cases);
    NothingMapped(CaseNumber, cases);
    UsedNothing(names);
    for k := 0 to |cases|
      invariant ok <==>
                  && (forall i :: 0 <= i < k ==>
                        IsIdentifier(cases[i].name) && IsEnumerator(cases[i].value, underlying))
                  && Distinct(Map(CaseName, cases[..k])) && Distinct(Map(CaseNumber, cases[..k]))
      invariant ok ==> Used(names, Map(CaseName, cases[..k])) && Used(numbers, Map(CaseNumber, cases[..k]))
    {
      var item := cases[k];
      OneMore(CaseName, cases, k, names);
      OneMore(CaseNumber, cases, k, numbers);
      var accepted := EnumeratorValue(item.value, underlying);
      if !IsIdentifier(item.name) || item.name in names || !accepted || item.value in numbers {
        ok := false;
      }
      names, numbers := names + {item.name}, numbers + {item.value};
    }
    assert cases[..|cases|] == cases;
  }

  method CheckLayout(v: ValueType) returns (ok: bool)
    ensures ok <==> if v.isRecord then RecordFits(v) else EnumFits(v)
  {
    hide Distinct, FieldsFit, IsIdentifier, IsEnumerator;
    if v.isRecord {
      var fields := CheckFields(v.fields, v.size);
      ok := && 0 < |v.fields| <= 64 && v.align in {1, 2, 4, 8, 16} && 0 < v.size <= 4096
            && v.size % v.align == 0 && v.cases == [] && fields;
    } else {
      var cases := CheckCases(v.cases, v.underlying);
      ok := 0 < |v.cases| <= LIMIT && IsIntegral(v.underlying) && v.fields == [] && cases;
    }
  }

  /** Value types share their names with nominal types, whose names are given. */
  method CheckValues(m: Input, cppBefore: set<string>, scriptBefore: set<string>) returns (ok: bool)
    requires Distinct(Map(TypeCppName, m.types)) && Distinct(Map(TypeScriptName, m.types))
    requires Used(cppBefore, Map(TypeCppName, m.types)) && Used(scriptBefore, Map(TypeScriptName, m.types))
    ensures ok <==>
              && (forall i :: 0 <= i < |m.values| ==> ValueFits(m.values[i], |m.sources|))
              && Distinct(CppNames(m)) && Distinct(ScriptNames(m))
  {
    hide NamesFit, Distinct, RecordFits, EnumFits, Used, Map;
    var cppNames, scriptNames := cppBefore, scriptBefore;
    ok := true;
    ghost var cpp, script := Map(TypeCppName, m.types), Map(TypeScriptName, m.types);
    NothingMapped(ValueCppName, m.values);
    NothingMapped(ValueScriptName, m.values);
    assert cpp + [] == cpp && script + [] == script;
    for k := 0 to |m.values|
      invariant ok <==>
                  && (forall i :: 0 <= i < k ==> ValueFits(m.values[i], |m.sources|))
                  && Distinct(cpp + Map(ValueCppName, m.values[..k]))
                  && Distinct(script + Map(ValueScriptName, m.values[..k]))
      invariant ok ==> Used(cppNames, cpp + Map(ValueCppName, m.values[..k]))
                       && Used(scriptNames, script + Map(ValueScriptName, m.values[..k]))
    {
      var v := m.values[k];
      OneMoreName(ValueCppName, cpp, m.values, k, cppNames);
      OneMoreName(ValueScriptName, script, m.values, k, scriptNames);
      if !NamesFit(v.cppName, v.scriptName, v.source, |m.sources|) || v.cppName in cppNames || v.scriptName in scriptNames {
        ok := false;
      } else {
        var layout := CheckLayout(v);
        ok := ok && layout;
      }
      cppNames, scriptNames := cppNames + {v.cppName}, scriptNames + {v.scriptName};
    }
    assert m.values[..|m.values|] == m.values;
  }

  lemma OneMoreName<T>(f: T -> string, before: seq<string>, s: seq<T>, k: nat, names: set<string>)
    requires k < |s|
    ensures Distinct(before + Map(f, s[..k + 1])) <==>
              Distinct(before + Map(f, s[..k])) && f(s[k]) !in before + Map(f, s[..k])
    ensures Used(names, before + Map(f, s[..k])) ==> Used(names + {f(s[k])}, before + Map(f, s[..k + 1]))
    ensures Used(names, before + Map(f, s[..k])) ==> (f(s[k]) in names <==> f(s[k]) in before + Map(f, s[..k]))
  {
    MapAppend(f, s, k);
    assert before + (Map(f, s[..k]) + [f(s[k])]) == before + Map(f, s[..k]) + [f(s[k])];
    DistinctAppend(before + Map(f, s[..k]), f(s[k]));
  }

  /** One callable against the module; a value slot list of the wrong length is not looked into. */
  method CheckCall(m: Input, c: Callable) returns (ok: bool)
    ensures ok <==> CallFits(m.types, m.values, c)
  {
    ok := && SlotsResolve(m.values, c) && NativeFits(c) && OwnerFits(m.types, c) && IdentityFits(m.types, c)
          && ShapeFits(c);
  }

  method CheckCalls(m: Input) returns (ok: bool)
    ensures ok <==>
              && (forall i :: 0 <= i < |m.callables| ==> CallFits(m.types, m.values, m.callables[i]))
              && Distinct(Map(SymbolOf, m.callables)) && Distinct(Map(MemberOf, m.callables))
  {
    hide CallFits, Distinct, Used, Map;
    ok := true;
    var symbols: set<string>, members: set<(string, string)> := {}, {};
    var calls := m.callables;
    NothingMapped(SymbolOf, calls);
    NothingMapped(MemberOf, calls);
    UsedNothing(symbols);
    UsedNothing(members);
    for k := 0 to |calls|
      invariant ok <==>
                  && (forall i :: 0 <= i < k ==> CallFits(m.types, m.values, calls[i]))
                  && Distinct(Map(SymbolOf, calls[..k])) && Distinct(Map(MemberOf, calls[..k]))
      invariant ok ==> Used(symbols, Map(SymbolOf, calls[..k])) && Used(members, Map(MemberOf, calls[..k]))
    {
      var c := calls[k];
      OneMore(SymbolOf, calls, k, symbols);
      OneMore(MemberOf, calls, k, members);
      var fits := CheckCall(m, c);
      if !fits || c.symbol in symbols || MemberOf(c) in members {
        ok := false;
      }
      symbols, members := symbols + {c.symbol}, members + {MemberOf(c)};
    }
    assert calls[..|calls|] == calls;
  }

  /** The callables of each member, collected in order. */
  method CollectMembers(calls: seq<Callable>) returns (members: map<(string, string), seq<Callable>>)
    ensures IsIndex(members, calls)
  {
    hide IsIndex;
    members := map[];
    EmptyIndex();
    assert calls[..0] == [];
    for k := 0 to |calls|
      invariant IsIndex(members, calls[..k])
    {
      var c := calls[k];
      IndexMore(members, calls, k);
      if c.operation != Owner {
        var key := (c.receiver, c.scriptName);
        members := members[key := (if key in members then members[key] else []) + [c]];
      }
    }
    assert calls[..|calls|] == calls;
  }

  ghost predicate IsIndex(members: map<(string, string), seq<Callable>>, calls: seq<Callable>) {
    && (forall key :: key in members <==> Group(calls, key) != [])
    && (forall key :: key in members ==> members[key] == Group(calls, key))
  }

  lemma EmptyIndex()
    ensures IsIndex(map[], [])
  {
  }

  lemma IndexMore(members: map<(string, string), seq<Callable>>, calls: seq<Callable>, k: nat)
    requires k < |calls| && IsIndex(members, calls[..k])
    ensures var c := calls[k];
            var key := (c.receiver, c.scriptName);
            IsIndex(if c.operation == Owner then members
                    else members[key := (if key in members then members[key] else []) + [c]], calls[..k + 1])
  {
    assert calls[..k + 1][..k] == calls[..k];
  }

  method CheckMembers(m: Input) returns (ok: bool)
    requires forall c :: c in m.callables ==> SlotsResolve(m.values, c)
    ensures ok <==> MembersFit(m.values, m.callables)
  {
    hide SlotsResolve, GroupFits, IsMember;
    var members := CollectMembers(m.callables);
    ok := true;
    var keys := members.Keys;
    while keys != {}
      invariant keys <= members.Keys
      invariant ok <==> forall key :: key in members && key !in keys ==> GroupFits(m.values, members[key])
    {
      var key :| key in keys;
      keys := keys - {key};
      if !GroupFits(m.values, members[key]) {
        ok := false;
      }
    }
  }

  method CollectOwners(calls: seq<Callable>) returns (names: seq<string>)
    ensures names == OwnerNames(calls)
  {
    names := [];
    assert calls[..0] == [];
    for k := 0 to |calls|
      invariant names == OwnerNames(calls[..k])
    {
      assert calls[..k + 1][..k] == calls[..k];
      if calls[k].operation == Owner {
        names := names + [calls[k].scriptName];
      }
    }
    assert calls[..|calls|] == calls;
  }

  method CheckGlobals(names: seq<string>) returns (ok: bool)
    ensures ok <==> GlobalsFit(names)
  {
    hide IsFree, Conflict;
    ok := true;
    for i := 0 to |names|
      invariant ok <==>
                  && (forall k :: 0 <= k < i ==> IsFree(names[k]))
                  && (forall k, j :: 0 <= k < i && k < j < |names| ==> !Conflict(names[k], names[j]))
    {
      ghost var before := ok;
      if !IsFree(names[i]) {
        ok := false;
      }
      for j := i + 1 to |names|
        invariant ok <==> before && IsFree(names[i]) && forall k :: i < k < j ==> !Conflict(names[i], names[k])
      {
        if Conflict(names[i], names[j]) {
          ok := false;
        }
      }
    }
  }

  method CheckDeclarations(m: Input) returns (ok: bool)
    ensures ok <==> DeclarationsFit(m)
  {
    hide Distinct, NamesFit, ValueFits;
    DistinctPrefix(CppNames(m), Map(TypeCppName, m.types));
    DistinctPrefix(ScriptNames(m), Map(TypeScriptName, m.types));
    var types, cppNames, scriptNames := CheckTypes(m);
    if types {
      ok := CheckValues(m, cppNames, scriptNames);
    } else {
      ok := false;
    }
  }

  method CheckCallables(m: Input) returns (ok: bool)
    ensures ok <==> CallablesFit(m)
  {
    hide Distinct, CallFits, MembersFit;
    ok := CheckCalls(m);
    if ok {
      CallsResolve(m);
      ok := CheckMembers(m);
    }
  }

  method CheckHeader(m: Input) returns (ok: bool)
    ensures ok <==> HeaderFits(m)
  {
    hide Distinct, IsText, IsQualified, SourceFits;
    ok := CheckSources(m.sources);
    if !IsText(m.name) || !IsQualified(m.name, "::") || m.pointerWidth != 64 || m.triple !in TARGETS
       || m.sources == [] || |m.sources| > LIMIT || |m.types| > LIMIT || |m.callables| > LIMIT || |m.values| > LIMIT {
      ok := false;
    }
  }

  method Check(m: Input) returns (ok: bool)
    ensures ok <==> Accepts(m)
  {
    hide HeaderFits, DeclarationsFit, CallablesFit, GlobalsFit;
    var header := CheckHeader(m);
    var declarations := CheckDeclarations(m);
    var callables := CheckCallables(m);
    var owners := CollectOwners(m.callables);
    var globals := CheckGlobals(ScriptNames(m) + owners);
    return header && declarations && callables && globals;
  }

  method Build(m: Input, digest: string -> string) returns (r: Option<Module>)
    ensures r.Some? <==> Accepts(m)
    ensures r.Some? ==> IsModuleOf(r.value, m, digest)
  {
    hide Accepts, SortedBy, DescriptorOf, SlotsResolve;
    var ok := Check(m);
    if !ok {
      return None;
    }
    var types := SortBy(m.types, TypeCppName);
    var values := SortBy(m.values, ValueCppName);
    var callables := SortBy(m.callables, SymbolOf);
    var input := Input(m.name, m.triple, m.pointerWidth, m.sources, types, values, callables);
    AcceptedResolve(input, m);
    var calls := DescribeCalls(input, digest);
    return Some(Module(input, calls));
  }

  method DescribeCalls(m: Input, digest: string -> string) returns (calls: seq<Contract>)
    requires forall i :: 0 <= i < |m.callables| ==> SlotsResolve(m.values, m.callables[i])
    ensures |calls| == |m.callables|
    ensures forall i :: 0 <= i < |calls| ==>
              calls[i] == Contract(m.callables[i], DescriptorOf(m, m.callables[i]), digest(DescriptorOf(m, m.callables[i])))
  {
    hide SlotsResolve, FactsOf, Items, Join;
    calls := [];
    for i := 0 to |m.callables|
      invariant |calls| == i
      invariant forall j :: 0 <= j < i ==>
                  calls[j] == Contract(m.callables[j], DescriptorOf(m, m.callables[j]), digest(DescriptorOf(m, m.callables[j])))
    {
      var abi := Descriptor(m, m.callables[i]);
      calls := calls + [Contract(m.callables[i], abi, digest(abi))];
    }
  }

  lemma AcceptedResolve(x: Input, m: Input)
    requires Accepts(m) && Permuted(x, m)
    ensures forall i :: 0 <= i < |x.callables| ==> SlotsResolve(x.values, x.callables[i])
  {
    hide HeaderFits, DeclarationsFit, GlobalsFit, MembersFit, CallFits;
    AcceptancePermutes(x, m);
    CallsResolve(x);
  }
}
