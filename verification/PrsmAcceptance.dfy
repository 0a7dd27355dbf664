/** Which PrSM binding modules are accepted, and that the order of declarations has no say in it. */
module PrsmAcceptance {
  import opened Bytes
  import opened Names
  import opened Permutations
  import opened PrsmModel
  import opened PrsmDescriptor

  predicate IsText(s: string) {
    0 < |s| <= 4096 && forall i :: 0 <= i < |s| ==> s[i] >= ' ' && s[i] != 127 as char
  }

  const TARGETS := {"x86_64-pc-windows-msvc", "x86_64-unknown-linux-gnu", "x86_64-pc-linux-gnu",
                    "aarch64-unknown-linux-gnu"}

  const NATIVE_TYPES := {"void", "bool", "char", "signed char", "unsigned char", "short", "short int",
                         "unsigned short", "unsigned short int", "int", "unsigned int", "long", "long int",
                         "unsigned long", "unsigned long int", "long long", "long long int",
                         "unsigned long long", "unsigned long long int", "float", "double", "__int64",
                         "unsigned __int64"}

  const RESERVED_NAMES := {"void", "bool", "int", "uint", "float", "double", "int8", "int16", "int32", "int64",
                           "uint8", "uint16", "uint32", "uint64", "float32", "float64"}

  const LIMIT := 4096

  // Names of declarations

  function TypeCppName(t: NominalType): string { t.cppName }
  function TypeScriptName(t: NominalType): string { t.scriptName }
  function ValueCppName(v: ValueType): string { v.cppName }
  function ValueScriptName(v: ValueType): string { v.scriptName }
  function FieldName(f: ValueField): string { f.name }
  function CaseName(c: ValueCase): string { c.name }
  function CaseNumber(c: ValueCase): string { c.value }
  function SymbolOf(c: Callable): string { c.symbol }

  /** A callable's native member: owner ingress is one of its type. */
  function MemberOf(c: Callable): (string, string) {
    (if c.operation == Owner then "owner:" + c.handleResult else c.receiver, c.cppName)
  }

  function CppNames(m: Input): seq<string> {
    Map(TypeCppName, m.types) + Map(ValueCppName, m.values)
  }

  function ScriptNames(m: Input): seq<string> {
    Map(TypeScriptName, m.types) + Map(ValueScriptName, m.values)
  }

  // Single declarations

  predicate SourceFits(s: Source) {
    IsText(s.name) && (s.kind == NamedModule ==> IsQualified(s.name, "."))
  }

  predicate NamesFit(cppName: string, scriptName: string, source: nat, sources: nat) {
    && IsText(cppName) && IsQualified(cppName, "::")
    && IsText(scriptName) && IsQualified(scriptName, "::") && source < sources
  }

  predicate FieldFits(f: ValueField, end: nat, size: nat) {
    && IsIdentifier(f.name) && IsNumeric(f.scalar) && f.offset >= end
    && f.offset % ScalarWidth(f.scalar) == 0 && f.offset + ScalarWidth(f.scalar) <= size
  }

  /** Fields from number `k` on, the first of them not before `end`. */
  predicate FieldsFit(fields: seq<ValueField>, k: nat, end: nat, size: nat)
    requires k <= |fields|
    decreases |fields| - k
  {
    k == |fields|
    || (FieldFits(fields[k], end, size)
        && FieldsFit(fields, k + 1, fields[k].offset + ScalarWidth(fields[k].scalar), size))
  }

  predicate RecordFits(v: ValueType) {
    && 0 < |v.fields| <= 64 && v.align in {1, 2, 4, 8, 16} && 0 < v.size <= 4096 && v.size % v.align == 0
    && v.cases == [] && Distinct(Map(FieldName, v.fields)) && FieldsFit(v.fields, 0, 0, v.size)
  }

  predicate IsIntegral(s: Scalar) {
    IsNumeric(s) && s != Float32 && s != Float64
  }

  ghost predicate EnumFits(v: ValueType) {
    && 0 < |v.cases| <= LIMIT && IsIntegral(v.underlying) && v.fields == []
    && (forall i :: 0 <= i < |v.cases| ==>
          IsIdentifier(v.cases[i].name) && IsEnumerator(v.cases[i].value, v.underlying))
    && Distinct(Map(CaseName, v.cases)) && Distinct(Map(CaseNumber, v.cases))
  }

  ghost predicate ValueFits(v: ValueType, sources: nat) {
    NamesFit(v.cppName, v.scriptName, v.source, sources) && if v.isRecord then RecordFits(v) else EnumFits(v)
  }

  // Callables

  predicate HasType(types: seq<NominalType>, name: string) {
    exists i :: 0 <= i < |types| && types[i].cppName == name
  }

  predicate KindAgrees(types: seq<NominalType>, name: string, kind: Receiver) {
    forall i :: 0 <= i < |types| && types[i].cppName == name ==> types[i].receiver == kind
  }

  predicate HasValues(c: Callable) {
    c.resultValue != "" || exists i :: 0 <= i < |c.parameterValues| && c.parameterValues[i] != ""
  }

  predicate ReturnsVoid(c: Callable) {
    c.resultValue == "" && c.result == Void
  }

  predicate NativeFits(c: Callable)
    requires c.parameterValues == [] || |c.parameterValues| == |c.parameters|
  {
    && (c.nativeResult != "" && c.resultValue == "" ==> c.nativeResult in NATIVE_TYPES)
    && (c.resultValue != "" ==> IsText(c.nativeResult))
    && (c.nativeParameters == [] || |c.nativeParameters| == |c.parameters|)
    && forall i :: 0 <= i < |c.nativeParameters| ==>
         if ParameterValue(c, i) == "" then c.nativeParameters[i] != "void" && c.nativeParameters[i] in NATIVE_TYPES
         else IsText(c.nativeParameters[i])
  }

  predicate OwnerFits(types: seq<NominalType>, c: Callable) {
    if c.operation == Owner then
      && c.receiver == "" && HasType(types, c.handleResult) && !HasValues(c) && c.result == UInt64
      && c.parameters == [] && c.effect == Read && !c.isConst && !c.isNoexcept && c.cppName == "binding_owner"
    else c.handleResult == ""
  }

  predicate IdentityFits(types: seq<NominalType>, c: Callable) {
    && KindAgrees(types, if c.operation == Owner then c.handleResult else c.receiver, c.receiverKind)
    && (c.operation != Owner ==> HasType(types, c.receiver))
    && IsText(c.cppName) && IsIdentifier(c.cppName) && IsText(c.cppSignature) && IsText(c.scriptName)
    && (if c.operation == Owner then IsQualified(c.scriptName, "::") else IsIdentifier(c.scriptName))
    && IsText(c.symbol) && IsIdentifier(c.symbol) && StartsWith(c.symbol, "ce_prsm_bind_")
  }

  predicate ShapeFits(c: Callable)
    requires c.parameterValues == [] || |c.parameterValues| == |c.parameters|
  {
    && |c.parameters| <= 64
    && (forall i :: 0 <= i < |c.parameters| && ParameterValue(c, i) == "" ==> c.parameters[i] != Void)
    && (c.operation == Getter ==> c.parameters == [] && !ReturnsVoid(c) && c.effect == Read)
    && (c.operation == Setter ==> |c.parameters| == 1 && ReturnsVoid(c) && c.effect == Write)
  }

  predicate CallFits(types: seq<NominalType>, values: seq<ValueType>, c: Callable) {
    SlotsResolve(values, c) && NativeFits(c) && OwnerFits(types, c) && IdentityFits(types, c) && ShapeFits(c)
  }

  // Properties

  predicate IsMember(c: Callable, key: (string, string)) {
    c.operation != Owner && c.receiver == key.0 && c.scriptName == key.1
  }

  /** The callables that are one member of a type, in order. */
  function Group(calls: seq<Callable>, key: (string, string)): (group: seq<Callable>)
    ensures forall i :: 0 <= i < |group| ==> group[i] in calls && IsMember(group[i], key)
  {
    if calls == [] then []
    else
      var earlier, last := Group(calls[..|calls| - 1], key), calls[|calls| - 1];
      if IsMember(last, key) then earlier + [last] else earlier
  }

  /** A getter and a setter of the same slot. */
  predicate Pairs(values: seq<ValueType>, g: Callable, s: Callable)
    requires SlotsResolve(values, g) && SlotsResolve(values, s)
  {
    && g.operation == Getter && s.operation == Setter && |s.parameters| == 1
    && Token(SlotOf(values, s.parameters[0], ParameterValue(s, 0))) == Token(SlotOf(values, g.result, g.resultValue))
  }

  /** One callable that is no setter, or a getter and its setter in either order. */
  predicate GroupFits(values: seq<ValueType>, group: seq<Callable>)
    requires forall i :: 0 <= i < |group| ==> SlotsResolve(values, group[i])
  {
    || (|group| == 1 && group[0].operation != Setter)
    || (|group| == 2 && (Pairs(values, group[0], group[1]) || Pairs(values, group[1], group[0])))
  }

  ghost predicate MembersFit(values: seq<ValueType>, calls: seq<Callable>)
    requires forall c :: c in calls ==> SlotsResolve(values, c)
  {
    forall key :: Group(calls, key) != [] ==> GroupFits(values, Group(calls, key))
  }

  // Global names

  function OwnerNames(calls: seq<Callable>): seq<string> {
    if calls == [] then []
    else
      var earlier, last := OwnerNames(calls[..|calls| - 1]), calls[|calls| - 1];
      if last.operation == Owner then earlier + [last.scriptName] else earlier
  }

  predicate Conflict(a: string, b: string) {
    a == b || StartsWith(a, b + "::") || StartsWith(b, a + "::")
  }

  predicate IsFree(name: string) {
    name !in RESERVED_NAMES && !StartsWith(name, "std::")
  }

  predicate GlobalsFit(names: seq<string>) {
    && (forall i :: 0 <= i < |names| ==> IsFree(names[i]))
    && (forall i, j :: 0 <= i < j < |names| ==> !Conflict(names[i], names[j]))
  }

  function GlobalNames(m: Input): seq<string> {
    ScriptNames(m) + OwnerNames(m.callables)
  }

  // Modules

  predicate HeaderFits(m: Input) {
    && IsText(m.name) && IsQualified(m.name, "::") && m.pointerWidth == 64 && m.triple in TARGETS
    && 0 < |m.sources| <= LIMIT && |m.types| <= LIMIT && |m.callables| <= LIMIT && |m.values| <= LIMIT
    && (forall i :: 0 <= i < |m.sources| ==> SourceFits(m.sources[i])) && Distinct(m.sources)
  }

  ghost predicate DeclarationsFit(m: Input) {
    && (forall t :: t in m.types ==> NamesFit(t.cppName, t.scriptName, t.source, |m.sources|))
    && (forall v :: v in m.values ==> ValueFits(v, |m.sources|))
    && Distinct(CppNames(m)) && Distinct(ScriptNames(m))
  }

  ghost predicate CallablesFit(m: Input) {
    && (forall c :: c in m.callables ==> CallFits(m.types, m.values, c))
    && Distinct(Map(SymbolOf, m.callables)) && Distinct(Map(MemberOf, m.callables))
    && MembersFit(m.values, m.callables)
  }

  ghost predicate Accepts(m: Input) {
    HeaderFits(m) && DeclarationsFit(m) && CallablesFit(m) && GlobalsFit(GlobalNames(m))
  }

  // The order of declarations

  /** The same declarations in another order. */
  predicate Permuted(a: Input, b: Input) {
    && a.name == b.name && a.triple == b.triple && a.pointerWidth == b.pointerWidth && a.sources == b.sources
    && multiset(a.types) == multiset(b.types) && multiset(a.values) == multiset(b.values)
    && multiset(a.callables) == multiset(b.callables)
  }

  lemma MapConcatPermutes<T, U>(f: T -> string, a: seq<T>, b: seq<T>, g: U -> string, c: seq<U>, d: seq<U>)
    requires multiset(a) == multiset(b) && multiset(c) == multiset(d)
    ensures multiset(Map(f, a) + Map(g, c)) == multiset(Map(f, b) + Map(g, d))
  {
    MapPermutes(f, a, b);
    MapPermutes(g, c, d);
  }

  lemma DeclarationsPermute(a: Input, b: Input)
    requires Permuted(a, b) && DeclarationsFit(a)
    ensures DeclarationsFit(b)
  {
    hide NamesFit, ValueFits;
    MapConcatPermutes(TypeCppName, a.types, b.types, ValueCppName, a.values, b.values);
    MapConcatPermutes(TypeScriptName, a.types, b.types, ValueScriptName, a.values, b.values);
    DistinctPermutes(CppNames(a), CppNames(b));
    DistinctPermutes(ScriptNames(a), ScriptNames(b));
    forall t | t in b.types
      ensures NamesFit(t.cppName, t.scriptName, t.source, |b.sources|)
    {
      InPermutes(a.types, b.types, t);
    }
    forall v | v in b.values
      ensures ValueFits(v, |b.sources|)
    {
      InPermutes(a.values, b.values, v);
    }
  }

  lemma {:induction false} FindValueIs(values: seq<ValueType>, name: string)
    ensures match FindValue(values, name)
            case Some(v) => v in values && v.cppName == name
            case None => forall v :: v in values ==> v.cppName != name
    decreases |values|
  {
    if values != [] {
      FindValueIs(values[1..], name);
      assert values == [values[0]] + values[1..];
    }
  }

  lemma ValueNamesDiffer(m: Input, v: ValueType, w: ValueType)
    requires Distinct(CppNames(m)) && v in m.values && w in m.values && v.cppName == w.cppName
    ensures v == w
  {
    var i :| 0 <= i < |m.values| && m.values[i] == v;
    var j :| 0 <= j < |m.values| && m.values[j] == w;
    var n := |m.types|;
    assert CppNames(m)[n + i] == v.cppName && CppNames(m)[n + j] == w.cppName;
  }

  lemma FindValuePermutes(a: Input, b: Input, name: string)
    requires Permuted(a, b) && Distinct(CppNames(a))
    ensures FindValue(a.values, name) == FindValue(b.values, name)
  {
    FindValueIs(a.values, name);
    FindValueIs(b.values, name);
    match FindValue(b.values, name)
    case Some(v) =>
      InPermutes(a.values, b.values, v);
      ValueNamesDiffer(a, v, FindValue(a.values, name).value);
    case None =>
      if FindValue(a.values, name).Some? {
        InPermutes(a.values, b.values, FindValue(a.values, name).value);
      }
  }

  lemma SlotsPermute(a: Input, b: Input, c: Callable)
    requires Permuted(a, b) && Distinct(CppNames(a)) && SlotsResolve(a.values, c)
    ensures SlotsResolve(b.values, c)
    ensures forall name: string :: FindValue(a.values, name) == FindValue(b.values, name)
  {
    forall name: string
      ensures FindValue(a.values, name) == FindValue(b.values, name)
    {
      FindValuePermutes(a, b, name);
    }
  }

  lemma HasTypePermutes(a: seq<NominalType>, b: seq<NominalType>, name: string)
    requires multiset(a) == multiset(b) && HasType(a, name)
    ensures HasType(b, name)
  {
    var i :| 0 <= i < |a| && a[i].cppName == name;
    InPermutes(a, b, a[i]);
  }

  lemma KindPermutes(a: seq<NominalType>, b: seq<NominalType>, name: string, kind: Receiver)
    requires multiset(a) == multiset(b) && KindAgrees(a, name, kind)
    ensures KindAgrees(b, name, kind)
  {
    forall i | 0 <= i < |b| && b[i].cppName == name
      ensures b[i].receiver == kind
    {
      InPermutes(a, b, b[i]);
      var j :| 0 <= j < |a| && a[j] == b[i];
    }
  }

  lemma CallPermutes(a: Input, b: Input, c: Callable)
    requires Permuted(a, b) && Distinct(CppNames(a)) && CallFits(a.types, a.values, c)
    ensures CallFits(b.types, b.values, c)
  {
    hide SlotsResolve, NativeFits, ShapeFits, HasType, KindAgrees, IsText, IsIdentifier, IsQualified, HasValues;
    SlotsPermute(a, b, c);
    if c.operation == Owner {
      HasTypePermutes(a.types, b.types, c.handleResult);
      KindPermutes(a.types, b.types, c.handleResult, c.receiverKind);
    } else {
      HasTypePermutes(a.types, b.types, c.receiver);
      KindPermutes(a.types, b.types, c.receiver, c.receiverKind);
    }
  }

  lemma {:induction false} GroupCounts(calls: seq<Callable>, key: (string, string), c: Callable)
    ensures multiset(Group(calls, key))[c] == if IsMember(c, key) then multiset(calls)[c] else 0
    decreases |calls|
  {
    if calls != [] {
      var front, last := calls[..|calls| - 1], calls[|calls| - 1];
      assert calls == front + [last];
      GroupCounts(front, key, c);
    }
  }

  lemma GroupPermutes(a: seq<Callable>, b: seq<Callable>, key: (string, string))
    requires multiset(a) == multiset(b)
    ensures multiset(Group(a, key)) == multiset(Group(b, key))
  {
    forall c
      ensures multiset(Group(a, key))[c] == multiset(Group(b, key))[c]
    {
      GroupCounts(a, key, c);
      GroupCounts(b, key, c);
    }
  }

  lemma MembersPermute(a: Input, b: Input)
    requires Permuted(a, b) && Distinct(CppNames(a))
    requires forall c :: c in a.callables ==> SlotsResolve(a.values, c)
    requires forall c :: c in b.callables ==> SlotsResolve(b.values, c)
    requires MembersFit(a.values, a.callables)
    ensures MembersFit(b.values, b.callables)
  {
    forall key | Group(b.callables, key) != []
      ensures GroupFits(b.values, Group(b.callables, key))
    {
      var g, h := Group(a.callables, key), Group(b.callables, key);
      GroupPermutes(a.callables, b.callables, key);
      LengthPermutes(g, h);
      assert GroupFits(a.values, g);
      SmallPermutation(g, h);
      GroupFitsPermutes(a, b, g, h);
    }
  }

  lemma GroupFitsPermutes(a: Input, b: Input, g: seq<Callable>, h: seq<Callable>)
    requires Permuted(a, b) && Distinct(CppNames(a))
    requires forall i :: 0 <= i < |g| ==> SlotsResolve(a.values, g[i])
    requires forall i :: 0 <= i < |h| ==> SlotsResolve(b.values, h[i])
    requires GroupFits(a.values, g)
    requires g == h || (|g| == |h| == 2 && g[0] == h[1] && g[1] == h[0])
    ensures GroupFits(b.values, h)
  {
    hide CppNames, Token;
    SlotsPermute(a, b, g[0]);
  }

  lemma CallablesPermute(a: Input, b: Input)
    requires Permuted(a, b) && DeclarationsFit(a) && CallablesFit(a)
    ensures CallablesFit(b)
  {
    hide CallFits, MembersFit, ValueFits, NamesFit;
    forall c | c in b.callables
      ensures CallFits(b.types, b.values, c)
    {
      InPermutes(a.callables, b.callables, c);
      CallPermutes(a, b, c);
    }
    CallsResolve(a);
    CallsResolve(b);
    MapPermutes(SymbolOf, a.callables, b.callables);
    MapPermutes(MemberOf, a.callables, b.callables);
    DistinctPermutes(Map(SymbolOf, a.callables), Map(SymbolOf, b.callables));
    DistinctPermutes(Map(MemberOf, a.callables), Map(MemberOf, b.callables));
    MembersPermute(a, b);
  }

  lemma CallsResolve(m: Input)
    requires forall c :: c in m.callables ==> CallFits(m.types, m.values, c)
    ensures forall c :: c in m.callables ==> SlotsResolve(m.values, c)
  {
    forall c | c in m.callables
      ensures SlotsResolve(m.values, c)
    {
      assert CallFits(m.types, m.values, c);
    }
  }

  /** No two of distinct names conflict. */
  lemma GlobalsFitExactlyWhen(names: seq<string>)
    ensures GlobalsFit(names) <==>
              && Distinct(names)
              && (forall x :: x in names ==> IsFree(x))
              && (forall x, y :: x in names && y in names && x != y ==> !Conflict(x, y))
  {
    hide IsFree, StartsWith;
    if GlobalsFit(names) {
      forall x, y | x in names && y in names && x != y
        ensures !Conflict(x, y)
      {
        var i :| 0 <= i < |names| && names[i] == x;
        var j :| 0 <= j < |names| && names[j] == y;
        assert !Conflict(names[if i < j then i else j], names[if i < j then j else i]);
      }
      forall i, j | 0 <= i < j < |names|
        ensures names[i] != names[j]
      {
        assert !Conflict(names[i], names[j]);
      }
    }
  }

  lemma {:induction false} OwnerNamesPermute(a: seq<Callable>, b: seq<Callable>)
    requires multiset(a) == multiset(b)
    ensures multiset(OwnerNames(a)) == multiset(OwnerNames(b))
    decreases |a|
  {
    LengthPermutes(a, b);
    if a != [] {
      var front, last := a[..|a| - 1], a[|a| - 1];
      assert a == front + [last];
      InPermutes(a, b, last);
      var i :| 0 <= i < |b| && b[i] == last;
      RemoveAt(b, i);
      assert multiset(front) == multiset(a) - multiset{last};
      OwnerNamesPermute(front, b[..i] + b[i + 1..]);
      OwnerNamesRemove(b, i);
    }
  }

  function OwnerName(c: Callable): seq<string> {
    if c.operation == Owner then [c.scriptName] else []
  }

  lemma OwnerNamesAppend(calls: seq<Callable>, c: Callable)
    ensures OwnerNames(calls + [c]) == OwnerNames(calls) + OwnerName(c)
  {
    assert (calls + [c])[..|calls|] == calls;
  }

  lemma {:induction false} OwnerNamesRemove(b: seq<Callable>, i: nat)
    requires i < |b|
    ensures multiset(OwnerNames(b)) == multiset(OwnerNames(b[..i] + b[i + 1..])) + multiset(OwnerName(b[i]))
    decreases |b|
  {
    hide OwnerNames, OwnerName;
    var front, last := b[..|b| - 1], b[|b| - 1];
    assert b == front + [last];
    OwnerNamesAppend(front, last);
    if i == |b| - 1 {
      assert b[..i] + b[i + 1..] == front;
    } else {
      OwnerNamesRemove(front, i);
      assert b[..i] + b[i + 1..] == front[..i] + front[i + 1..] + [last];
      OwnerNamesAppend(front[..i] + front[i + 1..], last);
    }
  }

  lemma GlobalsPermute(a: Input, b: Input)
    requires Permuted(a, b) && GlobalsFit(GlobalNames(a))
    ensures GlobalsFit(GlobalNames(b))
  {
    hide GlobalsFit, Conflict, IsFree;
    MapConcatPermutes(TypeScriptName, a.types, b.types, ValueScriptName, a.values, b.values);
    OwnerNamesPermute(a.callables, b.callables);
    var x, y := GlobalNames(a), GlobalNames(b);
    assert multiset(x) == multiset(y);
    GlobalsFitExactlyWhen(x);
    GlobalsFitExactlyWhen(y);
    DistinctPermutes(x, y);
    forall n
      ensures n in x <==> n in y
    {
      InPermutes(x, y, n);
    }
  }

  /** Whether a module is accepted does not depend on the order of its declarations. */
  lemma AcceptancePermutes(a: Input, b: Input)
    requires Permuted(a, b)
    ensures Accepts(a) <==> Accepts(b)
  {
    hide HeaderFits, DeclarationsFit, CallablesFit, GlobalsFit, GlobalNames;
    HeaderPermutes(a, b);
    if Accepts(a) {
      DeclarationsPermute(a, b);
      CallablesPermute(a, b);
      GlobalsPermute(a, b);
    }
    if Accepts(b) {
      DeclarationsPermute(b, a);
      CallablesPermute(b, a);
      GlobalsPermute(b, a);
    }
  }

  lemma HeaderPermutes(a: Input, b: Input)
    requires Permuted(a, b)
    ensures HeaderFits(a) <==> HeaderFits(b)
  {
    LengthPermutes(a.types, b.types);
    LengthPermutes(a.values, b.values);
    LengthPermutes(a.callables, b.callables);
  }
}
