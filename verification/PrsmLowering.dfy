/**
 From declarations and their directives to a binding module: which members are selected, what their callables
 and symbols are, and that a table check at run time accepts exactly the selected members.
 */
module PrsmLowering {
  import opened Bytes
  import opened Names
  import opened Netstrings
  import opened Permutations
  import opened PrsmModel
  import opened PrsmDescriptor
  import opened PrsmAcceptance
  import opened PrsmBuilder
  import opened PrsmTable

  /** A C++ string. */
  type Narrow = s: string | IsNarrow(s)

  /** One attribute of a declaration, with the tokens of its argument. */
  datatype Use = Use(scope: string, name: string, hasArguments: bool, tokens: seq<string>)

  datatype NativeType = NativeType(kind: string, canonical: string, declaration: string, isConst: bool,
                                   isVolatile: bool, size: int, pointee: Option<NativeType>)

  datatype MethodModel = MethodModel(
    name: Narrow,
    owner: string,
    access: string,
    isStatic: bool,
    isConst: bool,
    isVolatile: bool,
    isVariadic: bool,
    isDeleted: bool,
    isConsteval: bool,
    isOverloaded: bool,
    refQualifier: string,
    qualifiersKnown: bool,
    specifiersKnown: bool,
    callingConvention: string,
    exceptions: string,
    result: NativeType,
    parameters: seq<NativeType>,
    attributes: seq<Use>)

  datatype ClassModel = ClassModel(name: Narrow, nested: bool, file: string, attributes: seq<Use>,
                                   methods: seq<MethodModel>)

  // Directives

  const DIRECTIVES := {"interop", "lifetime", "property_get", "property_set", "effect", "owner", "receiver", "value"}

  predicate IsDirective(a: Use) {
    a.scope == "reflgen" && a.name in DIRECTIVES
  }

  /** One nonempty ordinary string literal. */
  predicate HasLiteral(a: Use) {
    && a.hasArguments && |a.tokens| == 1 && |a.tokens[0]| >= 3
    && a.tokens[0][0] == '"' && a.tokens[0][|a.tokens[0]| - 1] == '"' && '\\' !in a.tokens[0]
  }

  /** What the directives say; of several with one name the first counts. */
  function Policy(attributes: seq<Use>): map<string, string> {
    if attributes == [] then map[]
    else
      var earlier, a := Policy(attributes[..|attributes| - 1]), attributes[|attributes| - 1];
      if IsDirective(a) && HasLiteral(a) && a.name !in earlier then
        earlier[a.name := a.tokens[0][1..|a.tokens[0]| - 1]]
      else earlier
  }

  /** No directive is malformed or repeated. */
  predicate PolicyFits(attributes: seq<Use>) {
    attributes == []
    || var a := attributes[|attributes| - 1];
       && PolicyFits(attributes[..|attributes| - 1])
       && (IsDirective(a) ==> HasLiteral(a) && a.name !in Policy(attributes[..|attributes| - 1]))
  }

  predicate Says(policy: map<string, string>, name: string, text: string) {
    name in policy && policy[name] == text
  }

  predicate SaysNone(policy: map<string, string>, names: set<string>) {
    forall name :: name in names ==> name !in policy
  }

  method ReadPolicy(attributes: seq<Use>) returns (policy: map<string, string>, ok: bool)
    ensures policy == Policy(attributes) && (ok <==> PolicyFits(attributes))
  {
    policy, ok := map[], true;
    for i := 0 to |attributes|
      invariant policy == Policy(attributes[..i]) && (ok <==> PolicyFits(attributes[..i]))
    {
      var a := attributes[i];
      assert attributes[..i + 1][..i] == attributes[..i];
      if !IsDirective(a) {
        continue;
      }
      if !HasLiteral(a) || a.name in policy {
        ok := false;
        continue;
      }
      policy := policy[a.name := a.tokens[0][1..|a.tokens[0]| - 1]];
    }
    assert attributes[..|attributes|] == attributes;
  }

  // What is selected

  /** A type and one of its members. */
  type Selection = (string, Member)

  function SelectedMethods(name: string, methods: seq<MethodModel>): seq<Selection> {
    if methods == [] then []
    else
      var earlier, last := SelectedMethods(name, methods[..|methods| - 1]), methods[|methods| - 1];
      if Says(Policy(last.attributes), "interop", "prsm") then earlier + [(name, MethodNamed(last.name))] else earlier
  }

  function SelectedIn(d: ClassModel): seq<Selection> {
    var policy := Policy(d.attributes);
    if !Says(policy, "interop", "prsm") then []
    else (if "owner" in policy then [(d.name, OwnerIngress)] else []) + SelectedMethods(d.name, d.methods)
  }

  /** The members that the directives select, in the order they are declared. */
  function Selected(declarations: seq<ClassModel>): seq<Selection> {
    if declarations == [] then []
    else Selected(declarations[..|declarations| - 1]) + SelectedIn(declarations[|declarations| - 1])
  }

  function SelectionOf(c: Callable): Selection {
    (OwnerType(c), MemberFor(c))
  }

  // Types

  function ScalarOf(t: NativeType): Option<Scalar> {
    if t.isVolatile || t.isConst then None
    else if t.kind == "void" then Some(Void)
    else if t.kind == "bool" && t.size == 1 then Some(Boolean)
    else if t.kind == "floating_point" then
      if t.canonical == "float" && t.size == 4 then Some(Float32)
      else if t.canonical == "double" && t.size == 8 then Some(Float64)
      else None
    else if t.kind != "signed_integer" && t.kind != "unsigned_integer" then None
    else
      var isSigned := t.kind == "signed_integer";
      if t.size == 1 then Some(if isSigned then Int8 else UInt8)
      else if t.size == 2 then Some(if isSigned then Int16 else UInt16)
      else if t.size == 4 then Some(if isSigned then Int32 else UInt32)
      else if t.size == 8 then Some(if isSigned then Int64 else UInt64)
      else None
  }

  /** The selected value type that is passed by value or by reference to const; nothing for other types. */
  function ValueSlot(values: seq<ValueType>, t: NativeType): (name: string)
    ensures Resolves(values, name)
  {
    var target := if t.kind == "lvalue_reference" && t.pointee.Some? && t.pointee.value.isConst then t.pointee.value else t;
    if (target.kind != "record" && target.kind != "enum") || target.isVolatile then ""
    else if FindValue(values, target.declaration).None? then ""
    else target.declaration
  }

  // Callables

  /** The callable has the symbol of its selection. */
  predicate HasSymbol(moduleName: Narrow, c: Callable) {
    && IsNarrow(OwnerType(c)) && (c.operation != Owner ==> IsNarrow(c.cppName))
    && c.symbol == Symbol(moduleName, OwnerType(c), MemberFor(c))
  }

  function OwnerCallable(moduleName: Narrow, typeName: Narrow, receiver: Receiver, scriptName: string): (c: Callable)
    ensures HasSymbol(moduleName, c) && SelectionOf(c) == (typeName, OwnerIngress)
  {
    var symbol := "ce_prsm_bind_" + Hex(moduleName) + "_" + Hex(typeName) + "_owner";
    assert symbol == Symbol(moduleName, typeName, OwnerIngress);
    Callable("", "binding_owner", "handle:" + typeName + "()", scriptName, symbol, Owner, Read, UInt64, [],
             false, false, "", [], typeName, receiver, "", [])
  }

  predicate IsOrdinary(m: MethodModel, typeName: string, policy: map<string, string>) {
    && m.access == "public" && m.owner == typeName && !m.isStatic && !m.isDeleted && !m.isConsteval
    && !m.isOverloaded && !m.isVariadic && !m.isVolatile && m.refQualifier == "none" && m.qualifiersKnown
    && m.specifiersKnown && SaysNone(policy, {"lifetime", "owner", "receiver"})
    && (m.callingConvention == "c" || m.callingConvention == "default")
    && (m.exceptions == "none" || m.exceptions == "basic_noexcept")
  }

  predicate ResultFits(values: seq<ValueType>, t: NativeType) {
    ValueSlot(values, t) != "" || ScalarOf(t).Some?
  }

  predicate ParameterFits(values: seq<ValueType>, t: NativeType) {
    ResultFits(values, t) && (ValueSlot(values, t) != "" || ScalarOf(t) != Some(Void))
  }

  /** A value's scalar is a placeholder. */
  function SlotScalar(values: seq<ValueType>, t: NativeType, placeholder: Scalar): Scalar
    requires ResultFits(values, t)
  {
    if ValueSlot(values, t) != "" then placeholder else ScalarOf(t).value
  }

  /** A method is a getter or a setter or neither, and its effect is one there is. */
  predicate RoleFits(policy: map<string, string>) {
    && !("property_get" in policy && "property_set" in policy)
    && ("effect" in policy ==> policy["effect"] == "read" || policy["effect"] == "write")
  }

  function OperationOf(policy: map<string, string>): Operation {
    if "property_set" in policy then Setter else if "property_get" in policy then Getter else Method
  }

  function ScriptNameOf(name: string, policy: map<string, string>): string {
    if "property_set" in policy then policy["property_set"]
    else if "property_get" in policy then policy["property_get"]
    else name
  }

  function EffectOf(policy: map<string, string>): Effect {
    if "effect" in policy then if policy["effect"] == "read" then Read else Write
    else if "property_get" in policy then Read else Write
  }

  /** The selected method can be called from scripts. */
  predicate MethodFits(typeName: string, values: seq<ValueType>, m: MethodModel) {
    var policy := Policy(m.attributes);
    && IsOrdinary(m, typeName, policy) && ResultFits(values, m.result) && RoleFits(policy)
    && forall i :: 0 <= i < |m.parameters| ==> ParameterFits(values, m.parameters[i])
  }

  function Slots(values: seq<ValueType>, ts: seq<NativeType>): (slots: seq<string>)
    ensures |slots| == |ts| && forall i :: 0 <= i < |slots| ==> Resolves(values, slots[i])
  {
    seq(|ts|, i requires 0 <= i < |ts| => ValueSlot(values, ts[i]))
  }

  function Scalars(values: seq<ValueType>, ts: seq<NativeType>): (scalars: seq<Scalar>)
    requires forall i :: 0 <= i < |ts| ==> ParameterFits(values, ts[i])
    ensures |scalars| == |ts|
  {
    seq(|ts|, i requires 0 <= i < |ts| && ParameterFits(values, ts[i]) => SlotScalar(values, ts[i], Int32))
  }

  function Spellings(ts: seq<NativeType>): (spellings: seq<string>)
    ensures |spellings| == |ts|
  {
    seq(|ts|, i requires 0 <= i < |ts| => ts[i].canonical)
  }

  function MethodSymbol(moduleName: Narrow, typeName: Narrow, name: Narrow): (symbol: string)
    ensures symbol == Symbol(moduleName, typeName, MethodNamed(name))
  {
    "ce_prsm_bind_" + Hex(moduleName) + "_" + Hex(typeName) + "_" + Hex(name)
  }

  /** The callable of a selected method, but for its signature. */
  function Unsigned(moduleName: Narrow, typeName: Narrow, receiver: Receiver, values: seq<ValueType>, m: MethodModel)
    : (c: Callable)
    requires MethodFits(typeName, values, m)
    ensures SlotsResolve(values, c) && HasSymbol(moduleName, c) && SelectionOf(c) == (typeName, MethodNamed(m.name))
  {
    var policy, slots := Policy(m.attributes), Slots(values, m.parameters);
    Callable(typeName, m.name, "", ScriptNameOf(m.name, policy),
             MethodSymbol(moduleName, typeName, m.name),
             OperationOf(policy), EffectOf(policy), SlotScalar(values, m.result, Void), Scalars(values, m.parameters),
             m.isConst, m.exceptions != "none", m.result.canonical, Spellings(m.parameters), "", receiver,
             ValueSlot(values, m.result), if exists i :: 0 <= i < |slots| && slots[i] != "" then slots else [])
  }

  /** The tokens of the first parameters, with commas between them. */
  function ParameterTokens(values: seq<ValueType>, c: Callable, count: nat): string
    requires SlotsResolve(values, c) && count <= |c.parameters|
  {
    if count == 0 then ""
    else
      ParameterTokens(values, c, count - 1) + (if count > 1 then "," else "")
      + Token(SlotOf(values, c.parameters[count - 1], ParameterValue(c, count - 1)))
  }

  /** The normalized signature: the tokens of the slots, and the qualifiers. */
  function SignatureOf(values: seq<ValueType>, c: Callable): string
    requires SlotsResolve(values, c)
  {
    Token(SlotOf(values, c.result, c.resultValue)) + "(" + ParameterTokens(values, c, |c.parameters|) + ")"
    + (if c.isConst then " const" else "") + (if c.isNoexcept then " noexcept" else "")
  }

  function MethodCallable(moduleName: Narrow, typeName: Narrow, receiver: Receiver, values: seq<ValueType>,
                          m: MethodModel): (c: Callable)
    requires MethodFits(typeName, values, m)
    ensures HasSymbol(moduleName, c) && SelectionOf(c) == (typeName, MethodNamed(m.name))
  {
    var c := Unsigned(moduleName, typeName, receiver, values, m);
    c.(cppSignature := SignatureOf(values, c))
  }

  method SignatureText(values: seq<ValueType>, c: Callable) returns (text: string)
    requires SlotsResolve(values, c)
    ensures text == SignatureOf(values, c)
  {
    hide Token, SlotOf;
    var head := Token(SlotOf(values, c.result, c.resultValue)) + "(";
    var tokens := "";
    for i := 0 to |c.parameters|
      invariant tokens == ParameterTokens(values, c, i)
    {
      tokens := tokens + (if i > 0 then "," else "");
      tokens := tokens + Token(SlotOf(values, c.parameters[i], ParameterValue(c, i)));
    }
    text := head + tokens + ")";
    text := text + (if c.isConst then " const" else "");
    text := text + (if c.isNoexcept then " noexcept" else "");
  }

  method LowerParameters(values: seq<ValueType>, parameters: seq<NativeType>)
      returns (scalars: seq<Scalar>, slots: seq<string>, spellings: seq<string>, anyValue: bool, ok: bool)
    ensures ok <==> forall i :: 0 <= i < |parameters| ==> ParameterFits(values, parameters[i])
    ensures ok ==> scalars == Scalars(values, parameters) && slots == Slots(values, parameters)
                   && spellings == Spellings(parameters)
                   && (anyValue <==> exists i :: 0 <= i < |slots| && slots[i] != "")
  {
    hide ValueSlot, ScalarOf;
    scalars, slots, spellings, anyValue, ok := [], [], [], false, true;
    for i := 0 to |parameters|
      invariant ok <==> forall j :: 0 <= j < i ==> ParameterFits(values, parameters[j])
      invariant ok ==> |scalars| == |slots| == |spellings| == i
      invariant ok ==> forall j :: 0 <= j < i ==>
                  && scalars[j] == SlotScalar(values, parameters[j], Int32)
                  && slots[j] == ValueSlot(values, parameters[j]) && spellings[j] == parameters[j].canonical
      invariant ok ==> (anyValue <==> exists j :: 0 <= j < |slots| && slots[j] != "")
    {
      var slot := ValueSlot(values, parameters[i]);
      var value := if slot == "" then ScalarOf(parameters[i]) else Some(Int32);
      if value == None || value == Some(Void) {
        ok := false;
      } else {
        AnyMore(slots, slot);
        anyValue := anyValue || slot != "";
        scalars, slots := scalars + [value.value], slots + [slot];
        spellings := spellings + [parameters[i].canonical];
      }
    }
  }

  lemma AnyMore(slots: seq<string>, slot: string)
    ensures (exists j :: 0 <= j < |slots + [slot]| && (slots + [slot])[j] != "")
       <==> slot != "" || exists j :: 0 <= j < |slots| && slots[j] != ""
  {
    if slot != "" {
      assert (slots + [slot])[|slots|] != "";
    }
    if j :| 0 <= j < |slots| && slots[j] != "" {
      assert (slots + [slot])[j] != "";
    }
  }

  method ReadRole(name: string, policy: map<string, string>)
      returns (operation: Operation, scriptName: string, effect: Effect, ok: bool)
    ensures ok <==> RoleFits(policy)
    ensures ok ==> operation == OperationOf(policy) && scriptName == ScriptNameOf(name, policy) && effect == EffectOf(policy)
  {
    operation, scriptName, effect, ok := Method, name, Write, !("property_get" in policy && "property_set" in policy);
    if "property_get" in policy {
      operation, scriptName, effect := Getter, policy["property_get"], Read;
    }
    if "property_set" in policy {
      operation, scriptName := Setter, policy["property_set"];
    }
    if "effect" in policy {
      if policy["effect"] == "read" {
        effect := Read;
      } else if policy["effect"] == "write" {
        effect := Write;
      } else {
        ok := false;
      }
    }
  }

  /** A result is a value type by its slot, or a scalar. */
  method LowerResult(values: seq<ValueType>, t: NativeType) returns (slot: string, scalar: Option<Scalar>)
    ensures slot == ValueSlot(values, t)
    ensures scalar.Some? <==> ResultFits(values, t)
    ensures scalar.Some? ==> scalar.value == SlotScalar(values, t, Void)
  {
    hide ScalarOf, ValueSlot;
    slot := ValueSlot(values, t);
    scalar := if slot == "" then ScalarOf(t) else Some(Void);
  }

  /** A method that is selected. */
  method LowerMethod(moduleName: Narrow, typeName: Narrow, receiver: Receiver, values: seq<ValueType>, m: MethodModel,
                     policy: map<string, string>) returns (c: Option<Callable>, ok: bool)
    requires policy == Policy(m.attributes)
    ensures ok <==> MethodFits(typeName, values, m)
    ensures ok ==> c == Some(MethodCallable(moduleName, typeName, receiver, values, m))
  {
    hide IsOrdinary, ScalarOf, ValueSlot, Hex, FindValue, SlotsResolve, HasSymbol, SignatureOf, RoleFits, Slots, Scalars,
         OperationOf, ScriptNameOf, EffectOf, Spellings, SelectionOf, Policy, Token, Resolves, SlotOf, MethodSymbol, ResultFits, SlotScalar,
         ParameterFits;
    if !IsOrdinary(m, typeName, policy) {
      return None, false;
    }
    var resultValue, result := LowerResult(values, m.result);
    if result.None? {
      return None, false;
    }
    var scalars, slots, spellings, anyValue, fits := LowerParameters(values, m.parameters);
    var operation, scriptName, effect, agrees := ReadRole(m.name, policy);
    if !fits || !agrees {
      return None, false;
    }
    var symbol := MethodSymbol(moduleName, typeName, m.name);
    var call := Callable(typeName, m.name, "", scriptName, symbol, operation, effect, result.value, scalars, m.isConst,
                         m.exceptions != "none", m.result.canonical, spellings, "", receiver, resultValue,
                         if anyValue then slots else []);
    assert call == Unsigned(moduleName, typeName, receiver, values, m);
    var signature := SignatureText(values, call);
    return Some(call.(cppSignature := signature)), true;
  }

  // Types of a module

  /** A method without `interop` has no other directive; one for another language is not this generator's. */
  predicate MemberFits(typeName: string, values: seq<ValueType>, m: MethodModel) {
    var policy := Policy(m.attributes);
    && PolicyFits(m.attributes)
    && if "interop" !in policy then
         SaysNone(policy, {"property_get", "property_set", "effect", "lifetime", "owner", "receiver"})
       else if policy["interop"] == "prsm" then MethodFits(typeName, values, m)
       else policy["interop"] in {"c", "csharp", "fsharp"}
  }

  predicate AllMembersFit(typeName: string, values: seq<ValueType>, methods: seq<MethodModel>) {
    forall i :: 0 <= i < |methods| ==> MemberFits(typeName, values, methods[i])
  }

  function MethodCallables(moduleName: Narrow, typeName: Narrow, receiver: Receiver, values: seq<ValueType>,
                           methods: seq<MethodModel>): (callables: seq<Callable>)
    requires AllMembersFit(typeName, values, methods)
    ensures forall c :: c in callables ==> HasSymbol(moduleName, c)
    ensures Map(SelectionOf, callables) == SelectedMethods(typeName, methods)
  {
    if methods == [] then []
    else
      var front, m := methods[..|methods| - 1], methods[|methods| - 1];
      var earlier := MethodCallables(moduleName, typeName, receiver, values, front);
      if Says(Policy(m.attributes), "interop", "prsm") then
        earlier + [MethodCallable(moduleName, typeName, receiver, values, m)]
      else earlier
  }

  /** One method: selected, for another language, or without directives. */
  method LowerMember(moduleName: Narrow, typeName: Narrow, receiver: Receiver, values: seq<ValueType>, m: MethodModel)
      returns (call: Option<Callable>, ok: bool)
    ensures ok <==> MemberFits(typeName, values, m)
    ensures ok ==> (call.Some? <==> Says(Policy(m.attributes), "interop", "prsm"))
    ensures ok && call.Some? ==>
              MethodFits(typeName, values, m) && call.value == MethodCallable(moduleName, typeName, receiver, values, m)
  {
    hide MethodFits, MethodCallable, PolicyFits, Policy;
    var policy, fits := ReadPolicy(m.attributes);
    if "interop" !in policy {
      ok := fits && SaysNone(policy, {"property_get", "property_set", "effect", "lifetime", "owner", "receiver"});
      return None, ok;
    }
    if policy["interop"] != "prsm" {
      return None, fits && policy["interop"] in {"c", "csharp", "fsharp"};
    }
    var supported;
    call, supported := LowerMethod(moduleName, typeName, receiver, values, m, policy);
    ok := fits && supported;
  }

  method LowerMethods(moduleName: Narrow, d: ClassModel, receiver: Receiver, values: seq<ValueType>)
      returns (callables: seq<Callable>, ok: bool)
    ensures ok <==> AllMembersFit(d.name, values, d.methods)
    ensures ok ==> callables == MethodCallables(moduleName, d.name, receiver, values, d.methods)
  {
    hide MethodFits, MethodCallable, MemberFits, Policy, HasSymbol, SelectionOf, AllMembersFit, Says, SelectedMethods, Map;
    callables, ok := [], true;
    assert AllMembersFit(d.name, values, d.methods[..0]) by {
      NoMembers(d.name, values);
    }
    for i := 0 to |d.methods|
      invariant ok <==> AllMembersFit(d.name, values, d.methods[..i])
      invariant ok ==> callables == MethodCallables(moduleName, d.name, receiver, values, d.methods[..i])
    {
      assert d.methods[..i + 1][..i] == d.methods[..i];
      MembersMore(d.name, values, d.methods, i);
      var call, fits := LowerMember(moduleName, d.name, receiver, values, d.methods[i]);
      ok := ok && fits;
      if call.Some? {
        callables := callables + [call.value];
      }
    }
    assert d.methods[..|d.methods|] == d.methods;
  }

  lemma NoMembers(typeName: string, values: seq<ValueType>)
    ensures AllMembersFit(typeName, values, [])
  {
  }

  lemma MembersMore(typeName: string, values: seq<ValueType>, methods: seq<MethodModel>, i: nat)
    requires i < |methods|
    ensures AllMembersFit(typeName, values, methods[..i + 1])
       <==> AllMembersFit(typeName, values, methods[..i]) && MemberFits(typeName, values, methods[i])
  {
    hide MemberFits;
    var front, more := methods[..i], methods[..i + 1];
    assert more == front + [methods[i]];
    assert more[i] == methods[i] && forall j :: 0 <= j < i ==> front[j] == more[j];
  }

  /** Members of a type that is not selected must not be selected either. */
  predicate IsUnselected(m: MethodModel) {
    && PolicyFits(m.attributes) && !Says(Policy(m.attributes), "interop", "prsm")
    && SaysNone(Policy(m.attributes), {"property_get", "property_set", "effect", "owner"})
  }

  method CheckUnselected(methods: seq<MethodModel>) returns (ok: bool)
    ensures ok <==> forall i :: 0 <= i < |methods| ==> IsUnselected(methods[i])
  {
    ok := true;
    for i := 0 to |methods|
      invariant ok <==> forall j :: 0 <= j < i ==> IsUnselected(methods[j])
    {
      var policy, fits := ReadPolicy(methods[i].attributes);
      ok := ok && fits && !Says(policy, "interop", "prsm")
            && SaysNone(policy, {"property_get", "property_set", "effect", "owner"});
    }
  }

  /** The number of the source that a type is declared in; all types of a named module are in its first. */
  predicate IsSourceOf(sources: seq<Source>, file: string, source: nat) {
    if sources == [] || sources[0].kind != Header then source == 0
    else source < |sources| && sources[source].name == file && forall i :: 0 <= i < source ==> sources[i].name != file
  }

  method FindSource(sources: seq<Source>, file: string) returns (source: Option<nat>)
    ensures source.Some? ==> IsSourceOf(sources, file, source.value)
    ensures source.None? ==> forall i :: !IsSourceOf(sources, file, i)
  {
    if sources == [] || sources[0].kind != Header {
      return Some(0);
    }
    for i := 0 to |sources|
      invariant forall j :: 0 <= j < i ==> sources[j].name != file
    {
      if sources[i].name == file {
        return Some(i);
      }
    }
    return None;
  }

  predicate ReceiverFits(policy: map<string, string>) {
    "receiver" in policy ==> policy["receiver"] in {"entity", "component", "handle"}
  }

  function ReceiverOf(policy: map<string, string>): Receiver {
    if Says(policy, "receiver", "entity") then Entity
    else if Says(policy, "receiver", "component") then Component
    else Handle
  }

  /** The declaration has no error; a selected one is borrowed, ordinary, and in a source of the module. */
  ghost predicate ClassFits(d: ClassModel, values: seq<ValueType>, sources: seq<Source>) {
    var policy := Policy(d.attributes);
    && PolicyFits(d.attributes)
    && if !Says(policy, "interop", "prsm") then
         && "owner" !in policy && ("interop" in policy ==> policy["interop"] in {"c", "csharp", "fsharp"})
         && forall i :: 0 <= i < |d.methods| ==> IsUnselected(d.methods[i])
       else
         && !d.nested && Says(policy, "lifetime", "borrowed")
         && SaysNone(policy, {"property_get", "property_set", "effect"}) && ReceiverFits(policy)
         && (exists source :: IsSourceOf(sources, d.file, source)) && AllMembersFit(d.name, values, d.methods)
  }

  ghost function ClassTypes(d: ClassModel, sources: seq<Source>): (types: seq<NominalType>)
    requires Says(Policy(d.attributes), "interop", "prsm") ==> exists source :: IsSourceOf(sources, d.file, source)
    ensures forall i :: 0 <= i < |types| && sources != [] ==> types[i].source < |sources|
  {
    if !Says(Policy(d.attributes), "interop", "prsm") then []
    else
      var source: nat :| IsSourceOf(sources, d.file, source);
      [NominalType(d.name, d.name, source, ReceiverOf(Policy(d.attributes)))]
  }

  function ClassCallables(moduleName: Narrow, d: ClassModel, values: seq<ValueType>): (callables: seq<Callable>)
    requires Says(Policy(d.attributes), "interop", "prsm") ==> AllMembersFit(d.name, values, d.methods)
    ensures forall c :: c in callables ==> HasSymbol(moduleName, c)
    ensures Map(SelectionOf, callables) == SelectedIn(d)
  {
    var policy := Policy(d.attributes);
    if !Says(policy, "interop", "prsm") then []
    else
      var receiver := ReceiverOf(policy);
      (if "owner" in policy then [OwnerCallable(moduleName, d.name, receiver, policy["owner"])] else [])
      + MethodCallables(moduleName, d.name, receiver, values, d.methods)
  }

  lemma SourceIsUnique(sources: seq<Source>, file: string, x: nat, y: nat)
    requires IsSourceOf(sources, file, x) && IsSourceOf(sources, file, y)
    ensures x == y
  {
  }

  /** One declaration: a selected type, its owner ingress, its selected methods. */
  method LowerClass(moduleName: Narrow, d: ClassModel, values: seq<ValueType>, sources: seq<Source>)
      returns (types: seq<NominalType>, callables: seq<Callable>, ok: bool)
    ensures ok <==> ClassFits(d, values, sources)
    ensures ok ==> types == ClassTypes(d, sources) && callables == ClassCallables(moduleName, d, values)
  {
    hide HasSymbol, SelectionOf, PolicyFits, Policy, OwnerCallable, MethodCallables, IsUnselected, AllMembersFit, IsSourceOf;
    var policy, fits := ReadPolicy(d.attributes);
    if !Says(policy, "interop", "prsm") {
      var unselected := CheckUnselected(d.methods);
      ok := fits && unselected && "owner" !in policy
            && ("interop" in policy ==> policy["interop"] in {"c", "csharp", "fsharp"});
      return [], [], ok;
    }
    ok := fits && !d.nested && Says(policy, "lifetime", "borrowed")
          && SaysNone(policy, {"property_get", "property_set", "effect"});
    var receiver := Handle;
    if "receiver" in policy {
      if policy["receiver"] == "entity" {
        receiver := Entity;
      } else if policy["receiver"] == "component" {
        receiver := Component;
      } else if policy["receiver"] != "handle" {
        ok := false;
      }
    }
    var source := FindSource(sources, d.file);
    ok := ok && source.Some?;
    callables := if "owner" in policy then [OwnerCallable(moduleName, d.name, receiver, policy["owner"])] else [];
    var methods, supported := LowerMethods(moduleName, d, receiver, values);
    ok := ok && supported;
    types, callables := [], callables + methods;
    if source.Some? {
      OneSource(sources, d.file, source.value);
      types := [NominalType(d.name, d.name, source.value, receiver)];
    }
  }

  lemma OneSource(sources: seq<Source>, file: string, source: nat)
    requires IsSourceOf(sources, file, source)
    ensures forall other: nat :: IsSourceOf(sources, file, other) ==> other == source
  {
    forall other: nat | IsSourceOf(sources, file, other)
      ensures other == source
    {
      SourceIsUnique(sources, file, source, other);
    }
  }

  // Sources

  /** Numbers in the order of their first uses. */
  function FirstUses(refs: seq<nat>): (kept: seq<nat>)
    ensures Distinct(kept) && forall x :: x in kept <==> x in refs
  {
    if refs == [] then []
    else
      var earlier, last := FirstUses(refs[..|refs| - 1]), refs[|refs| - 1];
      assert refs == refs[..|refs| - 1] + [last];
      DistinctAppend(earlier, last);
      if last in earlier then earlier else earlier + [last]
  }

  /** Where `x` is last found in `kept`, which has it once. */
  function IndexOf(kept: seq<nat>, x: nat): (k: nat)
    ensures x in kept ==> k < |kept| && kept[k] == x
  {
    if kept == [] then 0
    else if kept[|kept| - 1] == x then |kept| - 1
    else IndexOf(kept[..|kept| - 1], x)
  }

  predicate AllBelow(kept: seq<nat>, n: nat) {
    forall i :: 0 <= i < |kept| ==> kept[i] < n
  }

  lemma {:induction false} DistinctBelow(kept: seq<nat>, n: nat)
    requires Distinct(kept) && AllBelow(kept, n)
    ensures |kept| <= n
    decreases n
  {
    assert kept != [] ==> kept[0] < n;
    if n > 0 && n - 1 in kept {
      var k := IndexOf(kept, n - 1);
      var rest := kept[..k] + kept[k + 1..];
      assert forall i :: 0 <= i < |rest| ==> rest[i] == kept[if i < k then i else i + 1];
      assert AllBelow(rest, n - 1) && Distinct(rest);
      DistinctBelow(rest, n - 1);
    } else if n > 0 {
      assert forall i :: 0 <= i < |kept| ==> kept[i] in kept;
      DistinctBelow(kept, n - 1);
    }
  }

  function SourceOf(t: NominalType): nat {
    t.source
  }

  function ValueSource(v: ValueType): nat {
    v.source
  }

  /** The sources that the types use, then those that the values use. */
  function SourceRefs(m: Input): (refs: seq<nat>)
    ensures |refs| == |m.types| + |m.values|
  {
    Map(SourceOf, m.types) + Map(ValueSource, m.values)
  }

  predicate SourcesExist(m: Input) {
    && (forall i :: 0 <= i < |m.types| ==> m.types[i].source < |m.sources|)
    && forall i :: 0 <= i < |m.values| ==> m.values[i].source < |m.sources|
  }

  function Pick(sources: seq<Source>, kept: seq<nat>): (used: seq<Source>)
    requires AllBelow(kept, |sources|)
    ensures |used| == |kept|
  {
    seq(|kept|, i requires 0 <= i < |kept| => sources[kept[i]])
  }

  lemma RefAt(m: Input, i: nat)
    requires i < |m.types| + |m.values|
    ensures SourceRefs(m)[i] == if i < |m.types| then m.types[i].source else m.values[i - |m.types|].source
  {
    hide Map;
  }

  lemma UsesAreBelow(m: Input)
    requires SourcesExist(m)
    ensures AllBelow(SourceRefs(m), |m.sources|) && AllBelow(FirstUses(SourceRefs(m)), |m.sources|)
  {
    hide Map, FirstUses, SourceRefs;
    var refs := SourceRefs(m);
    forall i | 0 <= i < |refs|
      ensures refs[i] < |m.sources|
    {
      RefAt(m, i);
    }
    var kept := FirstUses(refs);
    forall i | 0 <= i < |kept|
      ensures kept[i] < |m.sources|
    {
      assert kept[i] in refs;
    }
  }

  function MovedTypes(types: seq<NominalType>, kept: seq<nat>): (moved: seq<NominalType>)
    ensures |moved| == |types|
    ensures forall i :: 0 <= i < |types| ==> moved[i] == types[i].(source := IndexOf(kept, types[i].source))
  {
    seq(|types|, i requires 0 <= i < |types| => types[i].(source := IndexOf(kept, types[i].source)))
  }

  function MovedValues(values: seq<ValueType>, kept: seq<nat>): (moved: seq<ValueType>)
    ensures |moved| == |values|
    ensures forall i :: 0 <= i < |values| ==> moved[i] == values[i].(source := IndexOf(kept, values[i].source))
  {
    seq(|values|, i requires 0 <= i < |values| => values[i].(source := IndexOf(kept, values[i].source)))
  }

  /** The same module over the sources that its types and values use, in the order of their first uses. */
  function OverUsed(m: Input): (r: Input)
    requires SourcesExist(m)
  {
    var kept := FirstUses(SourceRefs(m));
    UsesAreBelow(m);
    m.(sources := Pick(m.sources, kept), types := MovedTypes(m.types, kept), values := MovedValues(m.values, kept))
  }

  /** Types and values have the sources they had. */
  lemma UsedSourcesStay(m: Input)
    requires SourcesExist(m)
    ensures var r := OverUsed(m);
            && |r.types| == |m.types| && |r.values| == |m.values|
            && (forall i :: 0 <= i < |m.types| ==>
                  r.types[i].source < |r.sources| && r.sources[r.types[i].source] == m.sources[m.types[i].source])
            && (forall i :: 0 <= i < |m.values| ==>
                  r.values[i].source < |r.sources| && r.sources[r.values[i].source] == m.sources[m.values[i].source])
  {
    hide FirstUses, IndexOf, SourceRefs, Distinct;
    var refs := SourceRefs(m);
    forall i | 0 <= i < |m.types|
      ensures m.types[i].source in FirstUses(refs)
    {
      RefAt(m, i);
      assert refs[i] in refs;
    }
    forall i | 0 <= i < |m.values|
      ensures m.values[i].source in FirstUses(refs)
    {
      RefAt(m, |m.types| + i);
      assert refs[|m.types| + i] in refs;
    }
  }

  lemma IndexOfKept(kept: seq<nat>, k: nat)
    requires Distinct(kept) && k < |kept|
    ensures IndexOf(kept, kept[k]) == k
  {
  }

  lemma RefsMove(m: Input, i: nat)
    requires SourcesExist(m) && i < |SourceRefs(m)|
    ensures |SourceRefs(OverUsed(m))| == |SourceRefs(m)|
    ensures SourceRefs(OverUsed(m))[i] == IndexOf(FirstUses(SourceRefs(m)), SourceRefs(m)[i])
  {
    hide FirstUses, IndexOf, Distinct, SourceRefs, Pick;
    RefAt(m, i);
    RefAt(OverUsed(m), i);
  }

  /** Every source that is left is used. */
  lemma LeftSourcesAreUsed(m: Input, k: nat)
    requires SourcesExist(m) && k < |OverUsed(m).sources|
    ensures k in SourceRefs(OverUsed(m))
  {
    hide FirstUses, IndexOf, Distinct, SourceRefs, MovedTypes, MovedValues;
    var refs := SourceRefs(m);
    var kept := FirstUses(refs);
    assert kept[k] in refs;
    var i :| 0 <= i < |refs| && refs[i] == kept[k];
    IndexOfKept(kept, k);
    RefsMove(m, i);
  }

  /** The used sources so far, and for each source its new number, or the number of sources if it has none. */
  ghost predicate IsRemap(sources: seq<Source>, kept: seq<nat>, used: seq<Source>, remap: seq<nat>) {
    && AllBelow(kept, |sources|)
    && used == Pick(sources, kept)
    && |remap| == |sources|
    && forall j :: 0 <= j < |remap| ==> remap[j] == if j in kept then IndexOf(kept, j) else |sources|
  }

  lemma IndexStays(kept: seq<nat>, y: nat)
    requires y !in kept
    ensures forall x :: x in kept ==> IndexOf(kept + [y], x) == IndexOf(kept, x)
    ensures IndexOf(kept + [y], y) == |kept|
  {
    assert (kept + [y])[..|kept|] == kept;
  }

  lemma UsesExtend(refs: seq<nat>, source: nat)
    ensures Extends(FirstUses(refs), FirstUses(refs + [source]))
  {
    hide IndexOf;
    var earlier := FirstUses(refs);
    assert (refs + [source])[..|refs|] == refs;
    if source !in earlier {
      IndexStays(earlier, source);
    }
  }

  method Keep(sources: seq<Source>, ghost refs: seq<nat>, used: seq<Source>, remap: seq<nat>, source: nat)
      returns (moreUsed: seq<Source>, moreRemap: seq<nat>, kept: nat)
    requires IsRemap(sources, FirstUses(refs), used, remap) && source < |sources|
    ensures IsRemap(sources, FirstUses(refs + [source]), moreUsed, moreRemap)
    ensures kept == IndexOf(FirstUses(refs + [source]), source)
  {
    hide IndexOf;
    ghost var earlier := FirstUses(refs);
    assert FirstUses(refs + [source]) == if source in earlier then earlier else earlier + [source] by {
      assert (refs + [source])[..|refs|] == refs;
    }
    hide FirstUses;
    DistinctBelow(earlier, |sources|);
    moreUsed, moreRemap := used, remap;
    if remap[source] == |sources| {
      IndexStays(earlier, source);
      moreRemap := remap[source := |used|];
      moreUsed := used + [sources[source]];
      kept := |used|;
    } else {
      kept := remap[source];
    }
  }

  /** Sources that are kept already stay where they are. */
  predicate Extends(kept: seq<nat>, more: seq<nat>) {
    forall x :: x in kept ==> x in more && IndexOf(more, x) == IndexOf(kept, x)
  }

  lemma MovedTypesStay(types: seq<NominalType>, kept: seq<nat>, more: seq<nat>)
    requires Extends(kept, more) && forall i :: 0 <= i < |types| ==> types[i].source in kept
    ensures MovedTypes(types, more) == MovedTypes(types, kept)
  {
    hide IndexOf;
  }

  lemma MovedValuesStay(values: seq<ValueType>, kept: seq<nat>, more: seq<nat>)
    requires Extends(kept, more) && forall i :: 0 <= i < |values| ==> values[i].source in kept
    ensures MovedValues(values, more) == MovedValues(values, kept)
  {
    hide IndexOf;
  }

  method KeepTypes(sources: seq<Source>, types: seq<NominalType>)
      returns (used: seq<Source>, remap: seq<nat>, moved: seq<NominalType>)
    requires AllBelow(Map(SourceOf, types), |sources|)
    ensures IsRemap(sources, FirstUses(Map(SourceOf, types)), used, remap)
    ensures moved == MovedTypes(types, FirstUses(Map(SourceOf, types)))
  {
    hide FirstUses, IndexOf, IsRemap, Extends, Map;
    ghost var refs := Map(SourceOf, types);
    used, remap, moved := [], seq(|sources|, _ => |sources|), [];
    assert refs[..0] == [];
    NothingKept(sources, remap);
    for i := 0 to |types|
      invariant IsRemap(sources, FirstUses(refs[..i]), used, remap)
      invariant moved == MovedTypes(types[..i], FirstUses(refs[..i]))
    {
      var kept;
      assert refs[..i + 1] == refs[..i] + [types[i].source];
      assert forall j :: 0 <= j < i ==> refs[..i][j] == types[..i][j].source;
      UsesExtend(refs[..i], types[i].source);
      MovedTypesStay(types[..i], FirstUses(refs[..i]), FirstUses(refs[..i + 1]));
      used, remap, kept := Keep(sources, refs[..i], used, remap, types[i].source);
      moved := moved + [types[i].(source := kept)];
      assert types[..i + 1] == types[..i] + [types[i]];
    }
    assert refs[..|types|] == refs && types[..|types|] == types;
  }

  method KeepValues(sources: seq<Source>, values: seq<ValueType>, ghost earlier: seq<nat>, usedBefore: seq<Source>,
                    remapBefore: seq<nat>)
      returns (used: seq<Source>, remap: seq<nat>, moved: seq<ValueType>)
    requires AllBelow(Map(ValueSource, values), |sources|)
    requires IsRemap(sources, FirstUses(earlier), usedBefore, remapBefore)
    ensures IsRemap(sources, FirstUses(earlier + Map(ValueSource, values)), used, remap)
    ensures moved == MovedValues(values, FirstUses(earlier + Map(ValueSource, values)))
    ensures Extends(FirstUses(earlier), FirstUses(earlier + Map(ValueSource, values)))
  {
    hide FirstUses, IndexOf, IsRemap, Map;
    ghost var refs := Map(ValueSource, values);
    used, remap, moved := usedBefore, remapBefore, [];
    assert earlier + refs[..0] == earlier;
    for i := 0 to |values|
      invariant IsRemap(sources, FirstUses(earlier + refs[..i]), used, remap)
      invariant moved == MovedValues(values[..i], FirstUses(earlier + refs[..i]))
      invariant Extends(FirstUses(earlier), FirstUses(earlier + refs[..i]))
    {
      var kept;
      ghost var before := earlier + refs[..i];
      assert earlier + refs[..i + 1] == before + [values[i].source];
      assert forall j :: 0 <= j < i ==> before[|earlier| + j] == values[..i][j].source;
      UsesExtend(before, values[i].source);
      MovedValuesStay(values[..i], FirstUses(before), FirstUses(before + [values[i].source]));
      used, remap, kept := Keep(sources, before, used, remap, values[i].source);
      moved := moved + [values[i].(source := kept)];
      assert values[..i + 1] == values[..i] + [values[i]];
    }
    assert refs[..|values|] == refs && values[..|values|] == values;
  }

  /** Sources are kept as types and values come to use them. */
  method KeepUsedSources(m: Input) returns (r: Input)
    requires SourcesExist(m)
    ensures r == OverUsed(m)
  {
    hide FirstUses, IndexOf, Map;
    var used, remap, types := KeepTypes(m.sources, m.types);
    var values;
    ghost var refs := Map(SourceOf, m.types);
    used, remap, values := KeepValues(m.sources, m.values, refs, used, remap);
    assert forall i :: 0 <= i < |m.types| ==> refs[i] == m.types[i].source;
    MovedTypesStay(m.types, FirstUses(refs), FirstUses(SourceRefs(m)));
    return m.(sources := used, types := types, values := values);
  }

  lemma NothingKept(sources: seq<Source>, remap: seq<nat>)
    requires remap == seq(|sources|, _ => |sources|)
    ensures IsRemap(sources, FirstUses([]), [], remap)
  {
  }

  // Modules

  const WINDOWS := "x86_64-pc-windows-msvc"

  /** The version that a compiler appends to the Windows target is dropped. */
  function Profile(triple: string): string {
    var suffix := if StartsWith(triple, WINDOWS) then triple[|WINDOWS|..] else "";
    if suffix != "" && '0' <= suffix[0] <= '9' && forall i :: 0 <= i < |suffix| ==> '0' <= suffix[i] <= '9' || suffix[i] == '.'
    then WINDOWS else triple
  }

  /** What a module is lowered from; its value types are lowered already. */
  datatype Request = Request(name: Narrow, triple: string, pointerWidth: nat, sources: seq<Source>,
                             values: seq<ValueType>, declarations: seq<ClassModel>)

  predicate HasSources(q: Request) {
    q.sources != [] ==> forall i :: 0 <= i < |q.values| ==> q.values[i].source < |q.sources|
  }

  ghost predicate DeclarationsLower(ds: seq<ClassModel>, values: seq<ValueType>, sources: seq<Source>) {
    forall i :: 0 <= i < |ds| ==> ClassFits(ds[i], values, sources)
  }

  ghost function AllTypes(ds: seq<ClassModel>, values: seq<ValueType>, sources: seq<Source>): (types: seq<NominalType>)
    requires DeclarationsLower(ds, values, sources)
    ensures forall i :: 0 <= i < |types| && sources != [] ==> types[i].source < |sources|
  {
    if ds == [] then []
    else AllTypes(ds[..|ds| - 1], values, sources) + ClassTypes(ds[|ds| - 1], sources)
  }

  ghost function AllCallables(moduleName: Narrow, ds: seq<ClassModel>, values: seq<ValueType>, sources: seq<Source>)
    : (callables: seq<Callable>)
    requires DeclarationsLower(ds, values, sources)
  {
    if ds == [] then []
    else AllCallables(moduleName, ds[..|ds| - 1], values, sources) + ClassCallables(moduleName, ds[|ds| - 1], values)
  }

  /** All callables are those of the selected members. */
  lemma {:induction false} AllAreSelected(moduleName: Narrow, ds: seq<ClassModel>, values: seq<ValueType>, sources: seq<Source>)
    requires DeclarationsLower(ds, values, sources)
    ensures forall c :: c in AllCallables(moduleName, ds, values, sources) ==> HasSymbol(moduleName, c)
    ensures Map(SelectionOf, AllCallables(moduleName, ds, values, sources)) == Selected(ds)
    decreases |ds|
  {
    hide HasSymbol, SelectionOf, SelectedIn, ClassFits, ClassCallables;
    if ds != [] {
      var front := ds[..|ds| - 1];
      AllAreSelected(moduleName, front, values, sources);
      ClassIsAllowed(ds[|ds| - 1], values, sources);
      MapConcat(SelectionOf, AllCallables(moduleName, front, values, sources),
                ClassCallables(moduleName, ds[|ds| - 1], values));
    }
  }

  lemma ClassIsAllowed(d: ClassModel, values: seq<ValueType>, sources: seq<Source>)
    requires ClassFits(d, values, sources)
    ensures Says(Policy(d.attributes), "interop", "prsm") ==> AllMembersFit(d.name, values, d.methods)
    ensures Says(Policy(d.attributes), "interop", "prsm") ==> exists source :: IsSourceOf(sources, d.file, source)
  {
  }

  lemma MapConcat<T, U>(f: T -> U, a: seq<T>, b: seq<T>)
    ensures Map(f, a + b) == Map(f, a) + Map(f, b)
  {
  }

  /** Declared headers that nothing uses are left out; a named module keeps all it has. */
  function OnlyUsed(m: Input): Input
    requires m.sources != [] ==> SourcesExist(m)
  {
    if (m.types != [] || m.values != []) && m.sources != [] && m.sources[0].kind == Header then OverUsed(m) else m
  }

  /** The module that the declarations say. */
  ghost function InputOf(q: Request): (m: Input)
    requires HasSources(q) && DeclarationsLower(q.declarations, q.values, q.sources)
  {
    OnlyUsed(Input(q.name, Profile(q.triple), q.pointerWidth, q.sources, AllTypes(q.declarations, q.values, q.sources),
                   q.values, AllCallables(q.name, q.declarations, q.values, q.sources)))
  }

  /** No declaration has an error, and what they say is accepted. */
  ghost predicate IsBuildable(q: Request) {
    HasSources(q) && DeclarationsLower(q.declarations, q.values, q.sources) && Accepts(InputOf(q))
  }

  /** The module is built from what the declarations say, over the sources that are used. */
  ghost predicate IsBuiltFrom(r: Module, q: Request, digest: string -> string) {
    IsBuildable(q) && IsModuleOf(r, InputOf(q), digest)
  }

  method LowerDeclarations(q: Request) returns (types: seq<NominalType>, callables: seq<Callable>, ok: bool)
    ensures ok <==> DeclarationsLower(q.declarations, q.values, q.sources)
    ensures ok ==> types == AllTypes(q.declarations, q.values, q.sources)
    ensures ok ==> callables == AllCallables(q.name, q.declarations, q.values, q.sources)
  {
    hide ClassFits, ClassTypes, ClassCallables, DeclarationsLower;
    types, callables, ok := [], [], true;
    NoDeclarations(q.values, q.sources);
    for i := 0 to |q.declarations|
      invariant ok <==> DeclarationsLower(q.declarations[..i], q.values, q.sources)
      invariant ok ==> types == AllTypes(q.declarations[..i], q.values, q.sources)
      invariant ok ==> callables == AllCallables(q.name, q.declarations[..i], q.values, q.sources)
    {
      assert q.declarations[..i + 1][..i] == q.declarations[..i];
      DeclarationsMore(q.declarations, q.values, q.sources, i);
      var moreTypes, moreCallables, fits := LowerClass(q.name, q.declarations[i], q.values, q.sources);
      ok, types, callables := ok && fits, types + moreTypes, callables + moreCallables;
    }
    assert q.declarations[..|q.declarations|] == q.declarations;
  }

  lemma NoDeclarations(values: seq<ValueType>, sources: seq<Source>)
    ensures DeclarationsLower([], values, sources)
  {
  }

  method LowerPrsm(q: Request, digest: string -> string) returns (r: Option<Module>)
    requires HasSources(q)
    ensures r.Some? <==> IsBuildable(q)
    ensures r.Some? ==> IsBuiltFrom(r.value, q, digest)
  {
    hide Accepts, IsModuleOf, DeclarationsLower, Profile, AllTypes, AllCallables, OverUsed;
    var types, callables, ok := LowerDeclarations(q);
    if !ok {
      return None;
    }
    var m := Input(q.name, Profile(q.triple), q.pointerWidth, q.sources, types, q.values, callables);
    if (m.types != [] || m.values != []) && m.sources != [] && m.sources[0].kind == Header {
      m := KeepUsedSources(m);
    }
    r := Build(m, digest);
  }

  lemma DeclarationsMore(ds: seq<ClassModel>, values: seq<ValueType>, sources: seq<Source>, i: nat)
    requires i < |ds|
    ensures DeclarationsLower(ds[..i + 1], values, sources)
       <==> DeclarationsLower(ds[..i], values, sources) && ClassFits(ds[i], values, sources)
  {
    hide ClassFits;
    var front, more := ds[..i], ds[..i + 1];
    assert more == front + [ds[i]];
    assert more[i] == ds[i] && forall j :: 0 <= j < i ==> front[j] == more[j];
  }

  lemma SymbolsAreLowered(moduleName: Narrow, m: Input)
    requires m.name == moduleName && forall c :: c in m.callables ==> HasSymbol(moduleName, c)
    ensures IsLowered(m)
  {
  }

  /** A built module comes from an accepted one with the callables of the selected members. */
  lemma BuiltThrough(r: Module, q: Request, digest: string -> string) returns (m: Input)
    requires IsBuiltFrom(r, q, digest)
    ensures Accepts(m) && IsLowered(m) && IsModuleOf(r, m, digest) && m.name == q.name
    ensures Map(SelectionOf, m.callables) == Selected(q.declarations)
  {
    hide Accepts, IsModuleOf, HasSymbol, SelectionOf, AllCallables, Selected, FirstUses, IndexOf;
    AllAreSelected(q.name, q.declarations, q.values, q.sources);
    m := InputOf(q);
    SymbolsAreLowered(q.name, m);
  }

  // From directives to the check at run time

  function CallSelection(c: Contract): Selection {
    SelectionOf(c.declaration)
  }

  /** The calls of a module are its selected members, each once, and each with its own symbol. */
  lemma CallsAreSelections(r: Module, q: Request, digest: string -> string)
    requires IsBuiltFrom(r, q, digest)
    ensures multiset(Map(CallSelection, r.calls)) == multiset(Selected(q.declarations))
    ensures forall c :: c in r.calls ==> HasSymbol(q.name, c.declaration)
  {
    hide Accepts, SortedBy, DescriptorOf, HasSymbol, SelectionOf, SlotsResolve, Symbol, IsBuiltFrom;
    var m := BuiltThrough(r, q, digest);
    MapPermutes(SelectionOf, r.input.callables, m.callables);
    assert Map(CallSelection, r.calls) == Map(SelectionOf, r.input.callables);
    forall c | c in r.calls
      ensures HasSymbol(q.name, c.declaration)
    {
      var i :| 0 <= i < |r.calls| && r.calls[i] == c;
      assert c.declaration == r.input.callables[i];
      InPermutes(r.input.callables, m.callables, c.declaration);
      LoweredHasSymbol(m, c.declaration);
    }
  }

  lemma LoweredHasSymbol(m: Input, c: Callable)
    requires IsLowered(m) && c in m.callables
    ensures HasSymbol(m.name, c)
  {
  }

  lemma BuiltFromIsSelected(r: Module, q: Request, digest: string -> string)
    requires IsBuiltFrom(r, q, digest) && forall d :: IsDigest(digest(d))
    ensures IsSelected(r) && r.input.name == q.name
  {
    hide Accepts, SortedBy, DescriptorOf, SlotsResolve, IsLowered, IsDigest, IsSelected, IsBuiltFrom;
    var m := BuiltThrough(r, q, digest);
    BuiltIsSelected(r, m, digest);
  }

  /** The symbol and the digest are those of a member that the directives of some module select. */
  ghost predicate IsSelectedMember(requests: seq<Request>, modules: seq<Module>, symbol: string, digest: seq<Byte>)
    requires |modules| == |requests|
  {
    exists i: nat, j: nat :: i < |modules| && IsMemberCall(requests[i], modules[i], j, symbol, digest)
  }

  ghost predicate IsMemberCall(q: Request, m: Module, j: nat, symbol: string, digest: seq<Byte>) {
    && IsCall(m, j, symbol, digest) && HasSymbol(q.name, m.calls[j].declaration)
    && SelectionOf(m.calls[j].declaration) in Selected(q.declarations)
  }

  lemma CallIsMember(requests: seq<Request>, modules: seq<Module>, digest: string -> string, symbol: string,
                     bytes: seq<Byte>)
    requires |modules| == |requests| && forall i :: 0 <= i < |modules| ==> IsBuiltFrom(modules[i], requests[i], digest)
    ensures IsSelectedCall(modules, symbol, bytes) <==> IsSelectedMember(requests, modules, symbol, bytes)
  {
    hide IsCall, HasSymbol, SelectionOf, IsBuiltFrom, Selected;
    if IsSelectedCall(modules, symbol, bytes) {
      var i, j :| 0 <= i < |modules| && 0 <= j < |modules[i].calls| && IsCall(modules[i], j, symbol, bytes);
      CallsAreSelections(modules[i], requests[i], digest);
      var c := modules[i].calls[j];
      assert Map(CallSelection, modules[i].calls)[j] == SelectionOf(c.declaration);
      InPermutes(Map(CallSelection, modules[i].calls), Selected(requests[i].declarations), SelectionOf(c.declaration));
      assert IsMemberCall(requests[i], modules[i], j, symbol, bytes);
    }
    if IsSelectedMember(requests, modules, symbol, bytes) {
      var i: nat, j: nat :| i < |modules| && IsMemberCall(requests[i], modules[i], j, symbol, bytes);
      CallHasIndex(modules[i], j, symbol, bytes);
    }
  }

  lemma CallHasIndex(m: Module, j: nat, symbol: string, digest: seq<Byte>)
    requires IsCall(m, j, symbol, digest)
    ensures j < |m.calls|
  {
  }

  /** The module is built, and this is its table. */
  ghost predicate IsBuiltAs(m: Module, view: View, q: Request, digest: string -> string, address: string -> nat) {
    && IsBuiltFrom(m, q, digest) && IsSelected(m) && m.input.name == q.name
    && CanBeEmitted(m) && |m.calls| < 0x1_0000_0000 && view == ViewOf(m, address)
  }

  method BuildTable(q: Request, digest: string -> string, address: string -> nat) returns (r: Option<(Module, View)>)
    requires HasSources(q) && forall d :: IsDigest(digest(d))
    ensures r.Some? <==> IsBuildable(q)
    ensures r.Some? ==> IsBuiltAs(r.value.0, r.value.1, q, digest, address)
  {
    hide IsBuildable, IsBuiltFrom, IsSelected, CanBeEmitted, ViewOf, IsDigest;
    var built := LowerPrsm(q, digest);
    if built.None? {
      return None;
    }
    BuiltFromIsSelected(built.value, q, digest);
    SelectedFits(built.value);
    var view := EmitTable(built.value, address);
    return Some((built.value, view));
  }

  ghost predicate AllBuilt(modules: seq<Module>, views: seq<View>, requests: seq<Request>, digest: string -> string,
                           address: string -> nat) {
    && |modules| == |views| == |requests|
    && forall i :: 0 <= i < |modules| ==> IsBuiltAs(modules[i], views[i], requests[i], digest, address)
  }

  /** All modules and their tables, unless one of them has an error. */
  method BuildTables(requests: seq<Request>, digest: string -> string, address: string -> nat)
      returns (ok: bool, modules: seq<Module>, views: seq<View>)
    requires (forall i :: 0 <= i < |requests| ==> HasSources(requests[i])) && forall d :: IsDigest(digest(d))
    ensures ok <==> forall i :: 0 <= i < |requests| ==> IsBuildable(requests[i])
    ensures ok ==> AllBuilt(modules, views, requests, digest, address)
  {
    hide IsBuildable, IsBuiltAs, IsDigest, HasSources;
    modules, views := [], [];
    for i := 0 to |requests|
      invariant forall j :: 0 <= j < i ==> IsBuildable(requests[j])
      invariant AllBuilt(modules, views, requests[..i], digest, address)
    {
      var built := BuildTable(requests[i], digest, address);
      if built.None? {
        return false, modules, views;
      }
      modules, views := modules + [built.value.0], views + [built.value.1];
    }
    assert requests[..|requests|] == requests;
    ok := true;
  }

  lemma BuiltAreSelected(modules: seq<Module>, views: seq<View>, requests: seq<Request>, digest: string -> string,
                         address: string -> nat)
    requires AllBuilt(modules, views, requests, digest, address) && |requests| <= 4096
    requires forall i, j :: 0 <= i < j < |requests| ==> requests[i].name != requests[j].name
    ensures |modules| == |requests| && AreSelected(modules) && AllEmitted(modules) && views == Views(modules, address)
    ensures forall i :: 0 <= i < |modules| ==> IsBuiltFrom(modules[i], requests[i], digest)
  {
    hide IsBuiltFrom, IsSelected, CanBeEmitted, ViewOf, HasSources;
  }

  /**
   The whole way: modules are lowered from their declarations and built, their tables emitted and linked at
   addresses that are not null, and a symbol with a digest is checked against all tables. The check says OK
   exactly for the selected members.
   */
  method CheckBinding(requests: seq<Request>, digest: string -> string, address: string -> nat, symbol: string,
                      bytes: seq<Byte>) returns (status: Option<Status>, modules: seq<Module>)
    requires |requests| <= 4096 && forall i :: 0 <= i < |requests| ==> HasSources(requests[i])
    requires forall i, j :: 0 <= i < j < |requests| ==> requests[i].name != requests[j].name
    requires (forall d :: IsDigest(digest(d))) && (forall s :: address(s) != 0)
    requires |bytes| == DIGEST_BYTES && 0 < |symbol| <= 4096
    ensures status.Some? <==> forall i :: 0 <= i < |requests| ==> IsBuildable(requests[i])
    ensures status.Some? ==>
              && |modules| == |requests|
              && (forall i :: 0 <= i < |modules| ==> IsBuiltFrom(modules[i], requests[i], digest))
              && (status == Some(OK) <==> IsSelectedMember(requests, modules, symbol, bytes))
              && status != Some(InvalidArgument)
  {
    hide IsBuildable, IsBuiltFrom, AllBuilt, IsDigest, IsTrusted, IsUsable, ViewOf, Views, IsSelectedCall, HasSources,
         IsSelectedMember, AreSelected, AllEmitted;
    var ok, built, views := BuildTables(requests, digest, address);
    if !ok {
      return None, [];
    }
    modules := built;
    BuiltAreSelected(built, views, requests, digest, address);
    BoundExactlyTheSelected(built, address, symbol, bytes);
    SelectedAreEmitted(built);
    ViewsAreUsable(built, address);
    var checked := ValidateBinding(Some(views), |views|, Some(symbol), |symbol|, Some(bytes));
    assert views[..|views|] == views;
    CallIsMember(requests, built, digest, symbol, bytes);
    status := Some(checked);
  }
}
