/**
 What a callable says about the method it was selected from: its scalars have the sign and the size of the
 native types, its role is that of the directives, its signature is spelled from both.
 */
module PrsmMeaning {
  import opened Bytes
  import opened Decimals
  import opened Permutations
  import opened PrsmModel
  import opened PrsmDescriptor
  import opened PrsmAcceptance
  import opened PrsmBuilder
  import opened PrsmLowering

  // Scalars

  predicate IsUnsigned(s: Scalar) {
    s == UInt8 || s == UInt16 || s == UInt32 || s == UInt64
  }

  predicate IsReal(s: Scalar) {
    s == Float32 || s == Float64
  }

  /** The scalar is of the kind of the native type, of its sign and of its size. */
  predicate MeansNative(s: Scalar, t: NativeType) {
    && (s == Void <==> t.kind == "void")
    && (s == Boolean <==> t.kind == "bool")
    && (IsReal(s) <==> t.kind == "floating_point")
    && (IsSigned(s) <==> t.kind == "signed_integer")
    && (IsUnsigned(s) <==> t.kind == "unsigned_integer")
    && (t.kind != "void" ==> ScalarWidth(s) == t.size)
  }

  predicate IsIntegerKind(kind: string) {
    kind == "signed_integer" || kind == "unsigned_integer"
  }

  /** A type has a scalar exactly when it is unqualified and of a kind and a size that has one, and then it means it. */
  lemma ScalarExactlyWhen(t: NativeType)
    ensures ScalarOf(t).Some? <==>
              && !t.isConst && !t.isVolatile
              && (|| t.kind == "void"
                  || (t.kind == "bool" && t.size == 1)
                  || (IsIntegerKind(t.kind) && t.size in {1, 2, 4, 8})
                  || (t.kind == "floating_point"
                      && ((t.canonical == "float" && t.size == 4) || (t.canonical == "double" && t.size == 8))))
    ensures ScalarOf(t).Some? ==> MeansNative(ScalarOf(t).value, t)
  {
  }

  /** One scalar at most means a native type. */
  lemma MeaningIsUnique(s: Scalar, u: Scalar, t: NativeType)
    requires MeansNative(s, t) && MeansNative(u, t)
    ensures s == u
  {
  }

  lemma SizesInBits()
    ensures ToString(8) == "8" && ToString(16) == "16" && ToString(32) == "32" && ToString(64) == "64"
  {
  }

  /** The name of a number tells its kind and its size in bits. */
  lemma NameTellsWidth(s: Scalar)
    requires IsNumeric(s)
    ensures ScalarName(s)
         == (if IsReal(s) then "float" else if IsSigned(s) then "int" else "uint") + ToString(8 * ScalarWidth(s))
  {
    SizesInBits();
    hide ToString;
    match s
    case Int8 => assert "int" + "8" == "int8";
    case Int16 => assert "int" + "16" == "int16";
    case Int32 => assert "int" + "32" == "int32";
    case Int64 => assert "int" + "64" == "int64";
    case UInt8 => assert "uint" + "8" == "uint8";
    case UInt16 => assert "uint" + "16" == "uint16";
    case UInt32 => assert "uint" + "32" == "uint32";
    case UInt64 => assert "uint" + "64" == "uint64";
    case Float32 => assert "float" + "32" == "float32";
    case Float64 => assert "float" + "64" == "float64";
  }

  /** There are as many values as so many bits can tell apart. */
  lemma SpanIsOfWidth(s: Scalar)
    ensures Span(s) == Shift(1, 8 * ScalarWidth(s))
  {
    hide Shift;
    ShiftToTop();
    FirstShifts();
  }

  lemma FirstShifts()
    ensures Shift(1, 0) == 1 && Shift(1, 8) == 0x100 && Shift(1, 16) == 0x1_0000 && Shift(1, 32) == 0x1_0000_0000
  {
    ShiftEight(1, 0);
    ShiftEight(1, 8);
    ShiftEight(1, 16);
    ShiftEight(1, 24);
  }

  // Value slots

  /** Passed by value, or by reference to const. */
  predicate IsPassed(t: NativeType, name: string) {
    || IsNamedValue(t, name)
    || (t.kind == "lvalue_reference" && t.pointee.Some? && t.pointee.value.isConst && IsNamedValue(t.pointee.value, name))
  }

  predicate IsNamedValue(t: NativeType, name: string) {
    (t.kind == "record" || t.kind == "enum") && !t.isVolatile && t.declaration == name
  }

  predicate IsSelectedValue(values: seq<ValueType>, name: string) {
    exists i :: 0 <= i < |values| && values[i].cppName == name
  }

  lemma ValueSlotExactly(values: seq<ValueType>, t: NativeType, name: string)
    requires name != ""
    ensures ValueSlot(values, t) == name <==> IsPassed(t, name) && IsSelectedValue(values, name)
  {
    FindsValue(values, name);
  }

  lemma {:induction false} FindsValue(values: seq<ValueType>, name: string)
    ensures FindValue(values, name).Some? <==> IsSelectedValue(values, name)
    decreases |values|
  {
    if values != [] {
      FindsValue(values[1..], name);
      if values[0].cppName != name {
        assert forall i :: 0 < i < |values| ==> values[i] == values[1..][i - 1];
        if IsSelectedValue(values[1..], name) {
          var i :| 0 <= i < |values[1..]| && values[1..][i].cppName == name;
          assert values[i + 1].cppName == name;
        }
      }
    }
  }

  // Directives

  /** The argument is the text in quotes. */
  predicate IsQuoted(a: Use, text: string) {
    a.hasArguments && text != "" && '\\' !in text && a.tokens == ["\"" + text + "\""]
  }

  /** Some attribute says so. */
  predicate Directs(attributes: seq<Use>, name: string, text: string) {
    exists i :: 0 <= i < |attributes| && IsDirective(attributes[i]) && attributes[i].name == name
                && IsQuoted(attributes[i], text)
  }

  lemma LiteralIsQuoted(a: Use)
    ensures HasLiteral(a) ==> IsQuoted(a, a.tokens[0][1..|a.tokens[0]| - 1])
    ensures forall text :: IsQuoted(a, text) ==> HasLiteral(a) && text == a.tokens[0][1..|a.tokens[0]| - 1]
  {
    if HasLiteral(a) {
      var token := a.tokens[0];
      var text := token[1..|token| - 1];
      assert token == "\"" + text + "\"";
      assert forall i :: 0 <= i < |text| ==> text[i] == token[i + 1];
    }
    forall text | IsQuoted(a, text)
      ensures HasLiteral(a) && text == a.tokens[0][1..|a.tokens[0]| - 1]
    {
      var token := "\"" + text + "\"";
      assert token[1..|token| - 1] == text;
    }
  }

  /** When no directive is malformed or repeated, what is read is what some attribute says. */
  lemma {:induction false} PolicySays(attributes: seq<Use>, name: string, text: string)
    requires PolicyFits(attributes)
    ensures Says(Policy(attributes), name, text) <==> Directs(attributes, name, text)
    decreases |attributes|
  {
    hide IsDirective, HasLiteral, IsQuoted;
    if attributes != [] {
      var front, a := attributes[..|attributes| - 1], attributes[|attributes| - 1];
      PolicySays(front, name, text);
      LiteralIsQuoted(a);
      if Directs(front, name, text) {
        var i :| 0 <= i < |front| && IsDirective(front[i]) && front[i].name == name && IsQuoted(front[i], text);
        assert attributes[i] == front[i];
      }
      if Directs(attributes, name, text) {
        var i :| 0 <= i < |attributes| && IsDirective(attributes[i]) && attributes[i].name == name
                 && IsQuoted(attributes[i], text);
        assert i < |front| ==> attributes[i] == front[i];
      }
    }
  }

  // Signatures

  function CommaJoined(tokens: seq<string>): string {
    if tokens == [] then ""
    else if |tokens| == 1 then tokens[0]
    else CommaJoined(tokens[..|tokens| - 1]) + "," + tokens[|tokens| - 1]
  }

  function TokensOf(values: seq<ValueType>, c: Callable, count: nat): (tokens: seq<string>)
    requires SlotsResolve(values, c) && count <= |c.parameters|
    ensures |tokens| == count
  {
    seq(count, i requires 0 <= i < count => Token(SlotOf(values, c.parameters[i], ParameterValue(c, i))))
  }

  lemma {:induction false} TokensAreJoined(values: seq<ValueType>, c: Callable, count: nat)
    requires SlotsResolve(values, c) && count <= |c.parameters|
    ensures ParameterTokens(values, c, count) == CommaJoined(TokensOf(values, c, count))
    decreases count
  {
    hide Token, SlotOf;
    if count > 0 {
      TokensAreJoined(values, c, count - 1);
      var tokens := TokensOf(values, c, count);
      assert tokens[..count - 1] == TokensOf(values, c, count - 1);
      if count == 1 {
        assert "" + "" + tokens[0] == tokens[0];
      }
    }
  }

  // Callables

  ghost predicate SlotMatches(values: seq<ValueType>, t: NativeType, scalar: Scalar, slot: string) {
    && (slot == "" ==> MeansNative(scalar, t))
    && (slot != "" ==> IsPassed(t, slot) && IsSelectedValue(values, slot))
    && (slot == "" ==> forall name :: name != "" && IsPassed(t, name) ==> !IsSelectedValue(values, name))
  }

  /** What the directives of a method make of it. */
  ghost predicate RoleMatches(m: MethodModel, c: Callable) {
    && (c.operation == Getter <==> exists text :: Directs(m.attributes, "property_get", text))
    && (c.operation == Setter <==> exists text :: Directs(m.attributes, "property_set", text))
    && c.operation != Owner
    && (c.operation == Getter ==> Directs(m.attributes, "property_get", c.scriptName))
    && (c.operation == Setter ==> Directs(m.attributes, "property_set", c.scriptName))
    && (c.operation == Method ==> c.scriptName == m.name)
    && (c.effect == Read <==>
          || Directs(m.attributes, "effect", "read")
          || (c.operation == Getter && !Directs(m.attributes, "effect", "write")))
  }

  /** The callable says what the method is. */
  ghost predicate CallMatches(values: seq<ValueType>, m: MethodModel, c: Callable) {
    && SlotsResolve(values, c)
    && c.cppName == m.name && c.isConst == m.isConst && (c.isNoexcept <==> m.exceptions == "basic_noexcept")
    && c.nativeResult == m.result.canonical
    && |c.parameters| == |c.nativeParameters| == |m.parameters|
    && SlotMatches(values, m.result, c.result, c.resultValue)
    && (forall i :: 0 <= i < |m.parameters| ==>
          && c.nativeParameters[i] == m.parameters[i].canonical
          && SlotMatches(values, m.parameters[i], c.parameters[i], ParameterValue(c, i)))
    && RoleMatches(m, c)
    && c.cppSignature
       == Token(SlotOf(values, c.result, c.resultValue)) + "(" + CommaJoined(TokensOf(values, c, |c.parameters|)) + ")"
          + (if c.isConst then " const" else "") + (if c.isNoexcept then " noexcept" else "")
  }

  lemma SlotIsMatched(values: seq<ValueType>, t: NativeType, placeholder: Scalar)
    requires ResultFits(values, t)
    ensures SlotMatches(values, t, SlotScalar(values, t, placeholder), ValueSlot(values, t))
  {
    hide ScalarOf, MeansNative, ValueSlot, IsPassed, IsSelectedValue;
    ScalarExactlyWhen(t);
    forall name | name != ""
      ensures ValueSlot(values, t) == name <==> IsPassed(t, name) && IsSelectedValue(values, name)
    {
      ValueSlotExactly(values, t, name);
    }
  }

  lemma DirectsIsSaid(attributes: seq<Use>, name: string)
    requires PolicyFits(attributes)
    ensures forall text :: Directs(attributes, name, text) <==> Says(Policy(attributes), name, text)
  {
    hide Directs, Says, Policy;
    forall text
      ensures Directs(attributes, name, text) <==> Says(Policy(attributes), name, text)
    {
      PolicySays(attributes, name, text);
    }
  }

  lemma RoleIsMatched(moduleName: Narrow, typeName: Narrow, receiver: Receiver, values: seq<ValueType>, m: MethodModel)
    requires MethodFits(typeName, values, m) && PolicyFits(m.attributes)
    ensures RoleMatches(m, MethodCallable(moduleName, typeName, receiver, values, m))
  {
    hide Directs, Policy, MethodCallable, IsOrdinary, ResultFits, ParameterFits;
    RoleOfCallable(moduleName, typeName, receiver, values, m);
    DirectsIsSaid(m.attributes, "property_get");
    DirectsIsSaid(m.attributes, "property_set");
    DirectsIsSaid(m.attributes, "effect");
    var policy := Policy(m.attributes);
    assert "property_get" in policy ==> Says(policy, "property_get", policy["property_get"]);
    assert "property_set" in policy ==> Says(policy, "property_set", policy["property_set"]);
  }

  lemma RoleOfCallable(moduleName: Narrow, typeName: Narrow, receiver: Receiver, values: seq<ValueType>, m: MethodModel)
    requires MethodFits(typeName, values, m)
    ensures var c, policy := MethodCallable(moduleName, typeName, receiver, values, m), Policy(m.attributes);
            && c.operation == OperationOf(policy) && c.scriptName == ScriptNameOf(m.name, policy)
            && c.effect == EffectOf(policy)
  {
    hide Policy, SignatureOf, IsOrdinary, ResultFits, ParameterFits, MethodSymbol, Slots, Scalars, ValueSlot, Spellings, HasSymbol,
         SlotsResolve, OperationOf, ScriptNameOf, EffectOf, SelectionOf;
  }

  lemma SlotsAreMatched(moduleName: Narrow, typeName: Narrow, receiver: Receiver, values: seq<ValueType>, m: MethodModel,
                        i: nat)
    requires MethodFits(typeName, values, m) && i < |m.parameters|
    ensures var c := MethodCallable(moduleName, typeName, receiver, values, m);
            && SlotsResolve(values, c) && |c.parameters| == |m.parameters|
            && SlotMatches(values, m.parameters[i], c.parameters[i], ParameterValue(c, i))
  {
    hide Policy, SignatureOf, IsOrdinary, MethodSymbol, ValueSlot, ScalarOf, HasSymbol, SlotMatches, RoleFits, OperationOf,
         EffectOf, ScriptNameOf, Resolves, SelectionOf;
    var c, slots := MethodCallable(moduleName, typeName, receiver, values, m), Slots(values, m.parameters);
    assert slots[i] == ValueSlot(values, m.parameters[i]);
    assert ParameterValue(c, i) == slots[i];
    SlotIsMatched(values, m.parameters[i], Int32);
  }

  /** A lowered method says what the method is. */
  lemma MethodIsMatched(moduleName: Narrow, typeName: Narrow, receiver: Receiver, values: seq<ValueType>, m: MethodModel)
    requires MethodFits(typeName, values, m) && PolicyFits(m.attributes)
    ensures CallMatches(values, m, MethodCallable(moduleName, typeName, receiver, values, m))
  {
    hide Policy, IsOrdinary, MethodSymbol, ValueSlot, ScalarOf, HasSymbol, SlotMatches, RoleFits, OperationOf, EffectOf,
         ScriptNameOf, SelectionOf, RoleMatches, ParameterValue, ParameterTokens, CommaJoined, TokensOf, Token, SlotOf;
    var c := MethodCallable(moduleName, typeName, receiver, values, m);
    assert SlotsResolve(values, c);
    OrdinaryIsNoexcept(typeName, values, m);
    RoleIsMatched(moduleName, typeName, receiver, values, m);
    SlotIsMatched(values, m.result, Void);
    TokensAreJoined(values, c, |c.parameters|);
    SignatureIsOfSlots(moduleName, typeName, receiver, values, m);
    forall i | 0 <= i < |m.parameters|
      ensures SlotMatches(values, m.parameters[i], c.parameters[i], ParameterValue(c, i))
    {
      SlotsAreMatched(moduleName, typeName, receiver, values, m, i);
    }
  }

  lemma OrdinaryIsNoexcept(typeName: string, values: seq<ValueType>, m: MethodModel)
    requires MethodFits(typeName, values, m)
    ensures m.exceptions != "none" <==> m.exceptions == "basic_noexcept"
  {
  }

  /** The signature is made before it is put in, and does not depend on it. */
  lemma SignatureIsOfSlots(moduleName: Narrow, typeName: Narrow, receiver: Receiver, values: seq<ValueType>, m: MethodModel)
    requires MethodFits(typeName, values, m)
    ensures var c := MethodCallable(moduleName, typeName, receiver, values, m);
            SlotsResolve(values, c) && c.cppSignature == SignatureOf(values, c)
  {
    hide IsOrdinary, ValueSlot, ScalarOf, Policy, OperationOf, EffectOf, ScriptNameOf, Token, SlotOf, MethodSymbol, HasSymbol,
         SelectionOf;
    var u := Unsigned(moduleName, typeName, receiver, values, m);
    var c := MethodCallable(moduleName, typeName, receiver, values, m);
    TokensUnchanged(values, u, c, |c.parameters|);
  }

  lemma {:induction false} TokensUnchanged(values: seq<ValueType>, a: Callable, b: Callable, count: nat)
    requires SlotsResolve(values, a) && b == a.(cppSignature := b.cppSignature) && count <= |a.parameters|
    ensures SlotsResolve(values, b) && ParameterTokens(values, a, count) == ParameterTokens(values, b, count)
    decreases count
  {
    hide Token, SlotOf;
    if count > 0 {
      TokensUnchanged(values, a, b, count - 1);
    }
  }

  // Modules

  /** The receiver is of the kind that a directive names, and a handle without one. */
  predicate ReceiverMatches(d: ClassModel, receiver: Receiver) {
    && (receiver == Entity <==> Directs(d.attributes, "receiver", "entity"))
    && (receiver == Component <==> Directs(d.attributes, "receiver", "component"))
  }

  predicate IsSelectedType(q: Request, d: ClassModel) {
    d in q.declarations && Directs(d.attributes, "interop", "prsm")
  }

  /** The callable is that of a selected method of a selected type. */
  ghost predicate IsCallOf(q: Request, d: ClassModel, m: MethodModel, c: Callable) {
    && IsSelectedType(q, d) && m in d.methods && Directs(m.attributes, "interop", "prsm")
    && c.receiver == d.name && ReceiverMatches(d, c.receiverKind) && CallMatches(q.values, m, c)
  }

  /** The callable gives the handle that stands for the owner of a selected type. */
  predicate IsIngressOf(q: Request, d: ClassModel, c: Callable) {
    && IsSelectedType(q, d) && Directs(d.attributes, "owner", c.scriptName) && ReceiverMatches(d, c.receiverKind)
    && c.operation == Owner && c.effect == Read && c.handleResult == d.name && c.result == UInt64 && c.parameters == []
    && c.cppSignature == "handle:" + d.name + "()"
  }

  ghost predicate IsOfDeclarations(q: Request, c: Callable) {
    (exists d :: IsIngressOf(q, d, c)) || (exists d, m :: IsCallOf(q, d, m, c))
  }

  lemma ReceiverIsMatched(d: ClassModel)
    requires PolicyFits(d.attributes)
    ensures ReceiverMatches(d, ReceiverOf(Policy(d.attributes)))
  {
    hide Policy, Directs;
    PolicySays(d.attributes, "receiver", "entity");
    PolicySays(d.attributes, "receiver", "component");
  }

  lemma {:induction false} MethodsMatch(q: Request, d: ClassModel, methods: seq<MethodModel>, c: Callable)
    requires IsSelectedType(q, d) && PolicyFits(d.attributes) && forall m :: m in methods ==> m in d.methods
    requires AllMembersFit(d.name, q.values, methods)
    requires c in MethodCallables(q.name, d.name, ReceiverOf(Policy(d.attributes)), q.values, methods)
    ensures exists m :: IsCallOf(q, d, m, c)
    decreases |methods|
  {
    hide Policy, CallMatches, MethodCallable, ReceiverMatches, ReceiverOf, IsSelectedType, HasSymbol, SelectionOf, SelectedMethods,
         MethodFits, PolicyFits;
    if methods != [] {
      var front, m := methods[..|methods| - 1], methods[|methods| - 1];
      var receiver := ReceiverOf(Policy(d.attributes));
      if c in MethodCallables(q.name, d.name, receiver, q.values, front) {
        MethodsMatch(q, d, front, c);
      } else {
        assert MemberFits(d.name, q.values, m);
        PolicySays(m.attributes, "interop", "prsm");
        ReceiverIsMatched(d);
        MethodIsMatched(q.name, d.name, receiver, q.values, m);
        CallableIsOf(q.name, d.name, receiver, q.values, m);
        assert IsCallOf(q, d, m, c);
      }
    }
  }

  lemma CallableIsOf(moduleName: Narrow, typeName: Narrow, receiver: Receiver, values: seq<ValueType>, m: MethodModel)
    requires MethodFits(typeName, values, m)
    ensures var c := MethodCallable(moduleName, typeName, receiver, values, m);
            c.receiver == typeName && c.receiverKind == receiver
  {
  }

  lemma ClassMatches(q: Request, d: ClassModel, c: Callable)
    requires d in q.declarations && ClassFits(d, q.values, q.sources)
    requires Says(Policy(d.attributes), "interop", "prsm") ==> AllMembersFit(d.name, q.values, d.methods)
    requires c in ClassCallables(q.name, d, q.values)
    ensures IsOfDeclarations(q, c)
  {
    hide Policy, MethodCallables, CallMatches, PolicyFits, HasSymbol, SelectionOf, AllMembersFit, ReceiverOf, ReceiverMatches;
    PolicySays(d.attributes, "interop", "prsm");
    var policy := Policy(d.attributes);
    var receiver := ReceiverOf(policy);
    if "owner" in policy && c == OwnerCallable(q.name, d.name, receiver, policy["owner"]) {
      PolicySays(d.attributes, "owner", policy["owner"]);
      ReceiverIsMatched(d);
      assert IsIngressOf(q, d, c);
    } else {
      MethodsMatch(q, d, d.methods, c);
      var m :| IsCallOf(q, d, m, c);
    }
  }

  lemma {:induction false} DeclarationsMatch(q: Request, ds: seq<ClassModel>, c: Callable)
    requires DeclarationsLower(ds, q.values, q.sources) && forall d :: d in ds ==> d in q.declarations
    requires c in AllCallables(q.name, ds, q.values, q.sources)
    ensures IsOfDeclarations(q, c)
    decreases |ds|
  {
    hide ClassFits, ClassCallables, IsOfDeclarations, HasSymbol, AllMembersFit;
    if ds != [] {
      var front, d := ds[..|ds| - 1], ds[|ds| - 1];
      ClassIsAllowed(d, q.values, q.sources);
      if c in AllCallables(q.name, front, q.values, q.sources) {
        DeclarationsMatch(q, front, c);
      } else {
        ClassMatches(q, d, c);
      }
    }
  }

  /**
   Every call of a built module is the owner ingress of a selected type, or a selected method: with as many
   parameters, each of the sign and the size of the native one, with the role that the directives give it.
   */
  lemma CallsMatchDeclarations(r: Module, q: Request, digest: string -> string)
    requires IsBuiltFrom(r, q, digest)
    ensures forall call :: call in r.calls ==> IsOfDeclarations(q, call.declaration)
  {
    hide Accepts, SortedBy, DescriptorOf, IsOfDeclarations, AllCallables, AllTypes, DeclarationsLower, FirstUses, IndexOf,
         SlotsResolve, Profile;
    var m := InputOf(q);
    forall call | call in r.calls
      ensures IsOfDeclarations(q, call.declaration)
    {
      var i :| 0 <= i < |r.calls| && r.calls[i] == call;
      assert call.declaration == r.input.callables[i];
      InPermutes(r.input.callables, m.callables, call.declaration);
      DeclarationsMatch(q, q.declarations, call.declaration);
    }
  }
}
