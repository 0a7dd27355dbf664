/** The ABI descriptor of a call: the facts it spells, and that it spells nothing else the same way. */
module PrsmDescriptor {
  import opened Bytes
  import opened Decimals
  import opened Netstrings
  import opened PrsmModel

  // Slots

  /** What a parameter or a result is: a scalar, a selected value type, or a handle. */
  datatype Slot = ScalarSlot(scalar: Scalar) | RecordSlot(name: string) | EnumSlot(name: string) | HandleSlot(name: string)

  function Token(slot: Slot): string {
    match slot
    case ScalarSlot(scalar) => ScalarName(scalar)
    case RecordSlot(name) => "value:" + name
    case EnumSlot(name) => "enum:" + name
    case HandleSlot(name) => "handle:" + name
  }

  lemma ScalarNameHasNoColon(s: Scalar)
    ensures ':' !in ScalarName(s)
  {
  }

  lemma TokensDiffer(a: Slot, b: Slot)
    requires Token(a) == Token(b)
    ensures a == b
  {
    TokenColon(a);
    TokenColon(b);
    if a.ScalarSlot? && b.ScalarSlot? {
      ScalarNamesDiffer(a.scalar, b.scalar);
    } else if !a.ScalarSlot? && !b.ScalarSlot? {
      PartEnds(Prefix(a), a.name, Prefix(b), b.name, ':');
    }
  }

  function Prefix(slot: Slot): string {
    match slot
    case ScalarSlot(_) => ""
    case RecordSlot(_) => "value"
    case EnumSlot(_) => "enum"
    case HandleSlot(_) => "handle"
  }

  lemma TokenColon(slot: Slot)
    ensures ':' in Token(slot) <==> !slot.ScalarSlot?
    ensures !slot.ScalarSlot? ==> Token(slot) == Prefix(slot) + ":" + slot.name
  {
    match slot
    case ScalarSlot(scalar) => ScalarNameHasNoColon(scalar);
    case RecordSlot(name) =>
      assert "value" + ":" == "value:";
      assert Token(slot)[5] == ':';
    case EnumSlot(name) =>
      assert "enum" + ":" == "enum:";
      assert Token(slot)[4] == ':';
    case HandleSlot(name) =>
      assert "handle" + ":" == "handle:";
      assert Token(slot)[6] == ':';
  }

  // Value definitions

  datatype Definition =
    | RecordDefinition(recordName: string, size: nat, align: nat, fields: seq<ValueField>)
    | EnumDefinition(enumName: string, underlying: Scalar, cases: seq<ValueCase>)

  function FieldItems(fields: seq<ValueField>): seq<string> {
    if fields == [] then []
    else [fields[0].name, ScalarName(fields[0].scalar), ToString(fields[0].offset)] + FieldItems(fields[1..])
  }

  function CaseItems(cases: seq<ValueCase>): seq<string> {
    if cases == [] then [] else [cases[0].name, cases[0].value] + CaseItems(cases[1..])
  }

  /** A definition says how many fields or cases follow. */
  function DefinitionItems(d: Definition): (items: seq<string>)
    ensures items != []
  {
    match d
    case RecordDefinition(name, size, align, fields) =>
      ["record", name, ToString(size), ToString(align), ToString(|fields|)] + FieldItems(fields)
    case EnumDefinition(name, underlying, cases) =>
      ["enum", name, ScalarName(underlying), ToString(|cases|)] + CaseItems(cases)
  }

  function AllDefinitionItems(ds: seq<Definition>): seq<string> {
    if ds == [] then [] else DefinitionItems(ds[0]) + AllDefinitionItems(ds[1..])
  }

  lemma {:induction false} FieldItemsEnd(a: seq<ValueField>, x: seq<string>, b: seq<ValueField>, y: seq<string>)
    requires |a| == |b| && FieldItems(a) + x == FieldItems(b) + y
    ensures a == b && x == y
    decreases |a|
  {
    hide ToString, ScalarName;
    if a == [] {
      assert [] + x == x && [] + y == y;
    } else {
      var all := FieldItems(a) + x;
      assert all == FieldItems(b) + y;
      assert all[0] == a[0].name == b[0].name;
      assert all[1] == ScalarName(a[0].scalar) == ScalarName(b[0].scalar);
      assert all[2] == ToString(a[0].offset) == ToString(b[0].offset);
      ScalarNamesDiffer(a[0].scalar, b[0].scalar);
      ToStringIsInjective(a[0].offset, b[0].offset);
      assert all[3..] == FieldItems(a[1..]) + x == FieldItems(b[1..]) + y;
      FieldItemsEnd(a[1..], x, b[1..], y);
      assert a == [a[0]] + a[1..] && b == [b[0]] + b[1..];
    }
  }

  lemma {:induction false} CaseItemsEnd(a: seq<ValueCase>, x: seq<string>, b: seq<ValueCase>, y: seq<string>)
    requires |a| == |b| && CaseItems(a) + x == CaseItems(b) + y
    ensures a == b && x == y
    decreases |a|
  {
    if a == [] {
      assert [] + x == x && [] + y == y;
    } else {
      var all := CaseItems(a) + x;
      assert all == CaseItems(b) + y;
      assert all[0] == a[0].name == b[0].name;
      assert all[1] == a[0].value == b[0].value;
      assert all[2..] == CaseItems(a[1..]) + x == CaseItems(b[1..]) + y;
      CaseItemsEnd(a[1..], x, b[1..], y);
      assert a == [a[0]] + a[1..] && b == [b[0]] + b[1..];
    }
  }

  /** Where a definition ends can be told from it. */
  lemma DefinitionEnds(d: Definition, x: seq<string>, e: Definition, y: seq<string>)
    requires DefinitionItems(d) + x == DefinitionItems(e) + y
    ensures d == e && x == y
  {
    var all := DefinitionItems(d) + x;
    assert all == DefinitionItems(e) + y;
    assert all[0] == DefinitionItems(d)[0] == DefinitionItems(e)[0];
    assert "record"[0] != "enum"[0];
    if d.RecordDefinition? {
      RecordEnds(d, x, e, y, all);
    } else {
      EnumEnds(d, x, e, y, all);
    }
  }

  lemma RecordEnds(d: Definition, x: seq<string>, e: Definition, y: seq<string>, all: seq<string>)
    requires d.RecordDefinition? && e.RecordDefinition?
    requires all == DefinitionItems(d) + x && all == DefinitionItems(e) + y
    ensures d == e && x == y
  {
    hide ToString, FieldItems;
    var a := ["record", d.recordName, ToString(d.size), ToString(d.align), ToString(|d.fields|)];
    var b := ["record", e.recordName, ToString(e.size), ToString(e.align), ToString(|e.fields|)];
    ConcatAssociative(a, FieldItems(d.fields), x);
    ConcatAssociative(b, FieldItems(e.fields), y);
    HeadsAgree(a, FieldItems(d.fields) + x, b, FieldItems(e.fields) + y);
    assert a[1] == b[1] && a[2] == b[2] && a[3] == b[3] && a[4] == b[4];
    ToStringIsInjective(d.size, e.size);
    ToStringIsInjective(d.align, e.align);
    ToStringIsInjective(|d.fields|, |e.fields|);
    FieldItemsEnd(d.fields, x, e.fields, y);
  }

  lemma EnumEnds(d: Definition, x: seq<string>, e: Definition, y: seq<string>, all: seq<string>)
    requires d.EnumDefinition? && e.EnumDefinition?
    requires all == DefinitionItems(d) + x && all == DefinitionItems(e) + y
    ensures d == e && x == y
  {
    hide ToString, CaseItems, ScalarName;
    var a := ["enum", d.enumName, ScalarName(d.underlying), ToString(|d.cases|)];
    var b := ["enum", e.enumName, ScalarName(e.underlying), ToString(|e.cases|)];
    ConcatAssociative(a, CaseItems(d.cases), x);
    ConcatAssociative(b, CaseItems(e.cases), y);
    HeadsAgree(a, CaseItems(d.cases) + x, b, CaseItems(e.cases) + y);
    assert a[1] == b[1] && a[2] == b[2] && a[3] == b[3];
    ScalarNamesDiffer(d.underlying, e.underlying);
    ToStringIsInjective(|d.cases|, |e.cases|);
    CaseItemsEnd(d.cases, x, e.cases, y);
  }

  lemma {:induction false} DefinitionsDiffer(a: seq<Definition>, b: seq<Definition>)
    requires AllDefinitionItems(a) == AllDefinitionItems(b)
    ensures a == b
    decreases |a|
  {
    if a != [] && b != [] {
      DefinitionEnds(a[0], AllDefinitionItems(a[1..]), b[0], AllDefinitionItems(b[1..]));
      DefinitionsDiffer(a[1..], b[1..]);
      assert a == [a[0]] + a[1..] && b == [b[0]] + b[1..];
    }
  }

  // Calls

  /** All that a descriptor says about a call. */
  datatype Facts = Facts(
    receiverKind: Receiver,
    moduleName: string,
    triple: string,
    pointerWidth: nat,
    symbol: string,
    operation: Operation,
    receiver: string,
    cppName: string,
    cppSignature: string,
    effect: Effect,
    result: Slot,
    parameters: seq<Slot>,
    values: seq<Definition>)

  function ReceiverValidation(kind: Receiver): string {
    match kind
    case Handle => "domain_generation_nominal_type"
    case Entity => "entity_generation"
    case Component => "entity_generation_component_lookup"
  }

  function OperationName(operation: Operation): string {
    match operation
    case Method => "method"
    case Getter => "getter"
    case Setter => "setter"
    case Owner => "owner"
  }

  function EffectName(effect: Effect): string {
    if effect == Read then "read" else "write"
  }

  lemma WordsDiffer(k: Receiver, l: Receiver, o: Operation, p: Operation, e: Effect, f: Effect)
    ensures ReceiverValidation(k) == ReceiverValidation(l) <==> k == l
    ensures OperationName(o) == OperationName(p) <==> o == p
    ensures EffectName(e) == EffectName(f) <==> e == f
  {
    assert |ReceiverValidation(Handle)| == 30 && |ReceiverValidation(Entity)| == 17;
    assert |ReceiverValidation(Component)| == 34;
    assert "method"[0] != "getter"[0] && "getter"[0] != "setter"[0] && "method"[0] != "setter"[0];
    assert |"owner"| == 5 && |"read"| == 4 && |"write"| == 5;
  }

  function Preamble(kind: Receiver): (items: seq<string>)
    ensures |items| == 14
  {
    ["reflgen.prsm.call.v1", "cdecl", "int32", "0", "typed_out_pointer", "no_out_pointer", "generational_u64",
     ReceiverValidation(kind),
     "borrowed_call_guard", "game_thread", "caught_to_status", "u8_nonzero_in_normalized_out", "untouched", "synchronous"]
  }

  function Signature(f: Facts): (items: seq<string>)
    ensures |items| == 11
  {
    [f.moduleName, f.triple, ToString(f.pointerWidth), f.symbol, OperationName(f.operation), f.receiver, f.cppName,
     f.cppSignature, EffectName(f.effect), Token(f.result), ToString(|f.parameters|)]
  }

  function Tokens(slots: seq<Slot>): (tokens: seq<string>)
    ensures |tokens| == |slots|
    ensures forall i :: 0 <= i < |slots| ==> tokens[i] == Token(slots[i])
  {
    if slots == [] then [] else [Token(slots[0])] + Tokens(slots[1..])
  }

  function Items(f: Facts): seq<string> {
    Preamble(f.receiverKind) + Signature(f) + Tokens(f.parameters) + AllDefinitionItems(f.values)
  }

  /** Equal descriptors describe the same call: every fact and every referenced definition can be told from it. */
  lemma DescriptorIsInjective(f: Facts, g: Facts)
    requires Join(Items(f)) == Join(Items(g))
    ensures f == g
  {
    JoinIsInjective(Items(f), Items(g));
    SameSignature(f, g, Items(f));
    SameParameters(f, g, Items(f));
    var start := 25 + |f.parameters|;
    assert Items(f)[start..] == AllDefinitionItems(f.values);
    assert Items(g)[start..] == AllDefinitionItems(g.values);
    DefinitionsDiffer(f.values, g.values);
  }

  lemma SameSignature(f: Facts, g: Facts, all: seq<string>)
    requires all == Items(f) && all == Items(g)
    ensures f.receiverKind == g.receiverKind && |f.parameters| == |g.parameters|
    ensures f.(parameters := g.parameters, values := g.values) == g
  {
    assert all[7] == ReceiverValidation(f.receiverKind) == ReceiverValidation(g.receiverKind);
    assert forall i :: 0 <= i < 11 ==> Signature(f)[i] == all[14 + i];
    assert forall i :: 0 <= i < 11 ==> Signature(g)[i] == all[14 + i];
    assert Signature(f) == Signature(g);
    var s, t := Signature(f), Signature(g);
    assert s[0] == t[0] && s[1] == t[1] && s[2] == t[2] && s[3] == t[3] && s[4] == t[4] && s[5] == t[5];
    assert s[6] == t[6] && s[7] == t[7] && s[8] == t[8] && s[9] == t[9] && s[10] == t[10];
    WordsDiffer(f.receiverKind, g.receiverKind, f.operation, g.operation, f.effect, g.effect);
    ToStringIsInjective(f.pointerWidth, g.pointerWidth);
    ToStringIsInjective(|f.parameters|, |g.parameters|);
    TokensDiffer(f.result, g.result);
  }

  lemma SameParameters(f: Facts, g: Facts, all: seq<string>)
    requires all == Items(f) && all == Items(g) && |f.parameters| == |g.parameters|
    ensures f.parameters == g.parameters
  {
    forall i | 0 <= i < |f.parameters|
      ensures f.parameters[i] == g.parameters[i]
    {
      assert all[25 + i] == Tokens(f.parameters)[i];
      assert all[25 + i] == Tokens(g.parameters)[i];
      TokensDiffer(f.parameters[i], g.parameters[i]);
    }
  }

  // The facts of a call in its module

  function FindValue(values: seq<ValueType>, name: string): Option<ValueType> {
    if values == [] then None
    else if values[0].cppName == name then Some(values[0])
    else FindValue(values[1..], name)
  }

  predicate Resolves(values: seq<ValueType>, name: string) {
    name == "" || FindValue(values, name).Some?
  }

  function SlotOf(values: seq<ValueType>, scalar: Scalar, name: string): Slot
    requires Resolves(values, name)
  {
    if name == "" then ScalarSlot(scalar)
    else if FindValue(values, name).value.isRecord then RecordSlot(name)
    else EnumSlot(name)
  }

  function ParameterValue(c: Callable, i: nat): string
    requires c.parameterValues == [] || i < |c.parameterValues|
  {
    if c.parameterValues == [] then "" else c.parameterValues[i]
  }

  /** Value slots name selected value types, and there is one for each parameter or none at all. */
  predicate SlotsResolve(values: seq<ValueType>, c: Callable) {
    && (c.parameterValues == [] || |c.parameterValues| == |c.parameters|)
    && Resolves(values, c.resultValue)
    && forall i :: 0 <= i < |c.parameterValues| ==> Resolves(values, c.parameterValues[i])
  }

  function ResultSlot(values: seq<ValueType>, c: Callable): Slot
    requires SlotsResolve(values, c)
  {
    if c.handleResult == "" then SlotOf(values, c.result, c.resultValue) else HandleSlot(c.handleResult)
  }

  function ParameterSlots(values: seq<ValueType>, c: Callable): (slots: seq<Slot>)
    requires SlotsResolve(values, c)
    ensures |slots| == |c.parameters|
  {
    seq(|c.parameters|, i requires 0 <= i < |c.parameters| => SlotOf(values, c.parameters[i], ParameterValue(c, i)))
  }

  /** The names in order of their first appearance; the empty name stands for a scalar. */
  function Noted(names: seq<string>): (order: seq<string>)
    ensures "" !in order && forall i :: 0 <= i < |order| ==> order[i] in names
    decreases |names|
  {
    if names == [] then []
    else
      var earlier, last := Noted(names[..|names| - 1]), names[|names| - 1];
      if last == "" || last in earlier then earlier else earlier + [last]
  }

  function DefinitionOf(v: ValueType): Definition {
    if v.isRecord then RecordDefinition(v.cppName, v.size, v.align, v.fields)
    else EnumDefinition(v.cppName, v.underlying, v.cases)
  }

  function DefinitionsOf(values: seq<ValueType>, names: seq<string>): (ds: seq<Definition>)
    requires forall i :: 0 <= i < |names| ==> FindValue(values, names[i]).Some?
    ensures |ds| == |names|
  {
    seq(|names|, i requires 0 <= i < |names| => DefinitionOf(FindValue(values, names[i]).value))
  }

  function ReferencedNames(c: Callable): seq<string> {
    Noted([c.resultValue] + c.parameterValues)
  }

  lemma ReferencedResolve(values: seq<ValueType>, c: Callable)
    requires SlotsResolve(values, c)
    ensures forall i :: 0 <= i < |ReferencedNames(c)| ==> FindValue(values, ReferencedNames(c)[i]).Some?
  {
    var names := [c.resultValue] + c.parameterValues;
    forall i | 0 <= i < |ReferencedNames(c)|
      ensures FindValue(values, ReferencedNames(c)[i]).Some?
    {
      var name := ReferencedNames(c)[i];
      assert name in names && name != "";
      assert Resolves(values, name);
    }
  }

  function FactsOf(m: Input, c: Callable): Facts
    requires SlotsResolve(m.values, c)
  {
    ReferencedResolve(m.values, c);
    Facts(c.receiverKind, m.name, m.triple, m.pointerWidth, c.symbol, c.operation, c.receiver, c.cppName,
          c.cppSignature, c.effect, ResultSlot(m.values, c), ParameterSlots(m.values, c),
          DefinitionsOf(m.values, ReferencedNames(c)))
  }

  // Writing a descriptor

  /** The names to define: the result's first, then the parameters', each once. */
  method NoteNames(c: Callable) returns (order: seq<string>)
    ensures order == ReferencedNames(c)
  {
    var names := [c.resultValue] + c.parameterValues;
    order := [];
    for i := 0 to |names|
      invariant order == Noted(names[..i])
    {
      assert names[..i + 1][..i] == names[..i];
      if names[i] != "" && names[i] !in order {
        order := order + [names[i]];
      }
    }
    assert names[..|names|] == names;
  }

  method AppendDefinition(output: string, v: ValueType) returns (next: string)
    ensures next == output + Join(DefinitionItems(DefinitionOf(v)))
  {
    hide Join, ToString, FieldItems, CaseItems, ScalarName;
    if v.isRecord {
      next := AppendAll(output, ["record", v.cppName, ToString(v.size), ToString(v.align), ToString(|v.fields|)]);
      JoinConcat(["record", v.cppName, ToString(v.size), ToString(v.align), ToString(|v.fields|)], FieldItems(v.fields));
      next := AppendFields(next, v.fields);
    } else {
      next := AppendAll(output, ["enum", v.cppName, ScalarName(v.underlying), ToString(|v.cases|)]);
      JoinConcat(["enum", v.cppName, ScalarName(v.underlying), ToString(|v.cases|)], CaseItems(v.cases));
      next := AppendCases(next, v.cases);
    }
  }

  method AppendFields(output: string, fields: seq<ValueField>) returns (next: string)
    ensures next == output + Join(FieldItems(fields))
  {
    hide Join, ToString, ScalarName;
    JoinNone();
    next := output;
    for i := 0 to |fields|
      invariant next + Join(FieldItems(fields[i..])) == output + Join(FieldItems(fields))
    {
      var f := fields[i];
      assert fields[i..][1..] == fields[i + 1..];
      JoinConcat([f.name, ScalarName(f.scalar), ToString(f.offset)], FieldItems(fields[i + 1..]));
      next := AppendAll(next, [f.name, ScalarName(f.scalar), ToString(f.offset)]);
    }
  }

  method AppendCases(output: string, cases: seq<ValueCase>) returns (next: string)
    ensures next == output + Join(CaseItems(cases))
  {
    hide Join, Item;
    JoinNone();
    next := output;
    for i := 0 to |cases|
      invariant next + Join(CaseItems(cases[i..])) == output + Join(CaseItems(cases))
    {
      assert cases[i..][1..] == cases[i + 1..];
      JoinConcat([cases[i].name, cases[i].value], CaseItems(cases[i + 1..]));
      next := Append(next, cases[i].name);
      next := Append(next, cases[i].value);
      JoinTwo(cases[i].name, cases[i].value);
    }
  }

  lemma JoinTwo(a: string, b: string)
    ensures Join([a, b]) == Item(a) + Item(b)
  {
    assert [a, b] == [a] + [b];
    JoinConcat([a], [b]);
    JoinOne(a);
    JoinOne(b);
  }

  method AppendValues(output: string, m: Input, c: Callable) returns (next: string)
    requires SlotsResolve(m.values, c)
    ensures next == output + Join(AllDefinitionItems(FactsOf(m, c).values))
  {
    hide Join, ToString, DefinitionItems, ReferencedNames, ResultSlot, ParameterSlots, Item;
    JoinNone();
    var order := NoteNames(c);
    ReferencedResolve(m.values, c);
    ghost var ds := FactsOf(m, c).values;
    next := output;
    for i := 0 to |order|
      invariant next + Join(AllDefinitionItems(ds[i..])) == output + Join(AllDefinitionItems(ds))
    {
      assert ds[i..][0] == ds[i] && ds[i..][1..] == ds[i + 1..];
      JoinConcat(DefinitionItems(ds[i]), AllDefinitionItems(ds[i + 1..]));
      next := AppendDefinition(next, FindValue(m.values, order[i]).value);
    }
  }

  method Descriptor(m: Input, c: Callable) returns (output: string)
    requires SlotsResolve(m.values, c)
    ensures output == Join(Items(FactsOf(m, c)))
  {
    hide Join, ToString, Token, Preamble, ResultSlot, ParameterSlots, DefinitionsOf, ReferencedNames, OperationName;
    ghost var f := FactsOf(m, c);
    output := AppendAll("", Preamble(c.receiverKind));
    output := AppendAll(output, [m.name, m.triple, ToString(m.pointerWidth), c.symbol, OperationName(c.operation),
                                 c.receiver, c.cppName, c.cppSignature, EffectName(c.effect),
                                 Token(ResultSlot(m.values, c)), ToString(|c.parameters|)]);
    JoinConcat(Preamble(f.receiverKind), Signature(f));
    ghost var head := Preamble(f.receiverKind) + Signature(f);
    assert output == Join(head);
    var tokens := Tokens(ParameterSlots(m.values, c));
    output := AppendAll(output, tokens);
    JoinConcat(head, tokens);
    output := AppendValues(output, m, c);
    JoinConcat(head + tokens, AllDefinitionItems(f.values));
  }
}
