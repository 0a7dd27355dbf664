/**
 What the lowering of native tables accepts: which types, values and tables can be lowered, which names they
 take, and which value types the signatures of the tables lead to.
 */
module FSharpAcceptance {
  import opened Bytes
  import opened Decimals
  import opened FSharpModel
  import opened Names
  import opened Permutations

  /** How F# spells a type; a type that was refused has no name. */
  datatype Lowered = Lowered(name: string, size: int, align: int)

  datatype Target = Target(pointerWidth: int, windows: bool, linux: bool, architecture: string, named: bool)

  // What a type is lowered to

  predicate IsNativePointer(target: Target, t: Type) {
    t.kind == PointerType && t.pointee.Some? && t.size == target.pointerWidth / 8
  }

  function CallingConvention(target: Target, function_: Type): Option<string> {
    var c := function_.convention;
    if c == "c" || c == "default" then Some("Cdecl")
    else if c == "x86_stdcall" && target.windows then Some("StdCall")
    else if c == "win64" && target.windows && target.pointerWidth == 64 then Some("StdCall")
    else if c == "x86_64_sysv" && target.linux && target.architecture == "x86_64" then Some("Cdecl")
    else None
  }

  predicate HasKnownPrototype(function_: Type) {
    && function_.prototype && !function_.variadic && function_.result.Some?
    && (function_.exceptions == "none" || function_.exceptions == "noexcept")
  }

  predicate IsInlineArray(t: Type) {
    && t.kind == ArrayType && t.element.Some? && 0 < t.length <= 16384
    && t.element.value.size > 0 && t.length <= 2147483647 / t.element.value.size
    && t.size == t.length * t.element.value.size
  }

  function IntegerName(t: Type): string
    requires HasIntegerSize(t)
  {
    (if t.kind == SignedType then "int" else "uint") + ToString(8 * t.size)
  }

  /** The F# type of a native type; an inline array is named after where it occurs. */
  function Spelled(target: Target, models: Models, t: Type, context: string, allowVoid: bool): Option<Lowered> {
    if t.isVolatile then None
    else if t.kind == VoidType && allowVoid then Some(Lowered("unit", 0, 1))
    else if IsNativePointer(target, t) then
      if t.pointee.value.kind == FunctionType
         && (!HasKnownPrototype(t.pointee.value) || CallingConvention(target, t.pointee.value).None?) then None
      else Some(Lowered("nativeint", t.size, t.align))
    else if t.kind == RecordType || t.kind == EnumType then
      if !IsRepresentable(models, target.pointerWidth, t.declaration, {}) then None
      else Some(Lowered(FsName(Flatten(t.declaration)), t.size, t.align))
    else if t.kind == ArrayType then
      if !IsInlineArray(t) then None else Some(Lowered(FsName(context + "_Array"), t.size, t.align))
    else if t.kind == SignedType || t.kind == UnsignedType || IsWideCharacter(t) then
      if HasIntegerSize(t) then Some(Lowered(IntegerName(t), t.size, t.align)) else None
    else if IsFloat(t) then
      if t.canonical == "float" then Some(Lowered("float32", 4, t.align)) else Some(Lowered("float", 8, t.align))
    else None
  }

  // What the built-in names of F# mean

  datatype Meaning = Integer(signed: bool, size: nat) | Floating(size: nat) | Address | Nothing

  /** The primitive types of F# by their names. */
  function MeaningOf(name: string): Option<Meaning> {
    if name == "unit" then Some(Nothing)
    else if name == "nativeint" then Some(Address)
    else if name == "int8" then Some(Integer(true, 1))
    else if name == "int16" then Some(Integer(true, 2))
    else if name == "int32" then Some(Integer(true, 4))
    else if name == "int64" then Some(Integer(true, 8))
    else if name == "uint8" then Some(Integer(false, 1))
    else if name == "uint16" then Some(Integer(false, 2))
    else if name == "uint32" then Some(Integer(false, 4))
    else if name == "uint64" then Some(Integer(false, 8))
    else if name == "float32" then Some(Floating(4))
    else if name == "float" then Some(Floating(8))
    else None
  }

  /** The built-in type is the native one: of the same kind, sign and size. */
  predicate MeansNative(target: Target, t: Type, meaning: Meaning, size: int) {
    match meaning
    case Integer(signed, bytes) =>
      && size == t.size == bytes
      && (t.kind == SignedType || t.kind == UnsignedType || t.kind == CharacterType)
      && signed == (t.kind == SignedType)
    case Floating(bytes) => t.kind == FloatingType && size == t.size == bytes
    case Address => t.kind == PointerType && size == t.size == target.pointerWidth / 8
    case Nothing => t.kind == VoidType && size == 0
  }

  /** A lowered type stands for its native type: a built-in one that means it, or the name of its definition. */
  predicate StandsFor(target: Target, t: Type, context: string, part: Lowered) {
    && (if MeaningOf(part.name).Some? then MeansNative(target, t, MeaningOf(part.name).value, part.size)
        else
          && part.size == t.size
          && part.name == (if t.kind == ArrayType then FsName(context + "_Array") else FsName(Flatten(t.declaration)))
          && (t.kind == ArrayType || t.kind == RecordType || t.kind == EnumType))
    && (t.kind != VoidType ==> part.align == t.align)
  }

  /** Integers are named by their size in bits. */
  lemma IntegerNameMeans(t: Type)
    requires HasIntegerSize(t)
    ensures MeaningOf(IntegerName(t)) == Some(Integer(t.kind == SignedType, t.size))
  {
    assert ToString(8) == "8" && ToString(16) == "16" && ToString(32) == "32" && ToString(64) == "64";
    assert "int" + "8" == "int8" && "int" + "16" == "int16" && "int" + "32" == "int32" && "int" + "64" == "int64";
    assert "uint" + "8" == "uint8" && "uint" + "16" == "uint16" && "uint" + "32" == "uint32"
        && "uint" + "64" == "uint64";
  }

  lemma FsNameIsNoMeaning(name: string)
    ensures MeaningOf(FsName(name)).None?
  {
    assert FsName(name)[0] == '`';
  }

  /** Whatever a type is spelled as stands for it. */
  lemma SpelledStandsFor(target: Target, models: Models, t: Type, context: string, allowVoid: bool)
    requires Spelled(target, models, t, context, allowVoid).Some?
    ensures StandsFor(target, t, context, Spelled(target, models, t, context, allowVoid).value)
  {
    hide MeaningOf, IntegerName, FsName, IsRepresentable, Flatten;
    FsNameIsNoMeaning(context + "_Array");
    FsNameIsNoMeaning(Flatten(t.declaration));
    BuiltInNames();
    if HasIntegerSize(t) {
      IntegerNameMeans(t);
    }
  }

  /** The native types that have an F# type. */
  predicate HasSpelling(target: Target, models: Models, t: Type, allowVoid: bool) {
    && !t.isVolatile
    && match t.kind
       case VoidType => allowVoid
       case PointerType =>
         && t.pointee.Some? && t.size == target.pointerWidth / 8
         && (t.pointee.value.kind == FunctionType ==> IsCallable(target, t.pointee.value))
       case RecordType => IsRepresentable(models, target.pointerWidth, t.declaration, {})
       case EnumType => IsRepresentable(models, target.pointerWidth, t.declaration, {})
       case ArrayType => IsFixedArray(t)
       case SignedType => t.size in {1, 2, 4, 8}
       case UnsignedType => t.size in {1, 2, 4, 8}
       case CharacterType => t.canonical in {"char16_t", "char32_t"} && t.size in {1, 2, 4, 8}
       case FloatingType => (t.canonical == "float" && t.size == 4) || (t.canonical == "double" && t.size == 8)
       case FunctionType => false
       case OtherType => false
  }

  /** At most 16384 elements that fill the array, in less than two gigabytes. */
  predicate IsFixedArray(t: Type) {
    && t.kind == ArrayType && t.element.Some? && 1 <= t.length <= 0x4000 && t.element.value.size >= 1
    && t.size == t.length * t.element.value.size && t.size < 0x8000_0000
  }

  lemma InlineArrayExactly(t: Type)
    ensures IsInlineArray(t) <==> IsFixedArray(t)
  {
    if t.kind == ArrayType && t.element.Some? && t.element.value.size > 0 {
      AtMostQuotient(t.length, t.element.value.size, 2147483647);
    }
  }

  lemma AtMostQuotient(a: int, b: int, limit: int)
    requires b > 0 && limit >= 0
    ensures a <= limit / b <==> a * b <= limit
  {
    var q := limit / b;
    assert limit == b * q + limit % b;
    if a <= q {
      assert a * b <= q * b;
    } else {
      assert a * b >= (q + 1) * b;
    }
  }

  /** A function of a fixed list of parameters, no computed exceptions, and a convention of the target. */
  predicate IsCallable(target: Target, f: Type) {
    && f.prototype && !f.variadic && f.result.Some? && f.exceptions in {"none", "noexcept"}
    && f.convention in Conventions(target)
  }

  function Conventions(target: Target): set<string> {
    {"c", "default"}
    + (if target.windows then {"x86_stdcall"} else {})
    + (if target.windows && target.pointerWidth == 64 then {"win64"} else {})
    + (if target.linux && target.architecture == "x86_64" then {"x86_64_sysv"} else {})
  }

  /** A type is spelled exactly if it has a spelling. */
  lemma SpelledExactly(target: Target, models: Models, t: Type, context: string, allowVoid: bool)
    ensures Spelled(target, models, t, context, allowVoid).Some? <==> HasSpelling(target, models, t, allowVoid)
  {
    hide IsRepresentable, Flatten, FsName, IntegerName, IsInlineArray, IsFixedArray;
    InlineArrayExactly(t);
  }

  /** On Windows the conventions of its own are those of StdCall; all others are those of C. */
  lemma ConventionIsNative(target: Target, f: Type)
    ensures CallingConvention(target, f).Some? <==> f.convention in Conventions(target)
    ensures CallingConvention(target, f) == Some("StdCall") <==>
              f.convention in Conventions(target) && (f.convention == "x86_stdcall" || f.convention == "win64")
    ensures CallingConvention(target, f) == Some("Cdecl") <==>
              f.convention in Conventions(target) && (f.convention in {"c", "default", "x86_64_sysv"})
  {
  }

  lemma BuiltInNames()
    ensures MeaningOf("unit") == Some(Nothing) && MeaningOf("nativeint") == Some(Address)
    ensures MeaningOf("float32") == Some(Floating(4)) && MeaningOf("float") == Some(Floating(8))
  {
  }

  /** The representable value type the type points to, through any number of array dimensions. */
  function PointedBy(target: Target, t: Type): Option<string>
    decreases t
  {
    if t.isVolatile then None
    else if IsNativePointer(target, t) then
      if t.pointee.value.kind == RecordType || t.pointee.value.kind == EnumType then Some(t.pointee.value.declaration)
      else None
    else if IsInlineArray(t) then PointedBy(target, t.element.value)
    else None
  }

  // Function tables

  predicate IsIncludable(path: string) {
    && path != ""
    && forall i :: 0 <= i < |path| ==> path[i] != '"' && path[i] != '\\' && path[i] >= ' ' && path[i] != 127 as char
  }

  function Unrooted(expression: string): string {
    if |expression| >= 2 && expression[..2] == "::" then expression[2..] else expression
  }

  /** A named, naturally aligned plain record with two header fields and a known version. */
  predicate IsTable(target: Target, t: Table) {
    && IsQualified(t.alias, "::") && IsQualified(t.table.target.declaration, "::")
    && IsIdentifier(t.versionField) && IsIdentifier(t.sizeField) && t.versionField != t.sizeField
    && 0 <= t.version <= 2147483647 && IsQualified(Unrooted(t.versionExpression), "::")
    && IsIncludable(t.file) && t.table.target.kind == RecordType
    && !t.table.target.isConst && !t.table.target.isVolatile && 8 <= t.table.target.size <= 2147483647
    && t.table.align == target.pointerWidth / 8 && !t.table.hasBases && !t.table.isUnion
    && !t.table.hasVirtualMembers && !t.table.hasNontrivialDestructor
  }

  predicate IsHeader(t: Table, f: Field) {
    f.name == t.versionField || f.name == t.sizeField
  }

  predicate IsHeaderInteger(f: Field) {
    && f.fieldType.kind == SignedType && f.fieldType.size == 4 && !f.fieldType.isConst && !f.fieldType.isVolatile
    && f.offset % 4 == 0 && f.offset <= 4
  }

  predicate IsFunctionPointer(target: Target, f: Field) {
    && f.fieldType.kind == PointerType && !f.fieldType.isConst && !f.fieldType.isVolatile && f.fieldType.pointee.Some?
    && f.fieldType.pointee.value.kind == FunctionType && f.fieldType.size == target.pointerWidth / 8
    && target.pointerWidth >= 8 && f.offset % (target.pointerWidth / 8) == 0 && f.offset >= 8
  }

  /** The fields of the table from number `k` on that are not its header. */
  function Payload(t: Table, k: nat): seq<Field>
    requires k <= |t.table.fields|
    decreases |t.table.fields| - k
  {
    if k == |t.table.fields| then []
    else if IsHeader(t, t.table.fields[k]) then Payload(t, k + 1)
    else [t.table.fields[k]] + Payload(t, k + 1)
  }

  function DelegateName(t: Table, f: Field): string {
    t.managedName + "_" + f.name + "_Delegate"
  }

  // Which value types are declared

  /** The type is that of a field, or underlies the enum. */
  predicate HasPart(value: Value, t: Type) {
    if value.target.kind == EnumType then value.underlying == t
    else exists i :: 0 <= i < |value.fields| && value.fields[i].fieldType == t
  }

  /** The type needs the value type to be declared: it holds it, or points to it, and it can be declared. */
  predicate Uses(target: Target, models: Models, t: Type, name: string) {
    && (Held(t) == Some(name) || PointedBy(target, t) == Some(name))
    && IsRepresentable(models, target.pointerWidth, name, {})
  }

  /** The result or a parameter of a function of the table. */
  predicate InSignature(t: Table, part: Type) {
    exists k :: 0 <= k < |t.table.fields| && !IsHeader(t, t.table.fields[k]) && IsSignaturePart(t.table.fields[k], part)
  }

  predicate IsSignaturePart(f: Field, part: Type) {
    && f.fieldType.pointee.Some?
    && (f.fieldType.pointee.value.result == Some(part) || part in f.fieldType.pointee.value.parameters)
  }

  /** Value types with everything they use. */
  ghost predicate IsClosed(target: Target, models: Models, names: set<string>) {
    forall outer, part, inner ::
      outer in names && outer in models && HasPart(models[outer], part) && Uses(target, models, part, inner) ==>
        inner in names
  }

  ghost predicate HasRoots(target: Target, models: Models, tables: seq<Table>, names: set<string>) {
    forall t, part, name :: t in tables && InSignature(t, part) && Uses(target, models, part, name) ==> name in names
  }

  /** The least closed set with the value types that the signatures use. */
  ghost function Declared(target: Target, models: Models, tables: seq<Table>): set<string> {
    set n | n in models.Keys
          && forall names: set<string> ::
               IsClosed(target, models, names) && HasRoots(target, models, tables, names) ==> n in names
  }

  lemma DeclaredIsClosed(target: Target, models: Models, tables: seq<Table>)
    ensures IsClosed(target, models, Declared(target, models, tables))
    ensures HasRoots(target, models, tables, Declared(target, models, tables))
  {
    hide HasPart, IsSignaturePart;
    var declared := Declared(target, models, tables);
    forall outer, part, inner |
      outer in declared && outer in models && HasPart(models[outer], part) && Uses(target, models, part, inner)
      ensures inner in declared
    {
    }
    forall t, part, name | t in tables && InSignature(t, part) && Uses(target, models, part, name)
      ensures name in declared
    {
    }
  }

  // What is lowered without an error

  predicate Lowers(target: Target, models: Models, t: Type, allowVoid: bool)
    decreases t
  {
    && Spelled(target, models, t, "", allowVoid).Some?
    && (IsInlineArray(t) ==> Lowers(target, models, t.element.value, false))
  }

  predicate CasesFit(cases: seq<Case>) {
    && (forall i :: 0 <= i < |cases| ==> IsIdentifier(cases[i].name))
    && (forall i, j :: 0 <= i < j < |cases| ==> cases[i].name != cases[j].name)
  }

  predicate ValueLowers(target: Target, models: Models, name: string) {
    && name in models
    && var value := models[name];
       if value.target.kind == EnumType then Lowers(target, models, value.underlying, false) && CasesFit(value.cases)
       else RecordLowers(target, models, value.fields, |value.fields|)
  }

  predicate RecordLowers(target: Target, models: Models, fields: seq<Field>, count: nat)
    requires count <= |fields|
  {
    forall i :: 0 <= i < count ==> Lowers(target, models, fields[i].fieldType, false)
  }

  /** Arrays are passed by their address, and a few names are taken by the generated binding. */
  predicate FunctionLowers(target: Target, models: Models, f: Field) {
    && IsFunctionPointer(target, f) && HasKnownPrototype(f.fieldType.pointee.value)
    && f.name != "Bind" && f.name != "Address" && f.name != "AvailableBytes"
    && SignatureLowers(target, models, f.fieldType.pointee.value)
  }

  predicate SignatureLowers(target: Target, models: Models, function_: Type)
    requires function_.result.Some?
  {
    && CallingConvention(target, function_).Some?
    && Lowers(target, models, function_.result.value, true)
    && ParametersLower(target, models, function_.parameters, |function_.parameters|)
  }

  predicate ParametersLower(target: Target, models: Models, parameters: seq<Type>, count: nat)
    requires count <= |parameters|
  {
    forall i :: 0 <= i < count ==> parameters[i].kind != ArrayType && Lowers(target, models, parameters[i], false)
  }

  /** A public, named field of its own name, behind the fields before it and inside the record. */
  predicate IsInPlace(t: Table, k: nat)
    requires k < |t.table.fields|
  {
    var f := t.table.fields[k];
    && f.isPublic && !f.isBitfield && IsIdentifier(f.name) && f.fieldType.size > 0
    && (forall j :: 0 <= j < k ==> t.table.fields[j].name != f.name)
    && EndBefore(t, k) <= f.offset <= t.table.target.size - f.fieldType.size
  }

  function EndBefore(t: Table, k: nat): int
    requires k <= |t.table.fields|
  {
    if k == 0 then 0 else t.table.fields[k - 1].offset + t.table.fields[k - 1].fieldType.size
  }

  predicate FieldLowers(target: Target, models: Models, t: Table, f: Field) {
    if IsHeader(t, f) then IsHeaderInteger(f) else FunctionLowers(target, models, f)
  }

  predicate FieldsLower(target: Target, models: Models, t: Table, count: nat)
    requires count <= |t.table.fields|
  {
    forall k :: 0 <= k < count ==> IsInPlace(t, k) && FieldLowers(target, models, t, t.table.fields[k])
  }

  /** The offset of the field of that name among the first ones, or -1. */
  predicate IsOffsetOf(t: Table, name: string, count: nat, offset: int)
    requires count <= |t.table.fields|
  {
    if HasField(t, name, count) then
      exists k :: 0 <= k < count && t.table.fields[k].name == name && t.table.fields[k].offset == offset
    else offset == -1
  }

  predicate HasField(t: Table, name: string, count: nat)
    requires count <= |t.table.fields|
  {
    exists k :: 0 <= k < count && t.table.fields[k].name == name
  }

  predicate TableLowers(target: Target, models: Models, t: Table) {
    && IsTable(target, t) && FieldsLower(target, models, t, |t.table.fields|)
    && HasField(t, t.versionField, |t.table.fields|) && HasField(t, t.sizeField, |t.table.fields|)
    && Payload(t, 0) != []
  }

  lemma {:induction false} EndsGrow(t: Table, i: nat, k: nat)
    requires i < k <= |t.table.fields| && forall x :: 0 <= x < k ==> IsInPlace(t, x)
    ensures 0 <= t.table.fields[i].offset
    ensures t.table.fields[i].offset + t.table.fields[i].fieldType.size <= EndBefore(t, k)
    decreases k
  {
    assert IsInPlace(t, k - 1) && IsInPlace(t, 0);
    if k > 1 {
      EndsGrow(t, if i == k - 1 then 0 else i, k - 1);
    }
  }

  /** The fields of a table are in order, apart, and inside the record. */
  lemma FieldsAreApart(target: Target, models: Models, t: Table, i: nat, j: nat)
    requires i < j < |t.table.fields| && FieldsLower(target, models, t, |t.table.fields|)
    ensures var f, g := t.table.fields[i], t.table.fields[j];
            && 0 <= f.offset && f.offset + f.fieldType.size <= g.offset
            && g.offset + g.fieldType.size <= t.table.target.size
  {
    hide FieldLowers;
    EndsGrow(t, i, j);
    assert IsInPlace(t, j);
  }

  /** The header fields are two fields. */
  lemma HeadersDiffer(target: Target, models: Models, t: Table, versionOffset: int, sizeOffset: int)
    requires FieldsLower(target, models, t, |t.table.fields|) && t.versionField != t.sizeField
    requires IsOffsetOf(t, t.versionField, |t.table.fields|, versionOffset)
    requires IsOffsetOf(t, t.sizeField, |t.table.fields|, sizeOffset)
    ensures HasField(t, t.versionField, |t.table.fields|) <==> versionOffset >= 0
    ensures HasField(t, t.sizeField, |t.table.fields|) <==> sizeOffset >= 0
    ensures versionOffset == sizeOffset ==> versionOffset == -1
    ensures versionOffset <= 4 && sizeOffset <= 4
  {
    hide FunctionLowers;
    forall i | 0 <= i < |t.table.fields|
      ensures 0 <= t.table.fields[i].offset
    {
      EndsGrow(t, i, |t.table.fields|);
    }
    forall i, j | 0 <= i < j < |t.table.fields|
      ensures t.table.fields[i].offset < t.table.fields[j].offset
    {
      assert IsInPlace(t, i);
      FieldsAreApart(target, models, t, i, j);
    }
  }

  lemma NoOffsets(t: Table)
    ensures IsOffsetOf(t, t.versionField, 0, -1) && IsOffsetOf(t, t.sizeField, 0, -1)
  {
  }

  lemma OffsetStep(t: Table, name: string, k: nat, before: int, after: int)
    requires k < |t.table.fields| && IsOffsetOf(t, name, k, before)
    requires after == if t.table.fields[k].name == name then t.table.fields[k].offset else before
    ensures IsOffsetOf(t, name, k + 1, after)
  {
  }

  function NamesBefore(t: Table, k: nat): set<string>
    requires k <= |t.table.fields|
  {
    set j | 0 <= j < k :: t.table.fields[j].name
  }

  // The names that are taken

  const HELPERS: set<string> := {"RootedCallback", "AbiFingerprint", "validateLayouts", "validateTarget"}

  /** The inline arrays in a type. */
  function ArrayNames(t: Type, context: string): multiset<string>
    decreases t
  {
    if IsInlineArray(t) then multiset{context + "_Array"} + ArrayNames(t.element.value, context + "_Array" + "_Element")
    else multiset{}
  }

  function RecordNames(fields: seq<Field>, count: nat, context: string): multiset<string>
    requires count <= |fields|
  {
    if count == 0 then multiset{}
    else
      RecordNames(fields, count - 1, context)
      + ArrayNames(fields[count - 1].fieldType, context + "_" + fields[count - 1].name)
  }

  /** The arrays in a value type. */
  function PartNames(name: string, value: Value): multiset<string> {
    if value.target.kind == EnumType then ArrayNames(value.underlying, Flatten(name))
    else RecordNames(value.fields, |value.fields|, Flatten(name))
  }

  function ValueNames(models: Models, name: string): multiset<string> {
    if name in models then multiset{Flatten(name)} + PartNames(name, models[name]) else multiset{}
  }

  function AllValueNames(models: Models, declared: seq<string>): multiset<string> {
    if declared == [] then multiset{}
    else AllValueNames(models, declared[..|declared| - 1]) + ValueNames(models, declared[|declared| - 1])
  }

  function CallbackName(t: Table, f: Field): string {
    "root_" + t.managedName + "_" + f.name + "_callback"
  }

  function FieldNames(t: Table, f: Field): multiset<string> {
    if IsHeader(t, f) || f.fieldType.pointee.None? || f.fieldType.pointee.value.result.None? then multiset{}
    else
      multiset{DelegateName(t, f)} + multiset{CallbackName(t, f)}
      + ArrayNames(f.fieldType.pointee.value.result.value, DelegateName(t, f) + "_Result")
  }

  function FieldsNames(t: Table, count: nat): multiset<string>
    requires count <= |t.table.fields|
  {
    if count == 0 then multiset{} else FieldsNames(t, count - 1) + FieldNames(t, t.table.fields[count - 1])
  }

  function TableNames(t: Table): multiset<string> {
    multiset{t.managedName} + multiset{t.managedName + "Version"} + multiset{t.managedName + "Size"}
    + FieldsNames(t, |t.table.fields|)
  }

  function AllTableNames(tables: seq<Table>): multiset<string> {
    if tables == [] then multiset{} else AllTableNames(tables[..|tables| - 1]) + TableNames(tables[|tables| - 1])
  }

  /** Identifiers, and no two alike. */
  ghost predicate NamesFit(names: multiset<string>) {
    forall x :: x in names ==> IsIdentifier(x) && names[x] == 1
  }

  // Which tables are accepted

  /** The first value of each name. */
  function WithValues(models: Models, values: seq<Value>): Models {
    if values == [] then models
    else
      var earlier, last := WithValues(models, values[..|values| - 1]), values[|values| - 1];
      if last.target.declaration in earlier then earlier else earlier[last.target.declaration := last]
  }

  function ModelsOf(tables: seq<Table>): Models {
    if tables == [] then map[] else WithValues(ModelsOf(tables[..|tables| - 1]), tables[|tables| - 1].values)
  }

  /** All values of one name look the same. */
  predicate ValuesAgree(models: Models, values: seq<Value>) {
    forall i :: 0 <= i < |values| ==>
      values[i].target.declaration in models && Image(models[values[i].target.declaration]) == Image(values[i])
  }

  predicate TablesAgree(models: Models, tables: seq<Table>) {
    forall i :: 0 <= i < |tables| ==> ValuesAgree(models, tables[i].values)
  }

  /** What two layouts of one native type must agree on. */
  function Image(v: Value): (string, Type, int, seq<(string, int, Type)>, Type, seq<Case>) {
    (v.target.declaration, Shown(v.target), v.align,
     seq(|v.fields|, i requires 0 <= i < |v.fields| => (v.fields[i].name, v.fields[i].offset, v.fields[i].fieldType)),
     v.underlying, v.cases)
  }

  /** Of the target only its kind, name and size are compared. */
  function Shown(t: Type): Type {
    Type(t.kind, "", t.declaration, false, false, t.size, 0, None, None, 0, None, [], "", "", false, false)
  }

  datatype Options = Options(moduleName: string, namespace_: string)

  predicate IsSupported(target: Target) {
    && (target.windows || target.linux)
    && (target.architecture == "x86_64" || target.architecture == "amd64")
    && target.pointerWidth == 64 && target.named
  }

  lemma {:induction false} WithValuesKeeps(models: Models, values: seq<Value>)
    ensures forall n :: n in models ==> n in WithValues(models, values) && WithValues(models, values)[n] == models[n]
    ensures forall i :: 0 <= i < |values| ==> values[i].target.declaration in WithValues(models, values)
  {
    if values != [] {
      WithValuesKeeps(models, values[..|values| - 1]);
    }
  }

  lemma {:induction false} ModelsOfHas(tables: seq<Table>)
    ensures forall i, j :: 0 <= i < |tables| && 0 <= j < |tables[i].values| ==>
              tables[i].values[j].target.declaration in ModelsOf(tables)
  {
    if tables != [] {
      ModelsOfHas(tables[..|tables| - 1]);
      WithValuesKeeps(ModelsOf(tables[..|tables| - 1]), tables[|tables| - 1].values);
    }
  }

  lemma NoValues(models: Models)
    ensures WithValues(models, []) == models && ValuesAgree(models, [])
  {
  }

  /** One more value, which may be the first of its name. */
  lemma AgreementGrows(before: Models, models: Models, values: seq<Value>, k: nat)
    requires k < |values| && values[k].target.declaration in models
    requires forall n :: n in before ==> n in models && models[n] == before[n]
    requires forall i :: 0 <= i < k ==> values[..k][i].target.declaration in before
    ensures ValuesAgree(models, values[..k + 1]) <==>
              ValuesAgree(before, values[..k]) && Image(models[values[k].target.declaration]) == Image(values[k])
  {
    hide Image;
    var front, more := values[..k], values[..k + 1];
    assert forall i :: 0 <= i < k ==> front[i] == values[i] && more[i] == values[i];
    assert more[k] == values[k];
    if ValuesAgree(models, more) {
      forall i | 0 <= i < |front|
        ensures front[i].target.declaration in before
                && Image(before[front[i].target.declaration]) == Image(front[i])
      {
        assert more[i] == front[i];
      }
    }
  }

  lemma TablesAgreeMore(tables: seq<Table>, i: nat)
    requires i < |tables|
    ensures tables[..i + 1][..i] == tables[..i]
    ensures TablesAgree(ModelsOf(tables[..i + 1]), tables[..i + 1]) <==>
              && TablesAgree(ModelsOf(tables[..i]), tables[..i])
              && ValuesAgree(ModelsOf(tables[..i + 1]), tables[i].values)
  {
    hide Image;
    var front, more := tables[..i], tables[..i + 1];
    assert more[..i] == front && more[i] == tables[i];
    var before, models := ModelsOf(front), ModelsOf(more);
    WithValuesKeeps(before, tables[i].values);
    ModelsOfHas(front);
    forall j | 0 <= j < i
      ensures ValuesAgree(before, front[j].values) <==> ValuesAgree(models, more[j].values)
    {
      assert more[j] == front[j];
    }
  }

  lemma AllLowerMore(target: Target, models: Models, tables: seq<Table>, k: nat)
    requires k < |tables|
    ensures AllLower(target, models, tables[..k + 1]) <==>
              AllLower(target, models, tables[..k]) && TableLowers(target, models, tables[k])
    ensures AllTableNames(tables[..k + 1]) == AllTableNames(tables[..k]) + TableNames(tables[k])
  {
    hide TableLowers, TableNames;
    var front, more := tables[..k], tables[..k + 1];
    assert more[..k] == front && more[k] == tables[k];
    assert forall j :: 0 <= j < k ==> front[j] == tables[j] && more[j] == tables[j];
  }

  predicate HeadFits(target: Target, options: Options, tables: seq<Table>) {
    && IsIdentifier(options.moduleName) && IsQualified(options.namespace_, ".")
    && (tables != [] ==> IsSupported(target))
  }

  predicate AllLower(target: Target, models: Models, tables: seq<Table>) {
    forall i :: 0 <= i < |tables| ==> TableLowers(target, models, tables[i])
  }

  predicate ValuesLower(target: Target, models: Models, names: set<string>) {
    forall n :: n in names ==> ValueLowers(target, models, n)
  }

  /** Each of the names once. */
  ghost predicate Lists(declared: seq<string>, names: set<string>) {
    Distinct(declared) && forall n :: n in declared <==> n in names
  }

  /** Nothing is wrong with the tables, the values their signatures lead to, and the names all of them take. */
  ghost predicate IsLowered(target: Target, options: Options, tables: seq<Table>) {
    var models := ModelsOf(tables);
    var names := Declared(target, models, tables);
    && HeadFits(target, options, tables)
    && TablesAgree(models, tables)
    && AllLower(target, models, tables)
    && ValuesLower(target, models, names)
    && exists declared ::
         Lists(declared, names)
         && NamesFit(multiset(HELPERS) + AllTableNames(tables) + AllValueNames(models, declared))
  }

  function ManagedName(t: Table): string {
    t.managedName
  }

  /** Tables are looked at in the order of their names. */
  ghost predicate Accepts(target: Target, options: Options, tables: seq<Table>) {
    exists sorted ::
      multiset(sorted) == multiset(tables) && SortedBy(sorted, ManagedName) && IsLowered(target, options, sorted)
  }
}
