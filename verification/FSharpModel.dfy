/**
 What the F# lowering reads: native types, value layouts and function tables, and which value types can
 be declared in F# at all.
 */
module FSharpModel {
  import opened Bytes
  import opened Names

  datatype TypeKind =
    | VoidType
    | PointerType
    | FunctionType
    | RecordType
    | EnumType
    | ArrayType
    | SignedType
    | UnsignedType
    | CharacterType
    | FloatingType
    | OtherType

  datatype Type = Type(
    kind: TypeKind,
    canonical: string,
    declaration: string,
    isConst: bool,
    isVolatile: bool,
    size: int,
    align: int,
    pointee: Option<Type>,
    element: Option<Type>,
    length: int,
    result: Option<Type>,
    parameters: seq<Type>,
    convention: string,
    exceptions: string,
    variadic: bool,
    prototype: bool)

  datatype Field = Field(name: string, fieldType: Type, offset: int, isPublic: bool, isBitfield: bool)

  datatype Case = Case(name: string, value: string)

  datatype Value = Value(
    target: Type,
    align: int,
    hasBases: bool,
    isUnion: bool,
    hasVirtualMembers: bool,
    hasNontrivialDestructor: bool,
    fields: seq<Field>,
    underlying: Type,
    cases: seq<Case>)

  datatype Table = Table(
    alias: string,
    managedName: string,
    versionField: string,
    sizeField: string,
    versionExpression: string,
    version: int,
    table: Value,
    values: seq<Value>,
    file: string)

  type Models = map<string, Value>

  // Names

  /** A name in double backticks, as F# spells any identifier. */
  function FsName(name: string): string {
    "``" + name + "``"
  }

  lemma FsNameIsInjective(a: string, b: string)
    ensures FsName(a) == FsName(b) <==> a == b
  {
    if FsName(a) == FsName(b) {
      assert a == FsName(a)[2..|FsName(a)| - 2];
      assert b == FsName(b)[2..|FsName(b)| - 2];
    }
  }

  // What can be declared

  predicate HasIntegerSize(t: Type) {
    t.size == 1 || t.size == 2 || t.size == 4 || t.size == 8
  }

  predicate IsWideCharacter(t: Type) {
    t.kind == CharacterType && (t.canonical == "char16_t" || t.canonical == "char32_t")
  }

  predicate IsFloat(t: Type) {
    t.kind == FloatingType && ((t.canonical == "float" && t.size == 4) || (t.canonical == "double" && t.size == 8))
  }

  const MAX_NESTING := 64

  function Left(seen: set<string>): nat {
    if |seen| <= MAX_NESTING then MAX_NESTING + 1 - |seen| else 0
  }

  /** `seen` are the value types around this one. */
  predicate IsSimple(models: Models, width: int, t: Type, seen: set<string>)
    decreases Left(seen), 1, t
  {
    if t.isVolatile || t.size <= 0 || t.align <= 0 || t.align > 8 then false
    else if t.kind == PointerType then t.pointee.Some? && t.size == width / 8
    else if t.kind == RecordType || t.kind == EnumType then IsRepresentable(models, width, t.declaration, seen)
    else if t.kind == ArrayType then
      0 < t.length <= 16384 && t.element.Some? && IsSimple(models, width, t.element.value, seen)
    else if t.kind == SignedType || t.kind == UnsignedType then HasIntegerSize(t)
    else if t.kind == CharacterType then IsWideCharacter(t)
    else IsFloat(t)
  }

  predicate IsRepresentable(models: Models, width: int, name: string, seen: set<string>)
    decreases Left(seen), 0
  {
    if name !in models || name in seen || |seen + {name}| > MAX_NESTING || !IsQualified(name, "::") then false
    else
      var value := models[name];
      && 0 < value.target.size <= 2147483647
      && 0 < value.align <= 8
      && !value.isUnion && !value.hasBases && !value.hasVirtualMembers && !value.hasNontrivialDestructor
      && if value.target.kind == EnumType then IsSimple(models, width, value.underlying, seen + {name})
         else value.fields != [] && FieldsFit(models, width, value, 0, 0, 1, seen + {name})
  }

  /** The fields from number `k` on: public, named, in order, aligned, inside the value; the largest alignment is its own. */
  predicate FieldsFit(models: Models, width: int, value: Value, k: nat, end: int, alignment: int, seen: set<string>)
    requires k <= |value.fields| && alignment > 0
    decreases Left(seen), 2, |value.fields| - k
  {
    if k == |value.fields| then alignment == value.align && value.target.size % alignment == 0
    else
      var f := value.fields[k];
      && f.isPublic && !f.isBitfield && IsIdentifier(f.name) && f.offset >= end
      && IsSimple(models, width, f.fieldType, seen)
      && f.offset % f.fieldType.align == 0
      && f.offset <= value.target.size - f.fieldType.size
      && FieldsFit(models, width, value, k + 1, f.offset + f.fieldType.size,
                   if alignment < f.fieldType.align then f.fieldType.align else alignment, seen)
  }

  // What representability gives

  /** Every field of a value that fits is simple itself, with the value added to those around it. */
  lemma {:induction false} FieldIsSimple(models: Models, width: int, value: Value, k: nat, end: int, alignment: int,
                                         seen: set<string>, i: nat)
    requires k <= i < |value.fields| && alignment > 0
    requires FieldsFit(models, width, value, k, end, alignment, seen)
    ensures IsSimple(models, width, value.fields[i].fieldType, seen)
    decreases i - k
  {
    if k < i {
      var f := value.fields[k];
      FieldIsSimple(models, width, value, k + 1, f.offset + f.fieldType.size,
                    if alignment < f.fieldType.align then f.fieldType.align else alignment, seen, i);
    }
  }

  lemma {:induction false} FieldFollows(models: Models, width: int, value: Value, k: nat, end: int, alignment: int,
                                        seen: set<string>, i: nat)
    requires k <= i < |value.fields| && alignment > 0
    requires FieldsFit(models, width, value, k, end, alignment, seen)
    ensures var f := value.fields[i];
            && end <= f.offset && f.offset + f.fieldType.size <= value.target.size
            && f.fieldType.size > 0 && 0 < f.fieldType.align && f.offset % f.fieldType.align == 0
    ensures value.fields[i].fieldType.align <= value.align && alignment <= value.align
    decreases |value.fields| - k
  {
    var f := value.fields[k];
    var next := if alignment < f.fieldType.align then f.fieldType.align else alignment;
    if k + 1 < |value.fields| {
      FieldFollows(models, width, value, k + 1, f.offset + f.fieldType.size, next, seen, if k < i then i else k + 1);
    }
  }

  /** The fields of a representable record are aligned, inside it, and do not overlap. */
  lemma RepresentableLayout(models: Models, width: int, name: string, seen: set<string>, i: nat, j: nat)
    requires IsRepresentable(models, width, name, seen) && models[name].target.kind != EnumType
    requires i < j < |models[name].fields|
    ensures var v := models[name];
            && 0 <= v.fields[i].offset
            && v.fields[i].offset + v.fields[i].fieldType.size <= v.fields[j].offset
            && v.fields[j].offset + v.fields[j].fieldType.size <= v.target.size
            && v.fields[i].fieldType.align > 0 && v.fields[j].fieldType.align > 0
            && v.fields[i].offset % v.fields[i].fieldType.align == 0
            && v.fields[j].offset % v.fields[j].fieldType.align == 0
  {
    var v := models[name];
    FieldFollows(models, width, v, 0, 0, 1, seen + {name}, i);
    FieldFollows(models, width, v, 0, 0, 1, seen + {name}, j);
    FieldsInOrder(models, width, v, 0, 0, 1, seen + {name}, i, j);
  }

  lemma {:induction false} FieldsInOrder(models: Models, width: int, value: Value, k: nat, end: int, alignment: int,
                                         seen: set<string>, i: nat, j: nat)
    requires k <= i < j < |value.fields| && alignment > 0
    requires FieldsFit(models, width, value, k, end, alignment, seen)
    ensures value.fields[i].offset + value.fields[i].fieldType.size <= value.fields[j].offset
    decreases i - k
  {
    var f := value.fields[k];
    var next := if alignment < f.fieldType.align then f.fieldType.align else alignment;
    if k < i {
      FieldsInOrder(models, width, value, k + 1, f.offset + f.fieldType.size, next, seen, i, j);
    } else {
      FieldFollows(models, width, value, k + 1, f.offset + f.fieldType.size, next, seen, j);
    }
  }

  /** The value type that the type holds by value, through any number of array dimensions. */
  function Held(t: Type): Option<string>
    decreases t
  {
    if t.kind == RecordType || t.kind == EnumType then Some(t.declaration)
    else if t.kind == ArrayType && t.element.Some? then Held(t.element.value)
    else None
  }

  predicate Holds(models: Models, outer: string, inner: string) {
    && outer in models
    && if models[outer].target.kind == EnumType then Held(models[outer].underlying) == Some(inner)
       else exists i :: 0 <= i < |models[outer].fields| && Held(models[outer].fields[i].fieldType) == Some(inner)
  }

  lemma {:induction false} HeldIsRepresentable(models: Models, width: int, t: Type, seen: set<string>)
    requires IsSimple(models, width, t, seen) && Held(t).Some?
    ensures IsRepresentable(models, width, Held(t).value, seen)
    decreases t
  {
    if t.kind == ArrayType {
      HeldIsRepresentable(models, width, t.element.value, seen);
    }
  }

  lemma HoldsIsRepresentable(models: Models, width: int, outer: string, inner: string, seen: set<string>)
    requires IsRepresentable(models, width, outer, seen) && Holds(models, outer, inner)
    ensures IsRepresentable(models, width, inner, seen + {outer})
  {
    var v := models[outer];
    if v.target.kind == EnumType {
      HeldIsRepresentable(models, width, v.underlying, seen + {outer});
    } else {
      var i :| 0 <= i < |v.fields| && Held(v.fields[i].fieldType) == Some(inner);
      FieldIsSimple(models, width, v, 0, 0, 1, seen + {outer}, i);
      HeldIsRepresentable(models, width, v.fields[i].fieldType, seen + {outer});
    }
  }

  predicate IsPath(models: Models, path: seq<string>) {
    forall i :: 0 <= i < |path| - 1 ==> Holds(models, path[i], path[i + 1])
  }

  /** By value, a representable type holds nothing of itself, and nothing more than 64 levels deep. */
  lemma {:induction false} RepresentableIsAcyclic(models: Models, width: int, path: seq<string>, seen: set<string>)
    requires path != [] && IsPath(models, path) && IsRepresentable(models, width, path[0], seen)
    ensures |seen| + |path| <= MAX_NESTING
    ensures forall i :: 0 <= i < |path| ==> path[i] !in seen
    ensures forall i, j :: 0 <= i < j < |path| ==> path[i] != path[j]
    decreases |path|
  {
    if |path| > 1 {
      assert Holds(models, path[0], path[0 + 1]);
      HoldsIsRepresentable(models, width, path[0], path[1], seen);
      var rest := path[1..];
      assert forall i :: 0 <= i < |rest| - 1 ==> Holds(models, rest[i], path[(i + 1) + 1]);
      RepresentableIsAcyclic(models, width, rest, seen + {path[0]});
      assert forall i :: 0 < i < |path| ==> path[i] == rest[i - 1];
    }
  }
}
