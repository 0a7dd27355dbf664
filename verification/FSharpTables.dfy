/**
 What a table that is accepted looks like on a 64-bit target: two 32-bit header fields in the first eight bytes,
 and pointers to functions in the eight-byte slots behind them.
 */
module FSharpTables {
  import opened Bytes
  import opened Names
  import opened FSharpModel
  import opened FSharpAcceptance

  // Types

  /** A type with a spelling, and if it is an array, with elements that have one. */
  predicate IsPassable(target: Target, models: Models, t: Type, allowVoid: bool)
    decreases t
  {
    && HasSpelling(target, models, t, allowVoid)
    && (t.kind == ArrayType ==> t.element.Some? && IsPassable(target, models, t.element.value, false))
  }

  lemma {:induction false} LowersExactly(target: Target, models: Models, t: Type, allowVoid: bool)
    ensures Lowers(target, models, t, allowVoid) <==> IsPassable(target, models, t, allowVoid)
    decreases t
  {
    hide Spelled, HasSpelling, IsInlineArray;
    SpelledExactly(target, models, t, "", allowVoid);
    SpelledArray(target, models, t, allowVoid);
    if t.kind == ArrayType && t.element.Some? {
      LowersExactly(target, models, t.element.value, false);
    }
  }

  lemma SpelledArray(target: Target, models: Models, t: Type, allowVoid: bool)
    ensures IsInlineArray(t) ==> t.kind == ArrayType && t.element.Some?
    ensures HasSpelling(target, models, t, allowVoid) && t.kind == ArrayType ==> IsInlineArray(t)
  {
    hide IsInlineArray, IsFixedArray, IsRepresentable;
    InlineArrayExactly(t);
    InlineIsArray(t);
  }

  lemma InlineIsArray(t: Type)
    ensures IsInlineArray(t) ==> t.kind == ArrayType && t.element.Some?
  {
  }

  // Tables

  function EndOf(f: Field): int {
    f.offset + f.fieldType.size
  }

  predicate IsOwnInteger(f: Field) {
    f.fieldType.kind == SignedType && f.fieldType.size == 4 && !f.fieldType.isConst && !f.fieldType.isVolatile
  }

  /** Two different fields are the version and the size, in the first eight bytes. */
  predicate HasHeader(t: Table) {
    exists i, j :: 0 <= i < |t.table.fields| && 0 <= j < |t.table.fields| && i != j && IsHeaderPair(t, i, j)
  }

  predicate IsHeaderPair(t: Table, i: nat, j: nat)
    requires i < |t.table.fields| && j < |t.table.fields|
  {
    var v, s := t.table.fields[i], t.table.fields[j];
    && v.name == t.versionField && s.name == t.sizeField && IsOwnInteger(v) && IsOwnInteger(s)
    && {v.offset, s.offset} == {0, 4}
  }

  /** A slot behind the header with the address of a function whose parts can be passed. */
  predicate IsSlot(target: Target, models: Models, f: Field) {
    var p := f.fieldType;
    && p.kind == PointerType && p.size == 8 && !p.isConst && !p.isVolatile && f.offset % 8 == 0 && f.offset >= 8
    && p.pointee.Some? && p.pointee.value.kind == FunctionType && IsCallable(target, p.pointee.value)
    && IsPassable(target, models, p.pointee.value.result.value, true)
    && (forall i :: 0 <= i < |p.pointee.value.parameters| ==>
          && p.pointee.value.parameters[i].kind != ArrayType
          && IsPassable(target, models, p.pointee.value.parameters[i], false))
    && f.name !in {"Bind", "Address", "AvailableBytes"}
  }

  predicate IsPlainRecord(v: Value) {
    && v.target.kind == RecordType && !v.target.isConst && !v.target.isVolatile && 8 <= v.target.size < 0x8000_0000
    && v.align == 8 && !v.hasBases && !v.isUnion && !v.hasVirtualMembers && !v.hasNontrivialDestructor
  }

  predicate IsNamed(t: Table) {
    && IsQualified(t.alias, "::") && IsQualified(t.table.target.declaration, "::") && 0 <= t.version < 0x8000_0000
    && IsIdentifier(t.versionField) && IsIdentifier(t.sizeField) && t.versionField != t.sizeField
    && (|| (StartsWith(t.versionExpression, "::") && IsQualified(t.versionExpression[2..], "::"))
        || (!StartsWith(t.versionExpression, "::") && IsQualified(t.versionExpression, "::")))
    && t.file != "" && forall c :: c in t.file ==> ' ' <= c && c !in {'"', '\\', 127 as char}
  }

  /** Public, named fields, each behind the one before it and inside the record. */
  predicate AreInPlace(v: Value) {
    && (forall i :: 0 <= i < |v.fields| ==>
          && v.fields[i].isPublic && !v.fields[i].isBitfield && IsIdentifier(v.fields[i].name)
          && v.fields[i].fieldType.size > 0 && 0 <= v.fields[i].offset && EndOf(v.fields[i]) <= v.target.size)
    && (forall i, j :: 0 <= i < j < |v.fields| ==>
          v.fields[i].name != v.fields[j].name && EndOf(v.fields[i]) <= v.fields[j].offset)
  }

  predicate IsOther(t: Table, f: Field) {
    f.name != t.versionField && f.name != t.sizeField
  }

  predicate IsBindable(target: Target, models: Models, t: Table) {
    && IsNamed(t) && IsPlainRecord(t.table) && AreInPlace(t.table) && HasHeader(t)
    && (forall f :: f in t.table.fields && IsOther(t, f) ==> IsSlot(target, models, f))
    && exists f :: f in t.table.fields && IsOther(t, f)
  }

  lemma PlaceExactly(t: Table)
    ensures (forall k :: 0 <= k < |t.table.fields| ==> IsInPlace(t, k)) <==> AreInPlace(t.table)
  {
    hide IsIdentifier;
    if forall k :: 0 <= k < |t.table.fields| ==> IsInPlace(t, k) {
      InPlaceIsOrdered(t);
    }
    if AreInPlace(t.table) {
      forall k | 0 <= k < |t.table.fields|
        ensures IsInPlace(t, k)
      {
        OrderedIsInPlace(t, k);
      }
    }
  }

  lemma InPlaceIsOrdered(t: Table)
    requires forall k :: 0 <= k < |t.table.fields| ==> IsInPlace(t, k)
    ensures AreInPlace(t.table)
  {
    hide IsIdentifier;
    forall i, j | 0 <= i < j < |t.table.fields|
      ensures t.table.fields[i].name != t.table.fields[j].name && EndOf(t.table.fields[i]) <= t.table.fields[j].offset
    {
      assert IsInPlace(t, j);
      EndsGrow(t, i, j);
    }
    forall i | 0 <= i < |t.table.fields|
      ensures var f := t.table.fields[i];
              && f.isPublic && !f.isBitfield && IsIdentifier(f.name) && f.fieldType.size > 0
              && 0 <= f.offset && EndOf(f) <= t.table.target.size
    {
      assert IsInPlace(t, i) && IsInPlace(t, 0);
      if i > 0 {
        EndsGrow(t, 0, i);
      }
    }
  }

  lemma OrderedIsInPlace(t: Table, k: nat)
    requires AreInPlace(t.table) && k < |t.table.fields|
    ensures IsInPlace(t, k)
  {
    hide IsIdentifier;
    forall j | 0 <= j < k
      ensures t.table.fields[j].name != t.table.fields[k].name
    {
    }
    if k > 0 {
      var before: nat := k - 1;
      assert EndOf(t.table.fields[before]) <= t.table.fields[k].offset;
    }
  }

  lemma SlotExactly(target: Target, models: Models, f: Field)
    requires target.pointerWidth == 64
    ensures FunctionLowers(target, models, f) <==> IsSlot(target, models, f)
  {
    hide Lowers, IsPassable, Conventions, CallingConvention;
    if f.fieldType.pointee.Some? {
      var function_ := f.fieldType.pointee.value;
      ConventionIsNative(target, function_);
      if function_.result.Some? {
        LowersExactly(target, models, function_.result.value, true);
      }
      forall i | 0 <= i < |function_.parameters|
        ensures Lowers(target, models, function_.parameters[i], false) <==>
                IsPassable(target, models, function_.parameters[i], false)
      {
        LowersExactly(target, models, function_.parameters[i], false);
      }
    }
  }

  lemma IncludableExactly(path: string)
    ensures IsIncludable(path) <==> path != "" && forall c :: c in path ==> ' ' <= c && c !in {'"', '\\', 127 as char}
  {
    if IsIncludable(path) {
      forall c | c in path
        ensures ' ' <= c && c !in {'"', '\\', 127 as char}
      {
        var i :| 0 <= i < |path| && path[i] == c;
      }
    } else {
      assert forall i :: 0 <= i < |path| ==> path[i] in path;
    }
  }

  lemma UnrootedExactly(expression: string)
    ensures IsQualified(Unrooted(expression), "::") <==>
            || (StartsWith(expression, "::") && IsQualified(expression[2..], "::"))
            || (!StartsWith(expression, "::") && IsQualified(expression, "::"))
  {
    hide IsQualified;
  }

  lemma NamedExactly(target: Target, t: Table)
    requires target.pointerWidth == 64
    ensures IsTable(target, t) <==> IsNamed(t) && IsPlainRecord(t.table)
  {
    hide IsQualified, IsIdentifier, IsIncludable, Unrooted, StartsWith;
    IncludableExactly(t.file);
    UnrootedExactly(t.versionExpression);
  }

  lemma {:induction false} PayloadExactly(t: Table, k: nat)
    requires k <= |t.table.fields|
    ensures Payload(t, k) != [] <==> exists i :: k <= i < |t.table.fields| && IsOther(t, t.table.fields[i])
    decreases |t.table.fields| - k
  {
    if k < |t.table.fields| {
      PayloadExactly(t, k + 1);
    }
  }

  lemma HeaderIsFirst(target: Target, models: Models, t: Table)
    requires AreInPlace(t.table) && t.versionField != t.sizeField
    requires forall k :: 0 <= k < |t.table.fields| && IsHeader(t, t.table.fields[k]) ==> IsHeaderInteger(t.table.fields[k])
    requires HasField(t, t.versionField, |t.table.fields|) && HasField(t, t.sizeField, |t.table.fields|)
    ensures HasHeader(t)
  {
    hide IsIdentifier;
    var i :| 0 <= i < |t.table.fields| && t.table.fields[i].name == t.versionField;
    var j :| 0 <= j < |t.table.fields| && t.table.fields[j].name == t.sizeField;
    var v, s := t.table.fields[i], t.table.fields[j];
    assert IsHeader(t, v) && IsHeader(t, s);
    assert v.offset == 0 || v.offset == 4;
    assert s.offset == 0 || s.offset == 4;
    assert if i < j then EndOf(v) <= s.offset else EndOf(s) <= v.offset;
    assert IsHeaderPair(t, i, j);
  }

  lemma HeaderIsThere(t: Table)
    requires AreInPlace(t.table) && HasHeader(t)
    ensures HasField(t, t.versionField, |t.table.fields|) && HasField(t, t.sizeField, |t.table.fields|)
    ensures forall k :: 0 <= k < |t.table.fields| && IsHeader(t, t.table.fields[k]) ==> IsHeaderInteger(t.table.fields[k])
  {
    hide IsIdentifier;
    var i, j :| 0 <= i < |t.table.fields| && 0 <= j < |t.table.fields| && i != j && IsHeaderPair(t, i, j);
    assert t.table.fields[i].offset in {0, 4} && t.table.fields[j].offset in {0, 4};
    forall k | 0 <= k < |t.table.fields| && IsHeader(t, t.table.fields[k])
      ensures IsHeaderInteger(t.table.fields[k])
    {
      assert k == i || k == j;
    }
  }

  /** On a 64-bit target a table is lowered exactly if it has its header first and slots with functions behind it. */
  lemma TableExactly(target: Target, models: Models, t: Table)
    requires target.pointerWidth == 64
    ensures TableLowers(target, models, t) <==> IsBindable(target, models, t)
  {
    hide IsTable, IsNamed, IsPlainRecord, IsInPlace, AreInPlace, FunctionLowers, IsSlot, HasHeader, HasField, IsHeaderInteger;
    NamedExactly(target, t);
    PlaceExactly(t);
    PayloadExactly(t, 0);
    forall f
      ensures FunctionLowers(target, models, f) <==> IsSlot(target, models, f)
    {
      SlotExactly(target, models, f);
    }
    NamesDiffer(t);
    if TableLowers(target, models, t) {
      HeaderIsFirst(target, models, t);
    }
    if IsBindable(target, models, t) {
      HeaderIsThere(t);
    }
  }

  lemma NamesDiffer(t: Table)
    ensures IsNamed(t) ==> t.versionField != t.sizeField
  {
  }

  // The names that a table takes

  /** The table, its two constants, and for each function its delegate, its callback, and the arrays in its result. */
  ghost predicate IsNameOf(t: Table, name: string) {
    || name == t.managedName || name == t.managedName + "Version" || name == t.managedName + "Size"
    || exists f :: f in t.table.fields && IsOther(t, f) && IsNameOfFunction(t, f, name)
  }

  predicate IsNameOfFunction(t: Table, f: Field, name: string) {
    && f.fieldType.pointee.Some? && f.fieldType.pointee.value.result.Some?
    && var delegate := t.managedName + "_" + f.name + "_Delegate";
    || name == delegate || name == "root_" + t.managedName + "_" + f.name + "_callback"
    || name in ArrayNames(f.fieldType.pointee.value.result.value, delegate + "_Result")
  }

  predicate IsNameOfOne(t: Table, k: nat, name: string)
    requires k < |t.table.fields|
  {
    IsOther(t, t.table.fields[k]) && IsNameOfFunction(t, t.table.fields[k], name)
  }

  lemma {:induction false} FieldsNamesAre(t: Table, count: nat, name: string)
    requires count <= |t.table.fields|
    ensures name in FieldsNames(t, count) <==> exists k :: 0 <= k < count && IsNameOfOne(t, k, name)
  {
    hide FieldNames, IsNameOfFunction, IsOther, IsNameOfOne;
    if count > 0 {
      FieldsNamesAre(t, count - 1, name);
      FieldNamesAre(t, count - 1, name);
    }
  }

  lemma FieldNamesAre(t: Table, k: nat, name: string)
    requires k < |t.table.fields|
    ensures name in FieldNames(t, t.table.fields[k]) <==> IsNameOfOne(t, k, name)
  {
    hide ArrayNames;
  }

  /** The names that a table takes are its own, those of its constants, and those of its functions. */
  lemma TableNamesAre(t: Table, name: string)
    ensures name in TableNames(t) <==> IsNameOf(t, name)
  {
    hide FieldsNames, IsNameOfFunction, IsOther;
    FieldsNamesAre(t, |t.table.fields|, name);
    if k :| 0 <= k < |t.table.fields| && IsNameOfOne(t, k, name) {
      assert t.table.fields[k] in t.table.fields;
    }
    if f :| f in t.table.fields && IsOther(t, f) && IsNameOfFunction(t, f, name) {
      var k :| 0 <= k < |t.table.fields| && t.table.fields[k] == f;
      assert IsNameOfOne(t, k, name);
    }
  }

  /** How many dimensions of inline arrays the type has. */
  function Dimensions(t: Type): nat
    decreases t
  {
    if IsInlineArray(t) then 1 + Dimensions(t.element.value) else 0
  }

  /** The array of the outermost dimension is named after its place, and each further one after its element. */
  function ArrayName(context: string, dimension: nat): string {
    if dimension == 0 then context + "_Array" else ArrayName(context, dimension - 1) + "_Element_Array"
  }

  lemma {:induction false} ArrayNameInside(context: string, dimension: nat)
    ensures ArrayName(context + "_Array" + "_Element", dimension) == ArrayName(context, dimension + 1)
  {
    if dimension > 0 {
      ArrayNameInside(context, dimension - 1);
    } else {
      assert "_Element" + "_Array" == "_Element_Array";
      assert context + "_Array" + "_Element" + "_Array" == context + "_Array" + ("_Element" + "_Array");
    }
  }

  lemma {:induction false} ArrayNamesAre(t: Type, context: string, name: string)
    ensures name in ArrayNames(t, context) <==> exists d :: 0 <= d < Dimensions(t) && name == ArrayName(context, d)
    decreases t
  {
    hide ArrayName, IsInlineArray;
    if IsInlineArray(t) {
      ArrayHasElement(t);
      var inside := context + "_Array" + "_Element";
      ArrayNamesAre(t.element.value, inside, name);
      FirstArrayName(context);
      if d :| 0 <= d < Dimensions(t.element.value) && name == ArrayName(inside, d) {
        ArrayNameInside(context, d);
        assert d + 1 < Dimensions(t);
      }
      if d :| 0 <= d < Dimensions(t) && name == ArrayName(context, d) {
        if d > 0 {
          var before := d - 1;
          ArrayNameInside(context, before);
          assert name == ArrayName(inside, before);
        }
      }
      assert 0 < Dimensions(t);
    }
  }

  lemma ArrayHasElement(t: Type)
    requires IsInlineArray(t)
    ensures t.element.Some?
  {
  }

  lemma FirstArrayName(context: string)
    ensures ArrayName(context, 0) == context + "_Array"
  {
  }

  /** A declared value lowers exactly if its parts can be passed, and an enum's cases are identifiers that differ. */
  lemma ValueExactly(target: Target, models: Models, name: string)
    ensures ValueLowers(target, models, name) <==>
            && name in models
            && var v := models[name];
            if v.target.kind == EnumType then
              && IsPassable(target, models, v.underlying, false)
              && (forall c :: c in v.cases ==> IsIdentifier(c.name))
              && forall i, j :: 0 <= i < j < |v.cases| ==> v.cases[i].name != v.cases[j].name
            else forall f :: f in v.fields ==> IsPassable(target, models, f.fieldType, false)
  {
    hide Lowers, IsPassable, IsIdentifier;
    if name in models {
      var v := models[name];
      LowersExactly(target, models, v.underlying, false);
      forall i | 0 <= i < |v.fields|
        ensures v.fields[i] in v.fields
        ensures Lowers(target, models, v.fields[i].fieldType, false) <==>
                IsPassable(target, models, v.fields[i].fieldType, false)
      {
        LowersExactly(target, models, v.fields[i].fieldType, false);
      }
      assert forall i :: 0 <= i < |v.cases| ==> v.cases[i] in v.cases;
    }
  }

  /** Tables are lowered for 64-bit Windows and Linux on x86 only. */
  lemma HeadExactly(target: Target, options: Options, tables: seq<Table>)
    ensures HeadFits(target, options, tables) <==>
            && IsIdentifier(options.moduleName) && IsQualified(options.namespace_, ".")
            && (|tables| > 0 ==>
                  && target.named && (target.linux || target.windows) && target.pointerWidth == 64
                  && target.architecture in {"x86_64", "amd64"})
  {
    hide IsIdentifier, IsQualified;
  }

  /** The arrays of a value type are named after it and its field. */
  lemma PartNamesAre(name: string, v: Value, x: string)
    ensures x in PartNames(name, v) <==>
            if v.target.kind == EnumType then x in ArrayNames(v.underlying, Flatten(name))
            else exists i :: 0 <= i < |v.fields| && IsNameIn(v.fields[i], Flatten(name), x)
  {
    hide ArrayNames, Flatten;
    if v.target.kind != EnumType {
      RecordNamesAre(v.fields, |v.fields|, Flatten(name), x);
    }
  }

  predicate IsNameIn(f: Field, context: string, x: string) {
    x in ArrayNames(f.fieldType, context + "_" + f.name)
  }

  lemma {:induction false} RecordNamesAre(fields: seq<Field>, count: nat, context: string, x: string)
    requires count <= |fields|
    ensures x in RecordNames(fields, count, context) <==> exists i :: 0 <= i < count && IsNameIn(fields[i], context, x)
  {
    hide ArrayNames;
    if count > 0 {
      RecordNamesAre(fields, count - 1, context, x);
      assert x in RecordNames(fields, count, context) <==>
             x in RecordNames(fields, count - 1, context) || IsNameIn(fields[count - 1], context, x);
    }
  }

  // Value types that several tables have

  /** The same layout: of the target kind, name and size count, of the rest everything that is laid out. */
  predicate IsSameLayout(v: Value, w: Value) {
    && v.target.kind == w.target.kind && v.target.declaration == w.target.declaration && v.target.size == w.target.size
    && v.align == w.align && v.underlying == w.underlying && v.cases == w.cases && |v.fields| == |w.fields|
    && forall i :: 0 <= i < |v.fields| ==>
         && v.fields[i].name == w.fields[i].name && v.fields[i].offset == w.fields[i].offset
         && v.fields[i].fieldType == w.fields[i].fieldType
  }

  lemma ImageExactly(v: Value, w: Value)
    ensures Image(v) == Image(w) <==> IsSameLayout(v, w)
  {
    if Image(v) == Image(w) {
      assert Shown(v.target) == Shown(w.target);
      var a, b := Image(v).3, Image(w).3;
      assert |a| == |v.fields| && |b| == |w.fields|;
      forall i | 0 <= i < |v.fields|
        ensures v.fields[i].name == w.fields[i].name && v.fields[i].offset == w.fields[i].offset
        ensures v.fields[i].fieldType == w.fields[i].fieldType
      {
        assert a[i] == b[i];
      }
    }
    if IsSameLayout(v, w) {
      assert Image(v).3 == Image(w).3;
    }
  }
}
