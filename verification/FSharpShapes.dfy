/**
 Which value types can be declared in F#, told from the types alone: every value type on every path of parts has
 the shape of a plain record or enum, and no path repeats a type or is longer than the limit.
 */
module FSharpShapes {
  import opened Bytes
  import opened Names
  import opened FSharpModel

  // One type

  /** A type as it stands in a record; what a record or an enum is made of is left open. */
  predicate IsShaped(width: int, t: Type)
    decreases t
  {
    && !t.isVolatile && t.size > 0 && 1 <= t.align <= 8
    && match t.kind
       case PointerType => t.pointee.Some? && t.size == width / 8
       case ArrayType => 1 <= t.length <= 16384 && t.element.Some? && IsShaped(width, t.element.value)
       case SignedType => t.size in {1, 2, 4, 8}
       case UnsignedType => t.size in {1, 2, 4, 8}
       case CharacterType => t.canonical in {"char16_t", "char32_t"}
       case FloatingType => (t.canonical == "float" && t.size == 4) || (t.canonical == "double" && t.size == 8)
       case RecordType => true
       case EnumType => true
       case _ => false
  }

  function EndOf(f: Field): int {
    f.offset + f.fieldType.size
  }

  /** A field behind the one before it, on its alignment, and inside the record. */
  predicate IsPlaced(width: int, value: Value, i: nat)
    requires i < |value.fields|
  {
    var f := value.fields[i];
    && f.isPublic && !f.isBitfield && IsIdentifier(f.name) && IsShaped(width, f.fieldType)
    && f.offset % f.fieldType.align == 0 && EndOf(f) <= value.target.size
    && (if i == 0 then 0 else EndOf(value.fields[i - 1])) <= f.offset
  }

  /** Nothing is packed and nothing aligned more than its fields ask for. */
  predicate IsNaturallyAligned(value: Value) {
    && (forall f :: f in value.fields ==> f.fieldType.align <= value.align)
    && (value.align == 1 || exists f :: f in value.fields && f.fieldType.align == value.align)
    && value.align > 0 && value.target.size % value.align == 0
  }

  /** A plain record or an enum, apart from what its parts are. */
  predicate IsPlain(models: Models, width: int, name: string) {
    && name in models && IsQualified(name, "::")
    && var value := models[name];
    && 0 < value.target.size <= 2147483647 && 1 <= value.align <= 8
    && !value.isUnion && !value.hasBases && !value.hasVirtualMembers && !value.hasNontrivialDestructor
    && if value.target.kind == EnumType then IsShaped(width, value.underlying)
       else
         && value.fields != [] && IsNaturallyAligned(value)
         && forall i :: 0 <= i < |value.fields| ==> IsPlaced(width, value, i)
  }

  // A type and what it holds

  lemma {:induction false} SimpleExactly(models: Models, width: int, t: Type, seen: set<string>)
    ensures IsSimple(models, width, t, seen) <==>
            IsShaped(width, t) && (Held(t).Some? ==> IsRepresentable(models, width, Held(t).value, seen))
    decreases t
  {
    hide IsRepresentable;
    if t.kind == ArrayType && t.element.Some? {
      SimpleExactly(models, width, t.element.value, seen);
    }
  }

  predicate Follows(models: Models, width: int, value: Value, i: nat, end: int, seen: set<string>)
    requires i < |value.fields|
  {
    var f := value.fields[i];
    && f.isPublic && !f.isBitfield && IsIdentifier(f.name) && IsSimple(models, width, f.fieldType, seen)
    && f.offset % f.fieldType.align == 0 && EndOf(f) <= value.target.size && end <= f.offset
  }

  /** Where the field before ends, from field `k` on. */
  function EndBefore(value: Value, k: nat, end: int, i: nat): int
    requires k <= i < |value.fields|
  {
    if i == k then end else EndOf(value.fields[i - 1])
  }

  predicate AllFollow(models: Models, width: int, value: Value, k: nat, end: int, seen: set<string>)
    requires k <= |value.fields|
  {
    forall i :: k <= i < |value.fields| ==> Follows(models, width, value, i, EndBefore(value, k, end, i), seen)
  }

  lemma FirstFollows(models: Models, width: int, value: Value, k: nat, end: int, seen: set<string>)
    requires k < |value.fields|
    ensures AllFollow(models, width, value, k, end, seen) <==>
            && Follows(models, width, value, k, end, seen)
            && AllFollow(models, width, value, k + 1, EndOf(value.fields[k]), seen)
  {
    hide Follows;
    var second, next := k + 1, EndOf(value.fields[k]);
    if AllFollow(models, width, value, k, end, seen) {
      assert Follows(models, width, value, k, EndBefore(value, k, end, k), seen);
      forall i | second <= i < |value.fields|
        ensures Follows(models, width, value, i, EndBefore(value, second, next, i), seen)
      {
        assert Follows(models, width, value, i, EndBefore(value, k, end, i), seen);
      }
    }
    if Follows(models, width, value, k, end, seen) && AllFollow(models, width, value, k + 1, next, seen) {
      forall i | k <= i < |value.fields|
        ensures Follows(models, width, value, i, EndBefore(value, k, end, i), seen)
      {
        assert i > k ==> Follows(models, width, value, i, EndBefore(value, k + 1, next, i), seen);
      }
    }
  }

  predicate AlignsTo(value: Value, k: nat, alignment: int)
    requires k <= |value.fields|
  {
    && alignment <= value.align && (forall i :: k <= i < |value.fields| ==> value.fields[i].fieldType.align <= value.align)
    && (alignment == value.align || exists i :: k <= i < |value.fields| && value.fields[i].fieldType.align == value.align)
  }

  /** The walk over the fields checks each field against the one before, and the largest alignment at the end. */
  lemma {:induction false} FieldsExactly(models: Models, width: int, value: Value, k: nat, end: int, alignment: int,
                                         seen: set<string>)
    requires k <= |value.fields| && alignment > 0
    ensures FieldsFit(models, width, value, k, end, alignment, seen) <==>
            && AllFollow(models, width, value, k, end, seen)
            && AlignsTo(value, k, alignment) && value.target.size % value.align == 0
    decreases |value.fields| - k
  {
    hide IsSimple, IsIdentifier, AllFollow, AlignsTo, FieldsFit, Follows;
    if k == |value.fields| {
      NoFields(models, width, value, end, alignment, seen);
    } else {
      FieldsStep(models, width, value, k, end, alignment, seen);
      FirstFollows(models, width, value, k, end, seen);
      var f := value.fields[k];
      if Follows(models, width, value, k, end, seen) {
        FollowsIsAligned(models, width, value, k, end, seen);
        var next := if alignment < f.fieldType.align then f.fieldType.align else alignment;
        FieldsExactly(models, width, value, k + 1, EndOf(f), next, seen);
        AlignsStep(value, k, alignment, next);
      }
    }
  }

  lemma NoFields(models: Models, width: int, value: Value, end: int, alignment: int, seen: set<string>)
    requires alignment > 0
    ensures AllFollow(models, width, value, |value.fields|, end, seen)
    ensures FieldsFit(models, width, value, |value.fields|, end, alignment, seen) <==>
            AlignsTo(value, |value.fields|, alignment) && value.target.size % value.align == 0
  {
  }

  lemma FollowsIsAligned(models: Models, width: int, value: Value, k: nat, end: int, seen: set<string>)
    requires k < |value.fields| && Follows(models, width, value, k, end, seen)
    ensures value.fields[k].fieldType.align >= 1
  {
  }

  lemma FieldsStep(models: Models, width: int, value: Value, k: nat, end: int, alignment: int, seen: set<string>)
    requires k < |value.fields| && alignment > 0
    ensures FieldsFit(models, width, value, k, end, alignment, seen) <==>
            && Follows(models, width, value, k, end, seen)
            && var f := value.fields[k];
            && f.fieldType.align > 0
            && FieldsFit(models, width, value, k + 1, EndOf(f),
                         if alignment < f.fieldType.align then f.fieldType.align else alignment, seen)
  {
  }

  lemma AlignsStep(value: Value, k: nat, alignment: int, next: int)
    requires k < |value.fields|
    requires next == if alignment < value.fields[k].fieldType.align then value.fields[k].fieldType.align else alignment
    ensures AlignsTo(value, k, alignment) <==> AlignsTo(value, k + 1, next)
  {
  }

  /** One level: the type is plain, it is not inside itself or too deep, and its parts can be declared. */
  lemma RepresentableStep(models: Models, width: int, name: string, seen: set<string>)
    ensures IsRepresentable(models, width, name, seen) <==>
            && IsPlain(models, width, name) && name !in seen && |seen| < MAX_NESTING
            && forall inner :: Holds(models, name, inner) ==> IsRepresentable(models, width, inner, seen + {name})
  {
    hide IsSimple, FieldsFit, IsQualified, IsShaped, IsRepresentable;
    RepresentableOpened(models, width, name, seen);
    if name in models && name !in seen && |seen| < MAX_NESTING {
      var value := models[name];
      if value.target.kind == EnumType {
        SimpleExactly(models, width, value.underlying, seen + {name});
      } else if value.align >= 1 {
        RecordExactly(models, width, name, seen + {name});
      }
    }
  }

  lemma RepresentableOpened(models: Models, width: int, name: string, seen: set<string>)
    ensures IsRepresentable(models, width, name, seen) <==>
            && name in models && name !in seen && |seen| < MAX_NESTING && IsQualified(name, "::")
            && var value := models[name];
            && 0 < value.target.size <= 2147483647 && 1 <= value.align <= 8
            && !value.isUnion && !value.hasBases && !value.hasVirtualMembers && !value.hasNontrivialDestructor
            && if value.target.kind == EnumType then IsSimple(models, width, value.underlying, seen + {name})
               else value.fields != [] && FieldsFit(models, width, value, 0, 0, 1, seen + {name})
  {
    hide IsSimple, FieldsFit, IsQualified;
    assert name !in seen ==> |seen + {name}| == |seen| + 1;
  }

  lemma RecordExactly(models: Models, width: int, name: string, seen: set<string>)
    requires name in models && models[name].target.kind != EnumType && 1 <= models[name].align
    ensures FieldsFit(models, width, models[name], 0, 0, 1, seen) <==>
            && IsNaturallyAligned(models[name])
            && (forall i :: 0 <= i < |models[name].fields| ==> IsPlaced(width, models[name], i))
            && forall inner :: Holds(models, name, inner) ==> IsRepresentable(models, width, inner, seen)
  {
    hide IsSimple, FieldsFit, IsPlaced, IsRepresentable, Follows, IsNaturallyAligned, AlignsTo;
    var value := models[name];
    FieldsExactly(models, width, value, 0, 0, 1, seen);
    AlignsNaturally(value);
    forall i | 0 <= i < |value.fields|
      ensures Follows(models, width, value, i, EndBefore(value, 0, 0, i), seen) <==>
              IsPlaced(width, value, i) && PartFits(models, width, value, i, seen)
    {
      FieldExactly(models, width, value, i, seen);
    }
    PartsExactly(models, width, name, seen);
  }

  predicate PartFits(models: Models, width: int, value: Value, i: nat, seen: set<string>)
    requires i < |value.fields|
  {
    Held(value.fields[i].fieldType).Some? ==> IsRepresentable(models, width, Held(value.fields[i].fieldType).value, seen)
  }

  lemma FieldExactly(models: Models, width: int, value: Value, i: nat, seen: set<string>)
    requires i < |value.fields|
    ensures Follows(models, width, value, i, EndBefore(value, 0, 0, i), seen) <==>
            IsPlaced(width, value, i) && PartFits(models, width, value, i, seen)
  {
    hide IsSimple, IsShaped, IsIdentifier, IsRepresentable, Held;
    SimpleExactly(models, width, value.fields[i].fieldType, seen);
    if IsShaped(width, value.fields[i].fieldType) {
      ShapedIsAligned(width, value.fields[i].fieldType);
    }
  }

  lemma PartsExactly(models: Models, width: int, name: string, seen: set<string>)
    requires name in models && models[name].target.kind != EnumType
    ensures (forall i :: 0 <= i < |models[name].fields| ==> PartFits(models, width, models[name], i, seen)) <==>
            forall inner :: Holds(models, name, inner) ==> IsRepresentable(models, width, inner, seen)
  {
    hide IsRepresentable, Held;
    var value := models[name];
    if forall inner :: Holds(models, name, inner) ==> IsRepresentable(models, width, inner, seen) {
      forall i | 0 <= i < |value.fields|
        ensures PartFits(models, width, value, i, seen)
      {
        if Held(value.fields[i].fieldType).Some? {
          assert Holds(models, name, Held(value.fields[i].fieldType).value);
        }
      }
    }
    if forall i :: 0 <= i < |value.fields| ==> PartFits(models, width, value, i, seen) {
      forall inner | Holds(models, name, inner)
        ensures IsRepresentable(models, width, inner, seen)
      {
        var i :| 0 <= i < |value.fields| && Held(value.fields[i].fieldType) == Some(inner);
        assert PartFits(models, width, value, i, seen);
      }
    }
  }

  lemma ShapedIsAligned(width: int, t: Type)
    requires IsShaped(width, t)
    ensures t.align >= 1
  {
  }

  lemma AlignsNaturally(value: Value)
    requires 1 <= value.align
    ensures IsNaturallyAligned(value) <==> AlignsTo(value, 0, 1) && value.target.size % value.align == 0
  {
    forall i | 0 <= i < |value.fields|
      ensures value.fields[i] in value.fields
    {
    }
  }

  // All that a type holds

  /** A path of parts from the type; it ends at a plain type, repeats nothing and is not too long. */
  ghost predicate PathFits(models: Models, width: int, path: seq<string>, seen: set<string>)
    requires path != []
  {
    && IsPlain(models, width, path[|path| - 1]) && |seen| + |path| <= MAX_NESTING
    && (forall i :: 0 <= i < |path| ==> path[i] !in seen)
    && (forall i, j :: 0 <= i < j < |path| ==> path[i] != path[j])
  }

  ghost predicate IsPathFrom(models: Models, name: string, path: seq<string>) {
    path != [] && path[0] == name && IsPath(models, path)
  }

  ghost predicate AllPathsFit(models: Models, width: int, name: string, seen: set<string>) {
    forall path :: IsPathFrom(models, name, path) ==> PathFits(models, width, path, seen)
  }

  lemma OnePath(models: Models, name: string)
    ensures IsPathFrom(models, name, [name])
  {
  }

  lemma LongerPath(models: Models, name: string, path: seq<string>)
    requires path != [] && IsPath(models, path) && Holds(models, name, path[0])
    ensures IsPathFrom(models, name, [name] + path)
  {
    var longer := [name] + path;
    forall i | 0 <= i < |longer| - 1
      ensures Holds(models, longer[i], longer[i + 1])
    {
      assert i > 0 ==> longer[i] == path[i - 1] && longer[i + 1] == path[(i - 1) + 1];
    }
  }

  lemma PathShortens(models: Models, width: int, name: string, path: seq<string>, seen: set<string>)
    requires path != [] && PathFits(models, width, [name] + path, seen)
    ensures PathFits(models, width, path, seen + {name})
  {
    hide IsPlain;
    var longer := [name] + path;
    assert longer[|longer| - 1] == path[|path| - 1];
    assert longer[0] !in seen;
    assert |seen + {name}| == |seen| + 1;
    forall i | 0 <= i < |path|
      ensures path[i] !in seen + {name}
    {
      assert longer[i + 1] == path[i] && longer[0] != longer[i + 1];
    }
    forall i, j | 0 <= i < j < |path|
      ensures path[i] != path[j]
    {
      assert longer[i + 1] != longer[j + 1];
    }
  }

  lemma {:induction false} PathsMakeRepresentable(models: Models, width: int, name: string, seen: set<string>)
    requires AllPathsFit(models, width, name, seen)
    ensures IsRepresentable(models, width, name, seen)
    decreases Left(seen)
  {
    hide IsPlain, IsRepresentable, Holds;
    OnePath(models, name);
    assert PathFits(models, width, [name], seen);
    assert [name][0] !in seen;
    assert |seen + {name}| == |seen| + 1;
    forall inner | Holds(models, name, inner)
      ensures IsRepresentable(models, width, inner, seen + {name})
    {
      forall path | IsPathFrom(models, inner, path)
        ensures PathFits(models, width, path, seen + {name})
      {
        LongerPath(models, name, path);
        PathShortens(models, width, name, path, seen);
      }
      PathsMakeRepresentable(models, width, inner, seen + {name});
    }
    RepresentableStep(models, width, name, seen);
  }

  lemma {:induction false} RepresentableHasPlainEnd(models: Models, width: int, path: seq<string>, seen: set<string>)
    requires path != [] && IsPath(models, path) && IsRepresentable(models, width, path[0], seen)
    ensures IsPlain(models, width, path[|path| - 1])
    decreases |path|
  {
    hide IsPlain, IsRepresentable, Holds;
    RepresentableStep(models, width, path[0], seen);
    if |path| > 1 {
      assert Holds(models, path[0], path[0 + 1]);
      var rest := path[1..];
      assert forall i :: 0 <= i < |rest| - 1 ==> Holds(models, rest[i], path[(i + 1) + 1]);
      RepresentableHasPlainEnd(models, width, rest, seen + {path[0]});
    }
  }

  /** A value type can be declared exactly if every path of parts from it ends at a plain type and repeats nothing. */
  lemma RepresentableExactly(models: Models, width: int, name: string, seen: set<string>)
    ensures IsRepresentable(models, width, name, seen) <==> AllPathsFit(models, width, name, seen)
  {
    hide IsPlain, IsRepresentable, Holds;
    if IsRepresentable(models, width, name, seen) {
      forall path | IsPathFrom(models, name, path)
        ensures PathFits(models, width, path, seen)
      {
        RepresentableIsAcyclic(models, width, path, seen);
        RepresentableHasPlainEnd(models, width, path, seen);
      }
    }
    if AllPathsFit(models, width, name, seen) {
      PathsMakeRepresentable(models, width, name, seen);
    }
  }
}
