/**
 What an accepted module guarantees: records whose fields are apart, script names none of which is a scope of
 another, and properties that are whole.
 */
module PrsmGuarantees {
  import opened Bytes
  import opened Names
  import opened NameParts
  import opened Permutations
  import opened PrsmModel
  import opened PrsmDescriptor
  import opened PrsmAcceptance

  // Records

  function EndOf(f: ValueField): nat {
    f.offset + ScalarWidth(f.scalar)
  }

  /** Each field is a number on its own alignment inside the record, and none overlaps another. */
  predicate AreLaidOut(fields: seq<ValueField>, from: nat, end: nat, size: nat)
    requires from <= |fields|
  {
    && (forall i :: from <= i < |fields| ==>
          && IsIdentifier(fields[i].name) && fields[i].scalar != Void && fields[i].scalar != Boolean
          && fields[i].offset % ScalarWidth(fields[i].scalar) == 0 && end <= fields[i].offset && EndOf(fields[i]) <= size)
    && (forall i, j :: from <= i < j < |fields| ==> EndOf(fields[i]) <= fields[j].offset)
  }

  lemma {:induction false} FieldsExactly(fields: seq<ValueField>, from: nat, end: nat, size: nat)
    requires from <= |fields|
    ensures FieldsFit(fields, from, end, size) <==> AreLaidOut(fields, from, end, size)
    decreases |fields| - from
  {
    hide ScalarWidth, IsIdentifier;
    if from < |fields| {
      var f := fields[from];
      WidthIsPositive(f.scalar);
      FieldsExactly(fields, from + 1, EndOf(f), size);
      if AreLaidOut(fields, from, end, size) {
        assert AreLaidOut(fields, from + 1, EndOf(f), size);
      }
    }
  }

  lemma WidthIsPositive(s: Scalar)
    ensures s != Void ==> ScalarWidth(s) > 0
  {
  }

  /** The fields of an accepted record are apart and aligned, and their names differ. */
  lemma RecordsAreLaidOut(m: Input, v: ValueType)
    requires Accepts(m) && v in m.values && v.isRecord
    ensures v.fields != [] && AreLaidOut(v.fields, 0, 0, v.size) && v.size % v.align == 0
    ensures forall i, j :: 0 <= i < j < |v.fields| ==> v.fields[i].name != v.fields[j].name
  {
    hide CallablesFit, GlobalsFit, NamesFit, FieldsFit;
    assert ValueFits(v, |m.sources|);
    FieldsExactly(v.fields, 0, 0, v.size);
    var names := Map(FieldName, v.fields);
    forall i, j | 0 <= i < j < |v.fields|
      ensures v.fields[i].name != v.fields[j].name
    {
      assert names[i] == v.fields[i].name && names[j] == v.fields[j].name;
    }
  }

  // Names

  predicate IsPrefix(p: seq<string>, q: seq<string>) {
    |p| <= |q| && q[..|p|] == p
  }

  /** What follows the first part of a joined name: nothing, or the separator and the other parts. */
  function Behind(parts: seq<string>): string
    requires parts != []
  {
    if |parts| == 1 then "" else "::" + JoinedBy(parts[1..], "::")
  }

  lemma FirstPart(parts: seq<string>, more: string)
    requires AreIdentifiers(parts) && (more == "" || StartsWith(more, "::"))
    ensures JoinedBy(parts, "::") + more == parts[0] + (Behind(parts) + more)
    ensures Find(JoinedBy(parts, "::") + more, "::", 0) == |parts[0]|
  {
    hide Find, IsIdentifier;
    var behind := Behind(parts) + more;
    if |parts| == 1 {
      assert behind == more;
    } else {
      assert behind[..2] == "::";
    }
    FindBehind(parts[0], behind, "::", 0);
  }

  /** Equal joined names begin with the same part, and go on alike. */
  lemma SameStart(p: seq<string>, x: string, q: seq<string>)
    requires AreIdentifiers(p) && AreIdentifiers(q) && (x == "" || StartsWith(x, "::"))
    requires JoinedBy(p, "::") + x == JoinedBy(q, "::")
    ensures p[0] == q[0] && Behind(p) + x == Behind(q)
  {
    hide Find, IsIdentifier, JoinedBy;
    FirstPart(p, x);
    FirstPart(q, "");
    assert JoinedBy(q, "::") + "" == JoinedBy(q, "::") && Behind(q) + "" == Behind(q);
    SameHead(p[0], Behind(p) + x, q[0], Behind(q));
  }

  lemma SameRest(p: seq<string>, x: string, q: seq<string>)
    requires |p| > 1 && q != [] && Behind(p) + x == Behind(q)
    ensures |q| > 1 && JoinedBy(p[1..], "::") + x == JoinedBy(q[1..], "::")
  {
    hide JoinedBy;
    assert (Behind(p) + x)[0] == ':';
    assert Behind(p) + x == "::" + (JoinedBy(p[1..], "::") + x);
    SameHead("::", JoinedBy(p[1..], "::") + x, "::", JoinedBy(q[1..], "::"));
  }

  /** A joined name that goes on like another begins with the parts of that other. */
  lemma {:induction false} PrefixOfJoined(p: seq<string>, x: string, q: seq<string>)
    requires AreIdentifiers(p) && AreIdentifiers(q) && (x == "" || StartsWith(x, "::"))
    requires JoinedBy(p, "::") + x == JoinedBy(q, "::")
    ensures IsPrefix(p, q) && (x == "" ==> p == q) && (x != "" ==> |p| < |q|)
    decreases |p|
  {
    hide IsIdentifier, JoinedBy, StartsWith;
    SameStart(p, x, q);
    assert p == [p[0]] + p[1..] && q == [q[0]] + q[1..];
    if |p| == 1 {
      assert "" + x == x;
      assert q[..1] == [q[0]];
    } else {
      SameRest(p, x, q);
      PrefixOfJoined(p[1..], x, q[1..]);
      assert q[..|p|] == [q[0]] + q[1..][..|p| - 1];
    }
  }

  lemma SameHead(a: string, x: string, b: string, y: string)
    requires |a| == |b| && a + x == b + y
    ensures a == b && x == y
  {
    HeadsAgree(a, x, b, y);
  }

  lemma {:induction false} JoinedOfPrefix(p: seq<string>, q: seq<string>)
    requires AreIdentifiers(p) && AreIdentifiers(q) && IsPrefix(p, q) && |p| < |q|
    ensures StartsWith(JoinedBy(q, "::"), JoinedBy(p, "::") + "::")
    decreases |p|
  {
    hide IsIdentifier;
    assert p[0] == q[..|p|][0] == q[0];
    var rest := JoinedBy(q[1..], "::");
    assert JoinedBy(q, "::") == p[0] + "::" + rest;
    if |p| > 1 {
      assert q[1..][..|p| - 1] == q[..|p|][1..] == p[1..];
      JoinedOfPrefix(p[1..], q[1..]);
      var part := JoinedBy(p[1..], "::") + "::";
      assert rest == part + rest[|part|..];
      assert JoinedBy(q, "::") == (p[0] + "::" + part) + rest[|part|..];
      assert JoinedBy(p, "::") + "::" == p[0] + "::" + part;
    }
  }

  /** Names conflict exactly if the parts of one begin with the parts of the other: one is a scope of the other. */
  lemma ConflictExactly(p: seq<string>, q: seq<string>)
    requires AreIdentifiers(p) && AreIdentifiers(q)
    ensures Conflict(JoinedBy(p, "::"), JoinedBy(q, "::")) <==> IsPrefix(p, q) || IsPrefix(q, p)
  {
    hide IsIdentifier, JoinedBy;
    ScopeExactly(p, q);
    ScopeExactly(q, p);
    if IsPrefix(p, q) && |p| == |q| {
      assert q[..|p|] == q;
    }
    if IsPrefix(q, p) && |p| == |q| {
      assert p[..|q|] == p;
    }
    if JoinedBy(p, "::") == JoinedBy(q, "::") {
      assert JoinedBy(p, "::") + "" == JoinedBy(p, "::");
      PrefixOfJoined(p, "", q);
    }
  }

  lemma ScopeExactly(p: seq<string>, q: seq<string>)
    requires AreIdentifiers(p) && AreIdentifiers(q)
    ensures StartsWith(JoinedBy(q, "::"), JoinedBy(p, "::") + "::") <==> IsPrefix(p, q) && |p| < |q|
  {
    hide IsIdentifier, JoinedBy;
    var a, b := JoinedBy(p, "::"), JoinedBy(q, "::");
    if StartsWith(b, a + "::") {
      var x := b[|a|..];
      assert b == (a + "::") + b[|a| + 2..];
      assert x == "::" + b[|a| + 2..] && b == a + x;
      PrefixOfJoined(p, x, q);
    }
    if IsPrefix(p, q) && |p| < |q| {
      JoinedOfPrefix(p, q);
    }
  }

  // Properties

  lemma {:induction false} GroupHasAll(calls: seq<Callable>, key: (string, string), c: Callable)
    requires c in calls && IsMember(c, key)
    ensures c in Group(calls, key)
    decreases |calls|
  {
    var front, last := calls[..|calls| - 1], calls[|calls| - 1];
    if c != last {
      assert c in front;
      GroupHasAll(front, key, c);
    }
  }

  /** A member is one call, or the two halves of a property: a setter always comes with the getter of its slot. */
  lemma MembersAreWhole(m: Input, c: Callable)
    requires Accepts(m) && c in m.callables && c.operation != Owner
    ensures var same := set d | d in m.callables && IsMember(d, (c.receiver, c.scriptName));
            || (same == {c} && c.operation != Setter)
            || exists g, s :: same == {g, s} && g.operation == Getter && s.operation == Setter
                 && SlotsResolve(m.values, g) && SlotsResolve(m.values, s) && Pairs(m.values, g, s)
  {
    hide HeaderFits, DeclarationsFit, GlobalsFit, CallFits, Pairs, Group;
    var key := (c.receiver, c.scriptName);
    var group := Group(m.callables, key);
    var same := set d | d in m.callables && IsMember(d, key);
    GroupHasAll(m.callables, key, c);
    AllResolve(m);
    assert GroupFits(m.values, group);
    forall d
      ensures d in same <==> d in group
    {
      if d in same {
        GroupHasAll(m.callables, key, d);
      }
    }
    if |group| == 1 {
      assert same == {group[0]};
    } else {
      assert same == {group[0], group[1]};
      PairIsProperty(m.values, group[0], group[1]);
    }
  }

  lemma AllResolve(m: Input)
    requires Accepts(m)
    ensures forall c :: c in m.callables ==> SlotsResolve(m.values, c)
  {
    hide HeaderFits, DeclarationsFit, GlobalsFit, NativeFits, OwnerFits, IdentityFits, ShapeFits, MembersFit;
  }

  lemma PairIsProperty(values: seq<ValueType>, a: Callable, b: Callable)
    requires SlotsResolve(values, a) && SlotsResolve(values, b) && (Pairs(values, a, b) || Pairs(values, b, a))
    ensures exists g, s :: {a, b} == {g, s} && g.operation == Getter && s.operation == Setter
              && SlotsResolve(values, g) && SlotsResolve(values, s) && Pairs(values, g, s)
  {
    if Pairs(values, a, b) {
      assert {a, b} == {a, b} && a.operation == Getter && b.operation == Setter;
    } else {
      assert {a, b} == {b, a} && b.operation == Getter && a.operation == Setter;
    }
  }
}
