/** A lowering has no error exactly when its tables are accepted. */
module FSharpVerdict {
  import opened Bytes
  import opened Decimals
  import opened FSharpModel
  import opened Names
  import opened Permutations
  import opened FSharpAcceptance
  import opened FSharpState
  import opened FSharpSteps

  function TableOf(l: TableLayout): Table {
    l.table
  }

  function TablesOf(layouts: seq<TableLayout>): seq<Table> {
    Map(TableOf, layouts)
  }

  /** The worklist is empty, and nothing but a name was wrong. */
  ghost predicate IsThrough(s: State, target: Target, tables: seq<Table>, layouts: seq<TableLayout>) {
    && Inv(s, target) && s.visiting == {} && s.pointed == {} && s.taken == {}
    && TablesFit(s, target, layouts) && (s.clean ==> TablesOf(layouts) == tables)
  }

  lemma TablesMatch(layouts: seq<TableLayout>, tables: seq<Table>)
    requires |layouts| == |tables| && forall i :: 0 <= i < |tables| ==> layouts[i].table == tables[i]
    ensures TablesOf(layouts) == tables
  {
  }

  lemma HelpersFit()
    ensures forall x :: x in HELPERS ==> IsIdentifier(x)
  {
  }

  lemma SameHead(target: Target, options: Options, a: seq<Table>, b: seq<Table>)
    requires multiset(a) == multiset(b)
    ensures HeadFits(target, options, a) <==> HeadFits(target, options, b)
  {
    assert |multiset(a)| == |a| && |multiset(b)| == |b|;
  }

  // What is completed is what is declared

  lemma CompletedIsClosed(s: State, target: Target, tables: seq<Table>, layouts: seq<TableLayout>)
    requires IsThrough(s, target, tables, layouts) && s.clean
    ensures IsClosed(target, s.models, s.completed)
  {
    hide Uses, IsRepresentable;
    forall outer, part, inner |
      outer in s.completed && outer in s.models && HasPart(s.models[outer], part) && Uses(target, s.models, part, inner)
      ensures inner in s.completed
    {
      PartIsCompleted(s, target, outer, part, inner);
    }
  }

  lemma PartIsCompleted(s: State, target: Target, outer: string, part: Type, inner: string)
    requires Inv(s, target) && s.visiting == {} && s.pointed == {} && s.taken == {} && s.clean
    requires outer in s.completed && outer in s.models && HasPart(s.models[outer], part) && Uses(target, s.models, part, inner)
    ensures inner in s.completed
  {
    hide IsRepresentable, SetsFit, InOrder, NamesDiffer, FieldsSpelled, IsExact, IsClosed;
    assert s.Tracked() == s.completed;
    if Held(part) == Some(inner) {
      assert Holds(s.models, outer, inner);
      var k :| 0 <= k < |s.ordered| && Defines(s, k, outer);
      var l: nat :| l < k && Defines(s, l, inner);
      assert s.values[s.ordered[l].index].declaration in s.completed;
    } else {
      assert ValueTracked(s, target, s.models[outer]);
      assert TypeTracked(s, target, part);
    }
  }

  lemma {:induction false} InPayload(t: Table, first: nat, k: nat)
    requires first <= k < |t.table.fields| && !IsHeader(t, t.table.fields[k])
    ensures t.table.fields[k] in Payload(t, first)
    decreases k - first
  {
    if first < k {
      InPayload(t, first + 1, k);
    }
  }

  lemma RootsAreCompleted(s: State, target: Target, tables: seq<Table>, layouts: seq<TableLayout>)
    requires IsThrough(s, target, tables, layouts) && s.clean
    ensures HasRoots(target, s.models, tables, s.completed)
  {
    hide Uses, IsRepresentable, IsSignaturePart, Inv, TablesFit;
    forall t, part, name | t in tables && InSignature(t, part) && Uses(target, s.models, part, name)
      ensures name in s.completed
    {
      var i :| 0 <= i < |tables| && tables[i] == t;
      var k :| 0 <= k < |t.table.fields| && !IsHeader(t, t.table.fields[k]) && IsSignaturePart(t.table.fields[k], part);
      assert TableOf(layouts[i]) == t;
      RootIsCompleted(s, target, layouts, i, k, part, name);
    }
  }

  lemma RootIsCompleted(s: State, target: Target, layouts: seq<TableLayout>, i: nat, k: nat, part: Type, name: string)
    requires Inv(s, target) && s.visiting == {} && s.pointed == {} && s.taken == {} && s.clean
    requires TablesFit(s, target, layouts) && i < |layouts| && k < |layouts[i].table.table.fields|
    requires !IsHeader(layouts[i].table, layouts[i].table.table.fields[k])
    requires IsSignaturePart(layouts[i].table.table.fields[k], part) && Uses(target, s.models, part, name)
    ensures name in s.completed
  {
    hide IsRepresentable, Inv, TableLowers, IsHeader, Payload, Spelled, State.IsKnown;
    var l := layouts[i];
    assert TableFits(s, target, l);
    InPayload(l.table, 0, k);
    var j :| 0 <= j < |l.functions| && FieldsOf(l.functions)[j] == l.table.table.fields[k];
    assert SignatureFits(s, target, l.table, l.functions[j]);
    var function_ := l.functions[j].field.fieldType.pointee.value;
    if function_.result != Some(part) {
      var p :| 0 <= p < |function_.parameters| && function_.parameters[p] == part;
      assert PartFits(s, target, function_.parameters[p], l.functions[j].delegate + "_Argument" + ToString(p), false,
                      l.functions[j].parameters[p]);
    }
    assert s.Tracked() == s.completed;
  }

  lemma CompletedIsDeclared(s: State, target: Target, tables: seq<Table>, layouts: seq<TableLayout>)
    requires IsThrough(s, target, tables, layouts) && s.clean && s.allowed == Declared(target, s.models, tables)
    ensures s.completed == Declared(target, s.models, tables)
  {
    CompletedIsClosed(s, target, tables, layouts);
    RootsAreCompleted(s, target, tables, layouts);
    TrackedIsAllowed(s, target);
    hide IsThrough, Inv, IsClosed, HasRoots;
    assert s.completed <= s.Tracked();
  }

  // Claimed names do not depend on the order of definitions

  lemma {:induction false} ValueNamesRemove(models: Models, names: seq<string>, i: nat)
    requires i < |names|
    ensures AllValueNames(models, names)
         == AllValueNames(models, names[..i] + names[i + 1..]) + ValueNames(models, names[i])
    decreases |names|
  {
    hide ValueNames;
    var front, last := names[..|names| - 1], names[|names| - 1];
    var rest := names[..i] + names[i + 1..];
    if i < |front| {
      ValueNamesRemove(models, front, i);
      assert rest[..|rest| - 1] == front[..i] + front[i + 1..] && rest[|rest| - 1] == last;
    } else {
      assert rest == front;
    }
  }

  lemma {:induction false} ValueNamesPermute(models: Models, a: seq<string>, b: seq<string>)
    requires multiset(a) == multiset(b)
    ensures AllValueNames(models, a) == AllValueNames(models, b)
    decreases |a|
  {
    hide ValueNames;
    if a == [] {
      assert |b| == |multiset(b)| == 0;
    } else {
      var i := LastIsFound(a, b);
      ValueNamesPermute(models, a[..|a| - 1], b[..i] + b[i + 1..]);
      ValueNamesRemove(models, b, i);
    }
  }

  lemma ListsPermute(a: seq<string>, b: seq<string>, names: set<string>)
    requires Lists(a, names) && Lists(b, names)
    ensures multiset(a) == multiset(b)
  {
    DistinctCounts(a);
    DistinctCounts(b);
    forall x: string
      ensures multiset(a)[x] == multiset(b)[x]
    {
      assert x in a <==> x in names;
      assert x in b <==> x in names;
      assert x in multiset(a) <==> x in a;
      assert x in multiset(b) <==> x in b;
    }
  }

  lemma CompletedIsListed(s: State, target: Target)
    requires Inv(s, target)
    ensures Lists(Declarations(s.values), s.completed)
  {
    hide SetsFit, InOrder, NamesDiffer, FieldsSpelled, PointersTracked, HeldFirst, IsExact, IsClosed;
    var names := Declarations(s.values);
    forall n | n in s.completed
      ensures n in names
    {
      var k :| 0 <= k < |s.ordered| && Defines(s, k, n);
      assert names[s.ordered[k].index] == n;
    }
  }

  // The verdict

  /** The lowering has no error exactly when nothing is wrong with the tables in the order they were lowered in. */
  lemma ErrorsExactly(start: State, s: State, target: Target, options: Options, tables: seq<Table>,
                      layouts: seq<TableLayout>)
    requires start == Fresh(ModelsOf(tables), HELPERS, start.errors, Declared(target, ModelsOf(tables), tables))
    requires start.errors == [] <==> HeadFits(target, options, tables) && TablesAgree(ModelsOf(tables), tables)
    requires Step(start, s, target, AllLower(target, ModelsOf(tables), tables), AllTableNames(tables))
    requires IsThrough(s, target, tables, layouts) && s.models == start.models && s.allowed == start.allowed
    ensures s.errors == [] <==> IsLowered(target, options, tables)
    ensures s.errors == [] ==> s.clean && s.completed == Declared(target, ModelsOf(tables), tables)
  {
    hide IsThrough, Declared, ValueLowers, AllValueNames, AllTableNames, NamesFit, AllLower, HeadFits, TablesAgree, Inv;
    CleanExactly(start, s, target, options, tables, layouts);
    ExactErrors(s, target, tables, layouts);
    var names := Declared(target, s.models, tables);
    if s.clean {
      CompletedIsDeclared(s, target, tables, layouts);
      CompletedIsListed(s, target) by {
        assert Inv(s, target) by {
          ThroughIsSound(s, target, tables, layouts);
        }
      }
      ClaimedNames(start, s, target, AllLower(target, s.models, tables), AllTableNames(tables));
      var mine := Declarations(s.values);
      forall declared | Lists(declared, names)
        ensures AllValueNames(s.models, declared) == DefinedNames(s)
      {
        ListsPermute(declared, mine, names);
        ValueNamesPermute(s.models, declared, mine);
      }
    }
  }

  lemma ThroughIsSound(s: State, target: Target, tables: seq<Table>, layouts: seq<TableLayout>)
    requires IsThrough(s, target, tables, layouts)
    ensures Inv(s, target)
  {
  }

  lemma ExactErrors(s: State, target: Target, tables: seq<Table>, layouts: seq<TableLayout>)
    requires IsThrough(s, target, tables, layouts)
    ensures s.errors == [] <==> s.clean && NamesFit(s.claimed)
  {
  }

  lemma ClaimedNames(start: State, s: State, target: Target, ok: bool, names: multiset<string>)
    requires start == Fresh(start.models, HELPERS, start.errors, start.allowed)
    requires Step(start, s, target, ok, names) && s.clean
    ensures s.claimed == multiset(HELPERS) + names + DefinedNames(s)
  {
    assert Declarations(start.values) == [];
    assert DefinedNames(start) == multiset{};
  }

  lemma CleanExactly(start: State, s: State, target: Target, options: Options, tables: seq<Table>,
                     layouts: seq<TableLayout>)
    requires start == Fresh(ModelsOf(tables), HELPERS, start.errors, Declared(target, ModelsOf(tables), tables))
    requires start.errors == [] <==> HeadFits(target, options, tables) && TablesAgree(ModelsOf(tables), tables)
    requires Step(start, s, target, AllLower(target, ModelsOf(tables), tables), AllTableNames(tables))
    requires IsThrough(s, target, tables, layouts) && s.models == start.models && s.allowed == start.allowed
    ensures s.clean <==>
              && HeadFits(target, options, tables) && TablesAgree(s.models, tables) && AllLower(target, s.models, tables)
              && ValuesLower(target, s.models, Declared(target, s.models, tables))
  {
    hide Declared, ValueLowers, AllValueNames, AllTableNames, HeadFits, TablesAgree, AllLower;
    CompletedIsListed(s, target);
    TrackedIsAllowed(s, target);
    var names := Declarations(s.values);
    if s.clean {
      CompletedIsDeclared(s, target, tables, layouts);
      forall n | n in s.completed
        ensures ValueLowers(target, s.models, n)
      {
        var i :| 0 <= i < |names| && names[i] == n;
        assert s.values[i].declaration == n;
      }
    } else {
      hide IsThrough;
      forall i | 0 <= i < |s.values|
        ensures s.values[i].declaration in s.allowed
      {
        assert names[i] in names;
      }
    }
  }

  // The order of the tables

  lemma {:induction false} ManagedIsTaken(tables: seq<Table>, i: nat)
    requires i < |tables|
    ensures AllTableNames(tables)[ManagedName(tables[i])] >= 1
    decreases |tables|
  {
    hide FieldsNames;
    if i < |tables| - 1 {
      ManagedIsTaken(tables[..|tables| - 1], i);
    }
  }

  /** Two tables of one name claim it twice. */
  lemma {:induction false} ManagedIsTakenTwice(tables: seq<Table>, i: nat, j: nat)
    requires i < j < |tables| && ManagedName(tables[i]) == ManagedName(tables[j])
    ensures AllTableNames(tables)[ManagedName(tables[i])] >= 2
    decreases |tables|
  {
    hide FieldsNames;
    if j < |tables| - 1 {
      ManagedIsTakenTwice(tables[..|tables| - 1], i, j);
    } else {
      ManagedIsTaken(tables[..|tables| - 1], i);
    }
  }

  lemma LoweredNamesDiffer(target: Target, options: Options, tables: seq<Table>)
    requires IsLowered(target, options, tables)
    ensures forall x, y :: x in tables && y in tables && ManagedName(x) == ManagedName(y) ==> x == y
  {
    hide HeadFits, TablesAgree, AllLower, ValuesLower, Declared, AllTableNames, AllValueNames, IsIdentifier;
    var models := ModelsOf(tables);
    var declared :|
      Lists(declared, Declared(target, models, tables))
      && NamesFit(multiset(HELPERS) + AllTableNames(tables) + AllValueNames(models, declared));
    var all := multiset(HELPERS) + AllTableNames(tables) + AllValueNames(models, declared);
    forall i, j | 0 <= i < j < |tables|
      ensures ManagedName(tables[i]) != ManagedName(tables[j])
    {
      var name := ManagedName(tables[i]);
      assert all[name] >= AllTableNames(tables)[name];
      assert name in all ==> all[name] == 1;
      if name == ManagedName(tables[j]) {
        ManagedIsTakenTwice(tables, i, j);
      }
    }
  }

  /** There is one order to lower accepted tables in. */
  lemma AcceptedExactly(target: Target, options: Options, tables: seq<Table>, sorted: seq<Table>)
    requires multiset(sorted) == multiset(tables) && SortedBy(sorted, ManagedName)
    ensures Accepts(target, options, tables) <==> IsLowered(target, options, sorted)
  {
    hide IsLowered, SortedBy;
    if Accepts(target, options, tables) {
      var other :| multiset(other) == multiset(tables) && SortedBy(other, ManagedName) && IsLowered(target, options, other);
      LoweredNamesDiffer(target, options, other);
      SortedIsUnique(other, sorted, ManagedName);
    }
  }
}
