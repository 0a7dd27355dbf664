/**
 The ABI contract of the C, C# and F# wrappers: the text whose fingerprint tells one generated interface
 from another. Lists of methods and of fields carry no count of their own.
 */
module InteropContract {
  import opened Bytes
  import opened Decimals
  import opened Names
  import opened Netstrings
  import opened Permutations

  datatype Target = C | CSharp | FSharp

  /** How a value crosses the boundary: the first of its flags that is set. */
  datatype Passing = OwnedArgument | OwnedResult | RecordValue | Callback | ObjectPointer | Boolean | Numeric

  datatype Lowered = Lowered(native: string, nativeSize: int, c: string, csharp: string, passing: Passing)

  datatype Method = Method(name: string, symbol: string, target: Target, signature: string, isConst: bool,
                           callingConvention: string, exceptions: string, result: Lowered, parameters: seq<Lowered>)

  datatype Class = Class(name: string, target: Target, owned: bool, methods: seq<Method>)

  datatype LayoutField = LayoutField(name: string, offset: int, lowered: Lowered)

  datatype Layout = Layout(name: string, declaration: string, size: int, align: int, fields: seq<LayoutField>)

  datatype Options = Options(moduleName: string, library: string, csharpNamespace: string, triple: string,
                             pointerWidth: int)

  datatype Interface = Interface(options: Options, classes: seq<Class>, layouts: seq<Layout>)

  const CLASS := "class"
  const METHOD := "method"
  const LAYOUT := "fsharp-value-layout-v1"

  // Words

  /** `std::to_string` of a signed number. */
  function Signed(n: int): string {
    if n < 0 then "-" + ToString(-n) else ToString(n)
  }

  lemma SignedIsInjective(m: int, n: int)
    requires Signed(m) == Signed(n)
    ensures m == n
  {
    assert Signed(m)[0] == Signed(n)[0];
    assert n < 0 <==> !IsDigit(Signed(n)[0]);
    if m < 0 && n < 0 {
      assert Signed(m)[1..] == ToString(-m) && Signed(n)[1..] == ToString(-n);
      ToStringIsInjective(-m, -n);
    } else if m >= 0 && n >= 0 {
      ToStringIsInjective(m, n);
    }
  }

  function TargetWord(t: Target): string {
    match t
    case C => "c"
    case CSharp => "csharp"
    case FSharp => "fsharp"
  }

  function PassingWord(p: Passing): string {
    match p
    case OwnedArgument => "unique-owned-native-argument-v1"
    case OwnedResult => "unique-owned-native-result-v1"
    case RecordValue => "fsharp-record-value-bytes-v1"
    case Callback => "cdecl-i32-i32-synchronous-same-thread"
    case ObjectPointer => "borrowed-object-pointer"
    case Boolean => "bool:nonzero-input:zero-or-one-output"
    case Numeric => "numeric-value"
  }

  function ConstWord(isConst: bool): string {
    if isConst then "const" else "mutable"
  }

  function OwnedWord(owned: bool): string {
    if owned then "owned-unique-delete-exact-type-v1" else "borrowed"
  }

  /** Seven words of seven lengths. */
  function PassingLength(p: Passing): nat {
    match p
    case OwnedArgument => 31
    case OwnedResult => 29
    case RecordValue => 28
    case Callback => 37
    case ObjectPointer => 23
    case Boolean => 37
    case Numeric => 13
  }

  lemma PassingWordsDiffer(p: Passing, q: Passing)
    requires PassingWord(p) == PassingWord(q)
    ensures p == q
  {
    assert forall x :: |PassingWord(x)| == PassingLength(x);
    assert PassingWord(Callback)[0] == 'c' && PassingWord(Boolean)[0] == 'b';
    assert PassingWord(p)[0] == PassingWord(q)[0];
  }

  // Items

  function LoweredItems(t: Lowered): seq<string> {
    [t.native, Signed(t.nativeSize), t.c, t.csharp, PassingWord(t.passing)]
  }

  function LoweredListItems(ts: seq<Lowered>): seq<string> {
    if ts == [] then [] else LoweredItems(ts[0]) + LoweredListItems(ts[1..])
  }

  function MethodHead(m: Method): seq<string> {
    [METHOD, m.symbol, TargetWord(m.target), m.signature, ConstWord(m.isConst), m.callingConvention, m.exceptions]
  }

  function MethodItems(m: Method): seq<string> {
    MethodHead(m) + LoweredItems(m.result) + [ToString(|m.parameters|)] + LoweredListItems(m.parameters)
  }

  function MethodListItems(ms: seq<Method>): seq<string> {
    if ms == [] then [] else MethodItems(ms[0]) + MethodListItems(ms[1..])
  }

  function ClassHead(c: Class): seq<string> {
    [CLASS, c.name, TargetWord(c.target), OwnedWord(c.owned)]
  }

  function ClassListItems(cs: seq<Class>): seq<string> {
    if cs == [] then [] else ClassHead(cs[0]) + MethodListItems(cs[0].methods) + ClassListItems(cs[1..])
  }

  function FieldItems(f: LayoutField): seq<string> {
    [f.name, Signed(f.offset)] + LoweredItems(f.lowered)
  }

  function FieldListItems(fs: seq<LayoutField>): seq<string> {
    if fs == [] then [] else FieldItems(fs[0]) + FieldListItems(fs[1..])
  }

  function LayoutHead(l: Layout): seq<string> {
    [LAYOUT, l.name, l.declaration, Signed(l.size), Signed(l.align)]
  }

  function LayoutListItems(ls: seq<Layout>): seq<string> {
    if ls == [] then [] else LayoutHead(ls[0]) + FieldListItems(ls[0].fields) + LayoutListItems(ls[1..])
  }

  function OptionItems(o: Options): seq<string> {
    ["reflgen-primitive-interop-v1", o.moduleName, o.library, o.csharpNamespace, o.triple, Signed(o.pointerWidth),
     "cdecl", "borrowed-exact-live-object-address-no-destruction",
     "status-int32:ok=0:null=1:exception=2:wrapper-writes-output-only-on-success"]
  }

  function Contract(i: Interface): string {
    Join(OptionItems(i.options) + ClassListItems(i.classes) + LayoutListItems(i.layouts))
  }

  // Building the contract

  lemma Appended(contract: string, done: seq<string>, more: seq<string>)
    ensures contract + Join(done) + Join(more) == contract + Join(done + more)
  {
    JoinConcat(done, more);
    assert contract + Join(done) + Join(more) == contract + (Join(done) + Join(more));
  }

  /** Appends items behind those that are there already. */
  method AppendBehind(contract: string, ghost start: string, ghost done: seq<string>, values: seq<string>)
      returns (longer: string)
    requires contract == start + Join(done)
    ensures longer == start + Join(done + values)
  {
    longer := AppendAll(contract, values);
    Appended(start, done, values);
  }

  method AppendTypes(contract: string, ghost start: string, ghost done: seq<string>, ts: seq<Lowered>)
      returns (longer: string)
    requires contract == start + Join(done)
    ensures longer == start + Join(done + LoweredListItems(ts))
  {
    hide Join, LoweredItems;
    longer := contract;
    ghost var items := done;
    assert ts[0..] == ts;
    for i := 0 to |ts|
      invariant items + LoweredListItems(ts[i..]) == done + LoweredListItems(ts) && longer == start + Join(items)
    {
      assert ts[i..][1..] == ts[i + 1..];
      longer := AppendBehind(longer, start, items, LoweredItems(ts[i]));
      ConcatAssociative(items, LoweredItems(ts[i]), LoweredListItems(ts[i + 1..]));
      items := items + LoweredItems(ts[i]);
    }
    assert items + [] == items;
  }

  method AppendMethod(contract: string, ghost start: string, ghost done: seq<string>, m: Method)
      returns (longer: string)
    requires contract == start + Join(done)
    ensures longer == start + Join(done + MethodItems(m))
  {
    hide Join, LoweredItems, MethodHead, LoweredListItems;
    longer := AppendBehind(contract, start, done, MethodHead(m));
    ghost var items := done + MethodHead(m);
    longer := AppendBehind(longer, start, items, LoweredItems(m.result));
    items := items + LoweredItems(m.result);
    longer := AppendBehind(longer, start, items, [ToString(|m.parameters|)]);
    items := items + [ToString(|m.parameters|)];
    longer := AppendTypes(longer, start, items, m.parameters);
    ConcatAssociative(done, MethodHead(m), LoweredItems(m.result));
    ConcatAssociative(done, MethodHead(m) + LoweredItems(m.result), [ToString(|m.parameters|)]);
    ConcatAssociative(done, MethodHead(m) + LoweredItems(m.result) + [ToString(|m.parameters|)],
                LoweredListItems(m.parameters));
  }

  method AppendMethods(contract: string, ghost start: string, ghost done: seq<string>, ms: seq<Method>)
      returns (longer: string)
    requires contract == start + Join(done)
    ensures longer == start + Join(done + MethodListItems(ms))
  {
    hide Join, MethodItems;
    longer := contract;
    ghost var items := done;
    assert ms[0..] == ms;
    for i := 0 to |ms|
      invariant items + MethodListItems(ms[i..]) == done + MethodListItems(ms) && longer == start + Join(items)
    {
      assert ms[i..][1..] == ms[i + 1..];
      longer := AppendMethod(longer, start, items, ms[i]);
      ConcatAssociative(items, MethodItems(ms[i]), MethodListItems(ms[i + 1..]));
      items := items + MethodItems(ms[i]);
    }
    assert items + [] == items;
  }

  method AppendClasses(contract: string, ghost start: string, ghost done: seq<string>, cs: seq<Class>)
      returns (longer: string)
    requires contract == start + Join(done)
    ensures longer == start + Join(done + ClassListItems(cs))
  {
    hide Join, ClassHead, MethodListItems;
    longer := contract;
    ghost var items := done;
    assert cs[0..] == cs;
    for i := 0 to |cs|
      invariant items + ClassListItems(cs[i..]) == done + ClassListItems(cs) && longer == start + Join(items)
    {
      assert cs[i..][1..] == cs[i + 1..];
      longer := AppendBehind(longer, start, items, ClassHead(cs[i]));
      longer := AppendMethods(longer, start, items + ClassHead(cs[i]), cs[i].methods);
      ConcatAssociative(items, ClassHead(cs[i]), MethodListItems(cs[i].methods));
      ConcatAssociative(items, ClassHead(cs[i]) + MethodListItems(cs[i].methods), ClassListItems(cs[i + 1..]));
      items := items + (ClassHead(cs[i]) + MethodListItems(cs[i].methods));
    }
    assert items + [] == items;
  }

  method AppendFields(contract: string, ghost start: string, ghost done: seq<string>, fs: seq<LayoutField>)
      returns (longer: string)
    requires contract == start + Join(done)
    ensures longer == start + Join(done + FieldListItems(fs))
  {
    hide Join, FieldItems;
    longer := contract;
    ghost var items := done;
    assert fs[0..] == fs;
    for i := 0 to |fs|
      invariant items + FieldListItems(fs[i..]) == done + FieldListItems(fs) && longer == start + Join(items)
    {
      assert fs[i..][1..] == fs[i + 1..];
      longer := AppendBehind(longer, start, items, FieldItems(fs[i]));
      ConcatAssociative(items, FieldItems(fs[i]), FieldListItems(fs[i + 1..]));
      items := items + FieldItems(fs[i]);
    }
    assert items + [] == items;
  }

  method AppendLayouts(contract: string, ghost start: string, ghost done: seq<string>, ls: seq<Layout>)
      returns (longer: string)
    requires contract == start + Join(done)
    ensures longer == start + Join(done + LayoutListItems(ls))
  {
    hide Join, LayoutHead, FieldListItems;
    longer := contract;
    ghost var items := done;
    assert ls[0..] == ls;
    for i := 0 to |ls|
      invariant items + LayoutListItems(ls[i..]) == done + LayoutListItems(ls) && longer == start + Join(items)
    {
      assert ls[i..][1..] == ls[i + 1..];
      longer := AppendBehind(longer, start, items, LayoutHead(ls[i]));
      longer := AppendFields(longer, start, items + LayoutHead(ls[i]), ls[i].fields);
      ConcatAssociative(items, LayoutHead(ls[i]), FieldListItems(ls[i].fields));
      ConcatAssociative(items, LayoutHead(ls[i]) + FieldListItems(ls[i].fields), LayoutListItems(ls[i + 1..]));
      items := items + (LayoutHead(ls[i]) + FieldListItems(ls[i].fields));
    }
    assert items + [] == items;
  }

  /** Classes in the order of their names, and in each class the methods in the order of theirs. */
  ghost predicate IsOrdered(ordered: seq<Class>, classes: seq<Class>, each: seq<Class>) {
    && |each| == |classes| && (forall i :: 0 <= i < |each| ==> IsSameClass(each[i], classes[i]))
    && multiset(ordered) == multiset(each) && SortedBy(ordered, ClassName)
  }

  ghost predicate IsSameClass(c: Class, d: Class) {
    c == d.(methods := c.methods) && multiset(c.methods) == multiset(d.methods) && SortedBy(c.methods, MethodName)
  }

  function ClassName(c: Class): string {
    c.name
  }

  function MethodName(m: Method): string {
    m.name
  }

  method BuildContract(options: Options, classes: seq<Class>, layouts: seq<Layout>)
      returns (contract: string, ordered: seq<Class>, ghost each: seq<Class>)
    ensures IsOrdered(ordered, classes, each)
    ensures contract == Contract(Interface(options, ordered, layouts))
  {
    hide Join, SortedBy, OptionItems, ClassListItems, LayoutListItems;
    var sorted: seq<Class> := [];
    for i := 0 to |classes|
      invariant |sorted| == i && forall k :: 0 <= k < i ==> IsSameClass(sorted[k], classes[k])
    {
      var methods := SortBy(classes[i].methods, MethodName);
      sorted := sorted + [classes[i].(methods := methods)];
    }
    each := sorted;
    ordered := SortBy(sorted, ClassName);
    JoinNone();
    contract := AppendBehind("", "", [], OptionItems(options));
    assert [] + OptionItems(options) == OptionItems(options);
    contract := AppendClasses(contract, "", OptionItems(options), ordered);
    contract := AppendLayouts(contract, "", OptionItems(options) + ClassListItems(ordered), layouts);
  }

  // Reading the items back

  lemma LoweredAgree(s: Lowered, t: Lowered)
    requires LoweredItems(s) == LoweredItems(t)
    ensures s == t
  {
    hide PassingWord, Signed;
    var a, b := LoweredItems(s), LoweredItems(t);
    assert a[0] == b[0] && a[1] == b[1] && a[2] == b[2] && a[3] == b[3] && a[4] == b[4];
    SignedIsInjective(s.nativeSize, t.nativeSize);
    PassingWordsDiffer(s.passing, t.passing);
  }

  /** A list of known length can be told from what follows it. */
  lemma {:induction false} LoweredListsAgree(s: seq<Lowered>, x: seq<string>, t: seq<Lowered>, y: seq<string>)
    requires |s| == |t| && LoweredListItems(s) + x == LoweredListItems(t) + y
    ensures s == t && x == y
    decreases |s|
  {
    if s == [] {
      assert [] + x == x && [] + y == y;
    } else {
      var u, v := LoweredListItems(s[1..]), LoweredListItems(t[1..]);
      ConcatAssociative(LoweredItems(s[0]), u, x);
      ConcatAssociative(LoweredItems(t[0]), v, y);
      HeadsAgree(LoweredItems(s[0]), u + x, LoweredItems(t[0]), v + y);
      LoweredAgree(s[0], t[0]);
      LoweredListsAgree(s[1..], x, t[1..], y);
      assert s == [s[0]] + s[1..] && t == [t[0]] + t[1..];
    }
  }

  /** What comes behind a list of methods does not start one. */
  predicate EndsMethods(x: seq<string>) {
    x == [] || x[0] != METHOD
  }

  lemma MethodsAgree(m: Method, x: seq<string>, n: Method, y: seq<string>)
    requires MethodItems(m) + x == MethodItems(n) + y && m.name == n.name
    ensures m == n && x == y
  {
    hide LoweredListItems;
    var h, g := MethodHead(m) + LoweredItems(m.result) + [ToString(|m.parameters|)],
                MethodHead(n) + LoweredItems(n.result) + [ToString(|n.parameters|)];
    ConcatAssociative(h, LoweredListItems(m.parameters), x);
    ConcatAssociative(g, LoweredListItems(n.parameters), y);
    HeadsAgree(h, LoweredListItems(m.parameters) + x, g, LoweredListItems(n.parameters) + y);
    MethodHeadsAgree(m, n);
    LoweredListsAgree(m.parameters, x, n.parameters, y);
  }

  lemma MethodHeadsAgree(m: Method, n: Method)
    requires MethodHead(m) + LoweredItems(m.result) + [ToString(|m.parameters|)]
          == MethodHead(n) + LoweredItems(n.result) + [ToString(|n.parameters|)]
    ensures m.symbol == n.symbol && m.target == n.target && m.signature == n.signature && m.isConst == n.isConst
    ensures m.callingConvention == n.callingConvention && m.exceptions == n.exceptions && m.result == n.result
    ensures |m.parameters| == |n.parameters|
  {
    hide LoweredItems, TargetWord, ConstWord, ToString;
    var h, g := MethodHead(m), MethodHead(n);
    ConcatAssociative(h, LoweredItems(m.result), [ToString(|m.parameters|)]);
    ConcatAssociative(g, LoweredItems(n.result), [ToString(|n.parameters|)]);
    HeadsAgree(h, LoweredItems(m.result) + [ToString(|m.parameters|)], g,
               LoweredItems(n.result) + [ToString(|n.parameters|)]);
    assert h[1] == g[1] && h[2] == g[2] && h[3] == g[3] && h[4] == g[4] && h[5] == g[5] && h[6] == g[6];
    TailsAgree(m, n);
    WordsDiffer(m.target, n.target, m.isConst, n.isConst, true, true);
  }

  lemma TailsAgree(m: Method, n: Method)
    requires LoweredItems(m.result) + [ToString(|m.parameters|)] == LoweredItems(n.result) + [ToString(|n.parameters|)]
    ensures m.result == n.result && |m.parameters| == |n.parameters|
  {
    HeadsAgree(LoweredItems(m.result), [ToString(|m.parameters|)], LoweredItems(n.result), [ToString(|n.parameters|)]);
    LoweredAgree(m.result, n.result);
    assert [ToString(|m.parameters|)][0] == [ToString(|n.parameters|)][0];
    ToStringIsInjective(|m.parameters|, |n.parameters|);
  }

  lemma WordsDiffer(s: Target, t: Target, a: bool, b: bool, c: bool, d: bool)
    requires TargetWord(s) == TargetWord(t) && ConstWord(a) == ConstWord(b) && OwnedWord(c) == OwnedWord(d)
    ensures s == t && a == b && c == d
  {
    assert |TargetWord(C)| == 1 && TargetWord(CSharp)[0] == 'c' && TargetWord(FSharp)[0] == 'f';
    assert |ConstWord(true)| == 5 && |ConstWord(false)| == 7;
    assert |OwnedWord(true)| > 8 && |OwnedWord(false)| == 8;
  }

  // What is accepted

  function SymbolPrefix(moduleName: string, className: string): string {
    "reflgen_" + moduleName + "_" + Flatten(className) + "_"
  }

  /** Methods have the symbols that are made for them, and fields of layouts have identifiers for names. */
  ghost predicate IsAccepted(i: Interface) {
    && (forall c :: c in i.classes ==> HasSymbols(c.methods, SymbolPrefix(i.options.moduleName, c.name)))
    && forall l :: l in i.layouts ==> HasIdentifiers(l.fields)
  }

  ghost predicate HasSymbols(methods: seq<Method>, prefix: string) {
    forall m :: m in methods ==> m.symbol == prefix + m.name
  }

  ghost predicate HasIdentifiers(fields: seq<LayoutField>) {
    forall f :: f in fields ==> IsIdentifier(f.name)
  }

  // Lists without a count

  lemma MethodStarts(ms: seq<Method>, x: seq<string>)
    ensures ms == [] ==> MethodListItems(ms) + x == x
    ensures ms != [] ==> MethodListItems(ms) + x == MethodItems(ms[0]) + (MethodListItems(ms[1..]) + x)
    ensures ms != [] ==> |MethodListItems(ms) + x| > 0 && (MethodListItems(ms) + x)[0] == METHOD
  {
    if ms != [] {
      ConcatAssociative(MethodItems(ms[0]), MethodListItems(ms[1..]), x);
    }
  }

  lemma SameName(prefix: string, m: Method, n: Method)
    requires m.symbol == prefix + m.name && n.symbol == prefix + n.name && m.symbol == n.symbol
    ensures m.name == n.name
  {
    assert m.name == m.symbol[|prefix|..] && n.name == n.symbol[|prefix|..];
  }

  /** The symbol is the second item of a method. */
  lemma SymbolOfItems(m: Method, x: seq<string>)
    ensures |MethodItems(m) + x| > 1 && (MethodItems(m) + x)[1] == m.symbol
  {
  }

  lemma {:induction false} MethodListsAgree(a: seq<Method>, x: seq<string>, b: seq<Method>, y: seq<string>, prefix: string)
    requires MethodListItems(a) + x == MethodListItems(b) + y && EndsMethods(x) && EndsMethods(y)
    requires HasSymbols(a, prefix) && HasSymbols(b, prefix)
    ensures a == b && x == y
    decreases |a|
  {
    hide MethodItems, MethodListItems;
    MethodStarts(a, x);
    MethodStarts(b, y);
    if a != [] && b != [] {
      var u, v := MethodListItems(a[1..]) + x, MethodListItems(b[1..]) + y;
      SymbolOfItems(a[0], u);
      SymbolOfItems(b[0], v);
      SameName(prefix, a[0], b[0]);
      MethodsAgree(a[0], u, b[0], v);
      MethodListsAgree(a[1..], x, b[1..], y, prefix);
      assert a == [a[0]] + a[1..] && b == [b[0]] + b[1..];
    }
  }

  predicate EndsClasses(x: seq<string>) {
    x == [] || x[0] == LAYOUT
  }

  lemma ClassStarts(cs: seq<Class>, x: seq<string>)
    ensures cs == [] ==> ClassListItems(cs) + x == x
    ensures cs != [] ==>
              ClassListItems(cs) + x
              == ClassHead(cs[0]) + (MethodListItems(cs[0].methods) + (ClassListItems(cs[1..]) + x))
    ensures cs != [] ==> |ClassListItems(cs) + x| > 0 && (ClassListItems(cs) + x)[0] == CLASS
  {
    hide MethodListItems;
    if cs != [] {
      var m, rest := MethodListItems(cs[0].methods), ClassListItems(cs[1..]);
      ConcatAssociative(ClassHead(cs[0]) + m, rest, x);
      ConcatAssociative(ClassHead(cs[0]), m, rest + x);
    }
  }

  lemma {:induction false} ClassListsAgree(a: seq<Class>, x: seq<string>, b: seq<Class>, y: seq<string>, moduleName: string)
    requires ClassListItems(a) + x == ClassListItems(b) + y && EndsClasses(x) && EndsClasses(y)
    requires forall c :: c in a || c in b ==> HasSymbols(c.methods, SymbolPrefix(moduleName, c.name))
    ensures a == b && x == y
    decreases |a|
  {
    hide ClassListItems, MethodListItems, SymbolPrefix, HasSymbols;
    ClassStarts(a, x);
    ClassStarts(b, y);
    if a != [] && b != [] {
      var u, v := ClassListItems(a[1..]) + x, ClassListItems(b[1..]) + y;
      ClassStarts(a[1..], x);
      ClassStarts(b[1..], y);
      HeadsAgree(ClassHead(a[0]), MethodListItems(a[0].methods) + u, ClassHead(b[0]), MethodListItems(b[0].methods) + v);
      ClassHeadsAgree(a[0], b[0]);
      assert a[0] in a && b[0] in b;
      MethodListsAgree(a[0].methods, u, b[0].methods, v, SymbolPrefix(moduleName, a[0].name));
      ClassListsAgree(a[1..], x, b[1..], y, moduleName);
      assert a == [a[0]] + a[1..] && b == [b[0]] + b[1..];
    }
  }

  lemma ClassHeadsAgree(c: Class, d: Class)
    requires ClassHead(c) == ClassHead(d)
    ensures c.name == d.name && c.target == d.target && c.owned == d.owned
  {
    hide TargetWord, OwnedWord;
    var h, g := ClassHead(c), ClassHead(d);
    assert h[1] == g[1] && h[2] == g[2] && h[3] == g[3];
    WordsDiffer(c.target, d.target, true, true, c.owned, d.owned);
  }

  lemma FieldStarts(fs: seq<LayoutField>, x: seq<string>)
    ensures fs == [] ==> FieldListItems(fs) + x == x
    ensures fs != [] ==> FieldListItems(fs) + x == FieldItems(fs[0]) + (FieldListItems(fs[1..]) + x)
    ensures fs != [] ==> |FieldListItems(fs) + x| > 0 && (FieldListItems(fs) + x)[0] == fs[0].name
  {
    if fs != [] {
      ConcatAssociative(FieldItems(fs[0]), FieldListItems(fs[1..]), x);
    }
  }

  lemma FieldsAgree(f: LayoutField, g: LayoutField)
    requires FieldItems(f) == FieldItems(g)
    ensures f == g
  {
    hide LoweredItems, Signed;
    var a, b := FieldItems(f), FieldItems(g);
    HeadsAgree([f.name, Signed(f.offset)], LoweredItems(f.lowered), [g.name, Signed(g.offset)], LoweredItems(g.lowered));
    assert [f.name, Signed(f.offset)][0] == [g.name, Signed(g.offset)][0];
    assert [f.name, Signed(f.offset)][1] == [g.name, Signed(g.offset)][1];
    SignedIsInjective(f.offset, g.offset);
    LoweredAgree(f.lowered, g.lowered);
  }

  /** The word that starts a layout is no identifier, so a field is told from the next layout. */
  lemma LayoutIsNoIdentifier()
    ensures !IsIdentifier(LAYOUT)
  {
    assert LAYOUT[6] == '-';
  }

  lemma {:induction false} FieldListsAgree(a: seq<LayoutField>, x: seq<string>, b: seq<LayoutField>, y: seq<string>)
    requires FieldListItems(a) + x == FieldListItems(b) + y && EndsClasses(x) && EndsClasses(y)
    requires HasIdentifiers(a) && HasIdentifiers(b)
    ensures a == b && x == y
    decreases |a|
  {
    hide FieldItems, FieldListItems, IsIdentifier;
    FieldStarts(a, x);
    FieldStarts(b, y);
    LayoutIsNoIdentifier();
    assert a != [] ==> a[0] in a;
    assert b != [] ==> b[0] in b;
    if a != [] && b != [] {
      FieldLength(a[0], b[0]);
      HeadsAgree(FieldItems(a[0]), FieldListItems(a[1..]) + x, FieldItems(b[0]), FieldListItems(b[1..]) + y);
      FieldsAgree(a[0], b[0]);
      FieldListsAgree(a[1..], x, b[1..], y);
      assert a == [a[0]] + a[1..] && b == [b[0]] + b[1..];
    }
  }

  lemma FieldLength(f: LayoutField, g: LayoutField)
    ensures |FieldItems(f)| == |FieldItems(g)| == 7
  {
  }

  lemma LayoutStarts(ls: seq<Layout>)
    ensures ls != [] ==> LayoutListItems(ls) == LayoutHead(ls[0]) + (FieldListItems(ls[0].fields) + LayoutListItems(ls[1..]))
    ensures EndsClasses(LayoutListItems(ls)) && (ls == [] <==> LayoutListItems(ls) == [])
  {
    hide FieldListItems;
    if ls != [] {
      ConcatAssociative(LayoutHead(ls[0]), FieldListItems(ls[0].fields), LayoutListItems(ls[1..]));
    }
  }

  lemma LayoutHeadsAgree(l: Layout, m: Layout)
    requires LayoutHead(l) == LayoutHead(m)
    ensures l.name == m.name && l.declaration == m.declaration && l.size == m.size && l.align == m.align
  {
    hide Signed;
    var h, g := LayoutHead(l), LayoutHead(m);
    assert h[1] == g[1] && h[2] == g[2] && h[3] == g[3] && h[4] == g[4];
    SignedIsInjective(l.size, m.size);
    SignedIsInjective(l.align, m.align);
  }

  lemma {:induction false} LayoutListsAgree(a: seq<Layout>, b: seq<Layout>)
    requires LayoutListItems(a) == LayoutListItems(b)
    requires forall l :: l in a || l in b ==> HasIdentifiers(l.fields)
    ensures a == b
    decreases |a|
  {
    hide LayoutListItems, FieldListItems, HasIdentifiers;
    LayoutStarts(a);
    LayoutStarts(b);
    if a != [] {
      LayoutStarts(a[1..]);
      LayoutStarts(b[1..]);
      var u, v := LayoutListItems(a[1..]), LayoutListItems(b[1..]);
      HeadsAgree(LayoutHead(a[0]), FieldListItems(a[0].fields) + u, LayoutHead(b[0]), FieldListItems(b[0].fields) + v);
      LayoutHeadsAgree(a[0], b[0]);
      assert a[0] in a && b[0] in b;
      FieldListsAgree(a[0].fields, u, b[0].fields, v);
      LayoutListsAgree(a[1..], b[1..]);
      assert a == [a[0]] + a[1..] && b == [b[0]] + b[1..];
    }
  }

  // The contract

  lemma OptionsAgree(o: Options, p: Options)
    requires OptionItems(o) == OptionItems(p)
    ensures o == p
  {
    hide Signed;
    var h, g := OptionItems(o), OptionItems(p);
    assert h[1] == g[1] && h[2] == g[2] && h[3] == g[3] && h[4] == g[4] && h[5] == g[5];
    SignedIsInjective(o.pointerWidth, p.pointerWidth);
  }

  /** Accepted interfaces with equal contracts are equal, though methods and fields are listed without a count. */
  lemma ContractIsInjective(i: Interface, j: Interface)
    requires IsAccepted(i) && IsAccepted(j) && Contract(i) == Contract(j)
    ensures i == j
  {
    hide Join, ClassListItems, LayoutListItems, HasSymbols, HasIdentifiers, SymbolPrefix;
    var c, d := ClassListItems(i.classes), ClassListItems(j.classes);
    var l, m := LayoutListItems(i.layouts), LayoutListItems(j.layouts);
    JoinIsInjective(OptionItems(i.options) + c + l, OptionItems(j.options) + d + m);
    ConcatAssociative(OptionItems(i.options), c, l);
    ConcatAssociative(OptionItems(j.options), d, m);
    HeadsAgree(OptionItems(i.options), c + l, OptionItems(j.options), d + m);
    OptionsAgree(i.options, j.options);
    LayoutStarts(i.layouts);
    LayoutStarts(j.layouts);
    ClassListsAgree(i.classes, l, j.classes, m, i.options.moduleName);
    LayoutListsAgree(i.layouts, j.layouts);
  }
}
