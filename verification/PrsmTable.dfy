/** The native table of a module, the check of it at run time, and the symbols that tie the two together. */
module PrsmTable {
  import opened Bytes
  import opened Netstrings
  import opened Permutations
  import opened PrsmModel
  import opened PrsmAcceptance
  import opened PrsmBuilder

  // Symbols

  datatype Member = MethodNamed(name: string) | OwnerIngress

  const PREFIX := "ce_prsm_bind_"

  function MemberText(member: Member): string
    requires member.MethodNamed? ==> IsNarrow(member.name)
  {
    if member.OwnerIngress? then "owner" else Hex(member.name)
  }

  function Symbol(moduleName: string, typeName: string, member: Member): string
    requires IsNarrow(moduleName) && IsNarrow(typeName) && (member.MethodNamed? ==> IsNarrow(member.name))
  {
    PREFIX + Hex(moduleName) + "_" + Hex(typeName) + "_" + MemberText(member)
  }

  /** A symbol tells its module, its type and its member. */
  lemma SymbolsAreInjective(m: string, t: string, x: Member, n: string, u: string, y: Member)
    requires IsNarrow(m) && IsNarrow(t) && (x.MethodNamed? ==> IsNarrow(x.name))
    requires IsNarrow(n) && IsNarrow(u) && (y.MethodNamed? ==> IsNarrow(y.name))
    requires Symbol(m, t, x) == Symbol(n, u, y)
    ensures m == n && t == u && x == y
  {
    hide Hex, MemberText;
    var a, b := Hex(t) + "_" + MemberText(x), Hex(u) + "_" + MemberText(y);
    assert Symbol(m, t, x) == PREFIX + (Hex(m) + "_" + a);
    assert Symbol(n, u, y) == PREFIX + (Hex(n) + "_" + b);
    assert Hex(m) + "_" + a == Symbol(m, t, x)[|PREFIX|..];
    assert Hex(n) + "_" + b == Symbol(n, u, y)[|PREFIX|..];
    HexHasNoUnderscore(m);
    HexHasNoUnderscore(n);
    PartEnds(Hex(m), a, Hex(n), b, '_');
    HexHasNoUnderscore(t);
    HexHasNoUnderscore(u);
    PartEnds(Hex(t), MemberText(x), Hex(u), MemberText(y), '_');
    HexIsInjective(m, n);
    HexIsInjective(t, u);
    MembersDiffer(x, y);
  }

  lemma MembersDiffer(x: Member, y: Member)
    requires (x.MethodNamed? ==> IsNarrow(x.name)) && (y.MethodNamed? ==> IsNarrow(y.name))
    requires MemberText(x) == MemberText(y)
    ensures x == y
  {
    assert "owner"[0] == 'o' && !IsHexDigit('o');
    if x.MethodNamed? && y.MethodNamed? {
      HexIsInjective(x.name, y.name);
    }
  }

  /** The member a callable stands for, and the type it is in. */
  function OwnerType(c: Callable): string {
    if c.operation == Owner then c.handleResult else c.receiver
  }

  function MemberFor(c: Callable): Member {
    if c.operation == Owner then OwnerIngress else MethodNamed(c.cppName)
  }

  /** Every callable has the symbol that its module, type and member give. */
  ghost predicate IsLowered(m: Input) {
    && IsNarrow(m.name)
    && forall c :: c in m.callables ==>
         && IsNarrow(OwnerType(c)) && (c.operation != Owner ==> IsNarrow(c.cppName))
         && c.symbol == Symbol(m.name, OwnerType(c), MemberFor(c))
  }

  // Tables

  const DIGEST_BYTES := 32

  datatype Entry = Entry(symbol: Option<string>, length: U32, digest: seq<Byte>, address: nat)

  /** What a module exports: a pointer and a count. */
  datatype View = View(entries: Option<seq<Entry>>, count: U32)

  predicate IsDigest(h: string) {
    |h| == 64 && forall i :: 0 <= i < |h| ==> IsHexDigit(h[i])
  }

  function DigestBytes(h: string): (bytes: seq<Byte>)
    requires |h| % 2 == 0 && forall i :: 0 <= i < |h| ==> IsHexDigit(h[i])
    ensures |bytes| == |h| / 2
  {
    seq(|h| / 2, k requires 0 <= k < |h| / 2 => PairAt(h, k))
  }

  /** The byte that two digits write, the upper half first. */
  function PairAt(h: string, k: nat): Byte
    requires 2 * k + 1 < |h| && IsHexDigit(h[2 * k]) && IsHexDigit(h[2 * k + 1])
  {
    HexValue(h[2 * k]) * 16 + HexValue(h[2 * k + 1])
  }

  lemma HexPairsDiffer(a: char, b: char, c: char, d: char)
    requires IsHexDigit(a) && IsHexDigit(b) && IsHexDigit(c) && IsHexDigit(d)
    requires HexValue(a) * 16 + HexValue(b) == HexValue(c) * 16 + HexValue(d)
    ensures a == c && b == d
  {
    assert HexValue(a) == HexValue(c) && HexValue(b) == HexValue(d);
    assert HexDigit(HexValue(a)) == HexDigit(HexValue(c));
    assert HexDigit(HexValue(b)) == HexDigit(HexValue(d));
  }

  /** The bytes of a digest are as good as its text. */
  lemma DigestsDiffer(g: string, h: string)
    requires |g| % 2 == 0 && forall i :: 0 <= i < |g| ==> IsHexDigit(g[i])
    requires |h| % 2 == 0 && forall i :: 0 <= i < |h| ==> IsHexDigit(h[i])
    requires DigestBytes(g) == DigestBytes(h)
    ensures g == h
  {
    hide HexValue, HexDigit;
    assert |DigestBytes(g)| == |DigestBytes(h)|;
    forall i | 0 <= i < |g|
      ensures g[i] == h[i]
    {
      var k := i / 2;
      assert DigestBytes(g)[k] == PairAt(g, k) && DigestBytes(h)[k] == PairAt(h, k);
      HexPairsDiffer(g[2 * k], g[2 * k + 1], h[2 * k], h[2 * k + 1]);
    }
  }

  predicate IsDigitOf(c: char, n: nat) {
    if n < 10 then c as nat == '0' as nat + n else c as nat == 'a' as nat + (n - 10)
  }

  /** Every byte is spelled by two digits of the text, the higher one first. */
  lemma DigestIsSpelled(h: string, k: nat)
    requires |h| % 2 == 0 && (forall i :: 0 <= i < |h| ==> IsHexDigit(h[i])) && k < |h| / 2
    ensures IsDigitOf(h[2 * k], DigestBytes(h)[k] / 16) && IsDigitOf(h[2 * k + 1], DigestBytes(h)[k] % 16)
  {
    hide HexValue;
    assert DigestBytes(h)[k] == HexValue(h[2 * k]) * 16 + HexValue(h[2 * k + 1]);
    ValueIsOfDigit(h[2 * k]);
    ValueIsOfDigit(h[2 * k + 1]);
  }

  lemma ValueIsOfDigit(c: char)
    requires IsHexDigit(c)
    ensures HexValue(c) < 16 && IsDigitOf(c, HexValue(c))
  {
  }

  method EmitDigest(h: string) returns (bytes: seq<Byte>)
    requires IsDigest(h)
    ensures bytes == DigestBytes(h) && |bytes| == DIGEST_BYTES
  {
    hide IsHexDigit;
    bytes := [];
    var i := 0;
    while i < |h|
      invariant i == 2 * |bytes| <= |h|
      invariant forall k :: 0 <= k < |bytes| ==> bytes[k] == DigestBytes(h)[k]
    {
      assert DigestBytes(h)[|bytes|] == PairAt(h, |bytes|);
      bytes := bytes + [HexValue(h[i]) * 16 + HexValue(h[i + 1])];
      i := i + 2;
    }
  }

  /** The entry of a call; its address is where the native function is linked. */
  function EntryOf(c: Contract, address: string -> nat): Entry
    requires IsDigest(c.digest) && |c.declaration.symbol| <= 4096
  {
    Entry(Some(c.declaration.symbol), |c.declaration.symbol|, DigestBytes(c.digest), address(c.declaration.symbol))
  }

  ghost predicate CanBeEmitted(m: Module) {
    forall i :: 0 <= i < |m.calls| ==> IsDigest(m.calls[i].digest) && |m.calls[i].declaration.symbol| <= 4096
  }

  function Entries(m: Module, address: string -> nat): (entries: seq<Entry>)
    requires CanBeEmitted(m)
    ensures |entries| == |m.calls|
  {
    seq(|m.calls|, i requires 0 <= i < |m.calls| => EntryOf(m.calls[i], address))
  }

  /** The table of a module; an empty module has no entries to point to. */
  method EmitTable(m: Module, address: string -> nat) returns (view: View)
    requires CanBeEmitted(m) && |m.calls| < 0x1_0000_0000
    ensures view == ViewOf(m, address)
  {
    if m.calls == [] {
      return View(None, 0);
    }
    var entries := [];
    for i := 0 to |m.calls|
      invariant entries == Entries(m, address)[..i]
    {
      var c := m.calls[i];
      var digest := EmitDigest(c.digest);
      entries := entries + [Entry(Some(c.declaration.symbol), |c.declaration.symbol|, digest,
                                  address(c.declaration.symbol))];
    }
    assert Entries(m, address)[..|m.calls|] == Entries(m, address);
    return View(Some(entries), |m.calls|);
  }

  function ViewOf(m: Module, address: string -> nat): View
    requires CanBeEmitted(m) && |m.calls| < 0x1_0000_0000
  {
    View(if m.calls == [] then None else Some(Entries(m, address)), |m.calls|)
  }

  // The check

  datatype Status = OK | InvalidArgument | AbiMismatch

  predicate Matches(e: Entry, symbol: string, length: nat)
    requires length <= |symbol|
  {
    && e.length == length && e.symbol.Some? && length <= |e.symbol.value|
    && e.symbol.value[..length] == symbol[..length]
  }

  /** Compiled tables: what a pointer points to is there. */
  predicate IsTrusted(v: View) {
    v.entries.Some? ==>
      && v.count <= |v.entries.value|
      && forall i :: 0 <= i < |v.entries.value| ==> IsTrustedEntry(v.entries.value[i])
  }

  predicate IsTrustedEntry(e: Entry) {
    (e.symbol.Some? ==> e.length <= |e.symbol.value|) && |e.digest| == DIGEST_BYTES
  }

  predicate IsUsable(v: View) {
    v.count <= 4096 && (v.count > 0 ==> v.entries.Some?)
  }

  /** The entries that a view counts. */
  function Counted(v: View): seq<Entry> {
    if v.entries.Some? && v.count <= |v.entries.value| then v.entries.value[..v.count] else []
  }

  function Flat(views: seq<View>): seq<Entry> {
    if views == [] then [] else Flat(views[..|views| - 1]) + Counted(views[|views| - 1])
  }

  ghost predicate IsOnlyMatch(entries: seq<Entry>, k: nat, symbol: string, length: nat)
    requires length <= |symbol|
  {
    && k < |entries| && Matches(entries[k], symbol, length)
    && forall i :: 0 <= i < |entries| && Matches(entries[i], symbol, length) ==> i == k
  }

  /** What the scan knows after some entries: the one that matched, if any did. */
  ghost predicate Scanned(entries: seq<Entry>, found: Option<Entry>, symbol: string, length: nat)
    requires length <= |symbol|
  {
    match found
    case None => forall i :: 0 <= i < |entries| ==> !Matches(entries[i], symbol, length)
    case Some(e) => exists k :: 0 <= k < |entries| && entries[k] == e && IsOnlyMatch(entries, k, symbol, length)
  }

  ghost predicate HasTwo(entries: seq<Entry>, symbol: string, length: nat)
    requires length <= |symbol|
  {
    exists i, j :: 0 <= i < j < |entries| && Matches(entries[i], symbol, length) && Matches(entries[j], symbol, length)
  }

  lemma ScannedMore(entries: seq<Entry>, found: Option<Entry>, e: Entry, symbol: string, length: nat)
    requires length <= |symbol|
    requires Scanned(entries, found, symbol, length)
    ensures !Matches(e, symbol, length) ==> Scanned(entries + [e], found, symbol, length)
    ensures Matches(e, symbol, length) && found.None? ==> Scanned(entries + [e], Some(e), symbol, length)
    ensures Matches(e, symbol, length) && found.Some? ==> HasTwo(entries + [e], symbol, length)
  {
    var all := entries + [e];
    assert all[|entries|] == e;
    assert forall i :: 0 <= i < |entries| ==> all[i] == entries[i];
    if found.Some? {
      var k :| 0 <= k < |entries| && entries[k] == found.value && IsOnlyMatch(entries, k, symbol, length);
      if !Matches(e, symbol, length) {
        assert IsOnlyMatch(all, k, symbol, length);
      }
    } else if Matches(e, symbol, length) {
      assert IsOnlyMatch(all, |entries|, symbol, length);
    }
  }

  /** Two matches among the first entries are two among all. */
  lemma TwoOfMore(entries: seq<Entry>, more: seq<Entry>, symbol: string, length: nat)
    requires length <= |symbol|
    requires entries <= more && HasTwo(entries, symbol, length)
    ensures forall k: nat :: !IsOnlyMatch(more, k, symbol, length)
  {
    var i, j :| 0 <= i < j < |entries| && Matches(entries[i], symbol, length) && Matches(entries[j], symbol, length);
    assert more[i] == entries[i] && more[j] == entries[j];
  }

  /** The entry that alone has the symbol has an address and the digest. */
  ghost predicate IsBound(views: seq<View>, symbol: string, length: nat, digest: seq<Byte>)
    requires length <= |symbol| && |digest| >= DIGEST_BYTES
  {
    && (forall i :: 0 <= i < |views| ==> IsUsable(views[i]))
    && exists k: nat :: IsOnlyMatch(Flat(views), k, symbol, length)
                   && Flat(views)[k].address != 0 && Flat(views)[k].digest == digest[..DIGEST_BYTES]
  }

  predicate HasArguments(tables: Option<seq<View>>, tableCount: U32, symbol: Option<string>, length: U32,
                         digest: Option<seq<Byte>>) {
    tables.Some? && symbol.Some? && digest.Some? && 0 < length <= 4096 && tableCount <= 4096
  }

  /** The scan over all entries of all tables; it stops at an unusable table and at a second match. */
  method ValidateBinding(tables: Option<seq<View>>, tableCount: U32, symbol: Option<string>, length: U32,
                         digest: Option<seq<Byte>>) returns (status: Status)
    requires tables.Some? ==> tableCount <= |tables.value| && forall i :: 0 <= i < tableCount ==> IsTrusted(tables.value[i])
    requires symbol.Some? ==> length <= |symbol.value|
    requires digest.Some? ==> |digest.value| >= DIGEST_BYTES
    ensures status == InvalidArgument <==> !HasArguments(tables, tableCount, symbol, length, digest)
    ensures status == OK <==>
              && HasArguments(tables, tableCount, symbol, length, digest)
              && IsBound(tables.value[..tableCount], symbol.value, length, digest.value)
  {
    hide Scanned, HasTwo, IsOnlyMatch, Flat, IsTrusted, Matches;
    if tables.None? || symbol.None? || digest.None? || length == 0 || length > 4096 || tableCount > 4096 {
      return InvalidArgument;
    }
    ghost var views := tables.value[..tableCount];
    var found: Option<Entry> := None;
    NothingScanned(symbol.value, length);
    for t := 0 to tableCount
      invariant Scanned(Flat(views[..t]), found, symbol.value, length)
      invariant forall i :: 0 <= i < t ==> IsUsable(views[i])
    {
      var view := tables.value[t];
      if view.count > 4096 || (view.count > 0 && view.entries.None?) {
        assert !IsUsable(views[t]);
        return AbiMismatch;
      }
      var stop;
      found, stop := ScanTable(view, Flat(views[..t]), found, symbol.value, length);
      FlatMore(views, t);
      if stop {
        TwoOfMore(Flat(views[..t + 1]), Flat(views), symbol.value, length);
        return AbiMismatch;
      }
    }
    assert views[..tableCount] == views;
    OnlyFound(Flat(views), found, symbol.value, length);
    return if found.Some? && found.value.address != 0 && found.value.digest == digest.value[..DIGEST_BYTES] then OK
           else AbiMismatch;
  }

  lemma NothingScanned(symbol: string, length: nat)
    requires length <= |symbol|
    ensures Scanned(Flat([]), None, symbol, length)
  {
  }

  lemma FlatMore(views: seq<View>, t: nat)
    requires t < |views|
    ensures Flat(views[..t + 1]) == Flat(views[..t]) + Counted(views[t])
    ensures Flat(views[..t + 1]) <= Flat(views)
  {
    assert views[..t + 1][..t] == views[..t];
    FlatPrefix(views, t + 1);
  }

  lemma {:induction false} FlatPrefix(views: seq<View>, t: nat)
    requires t <= |views|
    ensures Flat(views[..t]) <= Flat(views)
    decreases |views|
  {
    if t < |views| {
      FlatPrefix(views[..|views| - 1], t);
      assert views[..|views| - 1][..t] == views[..t];
    } else {
      assert views[..t] == views;
    }
  }

  /** The entry found is the only match there is, and without one there is none. */
  lemma OnlyFound(entries: seq<Entry>, found: Option<Entry>, symbol: string, length: nat)
    requires length <= |symbol| && Scanned(entries, found, symbol, length)
    ensures found.None? ==> forall k: nat :: !IsOnlyMatch(entries, k, symbol, length)
    ensures found.Some? ==> exists k: nat :: IsOnlyMatch(entries, k, symbol, length)
    ensures found.Some? ==> forall k: nat :: IsOnlyMatch(entries, k, symbol, length) ==> entries[k] == found.value
  {
  }

  /** The inner loop; `stop` tells that a second match came up. */
  method ScanTable(view: View, ghost before: seq<Entry>, start: Option<Entry>, symbol: string, length: nat)
      returns (found: Option<Entry>, stop: bool)
    requires IsTrusted(view) && IsUsable(view) && length <= |symbol| && Scanned(before, start, symbol, length)
    ensures !stop ==> Scanned(before + Counted(view), found, symbol, length)
    ensures stop ==> HasTwo(before + Counted(view), symbol, length)
  {
    hide Scanned, HasTwo, IsOnlyMatch;
    found, stop := start, false;
    assert before + Counted(view)[..0] == before;
    for i := 0 to view.count
      invariant Scanned(before + Counted(view)[..i], found, symbol, length)
    {
      var entry := view.entries.value[i];
      ghost var seen := before + Counted(view)[..i];
      assert before + Counted(view)[..i + 1] == seen + [entry];
      ScannedMore(seen, found, entry, symbol, length);
      if entry.length == length && entry.symbol.Some? && entry.symbol.value[..length] == symbol[..length] {
        if found.Some? {
          MoreOfTwo(seen + [entry], before + Counted(view), symbol, length);
          return found, true;
        }
        found := Some(entry);
      }
    }
    assert Counted(view)[..view.count] == Counted(view);
  }

  lemma MoreOfTwo(entries: seq<Entry>, more: seq<Entry>, symbol: string, length: nat)
    requires length <= |symbol| && entries <= more && HasTwo(entries, symbol, length)
    ensures HasTwo(more, symbol, length)
  {
    var i, j :| 0 <= i < j < |entries| && Matches(entries[i], symbol, length) && Matches(entries[j], symbol, length);
    assert more[i] == entries[i] && more[j] == entries[j];
  }

  // From accepted modules to the check

  /** Modules built from accepted inputs, each with its own name, whose callables have the symbols they should. */
  ghost predicate AreSelected(modules: seq<Module>) {
    && |modules| <= 4096
    && (forall i :: 0 <= i < |modules| ==> IsSelected(modules[i]))
    && (forall i, j :: 0 <= i < j < |modules| ==> modules[i].input.name != modules[j].input.name)
  }

  ghost predicate IsSelected(m: Module) {
    && Accepts(m.input) && IsLowered(m.input) && CanBeEmitted(m)
    && |m.calls| == |m.input.callables|
    && forall i :: 0 <= i < |m.calls| ==> m.calls[i].declaration == m.input.callables[i]
  }

  /** What the builder makes is a module like that, when its symbols and its digests are what they should be. */
  lemma BuiltIsSelected(r: Module, m: Input, digest: string -> string)
    requires Accepts(m) && IsLowered(m) && IsModuleOf(r, m, digest)
    requires forall d :: IsDigest(digest(d))
    ensures IsSelected(r)
  {
    hide IsDigest, SortedBy, DescriptorOf, HeaderFits, DeclarationsFit, GlobalsFit, MembersFit;
    AcceptancePermutes(r.input, m);
    forall c | c in r.input.callables
      ensures c in m.callables
    {
      InPermutes(r.input.callables, m.callables, c);
    }
    forall i | 0 <= i < |r.calls|
      ensures IsDigest(r.calls[i].digest) && |r.calls[i].declaration.symbol| <= 4096
    {
      assert r.input.callables[i] in r.input.callables;
      assert CallFits(r.input.types, r.input.values, r.input.callables[i]);
    }
  }

  function Views(modules: seq<Module>, address: string -> nat): (views: seq<View>)
    requires forall i :: 0 <= i < |modules| ==> CanBeEmitted(modules[i]) && |modules[i].calls| < 0x1_0000_0000
    ensures |views| == |modules|
  {
    seq(|modules|, i requires 0 <= i < |modules| => ViewOf(modules[i], address))
  }

  /** The call of some module has this symbol and this digest. */
  ghost predicate IsSelectedCall(modules: seq<Module>, symbol: string, digest: seq<Byte>) {
    exists i, j :: 0 <= i < |modules| && 0 <= j < |modules[i].calls| && IsCall(modules[i], j, symbol, digest)
  }

  ghost predicate IsCall(m: Module, j: nat, symbol: string, digest: seq<Byte>) {
    && j < |m.calls| && m.calls[j].declaration.symbol == symbol
    && IsDigest(m.calls[j].digest) && DigestBytes(m.calls[j].digest) == digest
  }

  lemma SelectedFits(m: Module)
    requires IsSelected(m)
    ensures CanBeEmitted(m) && |m.calls| <= 4096
  {
    hide DeclarationsFit, CallablesFit, GlobalsFit, IsLowered;
  }

  ghost predicate AllEmitted(modules: seq<Module>) {
    forall i :: 0 <= i < |modules| ==> CanBeEmitted(modules[i]) && |modules[i].calls| < 0x1_0000_0000
  }

  /** The entry is that of call `j` of module `i`. */
  ghost predicate IsEntryOf(modules: seq<Module>, address: string -> nat, e: Entry, i: nat, j: nat)
    requires AllEmitted(modules)
  {
    i < |modules| && j < |modules[i].calls| && Entries(modules[i], address)[j] == e
  }

  lemma FlatAppend(modules: seq<Module>, address: string -> nat)
    requires AllEmitted(modules) && modules != []
    ensures AllEmitted(modules[..|modules| - 1])
    ensures Flat(Views(modules, address))
         == Flat(Views(modules[..|modules| - 1], address)) + Entries(modules[|modules| - 1], address)
  {
    var front, last := modules[..|modules| - 1], modules[|modules| - 1];
    assert Views(modules, address)[..|front|] == Views(front, address);
    CountedOfModule(last, address);
  }

  lemma NoneIsEmpty(modules: seq<Module>, address: string -> nat)
    requires AllEmitted(modules) && |Flat(Views(modules, address))| > 0
    ensures modules != []
  {
  }

  /** Entries of the flat table come from calls. */
  lemma {:induction false} FlatComesFromCalls(modules: seq<Module>, address: string -> nat, k: nat)
      returns (i: nat, j: nat)
    requires AllEmitted(modules) && k < |Flat(Views(modules, address))|
    ensures IsEntryOf(modules, address, Flat(Views(modules, address))[k], i, j)
    decreases |modules|
  {
    hide Entries, Flat, CanBeEmitted;
    NoneIsEmpty(modules, address);
    var front := modules[..|modules| - 1];
    FlatAppend(modules, address);
    if k < |Flat(Views(front, address))| {
      i, j := FlatComesFromCalls(front, address, k);
    } else {
      i, j := |front|, k - |Flat(Views(front, address))|;
    }
  }

  /** And each call has its entry. */
  lemma {:induction false} CallIsInFlat(modules: seq<Module>, address: string -> nat, i: nat, j: nat) returns (k: nat)
    requires AllEmitted(modules) && i < |modules| && j < |modules[i].calls|
    ensures k < |Flat(Views(modules, address))|
    ensures IsEntryOf(modules, address, Flat(Views(modules, address))[k], i, j)
    decreases |modules|
  {
    hide Entries, Flat, CanBeEmitted;
    var front := modules[..|modules| - 1];
    FlatAppend(modules, address);
    if i < |front| {
      k := CallIsInFlat(front, address, i, j);
    } else {
      k := |Flat(Views(front, address))| + j;
    }
  }

  lemma CountedOfModule(m: Module, address: string -> nat)
    requires CanBeEmitted(m) && |m.calls| < 0x1_0000_0000
    ensures Counted(ViewOf(m, address)) == Entries(m, address)
  {
  }

  /** No symbol is in the flat table twice. */
  lemma {:induction false} FlatSymbolsDiffer(modules: seq<Module>, address: string -> nat, k: nat, l: nat)
    requires AreSelected(modules) && AllEmitted(modules) && k < l < |Flat(Views(modules, address))|
    ensures Flat(Views(modules, address))[k].symbol != Flat(Views(modules, address))[l].symbol
    decreases |modules|
  {
    hide AreSelected, IsSelected, Entries, Flat, CanBeEmitted;
    NoneIsEmpty(modules, address);
    var front, last := modules[..|modules| - 1], modules[|modules| - 1];
    FrontIsSelected(modules);
    FlatAppend(modules, address);
    var n := |Flat(Views(front, address))|;
    if l < n {
      FlatSymbolsDiffer(front, address, k, l);
    } else if k < n {
      SymbolsAcross(modules, address, k, l - n);
    } else {
      SymbolsWithin(last, address, k - n, l - n);
    }
  }

  lemma FrontIsSelected(modules: seq<Module>)
    requires AreSelected(modules) && AllEmitted(modules) && modules != []
    ensures AreSelected(modules[..|modules| - 1]) && AllEmitted(modules[..|modules| - 1])
    ensures CanBeEmitted(modules[|modules| - 1]) && IsSelected(modules[|modules| - 1])
    ensures |modules[|modules| - 1].calls| < 0x1_0000_0000
  {
    hide IsSelected, CanBeEmitted;
  }

  /** An entry of an earlier module and one of the last. */
  lemma SymbolsAcross(modules: seq<Module>, address: string -> nat, k: nat, l: nat)
    requires AreSelected(modules) && AllEmitted(modules) && modules != [] && AllEmitted(modules[..|modules| - 1])
    requires k < |Flat(Views(modules[..|modules| - 1], address))| && l < |modules[|modules| - 1].calls|
    ensures Flat(Views(modules[..|modules| - 1], address))[k].symbol != Entries(modules[|modules| - 1], address)[l].symbol
  {
    hide IsSelected, Entries, Flat, CanBeEmitted;
    var front, last := modules[..|modules| - 1], modules[|modules| - 1];
    var i, j := FlatComesFromCalls(front, address, k);
    assert modules[i] == front[i];
    SymbolsOfModules(front[i], j, last, l);
    EntrySymbol(front[i], address, j);
    EntrySymbol(last, address, l);
  }

  /** Two entries of one module. */
  lemma SymbolsWithin(m: Module, address: string -> nat, k: nat, l: nat)
    requires IsSelected(m) && CanBeEmitted(m) && k < l < |m.calls|
    ensures Entries(m, address)[k].symbol != Entries(m, address)[l].symbol
  {
    hide IsSelected, Entries, CanBeEmitted;
    SymbolsOfModule(m, k, l);
    EntrySymbol(m, address, k);
    EntrySymbol(m, address, l);
  }

  lemma EntrySymbol(m: Module, address: string -> nat, j: nat)
    requires CanBeEmitted(m) && j < |m.calls|
    ensures Entries(m, address)[j].symbol == Some(m.calls[j].declaration.symbol)
    ensures Entries(m, address)[j].length == |m.calls[j].declaration.symbol|
    ensures IsDigest(m.calls[j].digest) && Entries(m, address)[j].digest == DigestBytes(m.calls[j].digest)
    ensures Entries(m, address)[j].address == address(m.calls[j].declaration.symbol)
  {
  }

  lemma SymbolsOfModule(m: Module, i: nat, j: nat)
    requires IsSelected(m) && i < j < |m.calls|
    ensures m.calls[i].declaration.symbol != m.calls[j].declaration.symbol
  {
    hide HeaderFits, DeclarationsFit, GlobalsFit, MembersFit, CallFits, IsLowered, CanBeEmitted;
    var symbols := Map(SymbolOf, m.input.callables);
    assert symbols[i] != symbols[j];
  }

  lemma SymbolsOfModules(m: Module, i: nat, n: Module, j: nat)
    requires IsSelected(m) && IsSelected(n) && m.input.name != n.input.name
    requires i < |m.calls| && j < |n.calls|
    ensures m.calls[i].declaration.symbol != n.calls[j].declaration.symbol
  {
    hide Accepts, CanBeEmitted, Symbol;
    var c, d := m.calls[i].declaration, n.calls[j].declaration;
    assert c in m.input.callables && d in n.input.callables;
    if c.symbol == d.symbol {
      SymbolsAreInjective(m.input.name, OwnerType(c), MemberFor(c), n.input.name, OwnerType(d), MemberFor(d));
    }
  }

  /** An entry has the symbol that its call has. */
  lemma MatchIsSymbol(e: Entry, symbol: string)
    requires e.symbol.Some? && e.length == |e.symbol.value|
    ensures Matches(e, symbol, |symbol|) <==> e.symbol == Some(symbol)
  {
    assert symbol[..|symbol|] == symbol;
    if |e.symbol.value| == |symbol| {
      assert e.symbol.value[..|symbol|] == e.symbol.value;
    }
  }

  lemma SelectedAreEmitted(modules: seq<Module>)
    requires AreSelected(modules)
    ensures AllEmitted(modules)
    ensures forall i :: 0 <= i < |modules| ==> |modules[i].calls| <= 4096
  {
    hide IsSelected, CanBeEmitted;
    forall i | 0 <= i < |modules|
      ensures CanBeEmitted(modules[i]) && |modules[i].calls| <= 4096
    {
      SelectedFits(modules[i]);
    }
  }

  lemma ViewsAreUsable(modules: seq<Module>, address: string -> nat)
    requires AllEmitted(modules) && forall i :: 0 <= i < |modules| ==> |modules[i].calls| <= 4096
    ensures forall i :: 0 <= i < |modules| ==> IsUsable(Views(modules, address)[i]) && IsTrusted(Views(modules, address)[i])
  {
    forall i | 0 <= i < |modules|
      ensures IsUsable(ViewOf(modules[i], address)) && IsTrusted(ViewOf(modules[i], address))
    {
      ViewIsUsable(modules[i], address);
    }
  }

  lemma ViewIsUsable(m: Module, address: string -> nat)
    requires CanBeEmitted(m) && |m.calls| <= 4096
    ensures IsUsable(ViewOf(m, address)) && IsTrusted(ViewOf(m, address))
  {
    forall j | 0 <= j < |m.calls|
      ensures IsTrustedEntry(Entries(m, address)[j])
    {
      EntrySymbol(m, address, j);
    }
  }

  /**
   Over the tables of any selected modules, linked at addresses that are not null, the check says OK for
   exactly the symbols and digests of their calls.
   */
  lemma BoundExactlyTheSelected(modules: seq<Module>, address: string -> nat, symbol: string, digest: seq<Byte>)
    requires AreSelected(modules) && |digest| == DIGEST_BYTES && 0 < |symbol| <= 4096
    requires forall s :: address(s) != 0
    ensures AllEmitted(modules)
    ensures IsBound(Views(modules, address), symbol, |symbol|, digest) <==> IsSelectedCall(modules, symbol, digest)
  {
    hide IsSelected, Flat, AreSelected, Entries, CanBeEmitted;
    SelectedAreEmitted(modules);
    ViewsAreUsable(modules, address);
    assert digest[..DIGEST_BYTES] == digest;
    if IsBound(Views(modules, address), symbol, |symbol|, digest) {
      BoundIsSelected(modules, address, symbol, digest);
    }
    if IsSelectedCall(modules, symbol, digest) {
      var i, j :| 0 <= i < |modules| && 0 <= j < |modules[i].calls| && IsCall(modules[i], j, symbol, digest);
      var k := SelectedIsBound(modules, address, symbol, digest, i, j);
    }
  }

  lemma BoundIsSelected(modules: seq<Module>, address: string -> nat, symbol: string, digest: seq<Byte>)
    requires AllEmitted(modules) && |digest| == DIGEST_BYTES
    requires IsBound(Views(modules, address), symbol, |symbol|, digest)
    ensures IsSelectedCall(modules, symbol, digest)
  {
    hide Flat, Entries;
    assert digest[..DIGEST_BYTES] == digest;
    var flat := Flat(Views(modules, address));
    var k: nat :| IsOnlyMatch(flat, k, symbol, |symbol|) && flat[k].address != 0 && flat[k].digest == digest;
    var i, j := FlatComesFromCalls(modules, address, k);
    EntrySymbol(modules[i], address, j);
    MatchIsSymbol(flat[k], symbol);
    assert IsCall(modules[i], j, symbol, digest);
  }

  lemma SelectedIsBound(modules: seq<Module>, address: string -> nat, symbol: string, digest: seq<Byte>, i: nat, j: nat)
      returns (k: nat)
    requires AreSelected(modules) && AllEmitted(modules) && |digest| == DIGEST_BYTES
    requires forall s :: address(s) != 0
    requires i < |modules| && IsCall(modules[i], j, symbol, digest)
    ensures IsOnlyMatch(Flat(Views(modules, address)), k, symbol, |symbol|)
    ensures Flat(Views(modules, address))[k].address != 0 && Flat(Views(modules, address))[k].digest == digest
  {
    hide Flat, Entries, AreSelected;
    k := CallIsInFlat(modules, address, i, j);
    var flat := Flat(Views(modules, address));
    EntrySymbol(modules[i], address, j);
    MatchIsSymbol(flat[k], symbol);
    forall l | 0 <= l < |flat| && Matches(flat[l], symbol, |symbol|)
      ensures l == k
    {
      var x, y := FlatComesFromCalls(modules, address, l);
      EntrySymbol(modules[x], address, y);
      MatchIsSymbol(flat[l], symbol);
      if l < k {
        FlatSymbolsDiffer(modules, address, l, k);
      } else if k < l {
        FlatSymbolsDiffer(modules, address, k, l);
      }
    }
  }
}
