/**
 Attributes as a grammar over tokens: balanced brackets, attributes, lists of attributes, groups. The
 definitions say what a group is without saying how one is found.
 */
module AttributeGrammar {
  import opened Bytes

  datatype TokenKind = Punctuation | Keyword | Identifier | Literal | Comment

  /** A token and its byte range in the file. */
  datatype Token = Token(kind: TokenKind, spelling: string, begin: nat, end: nat)

  /** `argumentsBegin` is behind the opening parenthesis, `argumentsEnd` before the closing one. */
  datatype Attribute = Attribute(scope: string, name: string, hasArguments: bool, argumentsBegin: nat,
                                 argumentsEnd: nat, begin: nat)

  datatype Group = Group(begin: nat, end: nat, attributes: seq<Attribute>)

  predicate Is(t: Token, spelling: string) {
    t.kind == Punctuation && t.spelling == spelling
  }

  predicate IsName(t: Token) {
    t.kind == Identifier || t.kind == Keyword
  }

  // Brackets

  predicate Opens(t: Token) {
    Is(t, "(") || Is(t, "[") || Is(t, "{")
  }

  predicate Closes(t: Token) {
    Is(t, ")") || Is(t, "]") || Is(t, "}")
  }

  /** The bracket that closes this one. */
  function Closer(t: Token): char
    requires Opens(t)
  {
    if t.spelling == "(" then ')' else if t.spelling == "[" then ']' else '}'
  }

  /** Every bracket in `[i, j)` is matched by one in `[i, j)`. */
  ghost predicate Balanced(ts: seq<Token>, i: nat, j: nat)
    requires i <= j <= |ts|
    decreases j - i, 1
  {
    || i == j
    || (!Opens(ts[i]) && !Closes(ts[i]) && Balanced(ts, i + 1, j))
    || exists k: nat :: i < k < j && Encloses(ts, i, k) && Balanced(ts, k + 1, j)
  }

  /** The bracket at `i` is matched by the one at `j`. */
  ghost predicate Encloses(ts: seq<Token>, i: nat, j: nat)
    requires i < j < |ts|
    decreases j - i, 0
  {
    Opens(ts[i]) && Closes(ts[j]) && ts[j].spelling[0] == Closer(ts[i]) && Balanced(ts, i + 1, j)
  }

  // The search for the matching bracket, as a stack machine

  /** Where the last of the expected closers comes, if nothing unexpected closes before. */
  function Unwound(ts: seq<Token>, i: nat, expected: seq<char>): (at: Option<nat>)
    requires i <= |ts| && expected != []
    ensures at.Some? ==> i <= at.value < |ts|
    decreases |ts| - i
  {
    if i == |ts| then None
    else if Opens(ts[i]) then Unwound(ts, i + 1, expected + [Closer(ts[i])])
    else if !Closes(ts[i]) then Unwound(ts, i + 1, expected)
    else if expected[|expected| - 1] != ts[i].spelling[0] then None
    else if |expected| == 1 then Some(i)
    else Unwound(ts, i + 1, expected[..|expected| - 1])
  }

  /** A balanced stretch leaves the stack as it was. */
  lemma {:induction false} UnwoundThrough(ts: seq<Token>, i: nat, j: nat, expected: seq<char>)
    requires i <= j <= |ts| && expected != [] && Balanced(ts, i, j)
    ensures Unwound(ts, i, expected) == Unwound(ts, j, expected)
    decreases j - i
  {
    if i < j {
      if !Opens(ts[i]) && !Closes(ts[i]) && Balanced(ts, i + 1, j) {
        UnwoundThrough(ts, i + 1, j, expected);
      } else {
        var k: nat :| i < k < j && Encloses(ts, i, k) && Balanced(ts, k + 1, j);
        var more := expected + [Closer(ts[i])];
        UnwoundThrough(ts, i + 1, k, more);
        assert more[..|more| - 1] == expected;
        UnwoundThrough(ts, k + 1, j, expected);
      }
    }
  }

  /** A search that succeeds meets the last expected closer first, behind a balanced stretch. */
  lemma {:induction false} FirstCloser(ts: seq<Token>, i: nat, expected: seq<char>) returns (k: nat)
    requires i <= |ts| && expected != [] && Unwound(ts, i, expected).Some?
    ensures i <= k <= Unwound(ts, i, expected).value
    ensures Balanced(ts, i, k) && Closes(ts[k]) && ts[k].spelling[0] == expected[|expected| - 1]
    ensures if |expected| == 1 then Unwound(ts, i, expected) == Some(k)
            else Unwound(ts, i, expected) == Unwound(ts, k + 1, expected[..|expected| - 1])
    decreases |ts| - i
  {
    if Opens(ts[i]) {
      var more := expected + [Closer(ts[i])];
      assert more[..|more| - 1] == expected;
      var l := FirstCloser(ts, i + 1, more);
      assert Encloses(ts, i, l);
      k := FirstCloser(ts, l + 1, expected);
    } else if !Closes(ts[i]) {
      k := FirstCloser(ts, i + 1, expected);
    } else {
      k := i;
    }
  }

  /** The search finds the bracket that matches, and only that. */
  lemma UnwoundIsEnclosing(ts: seq<Token>, i: nat, j: nat)
    requires i < |ts| && Opens(ts[i])
    ensures Unwound(ts, i + 1, [Closer(ts[i])]) == Some(j) <==> i < j < |ts| && Encloses(ts, i, j)
  {
    var expected := [Closer(ts[i])];
    if Unwound(ts, i + 1, expected) == Some(j) {
      var k := FirstCloser(ts, i + 1, expected);
    }
    if i < j < |ts| && Encloses(ts, i, j) {
      UnwoundThrough(ts, i + 1, j, expected);
    }
  }

  // Attributes

  /** The tokens `[i, h)` name an attribute, with the scope they give or the scope there is. */
  predicate IsHead(ts: seq<Token>, i: nat, h: nat, scope: string, a: Attribute) {
    && i < h <= |ts| && IsName(ts[i]) && a.begin == ts[i].begin
    && (|| (h == i + 1 && a.scope == scope && a.name == ts[i].spelling)
        || (h == i + 3 && Is(ts[i + 1], "::") && IsName(ts[i + 2])
            && a.scope == ts[i].spelling && a.name == ts[i + 2].spelling))
  }

  /** The tokens `[h, k)` are nothing, or arguments in parentheses. */
  ghost predicate IsTail(ts: seq<Token>, h: nat, k: nat, a: Attribute) {
    || (h == k && a.hasArguments == false && a.argumentsBegin == a.argumentsEnd == 0)
    || (h + 1 < k <= |ts| && Is(ts[h], "(") && Encloses(ts, h, k - 1)
        && a.hasArguments && a.argumentsBegin == ts[h].end && a.argumentsEnd == ts[k - 1].begin)
  }

  ghost predicate IsAttribute(ts: seq<Token>, i: nat, k: nat, scope: string, a: Attribute) {
    exists h: nat :: IsHead(ts, i, h, scope, a) && IsTail(ts, h, k, a)
  }

  /** Commas and attributes, in any order and number. */
  ghost predicate IsList(ts: seq<Token>, i: nat, j: nat, scope: string, attributes: seq<Attribute>)
    requires i <= j <= |ts|
    decreases j - i
  {
    || (i == j && attributes == [])
    || (i < j && Is(ts[i], ",") && IsList(ts, i + 1, j, scope, attributes))
    || (attributes != [] && exists k: nat :: i < k <= j && IsAttribute(ts, i, k, scope, attributes[0])
                                             && IsList(ts, k, j, scope, attributes[1..]))
  }

  predicate HasUsing(ts: seq<Token>, i: nat) {
    && i + 2 < |ts| && ts[i].kind == Keyword && ts[i].spelling == "using"
    && IsName(ts[i + 1]) && Is(ts[i + 2], ":")
  }

  predicate IsOpening(ts: seq<Token>, i: nat) {
    i + 1 < |ts| && Is(ts[i], "[") && Is(ts[i + 1], "[")
  }

  predicate IsClosing(ts: seq<Token>, i: nat) {
    i + 1 < |ts| && Is(ts[i], "]") && Is(ts[i + 1], "]")
  }

  /** The tokens `[i, j)` are two brackets, a list with or without a common scope, and two brackets. */
  ghost predicate IsGroup(ts: seq<Token>, i: nat, j: nat, g: Group) {
    && i + 4 <= j <= |ts| && IsOpening(ts, i) && IsClosing(ts, j - 2)
    && g.begin == ts[i].begin && g.end == ts[j - 1].end
    && (|| IsList(ts, i + 2, j - 2, "", g.attributes)
        || (HasUsing(ts, i + 2) && i + 5 <= j - 2 && IsList(ts, i + 5, j - 2, ts[i + 3].spelling, g.attributes)))
  }

  // Reading an attribute, a list and a group from the left

  /** The first attribute from `i`, and where it ends: the longest head, and arguments if there is a parenthesis. */
  function AttributeAt(ts: seq<Token>, i: nat, scope: string): (r: Option<(Attribute, nat)>)
    requires i < |ts| && IsName(ts[i])
    ensures r.Some? ==> i < r.value.1 <= |ts|
  {
    var scoped := i + 2 < |ts| && Is(ts[i + 1], "::") && IsName(ts[i + 2]);
    var h := if scoped then i + 3 else i + 1;
    var named := if scoped then Attribute(ts[i].spelling, ts[i + 2].spelling, false, 0, 0, ts[i].begin)
                 else Attribute(scope, ts[i].spelling, false, 0, 0, ts[i].begin);
    if h < |ts| && Is(ts[h], "(") then
      match Unwound(ts, h + 1, [')'])
      case None => None
      case Some(close) => Some((Called(named, ts[h].end, ts[close].begin), close + 1))
    else
      Some((named, h))
  }

  function Called(a: Attribute, begin: nat, end: nat): Attribute {
    a.(hasArguments := true, argumentsBegin := begin, argumentsEnd := end)
  }

  /** The attributes up to the closing brackets, and where those end. */
  function ListAt(ts: seq<Token>, i: nat, scope: string): (r: Option<(seq<Attribute>, nat)>)
    requires i <= |ts|
    ensures r.Some? ==> i + 2 <= r.value.1 <= |ts| && IsClosing(ts, r.value.1 - 2)
    decreases |ts| - i
  {
    if i == |ts| then None
    else if IsClosing(ts, i) then Some(([], i + 2))
    else if Is(ts[i], ",") then ListAt(ts, i + 1, scope)
    else if !IsName(ts[i]) then None
    else match AttributeAt(ts, i, scope)
         case None => None
         case Some((a, k)) => Prepended(a, ListAt(ts, k, scope))
  }

  function Prepended(a: Attribute, rest: Option<(seq<Attribute>, nat)>): Option<(seq<Attribute>, nat)> {
    match rest
    case None => None
    case Some((attributes, j)) => Some(([a] + attributes, j))
  }

  function GroupAt(ts: seq<Token>, i: nat): (r: Option<(Group, nat)>)
    requires IsOpening(ts, i)
    ensures r.Some? ==> i + 4 <= r.value.1 <= |ts|
  {
    var list := if HasUsing(ts, i + 2) then ListAt(ts, i + 5, ts[i + 3].spelling) else ListAt(ts, i + 2, "");
    match list
    case None => None
    case Some((attributes, j)) => Some((Group(ts[i].begin, ts[j - 1].end, attributes), j))
  }

  lemma AttributeAtIs(ts: seq<Token>, i: nat, scope: string)
    requires i < |ts| && IsName(ts[i]) && AttributeAt(ts, i, scope).Some?
    ensures var (a, k) := AttributeAt(ts, i, scope).value; IsAttribute(ts, i, k, scope, a)
  {
    var (a, k) := AttributeAt(ts, i, scope).value;
    var h := if i + 2 < |ts| && Is(ts[i + 1], "::") && IsName(ts[i + 2]) then i + 3 else i + 1;
    if h < |ts| && Is(ts[h], "(") {
      UnwoundIsEnclosing(ts, h, k - 1);
    }
    assert IsHead(ts, i, h, scope, a) && IsTail(ts, h, k, a);
  }

  /** An attribute is read as it is when what follows cannot belong to it. */
  lemma AttributeIsRead(ts: seq<Token>, i: nat, k: nat, scope: string, a: Attribute)
    requires i < k < |ts| && IsAttribute(ts, i, k, scope, a)
    requires !Is(ts[k], "::") && !Is(ts[k], "(")
    ensures IsName(ts[i]) && AttributeAt(ts, i, scope) == Some((a, k))
  {
    var h: nat :| IsHead(ts, i, h, scope, a) && IsTail(ts, h, k, a);
    if h < k {
      UnwoundIsEnclosing(ts, h, k - 1);
    }
  }

  /** What starts a list before closing brackets starts neither a scope nor arguments. */
  lemma ListStarts(ts: seq<Token>, i: nat, j: nat, scope: string, attributes: seq<Attribute>)
    requires i <= j <= |ts| && IsList(ts, i, j, scope, attributes) && IsClosing(ts, j)
    ensures !Is(ts[i], "::") && !Is(ts[i], "(") && !Is(ts[i], ":")
    ensures i < j ==> Is(ts[i], ",") || IsName(ts[i])
  {
    if i < j && !Is(ts[i], ",") {
      var k: nat :| i < k <= j && IsAttribute(ts, i, k, scope, attributes[0])
                    && IsList(ts, k, j, scope, attributes[1..]);
    }
  }

  lemma {:induction false} ListAtIs(ts: seq<Token>, i: nat, scope: string)
    requires i <= |ts| && ListAt(ts, i, scope).Some?
    ensures var (attributes, j) := ListAt(ts, i, scope).value; IsList(ts, i, j - 2, scope, attributes)
    decreases |ts| - i
  {
    hide AttributeAt, IsAttribute;
    var (attributes, j) := ListAt(ts, i, scope).value;
    if IsClosing(ts, i) {
    } else if Is(ts[i], ",") {
      ListAtIs(ts, i + 1, scope);
    } else {
      var (a, k) := AttributeAt(ts, i, scope).value;
      AttributeAtIs(ts, i, scope);
      ListAtIs(ts, k, scope);
      assert attributes[1..] == ListAt(ts, k, scope).value.0;
    }
  }

  lemma {:induction false} ListIsRead(ts: seq<Token>, i: nat, j: nat, scope: string, attributes: seq<Attribute>)
    requires i <= j <= |ts| && IsList(ts, i, j, scope, attributes) && IsClosing(ts, j)
    ensures ListAt(ts, i, scope) == Some((attributes, j + 2))
    decreases j - i
  {
    hide AttributeAt, IsAttribute;
    ListStarts(ts, i, j, scope, attributes);
    if i < j {
      if Is(ts[i], ",") && IsList(ts, i + 1, j, scope, attributes) {
        ListIsRead(ts, i + 1, j, scope, attributes);
      } else {
        var k: nat :| i < k <= j && IsAttribute(ts, i, k, scope, attributes[0])
                      && IsList(ts, k, j, scope, attributes[1..]);
        ListStarts(ts, k, j, scope, attributes[1..]);
        AttributeIsRead(ts, i, k, scope, attributes[0]);
        ListIsRead(ts, k, j, scope, attributes[1..]);
        assert attributes == [attributes[0]] + attributes[1..];
      }
    }
  }

  /** After `using`, a name and a colon no list goes on, so a common scope is never read as two attributes. */
  lemma NoListAtUsing(ts: seq<Token>, i: nat)
    requires HasUsing(ts, i)
    ensures ListAt(ts, i, "") == None
  {
    assert ListAt(ts, i + 2, "") == None;
    assert AttributeAt(ts, i + 1, "").value.1 == i + 2;
    assert ListAt(ts, i + 1, "") == None;
  }

  /** Reading from the left finds the group there is; a place is the start of at most one. */
  lemma GroupAtIsGroup(ts: seq<Token>, i: nat, j: nat, g: Group)
    ensures IsOpening(ts, i) && GroupAt(ts, i) == Some((g, j)) <==> IsGroup(ts, i, j, g)
  {
    hide ListAt, IsList;
    if IsOpening(ts, i) && GroupAt(ts, i) == Some((g, j)) {
      if HasUsing(ts, i + 2) {
        ListAtIs(ts, i + 5, ts[i + 3].spelling);
      } else {
        ListAtIs(ts, i + 2, "");
      }
    }
    if IsGroup(ts, i, j, g) {
      if IsList(ts, i + 2, j - 2, "", g.attributes) {
        ListIsRead(ts, i + 2, j - 2, "", g.attributes);
        if HasUsing(ts, i + 2) {
          NoListAtUsing(ts, i + 2);
        }
      } else {
        ListIsRead(ts, i + 5, j - 2, ts[i + 3].spelling, g.attributes);
      }
    }
  }

  lemma GroupIsUnique(ts: seq<Token>, i: nat, j: nat, g: Group, k: nat, h: Group)
    requires IsGroup(ts, i, j, g) && IsGroup(ts, i, k, h)
    ensures j == k && g == h
  {
    GroupAtIsGroup(ts, i, j, g);
    GroupAtIsGroup(ts, i, k, h);
  }
}
