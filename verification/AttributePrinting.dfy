/**
 Attributes as they are printed: a group that stands among other printed elements is lexed and read as the group
 of exactly the attributes that were printed.
 */
module AttributePrinting {
  import opened Bytes
  import opened AttributeGrammar
  import opened MetadataLexer
  import opened MetadataTokens
  import opened MetadataPrinting

  /** An attribute as it is used: without a scope, or with one; without arguments, or with some in parentheses. */
  datatype Use = Use(scope: string, name: string, arguments: Option<seq<Element>>)

  function HeadElements(u: Use): seq<Element> {
    if u.scope == "" then [Name(u.name)] else [Name(u.scope), Sign("::"), Name(u.name)]
  }

  function UseElements(u: Use): seq<Element> {
    HeadElements(u)
    + match u.arguments
      case None => []
      case Some(arguments) => [Sign("(")] + arguments + [Sign(")")]
  }

  function UsesElements(us: seq<Use>): seq<Element> {
    if us == [] then []
    else UseElements(us[0]) + if |us| == 1 then [] else [Sign(",")] + UsesElements(us[1..])
  }

  function GroupElements(us: seq<Use>): seq<Element> {
    [Sign("["), Sign("[")] + UsesElements(us) + [Sign("]"), Sign("]")]
  }

  function LengthOf(es: seq<Element>): nat {
    |Printed(es)|
  }

  function AttributeOf(u: Use, at: nat): Attribute {
    var open := at + LengthOf(HeadElements(u)) + 1;
    match u.arguments
    case None => Attribute(u.scope, u.name, false, 0, 0, at)
    case Some(arguments) => Attribute(u.scope, u.name, true, open, open + LengthOf(arguments), at)
  }

  function AttributesOf(us: seq<Use>, at: nat): seq<Attribute> {
    if us == [] then []
    else [AttributeOf(us[0], at)] + AttributesOf(us[1..], at + LengthOf(UseElements(us[0])) + 1)
  }

  function GroupOf(us: seq<Use>, at: nat): Group {
    Group(at, at + LengthOf(GroupElements(us)), AttributesOf(us, at + 2))
  }

  predicate IsUse(u: Use, lineOf: LineReader) {
    && (u.scope == "" || IsElement(Name(u.scope), lineOf)) && IsElement(Name(u.name), lineOf)
    && (u.arguments.Some? ==> AreElements(u.arguments.value, lineOf) && NoBrackets(u.arguments.value))
  }

  predicate NoBrackets(es: seq<Element>) {
    forall e :: e in es && e.Sign? ==> e.spelling !in {"(", ")", "[", "]", "{", "}"}
  }

  lemma {:induction false} PrintedBoth(a: seq<Element>, b: seq<Element>)
    ensures Printed(a + b) == Printed(a) + Printed(b)
  {
    hide Spelled;
    if a == [] {
      assert a + b == b;
    } else {
      PrintedBoth(a[1..], b);
      assert (a + b)[1..] == a[1..] + b;
      assert Printed(a + b) == Spelled(a[0]) + (Printed(a[1..]) + Printed(b));
    }
  }

  lemma {:induction false} TokensFromBoth(a: seq<Element>, b: seq<Element>, at: nat, lineOf: LineReader)
    requires AreElements(a, lineOf) && AreElements(b, lineOf)
    ensures AreElements(a + b, lineOf)
    ensures TokensFrom(a + b, at, lineOf) == TokensFrom(a, at, lineOf) + TokensFrom(b, at + LengthOf(a), lineOf)
  {
    hide IsElement, KindOf, Spelled, TokensFrom;
    if a == [] {
      assert a + b == b;
      NoTokens(at, lineOf);
    } else {
      var end := at + |Spelled(a[0])|;
      TokensFromBoth(a[1..], b, end, lineOf);
      assert (a + b)[1..] == a[1..] + b;
      TokensFromMore(a, at, lineOf);
      TokensFromMore(a + b, at, lineOf);
      Concatenated(TokensOfOne(a[0], at, lineOf), TokensFrom(a[1..], end, lineOf),
                   TokensFrom(b, end + LengthOf(a[1..]), lineOf));
    }
  }

  lemma TokensFromMore(es: seq<Element>, at: nat, lineOf: LineReader)
    requires es != [] && AreElements(es, lineOf)
    ensures TokensFrom(es, at, lineOf)
         == TokensOfOne(es[0], at, lineOf) + TokensFrom(es[1..], at + |Spelled(es[0])|, lineOf)
  {
  }

  lemma Concatenated<T>(a: seq<T>, b: seq<T>, c: seq<T>)
    ensures a + (b + c) == a + b + c
  {
  }

  /** Between what has no brackets everything is balanced. */
  lemma {:induction false} NoBracketsInTokens(es: seq<Element>, at: nat, lineOf: LineReader)
    requires AreElements(es, lineOf) && NoBrackets(es)
    ensures forall t :: t in TokensFrom(es, at, lineOf) ==> !Opens(t) && !Closes(t)
  {
    hide IsElement, KindOf, Spelled, Opens, Closes;
    if es != [] {
      NoBracketInToken(es[0], at, lineOf);
      NoBracketsInTokens(es[1..], at + |Spelled(es[0])|, lineOf);
    }
  }

  lemma NoBracketInToken(e: Element, at: nat, lineOf: LineReader)
    requires IsElement(e, lineOf) && (e.Sign? ==> e.spelling !in {"(", ")", "[", "]", "{", "}"})
    ensures forall t :: t in TokensOfOne(e, at, lineOf) ==> !Opens(t) && !Closes(t)
  {
    hide Behinds;
  }

  lemma {:induction false} BalancedWithoutBrackets(ts: seq<Token>, i: nat, j: nat)
    requires i <= j <= |ts| && forall k :: i <= k < j ==> !Opens(ts[k]) && !Closes(ts[k])
    ensures Balanced(ts, i, j)
    decreases j - i
  {
    if i < j {
      BalancedWithoutBrackets(ts, i + 1, j);
    }
  }

  lemma SignToken(sign: string, at: nat, lineOf: LineReader)
    requires IsElement(Sign(sign), lineOf)
    ensures TokensFrom([Sign(sign)], at, lineOf) == [Token(Punctuation, sign, at, at + |sign|)]
    ensures LengthOf([Sign(sign)]) == |sign|
  {
    assert Printed([Sign(sign)]) == sign;
  }

  lemma NameToken(word: string, at: nat, lineOf: LineReader)
    requires IsElement(Name(word), lineOf)
    ensures TokensFrom([Name(word)], at, lineOf)
         == [Token(if word == "using" then Keyword else Identifier, word, at, at + |word|)]
    ensures LengthOf([Name(word)]) == |word|
  {
    assert Printed([Name(word)]) == word;
  }

  lemma HeadTokens(u: Use, at: nat, lineOf: LineReader)
    requires IsUse(u, lineOf)
    ensures AreElements(HeadElements(u), lineOf)
    ensures var ts := TokensFrom(HeadElements(u), at, lineOf);
            |ts| == (if u.scope == "" then 1 else 3) && IsHead(ts, 0, |ts|, "", AttributeOf(u, at))
  {
    hide IsElement, TokensFrom, KindOf, LengthOf;
    assert IsElement(Name(u.name), lineOf);
    NameToken(u.name, at, lineOf);
    if u.scope != "" {
      ScopedTokens(u.scope, u.name, at, lineOf);
    }
  }

  lemma ScopedTokens(scope: string, name: string, at: nat, lineOf: LineReader)
    requires IsElement(Name(scope), lineOf) && IsElement(Name(name), lineOf)
    ensures var es := [Name(scope), Sign("::"), Name(name)];
            && AreElements(es, lineOf) && |TokensFrom(es, at, lineOf)| == 3
            && var ts := TokensFrom(es, at, lineOf);
            && IsName(ts[0]) && ts[0].spelling == scope && ts[0].begin == at && Is(ts[1], "::")
            && IsName(ts[2]) && ts[2].spelling == name
  {
    hide IsElement, TokensFrom, KindOf, Printed;
    ScopeIsElement(lineOf);
    var a, b, c := [Name(scope)], [Sign("::")], [Name(name)];
    NameToken(scope, at, lineOf);
    SignToken("::", at + LengthOf(a), lineOf);
    NameToken(name, at + LengthOf(a) + LengthOf(b), lineOf);
    TokensFromBoth(b, c, at + LengthOf(a), lineOf);
    TokensFromBoth(a, b + c, at, lineOf);
    assert a + (b + c) == [Name(scope), Sign("::"), Name(name)];
  }

  lemma ScopeIsElement(lineOf: LineReader)
    ensures IsElement(Sign("::"), lineOf) && IsElement(Sign(","), lineOf)
    ensures IsElement(Sign("("), lineOf) && IsElement(Sign(")"), lineOf)
    ensures IsElement(Sign("["), lineOf) && IsElement(Sign("]"), lineOf)
  {
  }

  /** The tokens of an attribute stand in a file. */
  ghost predicate Hold(ts: seq<Token>, i: nat, part: seq<Token>) {
    i + |part| <= |ts| && ts[i..i + |part|] == part
  }

  lemma HoldBoth(ts: seq<Token>, i: nat, a: seq<Token>, b: seq<Token>)
    requires Hold(ts, i, a + b)
    ensures Hold(ts, i, a) && Hold(ts, i + |a|, b)
  {
    assert ts[i..i + |a|] == ts[i..i + |a + b|][..|a|];
    assert ts[i + |a|..i + |a| + |b|] == ts[i..i + |a + b|][|a|..];
  }

  lemma HoldAt(ts: seq<Token>, i: nat, part: seq<Token>, k: nat)
    requires Hold(ts, i, part) && k < |part|
    ensures ts[i + k] == part[k]
  {
    assert ts[i..i + |part|][k] == ts[i + k];
  }

  lemma ArgumentTokens(arguments: seq<Element>, at: nat, lineOf: LineReader)
    requires AreElements(arguments, lineOf)
    ensures var es := [Sign("(")] + arguments + [Sign(")")];
            && AreElements(es, lineOf) && LengthOf(es) == LengthOf(arguments) + 2
            && var end := at + 1 + LengthOf(arguments);
            TokensFrom(es, at, lineOf) == [Token(Punctuation, "(", at, at + 1)] + TokensFrom(arguments, at + 1, lineOf)
                                          + [Token(Punctuation, ")", end, end + 1)]
  {
    hide IsElement, TokensFrom, KindOf, Printed;
    ScopeIsElement(lineOf);
    SignToken("(", at, lineOf);
    SignToken(")", at + 1 + LengthOf(arguments), lineOf);
    TokensFromBoth([Sign("(")], arguments, at, lineOf);
    TokensFromBoth([Sign("(")] + arguments, [Sign(")")], at, lineOf);
    PrintedBoth([Sign("(")], arguments);
    PrintedBoth([Sign("(")] + arguments, [Sign(")")]);
  }

  lemma TailIs(ts: seq<Token>, h: nat, u: Use, at: nat, lineOf: LineReader)
    requires IsUse(u, lineOf) && u.arguments.Some?
    requires Hold(ts, h, TokensFrom([Sign("(")] + u.arguments.value + [Sign(")")], at + LengthOf(HeadElements(u)), lineOf))
    ensures IsTail(ts, h, h + 2 + |TokensFrom(u.arguments.value, at + LengthOf(HeadElements(u)) + 1, lineOf)|,
                   AttributeOf(u, at))
  {
    hide IsElement, KindOf, TokensFrom, Encloses, Hold, LengthOf;
    var arguments, open := u.arguments.value, at + LengthOf(HeadElements(u));
    ArgumentTokens(arguments, open, lineOf);
    NoBracketsInTokens(arguments, open + 1, lineOf);
    var inner := TokensFrom(arguments, open + 1, lineOf);
    var close := open + 1 + LengthOf(arguments);
    Parenthesised(ts, h, Token(Punctuation, "(", open, open + 1), inner, Token(Punctuation, ")", close, close + 1));
  }

  lemma Parenthesised(ts: seq<Token>, h: nat, a: Token, inner: seq<Token>, b: Token)
    requires Hold(ts, h, [a] + inner + [b]) && Is(a, "(") && Is(b, ")")
    requires forall t :: t in inner ==> !Opens(t) && !Closes(t)
    ensures h + |inner| + 1 < |ts| && ts[h] == a && ts[h + |inner| + 1] == b && Encloses(ts, h, h + |inner| + 1)
  {
    hide Hold;
    var all := [a] + inner + [b];
    HoldFits(ts, h, all);
    HoldAt(ts, h, all, 0);
    HoldAt(ts, h, all, 1 + |inner|);
    var k := h + 1 + |inner|;
    forall l | h + 1 <= l < k
      ensures !Opens(ts[l]) && !Closes(ts[l])
    {
      HoldAt(ts, h, all, l - h);
      assert all[l - h] == inner[l - h - 1];
      assert inner[l - h - 1] in inner;
    }
    BalancedWithoutBrackets(ts, h + 1, k);
  }

  lemma HeadMoves(ts: seq<Token>, i: nat, head: seq<Token>, a: Attribute)
    requires Hold(ts, i, head) && IsHead(head, 0, |head|, "", a)
    ensures IsHead(ts, i, i + |head|, "", a)
  {
    forall k | 0 <= k < |head|
      ensures ts[i + k] == head[k]
    {
      HoldAt(ts, i, head, k);
    }
  }

  lemma UseIsAttribute(ts: seq<Token>, i: nat, u: Use, at: nat, lineOf: LineReader)
    requires IsUse(u, lineOf) && AreElements(UseElements(u), lineOf)
    requires Hold(ts, i, TokensFrom(UseElements(u), at, lineOf))
    ensures TokensFrom(UseElements(u), at, lineOf) != []
    ensures IsAttribute(ts, i, i + |TokensFrom(UseElements(u), at, lineOf)|, "", AttributeOf(u, at))
  {
    hide IsElement, KindOf, TokensFrom, IsHead, IsTail, Hold;
    HeadTokens(u, at, lineOf);
    var head := TokensFrom(HeadElements(u), at, lineOf);
    var all := TokensFrom(UseElements(u), at, lineOf);
    if u.arguments == None {
      assert UseElements(u) == HeadElements(u);
      HeadMoves(ts, i, head, AttributeOf(u, at));
      NoTail(ts, i + |head|, u, at);
      assert IsTail(ts, i + |head|, i + |all|, AttributeOf(u, at));
    } else {
      var arguments, open := u.arguments.value, at + LengthOf(HeadElements(u));
      ArgumentTokens(arguments, open, lineOf);
      TokensFromBoth(HeadElements(u), [Sign("(")] + arguments + [Sign(")")], at, lineOf);
      var tail := TokensFrom([Sign("(")] + arguments + [Sign(")")], open, lineOf);
      HoldBoth(ts, i, head, tail);
      HeadMoves(ts, i, head, AttributeOf(u, at));
      TailIs(ts, i + |head|, u, at, lineOf);
      assert IsTail(ts, i + |head|, i + |all|, AttributeOf(u, at));
    }
  }

  lemma NoTail(ts: seq<Token>, h: nat, u: Use, at: nat)
    requires u.arguments == None
    ensures IsTail(ts, h, h, AttributeOf(u, at))
  {
  }

  lemma {:induction false} UsesAreElements(us: seq<Use>, lineOf: LineReader)
    requires forall u :: u in us ==> IsUse(u, lineOf)
    ensures AreElements(UsesElements(us), lineOf)
    ensures us != [] ==> AreElements(UseElements(us[0]), lineOf) && AreElements(UsesElements(us[1..]), lineOf)
  {
    hide IsElement;
    if us != [] {
      assert IsUse(us[0], lineOf);
      ScopeIsElement(lineOf);
      HeadTokens(us[0], 0, lineOf);
      UsesAreElements(us[1..], lineOf);
    }
  }

  lemma {:induction false} UsesAreList(ts: seq<Token>, i: nat, us: seq<Use>, at: nat, lineOf: LineReader)
    requires (forall u :: u in us ==> IsUse(u, lineOf)) && AreElements(UsesElements(us), lineOf)
    requires Hold(ts, i, TokensFrom(UsesElements(us), at, lineOf))
    ensures i + |TokensFrom(UsesElements(us), at, lineOf)| <= |ts|
    ensures IsList(ts, i, i + |TokensFrom(UsesElements(us), at, lineOf)|, "", AttributesOf(us, at))
    decreases |us|
  {
    hide IsElement, KindOf, TokensFrom, Hold, IsUse, UseElements, IsAttribute, AttributeOf, Printed, IsList;
    UsesAreElements(us, lineOf);
    var all := TokensFrom(UsesElements(us), at, lineOf);
    HoldFits(ts, i, all);
    if us == [] {
      NoTokens(at, lineOf);
      EmptyList(ts, i);
    } else {
      var use := UseElements(us[0]);
      var own, a := TokensFrom(use, at, lineOf), AttributesOf(us, at);
      assert a[1..] == AttributesOf(us[1..], at + LengthOf(use) + 1);
      if |us| == 1 {
        assert UsesElements(us) == use;
        UseIsAttribute(ts, i, us[0], at, lineOf);
        EmptyList(ts, i + |own|);
        ListOfFirst(ts, i, i + |own|, i + |own|, a);
      } else {
        var others := UsesElements(us[1..]);
        CommaTokens(use, others, at, lineOf);
        var comma, behind := at + LengthOf(use), TokensFrom(others, at + LengthOf(use) + 1, lineOf);
        HoldBoth(ts, i, own, [Token(Punctuation, ",", comma, comma + 1)] + behind);
        HoldBoth(ts, i + |own|, [Token(Punctuation, ",", comma, comma + 1)], behind);
        HoldAt(ts, i + |own|, [Token(Punctuation, ",", comma, comma + 1)], 0);
        UseIsAttribute(ts, i, us[0], at, lineOf);
        UsesAreList(ts, i + |own| + 1, us[1..], comma + 1, lineOf);
        ListOfComma(ts, i + |own|, i + |all|, a[1..]);
        ListOfFirst(ts, i, i + |own|, i + |all|, a);
      }
    }
  }

  lemma EmptyList(ts: seq<Token>, i: nat)
    requires i <= |ts|
    ensures IsList(ts, i, i, "", [])
  {
  }

  lemma ListOfComma(ts: seq<Token>, i: nat, j: nat, a: seq<Attribute>)
    requires i < j <= |ts| && Is(ts[i], ",") && IsList(ts, i + 1, j, "", a)
    ensures IsList(ts, i, j, "", a)
  {
  }

  lemma ListOfFirst(ts: seq<Token>, i: nat, k: nat, j: nat, a: seq<Attribute>)
    requires i < k <= j <= |ts| && a != [] && IsAttribute(ts, i, k, "", a[0]) && IsList(ts, k, j, "", a[1..])
    ensures IsList(ts, i, j, "", a)
  {
  }

  lemma HoldFits(ts: seq<Token>, i: nat, part: seq<Token>)
    requires Hold(ts, i, part)
    ensures i + |part| <= |ts|
  {
  }

  lemma NoTokens(at: nat, lineOf: LineReader)
    ensures TokensFrom([], at, lineOf) == []
  {
  }

  lemma CommaTokens(use: seq<Element>, others: seq<Element>, at: nat, lineOf: LineReader)
    requires AreElements(use, lineOf) && AreElements(others, lineOf)
    ensures AreElements(use + ([Sign(",")] + others), lineOf)
    ensures var comma := at + LengthOf(use);
            TokensFrom(use + ([Sign(",")] + others), at, lineOf)
            == TokensFrom(use, at, lineOf) + ([Token(Punctuation, ",", comma, comma + 1)]
                                              + TokensFrom(others, comma + 1, lineOf))
  {
    hide IsElement, TokensFrom, KindOf, Printed;
    ScopeIsElement(lineOf);
    SignToken(",", at + LengthOf(use), lineOf);
    TokensFromBoth([Sign(",")], others, at + LengthOf(use), lineOf);
    TokensFromBoth(use, [Sign(",")] + others, at, lineOf);
  }

  lemma BracketTokens(c: string, at: nat, lineOf: LineReader)
    requires c == "[" || c == "]"
    ensures AreElements([Sign(c), Sign(c)], lineOf) && LengthOf([Sign(c), Sign(c)]) == 2
    ensures TokensFrom([Sign(c), Sign(c)], at, lineOf)
         == [Token(Punctuation, c, at, at + 1), Token(Punctuation, c, at + 1, at + 2)]
  {
    hide IsElement, TokensFrom, KindOf, Printed;
    ScopeIsElement(lineOf);
    SignToken(c, at, lineOf);
    SignToken(c, at + 1, lineOf);
    TokensFromBoth([Sign(c)], [Sign(c)], at, lineOf);
    PrintedBoth([Sign(c)], [Sign(c)]);
    assert [Sign(c), Sign(c)] == [Sign(c)] + [Sign(c)];
  }

  /** The printed attributes, wherever they stand among tokens, are a group with exactly those attributes. */
  lemma UsesAreGroup(ts: seq<Token>, i: nat, us: seq<Use>, at: nat, lineOf: LineReader)
    requires (forall u :: u in us ==> IsUse(u, lineOf)) && AreElements(GroupElements(us), lineOf)
    requires Hold(ts, i, TokensFrom(GroupElements(us), at, lineOf))
    ensures IsGroup(ts, i, i + |TokensFrom(GroupElements(us), at, lineOf)|, GroupOf(us, at))
  {
    hide IsElement, KindOf, Spelled, Hold, IsUse, UsesElements, AttributesOf, IsList;
    UsesAreElements(us, lineOf);
    var inner := UsesElements(us);
    var close := at + 2 + LengthOf(inner);
    BracketTokens("[", at, lineOf);
    BracketTokens("]", close, lineOf);
    TokensFromBoth([Sign("["), Sign("[")], inner, at, lineOf);
    TokensFromBoth([Sign("["), Sign("[")] + inner, [Sign("]"), Sign("]")], at, lineOf);
    PrintedBoth([Sign("["), Sign("[")], inner);
    PrintedBoth([Sign("["), Sign("[")] + inner, [Sign("]"), Sign("]")]);
    var front := TokensFrom([Sign("["), Sign("[")], at, lineOf);
    var middle, back := TokensFrom(inner, at + 2, lineOf), TokensFrom([Sign("]"), Sign("]")], close, lineOf);
    var all := TokensFrom(GroupElements(us), at, lineOf);
    assert all == front + middle + back;
    HoldFits(ts, i, all);
    HoldBoth(ts, i, front + middle, back);
    HoldBoth(ts, i, front, middle);
    HoldAt(ts, i, front, 0);
    HoldAt(ts, i, front, 1);
    HoldAt(ts, i + |front + middle|, back, 0);
    HoldAt(ts, i + |front + middle|, back, 1);
    UsesAreList(ts, i + 2, us, at + 2, lineOf);
  }

  /** A group that is printed among other things is lexed and read as it was printed. */
  lemma PrintedGroupIsFound(text: string, marked: bool, before: seq<Element>, us: seq<Use>, after: seq<Element>,
                            lineOf: LineReader, r: Result<Lexed, LexError>, pieces: seq<Piece>)
    requires IsSheet(text, marked, before + GroupElements(us) + after, lineOf) && IsAnswer(text, lineOf, r, pieces)
    requires (forall u :: u in us ==> IsUse(u, lineOf)) && r.Ok?
    ensures AreElements(before, lineOf) && AreElements(GroupElements(us), lineOf)
    ensures var at, i := |Lead(marked)| + LengthOf(before), |TokensFrom(before, |Lead(marked)|, lineOf)|;
            IsGroup(r.value.tokens, i, i + |TokensFrom(GroupElements(us), at, lineOf)|, GroupOf(us, at))
  {
    hide IsElement, IsUse, IsSheet, IsAnswer, IsGroup, GroupElements, GroupOf, TokensFrom;
    var lead, group := |Lead(marked)|, GroupElements(us);
    var at := lead + LengthOf(before);
    LexGivesPrinted(text, marked, before + group + after, lineOf, r, pieces);
    assert AreElements(before + group, lineOf) && AreElements(after, lineOf) by {
      ElementsOfBoth(before + group, after, lineOf);
    }
    ElementsOfBoth(before, group, lineOf);
    TokensFromBoth(before + group, after, lead, lineOf);
    TokensFromBoth(before, group, lead, lineOf);
    var ts, a, b := r.value.tokens, TokensFrom(before, lead, lineOf), TokensFrom(group, at, lineOf);
    var c := TokensFrom(after, lead + LengthOf(before + group), lineOf);
    assert ts == a + b + c;
    HoldInside(a, b, c);
    UsesAreGroup(ts, |a|, us, at, lineOf);
  }

  lemma HoldInside(a: seq<Token>, b: seq<Token>, c: seq<Token>)
    ensures Hold(a + b + c, |a|, b)
  {
    assert (a + b + c)[|a|..|a| + |b|] == b;
  }

  lemma ElementsOfBoth(a: seq<Element>, b: seq<Element>, lineOf: LineReader)
    requires AreElements(a + b, lineOf)
    ensures AreElements(a, lineOf) && AreElements(b, lineOf)
  {
    forall e | e in a || e in b
      ensures IsElement(e, lineOf)
    {
      assert e in a + b;
    }
  }

  // Attributes without arguments never run together

  predicate IsPlainUse(u: Use, lineOf: LineReader) {
    IsUse(u, lineOf) && u.arguments == None
  }

  /** What a name may stand before: nothing that would go on with it. */
  predicate StartsBare(s: string) {
    s != "" && !InName(s[0]) && s[0] != '"' && s[0] != '\''
  }

  lemma NameApart(word: string, rest: seq<Element>, lineOf: LineReader)
    requires IsElement(Name(word), lineOf) && AreApart(rest, false, lineOf) && StartsBare(Printed(rest))
    ensures AreApart([Name(word)] + rest, false, lineOf)
  {
    assert ([Name(word)] + rest)[1..] == rest;
    assert forall c :: c in word ==> c != '\n';
  }

  lemma SignApart(sign: string, rest: seq<Element>, begins: bool, lineOf: LineReader)
    requires sign in {"::", ",", "[", "]"} && AreApart(rest, false, lineOf)
    ensures AreApart([Sign(sign)] + rest, begins, lineOf) && StartsBare(Printed([Sign(sign)] + rest))
  {
    hide StandsBefore;
    assert ([Sign(sign)] + rest)[1..] == rest;
    ScopeIsElement(lineOf);
    SignStands(sign, Printed(rest), begins);
    assert !StartsLine(Sign(sign), begins);
  }

  lemma SignStands(sign: string, rest: string, begins: bool)
    requires sign in {"::", ",", "[", "]"}
    ensures StandsBefore(Sign(sign), rest, begins)
  {
    if |sign| == 1 && rest != "" {
      var both := sign + [rest[0]];
      assert both[0] == ',' || both[0] == '[' || both[0] == ']';
    }
  }

  lemma NothingApart(lineOf: LineReader)
    ensures AreApart([], false, lineOf)
  {
  }

  lemma HeadApart(u: Use, rest: seq<Element>, lineOf: LineReader)
    requires IsPlainUse(u, lineOf) && AreApart(rest, false, lineOf) && StartsBare(Printed(rest))
    ensures AreApart(UseElements(u) + rest, false, lineOf)
  {
    hide IsElement, AreApart, Printed, StartsBare;
    NameApart(u.name, rest, lineOf);
    if u.scope == "" {
      assert UseElements(u) + rest == [Name(u.name)] + rest;
    } else {
      SignApart("::", [Name(u.name)] + rest, false, lineOf);
      NameApart(u.scope, [Sign("::")] + ([Name(u.name)] + rest), lineOf);
      assert UseElements(u) + rest == [Name(u.scope)] + ([Sign("::")] + ([Name(u.name)] + rest));
    }
  }

  lemma {:induction false} UsesApart(us: seq<Use>, rest: seq<Element>, lineOf: LineReader)
    requires (forall u :: u in us ==> IsPlainUse(u, lineOf)) && AreApart(rest, false, lineOf)
    requires StartsBare(Printed(rest))
    ensures AreApart(UsesElements(us) + rest, false, lineOf)
  {
    hide IsPlainUse, AreApart, Printed, StartsBare, UseElements;
    if us == [] {
      assert UsesElements(us) + rest == rest;
    } else if |us| == 1 {
      HeadApart(us[0], rest, lineOf);
      assert UsesElements(us) + rest == UseElements(us[0]) + rest;
    } else {
      UsesApart(us[1..], rest, lineOf);
      SignApart(",", UsesElements(us[1..]) + rest, false, lineOf);
      HeadApart(us[0], [Sign(",")] + (UsesElements(us[1..]) + rest), lineOf);
      assert UsesElements(us) + rest == UseElements(us[0]) + ([Sign(",")] + (UsesElements(us[1..]) + rest));
    }
  }

  /** A group of attributes without arguments may be printed wherever something follows that starts by itself. */
  lemma GroupApart(us: seq<Use>, rest: seq<Element>, begins: bool, lineOf: LineReader)
    requires (forall u :: u in us ==> IsPlainUse(u, lineOf)) && AreApart(rest, false, lineOf)
    ensures AreApart(GroupElements(us) + rest, begins, lineOf)
  {
    hide IsPlainUse, AreApart, Printed, StartsBare, UsesElements;
    SignApart("]", rest, false, lineOf);
    SignApart("]", [Sign("]")] + rest, false, lineOf);
    var closed := [Sign("]")] + ([Sign("]")] + rest);
    UsesApart(us, closed, lineOf);
    SignApart("[", UsesElements(us) + closed, false, lineOf);
    SignApart("[", [Sign("[")] + (UsesElements(us) + closed), begins, lineOf);
    assert GroupElements(us) + rest == [Sign("[")] + ([Sign("[")] + (UsesElements(us) + closed));
  }

  lemma LineApart(said: string, es: seq<Element>, lineOf: LineReader)
    requires IsElement(LineIs("", said, true), lineOf) && AreApart(es, true, lineOf)
    ensures var all := [LineIs("", said, true)] + es;
            && AreApart(all, true, lineOf) && Printed(all) == "#line" + said + "\n" + Printed(es)
            && !StartsAt(Printed(all), 0, MARK)
  {
    hide IsElement, StartsAt, Spelled;
    var line := LineIs("", said, true);
    assert ([line] + es)[1..] == es;
    SpelledLine(said);
    StartsWithFirst("#line" + said + "\n" + Printed(es), MARK);
  }

  lemma SpelledLine(said: string)
    ensures Spelled(LineIs("", said, true)) == "#line" + said + "\n"
  {
    assert "" + ("line" + said) == "line" + said && "#" + ("line" + said) == "#line" + said;
  }

  predicate NoLine(es: seq<Element>) {
    forall e :: e in es ==> !e.LineIs?
  }

  lemma {:induction false} SameFile(es: seq<Element>, file: string, lineOf: LineReader)
    requires AreElements(es, lineOf) && NoLine(es)
    ensures FileFrom(es, file, lineOf) == file
  {
    hide IsElement;
    if es != [] {
      SameFile(es[1..], file, lineOf);
    }
  }

  lemma {:induction false} PlainUsesHaveNoLine(us: seq<Use>, lineOf: LineReader)
    requires forall u :: u in us ==> IsPlainUse(u, lineOf)
    ensures NoLine(UsesElements(us)) && NoLine(GroupElements(us))
  {
    hide IsUse;
    if us != [] {
      PlainUsesHaveNoLine(us[1..], lineOf);
      assert IsPlainUse(us[0], lineOf);
      assert NoLine(UseElements(us[0])) by {
        assert UseElements(us[0]) == HeadElements(us[0]);
      }
    }
  }

  /** Behind a line directive that names a file, a line of attributes is accepted and read as it is printed. */
  lemma AttributesAreRead(said: string, us: seq<Use>, lineOf: LineReader, r: Result<Lexed, LexError>, pieces: seq<Piece>)
    requires IsElement(LineIs("", said, true), lineOf) && lineOf(said).value.1 != ""
    requires forall u :: u in us ==> IsPlainUse(u, lineOf)
    requires IsAnswer("#line" + said + "\n" + Printed(GroupElements(us)), lineOf, r, pieces)
    ensures r.Ok? && IsGroup(r.value.tokens, 0, |r.value.tokens|, GroupOf(us, |said| + 6))
  {
    hide IsElement, IsUse, AreApart, IsAnswer, IsGroup, UsesElements, GroupOf, StartsAt, Printed, AreElements;
    var line, group := LineIs("", said, true), GroupElements(us);
    var es := [line] + group + [];
    assert group + [] == group && es == [line] + group && es[1..] == group;
    NothingApart(lineOf);
    GroupApart(us, [], true, lineOf);
    LineApart(said, group, lineOf);
    PlainUsesHaveNoLine(us, lineOf);
    assert Lead(false) + Printed(es) == Printed(es);
    LexGivesPrinted(Printed(es), false, es, lineOf, r, pieces);
    ElementsOfBoth([line], group, lineOf);
    SaidIsRead(said, lineOf);
    LineComesFirst(said, group, lineOf);
    PrintedGroupIsFound(Printed(es), false, [line], us, [], lineOf, r, pieces);
  }

  lemma LineComesFirst(said: string, es: seq<Element>, lineOf: LineReader)
    requires IsElement(LineIs("", said, true), lineOf) && AreElements(es, lineOf) && NoLine(es) && lineOf(said).Some?
    ensures AreElements([LineIs("", said, true)] + es, lineOf) && AreElements([LineIs("", said, true)], lineOf)
    ensures FileFrom([LineIs("", said, true)] + es, "", lineOf) == lineOf(said).value.1
    ensures TokensFrom([LineIs("", said, true)] + es, 0, lineOf) == TokensFrom(es, |said| + 6, lineOf)
    ensures TokensFrom([LineIs("", said, true)], 0, lineOf) == [] && LengthOf([LineIs("", said, true)]) == |said| + 6
  {
    hide IsElement, TokensFrom, LengthOf, Spelled;
    var line := LineIs("", said, true);
    FirstFile(said, es, lineOf);
    LineHasNoToken(said, lineOf);
    TokensFromBoth([line], es, 0, lineOf);
  }

  lemma FirstFile(said: string, es: seq<Element>, lineOf: LineReader)
    requires IsElement(LineIs("", said, true), lineOf) && AreElements(es, lineOf) && NoLine(es) && lineOf(said).Some?
    ensures AreElements([LineIs("", said, true)] + es, lineOf)
    ensures FileFrom([LineIs("", said, true)] + es, "", lineOf) == lineOf(said).value.1
  {
    hide IsElement;
    assert ([LineIs("", said, true)] + es)[1..] == es;
    SameFile(es, lineOf(said).value.1, lineOf);
  }

  lemma LineHasNoToken(said: string, lineOf: LineReader)
    requires IsElement(LineIs("", said, true), lineOf)
    ensures TokensFrom([LineIs("", said, true)], 0, lineOf) == [] && LengthOf([LineIs("", said, true)]) == |said| + 6
  {
    hide IsElement;
    var line := LineIs("", said, true);
    assert Printed([line]) == Spelled(line) && |Spelled(line)| == |said| + 6;
    TokensFromMore([line], 0, lineOf);
    NoTokens(|said| + 6, lineOf);
    assert [line][1..] == [];
  }

  lemma SaidIsRead(said: string, lineOf: LineReader)
    requires IsElement(LineIs("", said, true), lineOf)
    ensures lineOf(said).Some?
  {
  }
}
