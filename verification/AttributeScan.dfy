/** The scanner: finding every attribute group of a file, and the groups that belong to one declaration. */
module AttributeScan {
  import opened Bytes
  import opened AttributeGrammar

  // Groups

  /** `position` is an opening parenthesis; the result is the bracket that matches it. */
  method MatchingParenthesis(ts: seq<Token>, position: nat) returns (close: Option<nat>)
    requires position < |ts| && Is(ts[position], "(")
    ensures forall j: nat :: close == Some(j) <==> position < j < |ts| && Encloses(ts, position, j)
    ensures close == Unwound(ts, position + 1, [')'])
  {
    forall j: nat
      ensures Unwound(ts, position + 1, [')']) == Some(j) <==> position < j < |ts| && Encloses(ts, position, j)
    {
      UnwoundIsEnclosing(ts, position, j);
    }
    var expected: seq<char> := [];
    for i := position to |ts|
      invariant expected == [] <==> i == position
      invariant i > position ==> Unwound(ts, i, expected) == Unwound(ts, position + 1, [')'])
    {
      var item := ts[i];
      if item.kind != Punctuation {
        continue;
      }
      if Opens(item) {
        assert [] + [Closer(item)] == [Closer(item)];
        expected := expected + [Closer(item)];
      } else if Closes(item) {
        if expected == [] || expected[|expected| - 1] != item.spelling[0] {
          return None;
        }
        expected := expected[..|expected| - 1];
        if expected == [] {
          return Some(i);
        }
      }
    }
    return None;
  }

  /** `position` is two opening brackets; the result is the group that starts there and where it ends, if there is one. */
  method ParseGroup(ts: seq<Token>, position: nat) returns (r: Option<(Group, nat)>)
    requires IsOpening(ts, position)
    ensures forall g, j: nat :: r == Some((g, j)) <==> IsGroup(ts, position, j, g)
    ensures r == GroupAt(ts, position)
  {
    forall g: Group, j: nat
      ensures GroupAt(ts, position) == Some((g, j)) <==> IsGroup(ts, position, j, g)
    {
      GroupAtIsGroup(ts, position, j, g);
    }
    hide IsGroup, AttributeAt;
    var i, scope := position + 2, "";
    if HasUsing(ts, i) {
      scope := ts[i + 1].spelling;
      i := i + 3;
    }
    ghost var start := i;
    var attributes: seq<Attribute> := [];
    BehindNothing(ListAt(ts, start, scope));
    while i < |ts|
      invariant start <= i <= |ts|
      invariant ListAt(ts, start, scope) == Behind(attributes, ListAt(ts, i, scope))
    {
      if IsClosing(ts, i) {
        assert attributes + [] == attributes;
        return Some((Group(ts[position].begin, ts[i + 1].end, attributes), i + 2));
      }
      if Is(ts[i], ",") {
        i := i + 1;
        continue;
      }
      if !IsName(ts[i]) {
        return None;
      }
      var read := ParseAttribute(ts, i, scope);
      if read.None? {
        return None;
      }
      BehindMore(attributes, read.value.0, ListAt(ts, read.value.1, scope));
      attributes := attributes + [read.value.0];
      i := read.value.1;
    }
    return None;
  }

  function Behind(front: seq<Attribute>, rest: Option<(seq<Attribute>, nat)>): Option<(seq<Attribute>, nat)> {
    match rest
    case None => None
    case Some((attributes, j)) => Some((front + attributes, j))
  }

  lemma BehindNothing(rest: Option<(seq<Attribute>, nat)>)
    ensures Behind([], rest) == rest
  {
    if rest.Some? {
      assert [] + rest.value.0 == rest.value.0;
    }
  }

  lemma BehindMore(front: seq<Attribute>, a: Attribute, rest: Option<(seq<Attribute>, nat)>)
    ensures Behind(front, Prepended(a, rest)) == Behind(front + [a], rest)
  {
    if rest.Some? {
      assert front + ([a] + rest.value.0) == front + [a] + rest.value.0;
    }
  }

  /** One round of the loop that reads a list: a name, its scope, its arguments. */
  method ParseAttribute(ts: seq<Token>, start: nat, scope: string) returns (r: Option<(Attribute, nat)>)
    requires start < |ts| && IsName(ts[start])
    ensures r == AttributeAt(ts, start, scope)
  {
    var i := start;
    var a := Attribute(scope, ts[i].spelling, false, 0, 0, ts[i].begin);
    if i + 2 < |ts| && Is(ts[i + 1], "::") && IsName(ts[i + 2]) {
      a := a.(scope := ts[i].spelling, name := ts[i + 2].spelling);
      i := i + 3;
    } else {
      i := i + 1;
    }
    if i < |ts| && Is(ts[i], "(") {
      var close := MatchingParenthesis(ts, i);
      if close.None? {
        return None;
      }
      a := Called(a, ts[i].end, ts[close.value].begin);
      i := close.value + 1;
    }
    return Some((a, i));
  }

  /** A group and the tokens `[start, stop)` it was found at. */
  datatype Found = Found(start: nat, stop: nat, group: Group)

  /**
   Groups of a file, in order and apart from each other, and enough of them: wherever a group starts, a
   group that was found covers the place.
   */
  ghost predicate IsScan(ts: seq<Token>, found: seq<Found>) {
    && (forall k :: 0 <= k < |found| ==> IsGroup(ts, found[k].start, found[k].stop, found[k].group))
    && (forall k, l :: 0 <= k < l < |found| ==> found[k].stop <= found[l].start)
    && forall i: nat, j: nat, g :: IsGroup(ts, i, j, g) ==> IsCovered(found, i)
  }

  ghost predicate IsCovered(found: seq<Found>, i: nat) {
    exists k :: 0 <= k < |found| && found[k].start <= i < found[k].stop
  }

  function Groups(found: seq<Found>): (groups: seq<Group>)
    ensures |groups| == |found| && forall k :: 0 <= k < |found| ==> groups[k] == found[k].group
  {
    seq(|found|, k requires 0 <= k < |found| => found[k].group)
  }

  method ScanAttributeGroups(ts: seq<Token>) returns (groups: seq<Group>, ghost found: seq<Found>)
    ensures IsScan(ts, found) && groups == Groups(found)
  {
    hide IsGroup;
    groups, found := [], [];
    var i := 0;
    while i + 1 < |ts|
      invariant forall k :: 0 <= k < |found| ==> IsGroup(ts, found[k].start, found[k].stop, found[k].group)
      invariant forall k :: 0 <= k < |found| ==> found[k].stop <= i
      invariant forall k, l :: 0 <= k < l < |found| ==> found[k].stop <= found[l].start
      invariant forall s: nat, j: nat, g :: s < i && IsGroup(ts, s, j, g) ==> IsCovered(found, s)
      invariant groups == Groups(found)
    {
      if IsOpening(ts, i) {
        var parsed := ParseGroup(ts, i);
        if parsed.Some? {
          ghost var one := Found(i, parsed.value.1, parsed.value.0);
          assert IsGroup(ts, one.start, one.stop, one.group);
          CoveredMore(ts, found, one);
          groups, found := groups + [parsed.value.0], found + [one];
          i := parsed.value.1;
          continue;
        }
      }
      NoGroupHere(ts, i);
      i := i + 1;
    }
    forall s: nat, j: nat, g | IsGroup(ts, s, j, g)
      ensures IsCovered(found, s)
    {
      GroupIsInside(ts, s, j, g);
    }
  }

  lemma GroupIsInside(ts: seq<Token>, i: nat, j: nat, g: Group)
    requires IsGroup(ts, i, j, g)
    ensures i + 4 <= j <= |ts|
  {
  }

  lemma NoGroupHere(ts: seq<Token>, i: nat)
    requires IsOpening(ts, i) ==> GroupAt(ts, i).None?
    ensures forall j: nat, g :: !IsGroup(ts, i, j, g)
  {
    forall j: nat, g: Group
      ensures !IsGroup(ts, i, j, g)
    {
      GroupAtIsGroup(ts, i, j, g);
    }
  }

  lemma CoveredMore(ts: seq<Token>, found: seq<Found>, one: Found)
    requires forall s: nat, j: nat, g :: s < one.start && IsGroup(ts, s, j, g) ==> IsCovered(found, s)
    ensures forall s: nat, j: nat, g :: s < one.stop && IsGroup(ts, s, j, g) ==> IsCovered(found + [one], s)
  {
    var more := found + [one];
    forall s: nat, j: nat, g | s < one.stop && IsGroup(ts, s, j, g)
      ensures IsCovered(more, s)
    {
      if s < one.start {
        var k :| 0 <= k < |found| && found[k].start <= s < found[k].stop;
        assert more[k] == found[k];
      } else {
        assert more[|found|] == one;
      }
    }
  }

  lemma FoundIsGroup(ts: seq<Token>, found: seq<Found>, k: nat)
    requires IsScan(ts, found) && k < |found|
    ensures IsGroup(ts, found[k].start, found[k].stop, found[k].group)
    ensures found[k].start + 4 <= found[k].stop <= |ts|
    ensures forall l :: k < l < |found| ==> found[k].stop <= found[l].start
  {
  }

  /** The group of the one scan is covered by a group of the other. */
  lemma CoveredBy(ts: seq<Token>, a: seq<Found>, n: nat, b: seq<Found>) returns (k: nat)
    requires IsScan(ts, a) && IsScan(ts, b) && n < |a|
    ensures k < |b| && b[k].start <= a[n].start < b[k].stop
  {
    hide IsGroup;
    assert IsGroup(ts, a[n].start, a[n].stop, a[n].group);
    assert IsCovered(b, a[n].start);
    k :| 0 <= k < |b| && b[k].start <= a[n].start < b[k].stop;
  }

  /** A file has one scan. */
  lemma ScanIsUnique(ts: seq<Token>, a: seq<Found>, b: seq<Found>)
    requires IsScan(ts, a) && IsScan(ts, b)
    ensures a == b
  {
    hide IsScan;
    var n := if |a| < |b| then |a| else |b|;
    SameFront(ts, a, b, n);
    NoMore(ts, a, b);
    NoMore(ts, b, a);
  }

  lemma {:induction false} SameFront(ts: seq<Token>, a: seq<Found>, b: seq<Found>, n: nat)
    requires IsScan(ts, a) && IsScan(ts, b) && n <= |a| && n <= |b|
    ensures forall k :: 0 <= k < n ==> a[k] == b[k]
  {
    hide IsScan, IsGroup;
    if n > 0 {
      SameFront(ts, a, b, n - 1);
      NotBefore(ts, a, b, n - 1);
      NotBefore(ts, b, a, n - 1);
      var x, y := a[n - 1], b[n - 1];
      FoundIsGroup(ts, a, n - 1);
      FoundIsGroup(ts, b, n - 1);
      GroupIsUnique(ts, x.start, x.stop, x.group, y.stop, y.group);
    }
  }

  /** Two scans that agree so far: the next group of the first is not before that of the second. */
  lemma NotBefore(ts: seq<Token>, a: seq<Found>, b: seq<Found>, n: nat)
    requires IsScan(ts, a) && IsScan(ts, b) && n < |a| && n < |b| && forall k :: 0 <= k < n ==> a[k] == b[k]
    ensures b[n].start <= a[n].start
  {
    hide IsScan, IsGroup;
    var k := CoveredBy(ts, a, n, b);
    if k < n {
      FoundIsGroup(ts, a, k);
    } else if n < k {
      FoundIsGroup(ts, b, n);
    }
  }

  lemma NoMore(ts: seq<Token>, a: seq<Found>, b: seq<Found>)
    requires IsScan(ts, a) && IsScan(ts, b) && forall k :: 0 <= k < |a| && k < |b| ==> a[k] == b[k]
    ensures |a| <= |b|
  {
    hide IsScan, IsGroup;
    if |b| < |a| {
      var k := CoveredBy(ts, a, |b|, b);
      FoundIsGroup(ts, a, k);
    }
  }

  // Offsets

  /** Tokens in the order of the file, none empty, none over another. */
  predicate IsSorted(ts: seq<Token>) {
    && (forall i :: 0 <= i < |ts| ==> ts[i].begin < ts[i].end)
    && forall i, j :: 0 <= i < j < |ts| ==> ts[i].end <= ts[j].begin
  }

  /** The first token that begins at the offset or behind it. */
  function FirstFrom(ts: seq<Token>, offset: nat): (i: nat)
    requires IsSorted(ts)
    ensures i <= |ts|
    ensures forall k :: 0 <= k < |ts| ==> (k < i <==> ts[k].begin < offset)
  {
    FirstOfFrom(ts, offset, 0)
  }

  function FirstOfFrom(ts: seq<Token>, offset: nat, from: nat): (i: nat)
    requires IsSorted(ts) && from <= |ts| && forall k :: 0 <= k < from ==> ts[k].begin < offset
    ensures i <= |ts|
    ensures forall k :: 0 <= k < |ts| ==> (k < i <==> ts[k].begin < offset)
    decreases |ts| - from
  {
    if from == |ts| || ts[from].begin >= offset then from else FirstOfFrom(ts, offset, from + 1)
  }

  /** The groups of a file are in order and apart, and each holds its attributes and their arguments. */
  lemma GroupsAreOrdered(ts: seq<Token>, found: seq<Found>)
    requires IsSorted(ts) && IsScan(ts, found)
    ensures forall k :: 0 <= k < |found| ==> found[k].group.begin < found[k].group.end
    ensures forall k, l :: 0 <= k < l < |found| ==> found[k].group.end <= found[l].group.begin
    ensures forall k, a :: 0 <= k < |found| && a in found[k].group.attributes ==> IsInside(a, found[k].group)
  {
    hide IsScan, IsGroup, IsInside;
    forall k | 0 <= k < |found|
      ensures found[k].group.begin < found[k].group.end
    {
      FoundIsGroup(ts, found, k);
      GroupOffsets(ts, found[k]);
    }
    forall k, l | 0 <= k < l < |found|
      ensures found[k].group.end <= found[l].group.begin
    {
      FoundIsGroup(ts, found, k);
      FoundIsGroup(ts, found, l);
      GroupOffsets(ts, found[k]);
      GroupOffsets(ts, found[l]);
    }
    forall k, a | 0 <= k < |found| && a in found[k].group.attributes
      ensures IsInside(a, found[k].group)
    {
      FoundIsGroup(ts, found, k);
      InsideGroup(ts, found[k], a);
    }
  }

  lemma GroupOffsets(ts: seq<Token>, f: Found)
    requires IsSorted(ts) && IsGroup(ts, f.start, f.stop, f.group)
    ensures f.start + 4 <= f.stop <= |ts|
    ensures f.group.begin == ts[f.start].begin && f.group.end == ts[f.stop - 1].end && f.group.begin < f.group.end
  {
    hide IsList;
  }

  lemma InsideGroup(ts: seq<Token>, f: Found, a: Attribute)
    requires IsSorted(ts) && IsGroup(ts, f.start, f.stop, f.group) && a in f.group.attributes
    ensures IsInside(a, f.group)
  {
    hide IsList, IsInside, IsSorted;
    if IsList(ts, f.start + 2, f.stop - 2, "", f.group.attributes) {
      InsideList(ts, f.start + 2, f.stop - 2, "", f.group.attributes, a, f);
    } else {
      InsideList(ts, f.start + 5, f.stop - 2, ts[f.start + 3].spelling, f.group.attributes, a, f);
    }
  }

  predicate IsInside(a: Attribute, g: Group) {
    && g.begin < a.begin < g.end
    && (a.hasArguments ==> a.begin < a.argumentsBegin <= a.argumentsEnd < g.end)
  }

  lemma {:induction false} InsideList(ts: seq<Token>, i: nat, j: nat, scope: string, attributes: seq<Attribute>,
                                      a: Attribute, f: Found)
    requires IsSorted(ts) && f.start < i <= j < f.stop <= |ts|
    requires f.group.begin == ts[f.start].begin && f.group.end == ts[f.stop - 1].end
    requires IsList(ts, i, j, scope, attributes) && a in attributes
    ensures IsInside(a, f.group)
    decreases j - i
  {
    hide Encloses;
    if i < j && Is(ts[i], ",") && IsList(ts, i + 1, j, scope, attributes) {
      InsideList(ts, i + 1, j, scope, attributes, a, f);
    } else {
      var k: nat :| i < k <= j && IsAttribute(ts, i, k, scope, attributes[0])
                    && IsList(ts, k, j, scope, attributes[1..]);
      if a == attributes[0] {
        var h: nat :| IsHead(ts, i, h, scope, a) && IsTail(ts, h, k, a);
      } else {
        assert a in attributes[1..];
        InsideList(ts, k, j, scope, attributes[1..], a, f);
      }
    }
  }

  /** The byte range of arguments holds exactly the tokens between the parentheses, and their brackets match. */
  lemma ArgumentsAreTheTokensBetween(ts: seq<Token>, i: nat, k: nat, scope: string, a: Attribute)
    requires IsSorted(ts) && IsAttribute(ts, i, k, scope, a) && a.hasArguments
    ensures exists h: nat :: i < h < k - 1 < |ts| && Is(ts[h], "(") && Encloses(ts, h, k - 1)
              && forall x :: 0 <= x < |ts| ==>
                   (h < x < k - 1 <==> a.argumentsBegin <= ts[x].begin && ts[x].end <= a.argumentsEnd)
  {
    var h: nat :| IsHead(ts, i, h, scope, a) && IsTail(ts, h, k, a);
    forall x | 0 <= x < |ts|
      ensures h < x < k - 1 <==> a.argumentsBegin <= ts[x].begin && ts[x].end <= a.argumentsEnd
    {
    }
  }
}
