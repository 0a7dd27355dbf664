/** The groups that belong to one declaration: those that follow an offset, and those that lead up to one. */
module AttributeRuns {
  import opened AttributeGrammar
  import opened AttributeScan

  // Where the groups of a scan are

  /** What the searches rely on: groups in order at places the offsets tell, each with a bracket at its end. */
  ghost predicate Placed(ts: seq<Token>, found: seq<Found>) {
    && IsSorted(ts)
    && (forall k :: 0 <= k < |found| ==> IsPlaced(ts, found[k]))
    && forall k, l :: 0 <= k < l < |found| ==> found[k].stop <= found[l].start
  }

  predicate IsPlaced(ts: seq<Token>, f: Found) {
    && f.start < f.stop <= |ts| && ts[f.stop - 1].kind != Comment
    && f.group.begin == ts[f.start].begin && f.group.end == ts[f.stop - 1].end
  }

  lemma ScanIsPlaced(ts: seq<Token>, found: seq<Found>)
    requires IsSorted(ts) && IsScan(ts, found)
    ensures Placed(ts, found)
  {
    hide IsList, IsSorted;
  }

  lemma StartsAt(ts: seq<Token>, f: Found, i: nat)
    requires IsSorted(ts) && IsPlaced(ts, f) && i < |ts| && f.group.begin == ts[i].begin
    ensures f.start == i
  {
  }

  lemma EndsAt(ts: seq<Token>, f: Found, i: nat)
    requires IsSorted(ts) && IsPlaced(ts, f) && i < |ts| && f.group.end == ts[i].end
    ensures f.stop == i + 1
  {
  }

  lemma FirstIs(ts: seq<Token>, offset: nat, i: nat)
    requires IsSorted(ts) && i <= |ts| && forall k :: 0 <= k < i ==> ts[k].begin < offset
    requires i < |ts| ==> offset <= ts[i].begin
    ensures FirstFrom(ts, offset) == i
  {
    var f := FirstFrom(ts, offset);
    assert f < |ts| ==> offset <= ts[f].begin;
  }

  lemma FirstAt(ts: seq<Token>, i: nat)
    requires IsSorted(ts) && i < |ts|
    ensures FirstFrom(ts, ts[i].begin) == i
  {
    forall k | 0 <= k < i
      ensures ts[k].begin < ts[i].begin
    {
      assert ts[k].end <= ts[i].begin;
    }
    FirstIs(ts, ts[i].begin, i);
  }

  lemma FirstBehind(ts: seq<Token>, i: nat)
    requires IsSorted(ts) && 0 < i <= |ts|
    ensures FirstFrom(ts, ts[i - 1].end) == i
  {
    forall k | 0 <= k < i
      ensures ts[k].begin < ts[i - 1].end
    {
      assert ts[k].begin < ts[k].end <= ts[i - 1].end;
    }
    FirstIs(ts, ts[i - 1].end, i);
  }

  lemma BeginsGrow(ts: seq<Token>, found: seq<Found>)
    requires Placed(ts, found)
    ensures forall k, l :: 0 <= k < l < |found| ==> found[k].group.begin < found[l].group.begin
  {
  }

  /** Groups that start in order are in order. */
  lemma StartOrder(ts: seq<Token>, found: seq<Found>, x: nat, y: nat)
    requires Placed(ts, found) && x < |found| && y < |found| && found[x].start <= found[y].start
    ensures x <= y
  {
    assert IsPlaced(ts, found[y]);
  }

  // Forward

  /** The groups `[k, m)` follow each other without a token between them, and no further group follows so. */
  ghost predicate IsForwardRun(found: seq<Found>, offset: nat, k: nat, m: nat) {
    && k <= m <= |found|
    && (forall x :: k < x < m ==> found[x - 1].stop == found[x].start)
    && if k == m then forall x :: 0 <= x < |found| ==> found[x].group.begin != offset
       else found[k].group.begin == offset && (m < |found| ==> found[m - 1].stop != found[m].start)
  }

  /** The first group that begins at the offset or behind it. */
  method FirstGroupFrom(groups: seq<Group>, offset: nat) returns (k: nat)
    requires forall i, j :: 0 <= i < j < |groups| ==> groups[i].begin < groups[j].begin
    ensures k <= |groups| && forall i :: 0 <= i < |groups| ==> (i < k <==> groups[i].begin < offset)
  {
    k := 0;
    while k < |groups| && groups[k].begin < offset
      invariant k <= |groups| && forall i :: 0 <= i < k ==> groups[i].begin < offset
    {
      k := k + 1;
    }
  }

  /** What follows an offset is one run. */
  lemma ForwardRunIsUnique(ts: seq<Token>, found: seq<Found>, offset: nat, k: nat, m: nat, i: nat, j: nat)
    requires Placed(ts, found) && IsForwardRun(found, offset, k, m) && IsForwardRun(found, offset, i, j)
    ensures found[i..j] == found[k..m]
  {
    BeginsGrow(ts, found);
  }

  method GroupsRunAt(ts: seq<Token>, groups: seq<Group>, start: nat, ghost found: seq<Found>)
      returns (run: seq<Group>, ghost k: nat, ghost m: nat)
    requires IsSorted(ts) && IsScan(ts, found) && groups == Groups(found)
    ensures IsForwardRun(found, start, k, m) && run == Groups(found[k..m])
  {
    hide IsScan, IsSorted, IsPlaced, Placed, Groups;
    ScanIsPlaced(ts, found);
    BeginsGrow(ts, found);
    run, k, m := [], 0, 0;
    var offset := start;
    while true
      invariant k <= m <= |found| && run == Groups(found[k..m])
      invariant forall x :: k < x < m ==> found[x - 1].stop == found[x].start
      invariant if k == m then k == m == 0 && offset == start else found[k].group.begin == start
      invariant k < m ==> found[m - 1].stop < |ts| && offset == ts[found[m - 1].stop].begin
      decreases |found| - m, m - k
    {
      var g := FirstGroupFrom(groups, offset);
      if g == |groups| || groups[g].begin != offset {
        NoGroupFollows(ts, found, offset, k, m, g);
        return;
      }
      if k == m {
        k, m := g, g;
      } else {
        NextFound(ts, found, m, g);
      }
      assert found[k..m + 1] == found[k..m] + [found[m]];
      run, m := run + [groups[g]], m + 1;
      AfterGroup(ts, found, g);
      var next := FirstFrom(ts, groups[g].end);
      if next == |ts| {
        return;
      }
      offset := ts[next].begin;
    }
  }

  lemma NoGroupFollows(ts: seq<Token>, found: seq<Found>, offset: nat, k: nat, m: nat, g: nat)
    requires Placed(ts, found) && k <= m <= |found| && g <= |found|
    requires forall i :: 0 <= i < |found| ==> (i < g <==> found[i].group.begin < offset)
    requires g < |found| ==> found[g].group.begin != offset
    requires k < m ==> found[m - 1].stop < |ts| && offset == ts[found[m - 1].stop].begin
    ensures forall x :: 0 <= x < |found| ==> found[x].group.begin != offset
    ensures k < m < |found| ==> found[m - 1].stop != found[m].start
  {
    if k < m < |found| {
      assert IsPlaced(ts, found[m]);
    }
    forall x | 0 <= x < |found|
      ensures found[x].group.begin != offset
    {
      if g < x {
        BeginsGrow(ts, found);
        assert found[g].group.begin >= offset;
      }
    }
  }

  lemma NextFound(ts: seq<Token>, found: seq<Found>, m: nat, g: nat)
    requires Placed(ts, found) && 0 < m <= |found| && g < |found| && found[m - 1].stop < |ts|
    requires found[g].group.begin == ts[found[m - 1].stop].begin
    ensures g == m && found[m].start == found[m - 1].stop
  {
    StartsAt(ts, found[g], found[m - 1].stop);
    assert IsPlaced(ts, found[m - 1]);
    StartOrder(ts, found, m - 1, g);
    assert found[m - 1].stop <= found[m].start;
    StartOrder(ts, found, g, m);
  }

  lemma AfterGroup(ts: seq<Token>, found: seq<Found>, g: nat)
    requires Placed(ts, found) && g < |found|
    ensures FirstFrom(ts, found[g].group.end) == found[g].stop
    ensures found[g].stop == |ts| ==> g + 1 == |found|
  {
    FirstBehind(ts, found[g].stop);
    if g + 1 < |found| {
      assert IsPlaced(ts, found[g + 1]);
    }
  }

  // Backward

  /** Nothing but comments is between the end of the group and the token. */
  predicate Reaches(ts: seq<Token>, f: Found, t: nat) {
    f.stop <= t <= |ts| && forall x :: f.stop <= x < t ==> ts[x].kind == Comment
  }

  /** The groups `[k, m)` lead up to the token `t` with nothing but comments between, and no further group does. */
  ghost predicate IsBackwardRun(ts: seq<Token>, found: seq<Found>, t: nat, k: nat, m: nat) {
    && k <= m <= |found|
    && (forall x :: k < x < m ==> Reaches(ts, found[x - 1], found[x].start))
    && if k == m then forall x :: 0 <= x < |found| ==> !Reaches(ts, found[x], t)
       else Reaches(ts, found[m - 1], t) && (k > 0 ==> !Reaches(ts, found[k - 1], found[k].start))
  }

  method SkipComments(ts: seq<Token>, t: nat) returns (at: nat)
    requires t <= |ts|
    ensures at <= t && forall x :: at <= x < t ==> ts[x].kind == Comment
    ensures at > 0 ==> ts[at - 1].kind != Comment
  {
    at := t;
    while at > 0 && ts[at - 1].kind == Comment
      invariant at <= t && forall x :: at <= x < t ==> ts[x].kind == Comment
    {
      at := at - 1;
    }
  }

  method GroupEndingAt(groups: seq<Group>, end: nat) returns (g: nat)
    ensures g <= |groups| && forall i :: 0 <= i < g ==> groups[i].end != end
    ensures g < |groups| ==> groups[g].end == end
  {
    g := 0;
    while g < |groups| && groups[g].end != end
      invariant g <= |groups| && forall i :: 0 <= i < g ==> groups[i].end != end
    {
      g := g + 1;
    }
  }

  /** What leads up to a token is one run. */
  lemma BackwardRunIsUnique(ts: seq<Token>, found: seq<Found>, t: nat, k: nat, m: nat, i: nat, j: nat)
    requires Placed(ts, found) && IsBackwardRun(ts, found, t, k, m) && IsBackwardRun(ts, found, t, i, j)
    ensures found[i..j] == found[k..m]
  {
    hide Placed, Reaches;
    if i < j && k < m {
      ReachingIsUnique(ts, found, j - 1, m - 1, t);
    }
  }

  method GroupsRunBefore(ts: seq<Token>, groups: seq<Group>, offset: nat, ghost found: seq<Found>)
      returns (run: seq<Group>, ghost k: nat, ghost m: nat)
    requires IsSorted(ts) && IsScan(ts, found) && groups == Groups(found)
    ensures k <= m <= |found| && run == Groups(found[k..m])
    ensures if IsTokenAt(ts, offset) then IsBackwardRun(ts, found, FirstFrom(ts, offset), k, m) else k == m
  {
    hide IsScan, IsSorted, IsPlaced, Reaches, Placed, Groups;
    ScanIsPlaced(ts, found);
    run, k, m := [], 0, 0;
    var at := FirstFrom(ts, offset);
    if at == |ts| || ts[at].begin != offset {
      return;
    }
    ghost var target := at;
    while true
      invariant k <= m <= |found| && run == Groups(found[k..m]) && at <= |ts|
      invariant forall x :: k < x < m ==> Reaches(ts, found[x - 1], found[x].start)
      invariant if k == m then at == target else at == found[k].start && Reaches(ts, found[m - 1], target)
      decreases at
    {
      ghost var here := at;
      at := SkipComments(ts, at);
      if at == 0 {
        NoneReaches(ts, found, here, at);
        return;
      }
      var g := GroupEndingAt(groups, ts[at - 1].end);
      if g == |groups| {
        NoneEndsAt(ts, found, at);
        NoneReaches(ts, found, here, at);
        return;
      }
      PreviousFound(ts, found, here, at, g);
      if k == m {
        k, m := g + 1, g + 1;
      } else {
        assert k == g + 1;
      }
      assert found[k - 1..m] == [found[k - 1]] + found[k..m];
      run, k := [groups[g]] + run, k - 1;
      at := FirstFrom(ts, groups[g].begin);
    }
  }

  predicate IsTokenAt(ts: seq<Token>, offset: nat)
    requires IsSorted(ts)
  {
    FirstFrom(ts, offset) < |ts| && ts[FirstFrom(ts, offset)].begin == offset
  }

  lemma NoneEndsAt(ts: seq<Token>, found: seq<Found>, at: nat)
    requires Placed(ts, found) && 0 < at <= |ts|
    requires forall x :: 0 <= x < |found| ==> found[x].group.end != ts[at - 1].end
    ensures forall x :: 0 <= x < |found| ==> found[x].stop != at
  {
    forall x | 0 <= x < |found|
      ensures found[x].stop != at
    {
      assert IsPlaced(ts, found[x]);
    }
  }

  lemma NoneReaches(ts: seq<Token>, found: seq<Found>, here: nat, at: nat)
    requires Placed(ts, found) && at <= here <= |ts|
    requires forall x :: at <= x < here ==> ts[x].kind == Comment
    requires at > 0 ==> ts[at - 1].kind != Comment && forall x :: 0 <= x < |found| ==> found[x].stop != at
    ensures forall x :: 0 <= x < |found| ==> !Reaches(ts, found[x], here)
  {
    forall x | 0 <= x < |found|
      ensures !Reaches(ts, found[x], here)
    {
      assert IsPlaced(ts, found[x]);
    }
  }

  /** The group that ends where the comments start reaches over them. */
  lemma PreviousFound(ts: seq<Token>, found: seq<Found>, here: nat, at: nat, g: nat)
    requires Placed(ts, found) && 0 < at <= here <= |ts| && g < |found|
    requires forall x :: at <= x < here ==> ts[x].kind == Comment
    requires found[g].group.end == ts[at - 1].end
    ensures found[g].stop == at && Reaches(ts, found[g], here)
    ensures FirstFrom(ts, found[g].group.begin) == found[g].start < at
    ensures forall k :: 0 <= k < |found| && found[k].start == here ==> k == g + 1
  {
    EndsAt(ts, found[g], at - 1);
    FirstAt(ts, found[g].start);
    forall k | 0 <= k < |found| && found[k].start == here
      ensures k == g + 1
    {
      StartOrder(ts, found, g, k);
      assert IsPlaced(ts, found[g + 1]);
      assert found[g].stop <= found[g + 1].start;
    }
  }

  // The two directions

  /** The groups that follow an offset and those that lead up to it are different groups. */
  lemma RunsShareNothing(ts: seq<Token>, found: seq<Found>, offset: nat, k: nat, m: nat, i: nat, j: nat)
    requires IsSorted(ts) && IsScan(ts, found) && IsTokenAt(ts, offset)
    requires IsForwardRun(found, offset, k, m) && IsBackwardRun(ts, found, FirstFrom(ts, offset), i, j)
    ensures forall g :: !(g in Groups(found[k..m]) && g in Groups(found[i..j]))
  {
    hide IsScan, IsSorted;
    ScanIsPlaced(ts, found);
    BeginsGrow(ts, found);
    if k < m && i < j {
      StartsAt(ts, found[k], FirstFrom(ts, offset));
      assert IsPlaced(ts, found[j - 1]);
      StartOrder(ts, found, j - 1, k);
      forall x, y | k <= x < m && i <= y < j
        ensures found[x].group != found[y].group
      {
        assert found[y].group.begin < found[x].group.begin;
      }
      DisjointGroups(found, k, m, i, j);
    }
  }

  lemma DisjointGroups(found: seq<Found>, k: nat, m: nat, i: nat, j: nat)
    requires k <= m <= |found| && i <= j <= |found|
    requires forall x, y :: k <= x < m && i <= y < j ==> found[x].group != found[y].group
    ensures forall g :: !(g in Groups(found[k..m]) && g in Groups(found[i..j]))
  {
    forall g | g in Groups(found[k..m])
      ensures g !in Groups(found[i..j])
    {
      var x :| 0 <= x < |found[k..m]| && Groups(found[k..m])[x] == g;
      assert found[k + x].group == g;
    }
  }

  /** What follows an offset is the end of what leads up to the token behind it. */
  lemma ForwardIsEndOfBackward(ts: seq<Token>, found: seq<Found>, offset: nat, k: nat, m: nat, i: nat, j: nat)
    requires IsSorted(ts) && IsScan(ts, found) && IsForwardRun(found, offset, k, m) && k < m
    requires IsBackwardRun(ts, found, found[m - 1].stop, i, j)
    ensures i <= k && j == m
    ensures exists front :: Groups(found[i..j]) == front + Groups(found[k..m])
  {
    hide IsScan, IsSorted, IsPlaced, Placed, Reaches, Groups;
    ScanIsPlaced(ts, found);
    ForwardReaches(ts, found, offset, k, m);
    ReachingIsUnique(ts, found, m - 1, j - 1, found[m - 1].stop);
    SplitGroups(found, i, k, m);
  }

  lemma ForwardReaches(ts: seq<Token>, found: seq<Found>, offset: nat, k: nat, m: nat)
    requires Placed(ts, found) && IsForwardRun(found, offset, k, m) && k < m
    ensures forall x :: k < x < m ==> Reaches(ts, found[x - 1], found[x].start)
    ensures Reaches(ts, found[m - 1], found[m - 1].stop)
  {
    forall x | k < x < m
      ensures Reaches(ts, found[x - 1], found[x].start)
    {
      assert IsPlaced(ts, found[x]);
    }
    assert IsPlaced(ts, found[m - 1]);
  }

  lemma SplitGroups(found: seq<Found>, i: nat, k: nat, m: nat)
    requires i <= k <= m <= |found|
    ensures Groups(found[i..m]) == Groups(found[i..k]) + Groups(found[k..m])
  {
  }

  /** At most one group leads up to a token. */
  lemma ReachingIsUnique(ts: seq<Token>, found: seq<Found>, x: nat, y: nat, t: nat)
    requires Placed(ts, found) && x < |found| && y < |found| && Reaches(ts, found[x], t) && Reaches(ts, found[y], t)
    ensures x == y
  {
    assert IsPlaced(ts, found[x]) && IsPlaced(ts, found[y]);
  }
}
