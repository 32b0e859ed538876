/** When a client sees exactly the flattened tree. */
module ListTheorem {
  import opened ContainerTree
  import opened EnumerationProofs
  import opened ListExactness
  import opened ListIff

  lemma PathCut(c: Cursor, s: Cursor, n: nat)
    requires Path(c) && Path(c + s) && 0 < n <= |s|
    ensures var d := c + s[..n]; Path(d) && c < d && Top(d) == s[n-1] && d[|c|] == s[0]
  {
    var d := c + s[..n];
    assert forall i | 0 <= i < |d| :: d[i] == (c + s)[i];
  }

  lemma Rejoin<T>(c: seq<T>, s: seq<T>, n: nat)
    requires n <= |s|
    ensures c + s[..n] + s[n..] == c + s
  {
  }

  // ---------- not Wrong: the flattened tree ----------

  /** A search of a match-free container that is open already. */
  lemma BlindEnd(c: Cursor, cur: Cursor, mimeType: string)
    requires Path(c) && Path(cur) && c < cur && MatchFree(Top(cur), mimeType)
    ensures var e := cur + FirstChain(Top(cur));
      && Path(e) && c < e && Top(e).containers == [] && Matching(Top(e).contents, mimeType) == []
      && Enumerate(cur, mimeType) == Walk([], e) && After(cur, mimeType) == e
  {
    hide Enumerate, After, MatchFree, FirstChain, Matching;
    assert |cur| > 1;
    FailedSearchDrifts(cur, mimeType);
    FirstChainEnds(cur, mimeType);
    AfterCases(cur, mimeType);
  }

  lemma EmptyWalk(w: Walk, a: seq<EmbeddedObject>, b: seq<EmbeddedObject>, e: Cursor)
    requires w == Walk(a + b, e) && a == [] && b == []
    ensures w == Walk([], e)
  {
  }

  /** Inside a match-free container the rest of a level finds nothing. */
  lemma {:induction false} BlindStep(c: Cursor, i: nat, j: nat, cur: Cursor, mimeType: string)
    requires Path(c) && Path(cur) && UniqueIds(Top(c)) && i < |Top(c).containers| && j < |Top(c).containers|
    requires c < cur && cur[|c|] == Top(c).containers[j] && MatchFree(Top(cur), mimeType)
    ensures Level(c, i, cur, mimeType) == Walk([], cur + FirstChain(Top(cur)))
  {
    hide Enumerate, Level, After, UniqueIds, MatchFree, FirstChain, Matching, Path, OpenAt;
    OpenFails(c, i, j, cur);
    LevelStep(c, i, cur, cur, mimeType);
    BlindEnd(c, cur, mimeType);
    var e := cur + FirstChain(Top(cur));
    DeadEnd(c, i + 1, e, mimeType);
    EmptyWalk(Level(c, i, cur, mimeType), Enumerate(cur, mimeType).found, Level(c, i + 1, e, mimeType).found, e);
  }

  lemma {:induction false} BlindRest(c: Cursor, i: nat, j: nat, t: Tail, mimeType: string)
    requires Path(c) && UniqueIds(Top(c)) && i < |Top(c).containers| && j < |Top(c).containers|
    requires t.Stuck? && Spine(t, mimeType) && t.bare < t.stop && Path(c + t.spine)
    requires t.spine[0] == Top(c).containers[j]
    ensures Path(c + t.spine[..t.stop]) && Level(c, i, c + t.spine[..t.stop], mimeType) == Walk([], c + t.spine)
  {
    hide Level, UniqueIds, MatchFree;
    PathCut(c, t.spine, t.stop);
    Rejoin(c, t.spine, t.stop);
    hide Path;
    BlindStep(c, i, j, c + t.spine[..t.stop], mimeType);
  }

  /** Closing the container k leaves the cursor where the tail says, seen from k's parent. */
  lemma CloseBelow(c: Cursor, k: Container, t: Tail)
    requires |c| > 0 && t.Stuck? && 1 <= t.stop <= |t.spine|
    ensures CloseAt(c + [k] + t.spine[..t.stop]) == c + Below(k, t).spine[..t.stop]
  {
    var e, f := c + [k] + t.spine[..t.stop], c + ([k] + t.spine)[..t.stop];
    assert |e| == |f| + 1;
    assert forall i | 0 <= i < |f| :: e[i] == f[i];
  }

  lemma {:induction false} TailHolds(c: Cursor, mimeType: string)
    requires Path(c) && UniqueIds(Top(c)) && !TailOf(Top(c), mimeType).Wrong?
    ensures Enumerate(c, mimeType).found == Flatten(Top(c), mimeType)
    ensures EndsAt(c, Enumerate(c, mimeType).finish, TailOf(Top(c), mimeType))
    decreases Height(Top(c)), 1
  {
    var j := FirstTainted(Top(c).containers, mimeType);
    if j == |Top(c).containers| {
      DenseEnumerates(c, mimeType);
    } else {
      FirstSearched(c, j, mimeType);
      TailHoldsRest(c, j, mimeType);
    }
  }

  lemma {:induction false} FirstSearched(c: Cursor, j: nat, mimeType: string)
    requires Path(c) && UniqueIds(Top(c)) && j < |Top(c).containers|
    requires TailAt(Top(c).containers[j], mimeType).Stuck?
    ensures AfterFirst(c, j, mimeType)
    decreases Height(Top(c)), 0
  {
    hide Enumerate, UniqueIds, Tainted, TailOf;
    var k, q := Top(c).containers[j], c + [Top(c).containers[j]];
    assert k in Top(c).containers;
    UniqueAlong(c, q);
    if MatchFree(k, mimeType) {
      FailedSearchDrifts(q, mimeType);
      var s := [k] + FirstChain(k);
      assert s[..|s|] == s && q + FirstChain(k) == c + s;
    } else {
      HeightDrops(c, q);
      TailHolds(q, mimeType);
      SpineFacts(k, mimeType);
      CloseBelow(c, k, TailOf(k, mimeType));
    }
  }

  lemma {:induction false} TailAtFacts(c: Cursor, k: Container, mimeType: string)
    requires Path(c) && k in Top(c).containers && TailAt(k, mimeType).Stuck?
    ensures var t := TailAt(k, mimeType); Spine(t, mimeType) && t.spine[0] == k && Path(c + t.spine)
  {
    hide TailOf, MatchFree, FirstChain;
    assert Path(c + [k]);
    if MatchFree(k, mimeType) {
      ChainFacts(k, mimeType);
      ChainPath(c, k);
    } else {
      SpineFacts(k, mimeType);
      BelowSpine(k, TailOf(k, mimeType), mimeType);
      SpinePath(c + [k], mimeType);
      var s := TailOf(k, mimeType).spine;
      assert c + ([k] + s) == c + [k] + s;
    }
  }

  lemma {:induction false} TailHoldsRest(c: Cursor, j: nat, mimeType: string)
    requires Path(c) && UniqueIds(Top(c)) && !TailOf(Top(c), mimeType).Wrong?
    requires j == FirstTainted(Top(c).containers, mimeType) && j < |Top(c).containers|
    requires AfterFirst(c, j, mimeType)
    ensures Enumerate(c, mimeType).found == Flatten(Top(c), mimeType)
    ensures EndsAt(c, Enumerate(c, mimeType).finish, TailOf(Top(c), mimeType))
  {
    var k := Top(c).containers[j];
    assert k in Top(c).containers;
    var t := TailAt(k, mimeType);
    TailCases(Top(c), j, mimeType);
    TailAtFacts(c, k, mimeType);
    assert t.spine[..|t.spine|] == t.spine;
    EnumerateSplit(c, j, mimeType);
    FlattenSplit(Top(c), j, mimeType);
    hide UniqueIds, TailOf, TailAt, MatchFree, Spine, After, Enumerate, Level;
    NothingLeft(c, j, t, mimeType);
    var found := Before(Top(c), j, mimeType) + Flatten(k, mimeType);
    assert found + [] == found;
  }

  /** The first tainted container of Top(c) was searched correctly and the cursor is where its tail says. */
  ghost predicate AfterFirst(c: Cursor, j: nat, mimeType: string)
    requires Path(c) && j < |Top(c).containers|
  {
    var k := Top(c).containers[j];
    var t := TailAt(k, mimeType);
    && Path(c + [k]) && t.Stuck? && t.stop <= |t.spine|
    && After(c + [k], mimeType) == c + t.spine[..t.stop]
    && Enumerate(c + [k], mimeType).found == Flatten(k, mimeType)
  }

  lemma {:induction false} TailCases(n: Container, j: nat, mimeType: string)
    requires j == FirstTainted(n.containers, mimeType) && j < |n.containers|
    requires TailAt(n.containers[j], mimeType).Stuck?
    ensures var t := TailAt(n.containers[j], mimeType);
      var rest := FlattenAll(n.containers[j+1..], mimeType);
      TailOf(n, mimeType) == if j + 1 == |n.containers| then t
                             else if t.bare < t.stop && rest == [] then t.(stop := |t.spine|)
                             else Wrong
  {
    FlattenAllEmpty(n.containers[j+1..], mimeType);
  }

  lemma {:induction false} NothingLeft(c: Cursor, j: nat, t: Tail, mimeType: string)
    requires Path(c) && UniqueIds(Top(c)) && j < |Top(c).containers|
    requires t.Stuck? && t.stop <= |t.spine| && Spine(t, mimeType)
    requires t.spine[0] == Top(c).containers[j] && Path(c + t.spine)
    requires j + 1 < |Top(c).containers| ==> t.bare < t.stop
    ensures var next := c + t.spine[..t.stop];
      && Path(next)
      && Level(c, j + 1, next, mimeType)
        == Walk([], if j + 1 == |Top(c).containers| then next else c + t.spine)
  {
    hide UniqueIds, Spine, Enumerate, Level;
    var next := c + t.spine[..t.stop];
    assert next == (c + t.spine)[..|next|];
    if j + 1 == |Top(c).containers| {
      LevelEnd(c, next, mimeType);
    } else {
      BlindRest(c, j + 1, j, t, mimeType);
    }
  }

  // ---------- Wrong: something missed or something twice ----------

  ghost predicate Bad(found: seq<EmbeddedObject>, flat: seq<EmbeddedObject>) {
    !NoRepeat(found) || exists o | o in flat :: o !in found
  }

  /** One search in the middle of a longer one keeps its faults, if nothing around it repairs them. */
  lemma BadInside(before: seq<EmbeddedObject>, f: seq<EmbeddedObject>, flat: seq<EmbeddedObject>,
                  rest: seq<EmbeddedObject>, restFlat: seq<EmbeddedObject>)
    requires NoRepeat(before + flat + restFlat)
    requires Bad(f, flat) || rest != restFlat
    requires forall o | o in f :: o in flat
    requires forall o | o in rest :: o in f
    ensures Bad(before + f + rest, before + flat + restFlat)
  {
    var all, whole := before + f + rest, before + flat + restFlat;
    assert forall o | o in flat :: o in whole;
    assert forall o | o in restFlat :: o in whole;
    Apart(before, flat, restFlat);
    if !NoRepeat(f) {
      var x, y :| 0 <= x < y < |f| && f[x] == f[y];
      assert all[|before|+x] == f[x] && all[|before|+y] == f[y];
    } else if o :| o in flat && o !in f {
      assert o !in all;
    } else if rest != [] {
      assert rest[0] in rest;
      var x :| 0 <= x < |f| && f[x] == rest[0];
      assert all[|before|+x] == all[|before|+|f|];
    } else {
      assert restFlat[0] in restFlat && restFlat[0] !in all;
    }
  }

  lemma Apart(a: seq<EmbeddedObject>, b: seq<EmbeddedObject>, c: seq<EmbeddedObject>)
    requires NoRepeat(a + b + c)
    ensures NoRepeat(b)
    ensures forall o | o in b :: o !in a && o !in c
    ensures forall o | o in c :: o !in a
  {
    var w := a + b + c;
    assert forall i | 0 <= i < |a| :: w[i] == a[i];
    assert forall i | 0 <= i < |b| :: w[|a|+i] == b[i];
    assert forall i | 0 <= i < |c| :: w[|a|+|b|+i] == c[i];
  }

  lemma {:induction false} FoundOnlyThere(c: Cursor, j: nat, mimeType: string)
    requires Path(c) && UniqueIds(Top(c)) && j < |Top(c).containers| && Tainted(Top(c).containers[j], mimeType)
    ensures var q := c + [Top(c).containers[j]];
      && Path(q) && Path(After(q, mimeType)) && c <= After(q, mimeType)
      && (forall o | o in Enumerate(q, mimeType).found :: o in Flatten(Top(q), mimeType))
      && (forall o | o in Level(c, j + 1, After(q, mimeType), mimeType).found :: o in Enumerate(q, mimeType).found)
  {
    var q := c + [Top(c).containers[j]];
    assert Top(q) in Top(c).containers;
    forall o | o in Enumerate(q, mimeType).found ensures o in Flatten(Top(q), mimeType) {
      FoundIsInside(q, o, mimeType);
    }
    forall o ensures
      && c < After(q, mimeType)
      && (o in Level(c, j + 1, After(q, mimeType), mimeType).found ==> o in Enumerate(q, mimeType).found)
    {
      RestFindsNothingNew(c, j, o, mimeType);
    }
  }

  lemma {:induction false} WrongIsBad(c: Cursor, mimeType: string)
    requires Path(c) && UniqueIds(Top(c)) && NoRepeat(Flatten(Top(c), mimeType)) && TailOf(Top(c), mimeType).Wrong?
    ensures Bad(Enumerate(c, mimeType).found, Flatten(Top(c), mimeType))
    decreases Height(Top(c))
  {
    var j := FirstTainted(Top(c).containers, mimeType);
    var k := Top(c).containers[j];
    assert k in Top(c).containers;
    HeightDrops(c, c + [k]);
    FlattenSplit(Top(c), j, mimeType);
    Apart(Before(Top(c), j, mimeType), Flatten(k, mimeType), FlattenAll(Top(c).containers[j+1..], mimeType));
    if TailAt(k, mimeType).Wrong? {
      WrongIsBad(c + [k], mimeType);
    } else {
      WrongHere(c, j, mimeType);
    }
    Assemble(c, j, mimeType);
  }

  lemma {:induction false} Assemble(c: Cursor, j: nat, mimeType: string)
    requires Path(c) && UniqueIds(Top(c)) && NoRepeat(Flatten(Top(c), mimeType))
    requires j < |Top(c).containers| && j == FirstTainted(Top(c).containers, mimeType)
    requires var k := Top(c).containers[j]; var q := c + [k];
      && Path(q) && c <= After(q, mimeType)
      && (Bad(Enumerate(q, mimeType).found, Flatten(k, mimeType))
          || Level(c, j + 1, After(q, mimeType), mimeType).found != FlattenAll(Top(c).containers[j+1..], mimeType))
    ensures Bad(Enumerate(c, mimeType).found, Flatten(Top(c), mimeType))
  {
    assert DistinctIds(Top(c));
    hide Enumerate, Level, After, UniqueIds, DistinctIds, NoRepeat, Bad, Flatten, FlattenAll;
    var k, q := Top(c).containers[j], c + [Top(c).containers[j]];
    FoundOnlyThere(c, j, mimeType);
    EnumerateSplit(c, j, mimeType);
    FlattenSplit(Top(c), j, mimeType);
    BadInside(Before(Top(c), j, mimeType), Enumerate(q, mimeType).found, Flatten(k, mimeType),
      Level(c, j + 1, After(q, mimeType), mimeType).found, FlattenAll(Top(c).containers[j+1..], mimeType));
  }

  /** The tail goes wrong at this level: something is found again, or a later match is out of reach. */
  lemma {:induction false} WrongHere(c: Cursor, j: nat, mimeType: string)
    requires Path(c) && UniqueIds(Top(c)) && NoRepeat(Flatten(Top(c), mimeType)) && TailOf(Top(c), mimeType).Wrong?
    requires j == FirstTainted(Top(c).containers, mimeType) && j < |Top(c).containers|
    requires TailAt(Top(c).containers[j], mimeType).Stuck?
    ensures var next := After(c + [Top(c).containers[j]], mimeType);
      && Path(next) && c <= next
      && Level(c, j + 1, next, mimeType).found != FlattenAll(Top(c).containers[j+1..], mimeType)
  {
    hide UniqueIds, NoRepeat, TailOf, TailAt, MatchFree, Tainted, After, Enumerate, Level, Flatten, FlattenAll;
    var ks := Top(c).containers;
    var t := TailAt(ks[j], mimeType);
    assert ks[j] in ks;
    FirstSearched(c, j, mimeType);
    TailCases(Top(c), j, mimeType);
    TailAtFacts(c, ks[j], mimeType);
    hide Spine;
    if t.bare < t.stop {
      BlindRest(c, j + 1, j, t, mimeType);
    } else {
      FoundAgain(c, j, mimeType);
    }
  }

  lemma {:induction false} FoundAgain(c: Cursor, j: nat, mimeType: string)
    requires Path(c) && UniqueIds(Top(c)) && NoRepeat(Flatten(Top(c), mimeType))
    requires j + 1 < |Top(c).containers| && Tainted(Top(c).containers[j], mimeType) && AfterFirst(c, j, mimeType)
    requires var t := TailAt(Top(c).containers[j], mimeType);
      Spine(t, mimeType) && t.stop <= t.bare && t.spine[0] == Top(c).containers[j]
    ensures var next := After(c + [Top(c).containers[j]], mimeType);
      && Path(next) && c <= next
      && Level(c, j + 1, next, mimeType).found != FlattenAll(Top(c).containers[j+1..], mimeType)
  {
    var k := Top(c).containers[j];
    var t := TailAt(k, mimeType);
    var next := After(c + [k], mimeType);
    PathCutTop(c, t.spine, t.stop);
    FoundSomething(c, j, next, mimeType);
    hide Level, Enumerate, After, TailAt, TailOf, Spine, UniqueIds, Flatten, FlattenAll, Tainted;
    var rest := Level(c, j + 1, next, mimeType).found;
    assert rest[0] in rest;
    RestFindsNothingNew(c, j, rest[0], mimeType);
    FlattenSplit(Top(c), j, mimeType);
    Apart(Before(Top(c), j, mimeType), Flatten(k, mimeType), FlattenAll(Top(c).containers[j+1..], mimeType));
  }

  lemma PathCutTop(c: Cursor, s: Cursor, n: nat)
    requires 0 < |c| && 0 < n <= |s|
    ensures var d := c + s[..n]; c < d && Top(d) == s[n-1] && d[|c|] == s[0]
  {
  }

  /** Listing again a container on the way to the first match-free one finds its objects again. */
  lemma {:induction false} FoundSomething(c: Cursor, j: nat, next: Cursor, mimeType: string)
    requires Path(c) && Path(next) && UniqueIds(Top(c)) && j + 1 < |Top(c).containers|
    requires c < next && next[|c|] == Top(c).containers[j]
    requires !MatchFree(Top(next), mimeType) && !TailOf(Top(next), mimeType).Wrong?
    ensures Level(c, j + 1, next, mimeType).found != []
  {
    hide Enumerate, Level, After, TailOf, MatchFree, UniqueIds, Path;
    UniqueAlong(c, next);
    OpenFails(c, j + 1, j, next);
    FindsItsMatches(next, mimeType);
    LevelStep(c, j + 1, next, next, mimeType);
  }

  lemma FindsItsMatches(c: Cursor, mimeType: string)
    requires Path(c) && UniqueIds(Top(c)) && !MatchFree(Top(c), mimeType) && !TailOf(Top(c), mimeType).Wrong?
    ensures Enumerate(c, mimeType).found != []
  {
    hide Enumerate, TailOf, UniqueIds, EndsAt, Path;
    TailHolds(c, mimeType);
  }

  /** A search of a whole file reports the flattened tree, nothing missed and nothing twice,
      exactly when the tail of the tree is not Wrong. */
  lemma {:induction false} FoundExactlyIff(c: Cursor, mimeType: string)
    requires Path(c) && UniqueIds(Top(c)) && NoRepeat(Flatten(Top(c), mimeType))
    ensures Enumerate(c, mimeType).found == Flatten(Top(c), mimeType) <==> !TailOf(Top(c), mimeType).Wrong?
  {
    if TailOf(Top(c), mimeType).Wrong? {
      WrongIsBad(c, mimeType);
    } else {
      TailHolds(c, mimeType);
    }
  }
}
