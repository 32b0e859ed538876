/** When the enumeration is the flattened tree, and what exactly goes wrong when it is not. */
module EnumerationProofs {
  import opened ContainerTree

  // ---------- containers without a match ----------

  /** First container of the first container, and so on down to one that has none. */
  function FirstChain(n: Container): Cursor {
    if n.containers == [] then [] else [n.containers[0]] + FirstChain(n.containers[0])
  }

  lemma {:induction false} FlattenAllEmpty(ns: seq<Container>, mimeType: string)
    ensures FlattenAll(ns, mimeType) == [] <==> forall k | k in ns :: MatchFree(k, mimeType)
  {
    if ns != [] {
      FlattenAllEmpty(ns[1..], mimeType);
      assert forall k :: k in ns <==> k == ns[0] || k in ns[1..];
      assert MatchFree(ns[0], mimeType) <==> |Flatten(ns[0], mimeType)| == 0;
      if FlattenAll(ns[1..], mimeType) == [] && MatchFree(ns[0], mimeType) {
        assert FlattenAll(ns, mimeType) == [] + [];
      } else {
        assert |FlattenAll(ns, mimeType)| > 0;
      }
    }
  }

  /** A cursor left at a container with nothing in it makes every later open fail. */
  lemma {:induction false} DeadEnd(base: Cursor, i: nat, cur: Cursor, mimeType: string)
    requires Path(base) && Path(cur) && base < cur && i <= |Top(base).containers|
    requires Top(cur).containers == [] && Matching(Top(cur).contents, mimeType) == []
    ensures Level(base, i, cur, mimeType) == Walk([], cur)
    decreases |Top(base).containers| - i
  {
    if i < |Top(base).containers| {
      var q := OpenAt(cur, Top(base).containers[i].uniqueId);
      assert q == cur;
      assert Enumerate(cur, mimeType) == Walk([], cur);
      DeadEnd(base, i + 1, cur, mimeType);
    }
  }

  lemma FirstChainEnds(c: Cursor, mimeType: string)
    requires Path(c) && MatchFree(Top(c), mimeType)
    ensures var e := c + FirstChain(Top(c));
      Path(e) && Top(e).containers == [] && Matching(Top(e).contents, mimeType) == []
    decreases Height(Top(c))
  {
    var n := Top(c);
    assert Matching(n.contents, mimeType) == [] && FlattenAll(n.containers, mimeType) == [];
    hide Matching, FlattenAll, MatchFree;
    if n.containers != [] {
      FlattenAllEmpty(n.containers, mimeType);
      assert n.containers[0] in n.containers;
      var d := c + [n.containers[0]];
      FirstChainEnds(d, mimeType);
      assert d + FirstChain(Top(d)) == c + FirstChain(n);
    } else {
      assert c + [] == c;
    }
  }

  lemma ChainStep(c: Cursor, n: Container)
    requires n.containers != []
    ensures c + [n.containers[0]] + FirstChain(n.containers[0]) == c + FirstChain(n)
  {
  }

  /** The drift: a search that finds nothing leaves the cursor at the end of the first-container chain. */
  lemma {:induction false} FailedSearchDrifts(c: Cursor, mimeType: string)
    requires Path(c) && MatchFree(Top(c), mimeType)
    ensures Enumerate(c, mimeType) == Walk([], c + FirstChain(Top(c)))
    decreases Height(Top(c))
  {
    hide Enumerate, Level;
    var n := Top(c);
    EnumerateStep(c, mimeType);
    if n.containers == [] {
      LevelEnd(c, c, mimeType);
      assert c + [] == c;
    } else {
      FlattenAllEmpty(n.containers, mimeType);
      var d := OpenAt(c, n.containers[0].uniqueId);
      assert d == c + [n.containers[0]];
      LevelStep(c, 0, c, d, mimeType);
      FailedSearchDrifts(d, mimeType);
      var e := d + FirstChain(Top(d));
      FirstChainEnds(d, mimeType);
      DeadEnd(c, 1, e, mimeType);
      ChainStep(c, n);
    }
  }

  lemma AfterCases(q: Cursor, mimeType: string)
    requires Path(q) && |q| > 1
    ensures var w := Enumerate(q, mimeType);
      After(q, mimeType) == if w.found == [] then w.finish else CloseAt(w.finish)
  {
  }

  // ---------- every container has a match ----------

  lemma DistinctOpens(c: Cursor, i: nat)
    requires Path(c) && DistinctIds(Top(c)) && i < |Top(c).containers|
    ensures OpenAt(c, Top(c).containers[i].uniqueId) == c + [Top(c).containers[i]]
  {
    var ks := Top(c).containers;
    assert ks[i] in ks;
    assert IndexOf(ks, ks[i].uniqueId) == i;
  }

  lemma {:induction false} DenseEnumerates(c: Cursor, mimeType: string)
    requires Path(c) && DistinctIds(Top(c)) && DenseBelow(Top(c), mimeType)
    ensures Enumerate(c, mimeType) == Walk(Flatten(Top(c), mimeType), c)
    decreases Height(Top(c)), |Top(c).containers| + 1
  {
    hide Level, Enumerate, Tainted, DenseBelow;
    EnumerateStep(c, mimeType);
    DenseLevel(c, 0, mimeType);
    assert Top(c).containers[0..] == Top(c).containers;
  }

  lemma UntaintedIsDense(k: Container, mimeType: string)
    requires !Tainted(k, mimeType)
    ensures DenseBelow(k, mimeType) && !MatchFree(k, mimeType)
  {
  }

  lemma DenseCloses(c: Cursor, k: Container, mimeType: string)
    requires Path(c) && Path(c + [k]) && !MatchFree(k, mimeType)
    requires Enumerate(c + [k], mimeType) == Walk(Flatten(k, mimeType), c + [k])
    ensures After(c + [k], mimeType) == c
  {
    hide Enumerate;
    AfterCases(c + [k], mimeType);
    assert CloseAt(c + [k]) == c;
  }

  lemma {:induction false} DenseLevel(c: Cursor, i: nat, mimeType: string)
    requires Path(c) && DistinctIds(Top(c)) && DenseBelow(Top(c), mimeType) && i <= |Top(c).containers|
    ensures Level(c, i, c, mimeType) == Walk(FlattenAll(Top(c).containers[i..], mimeType), c)
    decreases Height(Top(c)), |Top(c).containers| - i
  {
    hide Level, Enumerate, After, Tainted, Flatten;
    var ks := Top(c).containers;
    if i < |ks| {
      var q := c + [ks[i]];
      assert ks[i] in ks;
      DistinctOpens(c, i);
      LevelStep(c, i, c, q, mimeType);
      UntaintedIsDense(ks[i], mimeType);
      DenseEnumerates(q, mimeType);
      DenseCloses(c, ks[i], mimeType);
      DenseLevel(c, i + 1, mimeType);
      assert ks[i..][1..] == ks[i+1..];
    } else {
      LevelEnd(c, c, mimeType);
      assert ks[i..] == [];
    }
  }

  // ---------- and when some container has none ----------

  /** A subtree in which every container has a match is never mistaken for an empty one. */
  lemma {:induction false} UntaintedIsFound(c: Cursor, mimeType: string)
    requires Path(c) && !Tainted(Top(c), mimeType)
    ensures Enumerate(c, mimeType).found != []
    decreases Height(Top(c))
  {
    var n := Top(c);
    if Matching(n.contents, mimeType) == [] {
      FlattenAllEmpty(n.containers, mimeType);
      var k :| k in n.containers;
      var d := OpenAt(c, n.containers[0].uniqueId);
      assert d == c + [n.containers[0]] && n.containers[0] in n.containers;
      HeightDrops(c, d);
      UntaintedIsFound(d, mimeType);
    }
  }

  lemma DistinctBelow(c: Cursor, d: Cursor)
    requires Path(c) && Path(d) && c <= d && DistinctIds(Top(c))
    ensures DistinctIds(Top(d))
    decreases |d|
  {
    if c < d {
      DistinctBelow(c, d[..|d|-1]);
    } else {
      assert c == d;
    }
  }

  /** Where a search that started at c may end. */
  ghost predicate Drift(c: Cursor, e: Cursor, mimeType: string)
    requires Path(c) && Path(e)
  {
    && c <= e
    && (|e| > |c| ==> Tainted(Top(e), mimeType))
  }

  /** Once the cursor has drifted it never comes back, and a container without a match makes it drift. */
  lemma {:induction false} TaintDrifts(c: Cursor, mimeType: string)
    requires Path(c) && DistinctIds(Top(c))
    ensures Drift(c, Enumerate(c, mimeType).finish, mimeType)
    ensures !DenseBelow(Top(c), mimeType) ==> |Enumerate(c, mimeType).finish| > |c|
    decreases Height(Top(c)), |Top(c).containers| + 1
  {
    hide Level, Enumerate, Tainted, DenseBelow;
    EnumerateStep(c, mimeType);
    TaintDriftsLevel(c, 0, c, mimeType);
  }

  lemma {:induction false} TaintDriftsLevel(base: Cursor, i: nat, cur: Cursor, mimeType: string)
    requires Path(base) && Path(cur) && DistinctIds(Top(base)) && i <= |Top(base).containers|
    requires Drift(base, cur, mimeType)
    requires cur == base ==> forall j | 0 <= j < i :: !Tainted(Top(base).containers[j], mimeType)
    ensures Drift(base, Level(base, i, cur, mimeType).finish, mimeType)
    ensures !DenseBelow(Top(base), mimeType) ==> |Level(base, i, cur, mimeType).finish| > |base|
    decreases Height(Top(base)), |Top(base).containers| - i
  {
    hide Level, Enumerate, After, Tainted, DistinctIds;
    var ks := Top(base).containers;
    if i < |ks| {
      var q := OpenAt(cur, ks[i].uniqueId);
      if cur == base { DistinctOpens(base, i); }
      LevelStep(base, i, cur, q, mimeType);
      DistinctBelow(base, q);
      TaintDrifts(q, mimeType);
      StillDrifted(base, cur, q, mimeType);
      TaintDriftsLevel(base, i + 1, After(q, mimeType), mimeType);
    } else {
      LevelEnd(base, cur, mimeType);
      assert cur == base ==> DenseBelow(Top(base), mimeType);
    }
  }

  /** One turn of the container loop keeps the drift. */
  lemma {:induction false} StillDrifted(base: Cursor, cur: Cursor, q: Cursor, mimeType: string)
    requires Path(base) && Path(cur) && Path(q) && Drift(base, cur, mimeType)
    requires base < q && cur <= q && |q| <= |cur| + 1
    requires var w := Enumerate(q, mimeType);
      Drift(q, w.finish, mimeType) && (!DenseBelow(Top(q), mimeType) ==> |w.finish| > |q|)
    ensures Drift(base, After(q, mimeType), mimeType)
    ensures After(q, mimeType) == base ==> cur == base && !Tainted(Top(q), mimeType)
  {
    hide Level, Enumerate, Tainted, DenseBelow, MatchFree, Drift, After;
    TaintedCases(Top(q), mimeType);
    AfterCases(q, mimeType);
    if Enumerate(q, mimeType).found == [] {
      if !Tainted(Top(q), mimeType) { UntaintedIsFound(q, mimeType); }
      StaysOpen(base, q, Enumerate(q, mimeType).finish, mimeType);
    } else {
      if MatchFree(Top(q), mimeType) { FailedSearchDrifts(q, mimeType); }
      Closed(base, cur, q, Enumerate(q, mimeType).finish, mimeType);
    }
  }

  lemma TaintedCases(n: Container, mimeType: string)
    ensures Tainted(n, mimeType) <==> MatchFree(n, mimeType) || !DenseBelow(n, mimeType)
  {
  }

  lemma StaysOpen(base: Cursor, q: Cursor, e: Cursor, mimeType: string)
    requires Path(base) && Path(q) && Path(e) && base < q && Drift(q, e, mimeType) && Tainted(Top(q), mimeType)
    ensures Drift(base, e, mimeType) && e != base
  {
    hide Tainted;
  }

  lemma {:induction false} Closed(base: Cursor, cur: Cursor, q: Cursor, e: Cursor, mimeType: string)
    requires Path(base) && Path(cur) && Path(q) && Path(e) && Drift(base, cur, mimeType) && Drift(q, e, mimeType)
    requires base < q && cur <= q && |q| <= |cur| + 1
    requires Tainted(Top(q), mimeType) ==> |e| > |q|
    ensures Drift(base, CloseAt(e), mimeType)
    ensures CloseAt(e) == base ==> cur == base && !Tainted(Top(q), mimeType)
  {
    assert |base| > 0;
    hide Tainted, Path;
    if |e| > |q| {
      ParentOfTainted(e, mimeType);
      assert q <= CloseAt(e);
    } else {
      assert e == q && |q| == |cur| + 1;
      OneCloser(cur, q);
    }
  }

  lemma OneCloser(cur: Cursor, q: Cursor)
    requires 0 < |cur| && cur <= q && |q| == |cur| + 1
    ensures CloseAt(q) == cur
  {
  }

  lemma ParentOfTainted(e: Cursor, mimeType: string)
    requires Path(e) && |e| > 1 && Tainted(Top(e), mimeType)
    ensures Tainted(Top(CloseAt(e)), mimeType)
  {
    assert e[|e|-1] in e[|e|-2].containers;
  }

  /** The enumeration is the flattened tree with the cursor back where it began
      exactly when every container below holds a match. */
  lemma {:induction false} EnumeratesExactlyIff(c: Cursor, mimeType: string)
    requires Path(c) && DistinctIds(Top(c))
    ensures Enumerate(c, mimeType) == Walk(Flatten(Top(c), mimeType), c) <==> DenseBelow(Top(c), mimeType)
  {
    if DenseBelow(Top(c), mimeType) {
      DenseEnumerates(c, mimeType);
    } else {
      TaintDrifts(c, mimeType);
    }
  }
}
