/** The same enumeration with the one call added that the source leaves out: a container in which
    nothing was found is closed as well. It needs no condition on the tree but distinct sibling ids. */
module ClosingVariant {
  import opened ContainerTree
  import opened EnumerationProofs

  function EnumerateClosing(c: Cursor, mimeType: string): (w: Walk)
    requires Path(c)
    ensures Path(w.finish) && c <= w.finish
    decreases Height(Top(c)), |Top(c).containers| + 1
  {
    var rest := LevelClosing(c, 0, c, mimeType);
    Walk(Matching(Top(c).contents, mimeType) + rest.found, rest.finish)
  }

  function LevelClosing(base: Cursor, i: nat, cur: Cursor, mimeType: string): (w: Walk)
    requires Path(base) && Path(cur) && base <= cur && i <= |Top(base).containers|
    ensures Path(w.finish) && base <= w.finish
    decreases Height(Top(base)), |Top(base).containers| - i
  {
    if i == |Top(base).containers| then Walk([], cur)
    else
      var q := OpenAt(cur, Top(base).containers[i].uniqueId);
      assert base < q;
      HeightDrops(base, q);
      var sub := EnumerateClosing(q, mimeType);
      var rest := LevelClosing(base, i + 1, CloseAt(sub.finish), mimeType);
      Walk(sub.found + rest.found, rest.finish)
  }

  lemma {:induction false} ClosingEnumerates(c: Cursor, mimeType: string)
    requires Path(c) && DistinctIds(Top(c))
    ensures EnumerateClosing(c, mimeType) == Walk(Flatten(Top(c), mimeType), c)
    decreases Height(Top(c)), |Top(c).containers| + 1
  {
    ClosingLevel(c, 0, mimeType);
  }

  lemma {:induction false} ClosingLevel(c: Cursor, i: nat, mimeType: string)
    requires Path(c) && DistinctIds(Top(c)) && i <= |Top(c).containers|
    ensures LevelClosing(c, i, c, mimeType) == Walk(FlattenAll(Top(c).containers[i..], mimeType), c)
    decreases Height(Top(c)), |Top(c).containers| - i
  {
    hide EnumerateClosing, Flatten;
    var ks := Top(c).containers;
    if i < |ks| {
      DistinctOpens(c, i);
      var q := c + [ks[i]];
      assert ks[i] in ks;
      HeightDrops(c, q);
      ClosingEnumerates(q, mimeType);
      ClosingLevel(c, i + 1, mimeType);
      assert ks[i..][1..] == ks[i+1..];
      assert CloseAt(q) == c;
    }
  }
}

/** Two files whose objects the source as written does not report correctly. */
module DriftExamples {
  import opened ContainerTree
  import opened EnumerationProofs

  const X := EmbeddedObject("x", "", "")
  const Y := EmbeddedObject("y", "", "")
  const EMPTY := Container("a", "", [], [])
  const LAST := Container("m", "", [Y], [])

  const FULL := Container("n", "", [X], [EMPTY])
  const HIDDEN := Container("", "", [], [EMPTY, LAST])
  const TWICE := Container("", "", [], [FULL, LAST])

  lemma One(o: EmbeddedObject)
    ensures Matching([o], "") == [o]
  {
    assert [o][1..] == [];
  }

  lemma Two(a: Container, b: Container)
    ensures FlattenAll([a, b], "") == Flatten(a, "") + Flatten(b, "")
  {
    assert [a, b][1..] == [b] && [b][1..] == [];
    assert FlattenAll([b], "") == Flatten(b, "") + [];
  }

  lemma Flats()
    ensures Flatten(EMPTY, "") == [] && Flatten(LAST, "") == [Y] && Flatten(FULL, "") == [X]
    ensures Flatten(HIDDEN, "") == [Y] && Flatten(TWICE, "") == [X, Y]
  {
    hide FlattenAll, Matching;
    One(X);
    One(Y);
    assert FlattenAll([], "") == [] && Matching([], "") == [] by { NoObjects(); }
    assert Flatten(LAST, "") == [Y] + [];
    assert FlattenAll([EMPTY], "") == [] by { Two(EMPTY, EMPTY); OneEmpty(); }
    assert Flatten(FULL, "") == [X] + [];
    Two(EMPTY, LAST);
    Two(FULL, LAST);
    assert Flatten(TWICE, "") == [] + ([X] + [Y]);
  }

  lemma NoObjects()
    ensures FlattenAll([], "") == [] && Matching([], "") == []
  {
  }

  lemma OneEmpty()
    ensures FlattenAll([EMPTY], "") == []
  {
    assert [EMPTY][1..] == [];
  }

  /** An empty container before a full one: the search fails although there is a match. */
  lemma {:induction false} MissesEverything()
    ensures Enumerate([HIDDEN], "").found == [] && Flatten(HIDDEN, "") == [Y]
  {
    hide Enumerate, Level, Flatten, FlattenAll;
    Flats();
    var c, q := [HIDDEN], [HIDDEN, EMPTY];
    assert OpenAt(c, "a") == q;
    FailedSearchDrifts(q, "");
    assert q + FirstChain(EMPTY) == q;
    DeadEnd(c, 1, q, "");
    LevelStep(c, 0, c, q, "");
    EnumerateStep(c, "");
  }

  /** The container n holds x and, last, an empty container, in which the cursor stays. */
  lemma {:induction false} ListsFull(n: Cursor)
    requires Path(n) && Top(n) == FULL
    ensures Enumerate(n, "") == Walk([X], n + [EMPTY])
  {
    hide Enumerate, Level, Flatten, FlattenAll;
    Flats();
    One(X);
    var a := n + [EMPTY];
    assert OpenAt(n, "a") == a;
    FailedSearchDrifts(a, "");
    assert a + FirstChain(EMPTY) == a;
    LevelStep(n, 0, n, a, "");
    LevelEnd(n, a, "");
    EnumerateStep(n, "");
  }

  /** So the cursor is back in n after a search of it, and the second container cannot be opened there. */
  lemma StaysInFull(c: Cursor, n: Cursor)
    requires c == [TWICE] && n == [TWICE, FULL]
    ensures Path(c) && Path(n) && OpenAt(c, "n") == n && OpenAt(n, "m") == n
    ensures Enumerate(n, "").found == [X] && After(n, "") == n
  {
    hide Enumerate, Level, After;
    assert FULL in TWICE.containers;
    ListsFull(n);
    AfterCases(n, "");
    assert CloseAt(n + [EMPTY]) == n;
  }

  lemma {:induction false} FullAgain(c: Cursor, n: Cursor)
    requires c == [TWICE] && n == [TWICE, FULL]
    ensures Path(c) && Path(n) && Level(c, 1, n, "") == Walk([X], n)
  {
    hide Enumerate, Level, After, OpenAt, Height;
    StaysInFull(c, n);
    LevelStep(c, 1, n, n, "");
    LevelEnd(c, n, "");
    assert [X] + [] == [X];
  }

  /** A container that ends in an empty one: its objects are reported twice, the next container's not at all. */
  lemma {:induction false} FindsTwice()
    ensures Enumerate([TWICE], "").found == [X, X] && Flatten(TWICE, "") == [X, Y]
  {
    hide Enumerate, Level, After, OpenAt, Height, Flatten, FlattenAll, Matching, Path;
    Flats();
    var c, n := [TWICE], [TWICE, FULL];
    StaysInFull(c, n);
    FullAgain(c, n);
    NoObjects();
    EnumerateStep(c, "");
    LevelStep(c, 0, c, n, "");
    assert [] + ([X] + [X]) == [X, X];
  }
}
