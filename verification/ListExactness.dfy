/** The objects found are the client's view of a search; the cursor is not. This module decides
    from the tree alone whether they are exactly the flattened tree. */
module ListExactness {
  import opened ContainerTree
  import opened EnumerationProofs

  /** How a search ends: Intact when the cursor comes back, Stuck when it stays on the way to the
      first match-free container, spine[bare], or inside its first chain, with stop of the
      containers in spine still open. Wrong when something is missed or found again. */
  datatype Tail = Intact | Stuck(spine: Cursor, bare: nat, stop: nat) | Wrong

  function FirstTainted(ns: seq<Container>, mimeType: string): (j: nat)
    ensures j <= |ns|
    ensures forall i | 0 <= i < j :: !Tainted(ns[i], mimeType)
    ensures j < |ns| ==> Tainted(ns[j], mimeType)
  {
    if ns == [] || Tainted(ns[0], mimeType) then 0 else 1 + FirstTainted(ns[1..], mimeType)
  }

  function TailOf(n: Container, mimeType: string): Tail
    decreases n, 0
  {
    var j := FirstTainted(n.containers, mimeType);
    if j == |n.containers| then Intact
    else
      var k := n.containers[j];
      var t := TailAt(k, mimeType);
      if !t.Stuck? || j + 1 == |n.containers| then t
      else if t.bare < t.stop && (forall r | r in n.containers[j+1..] :: MatchFree(r, mimeType)) then
        t.(stop := |t.spine|)
      else Wrong
  }

  /** The tail of the container k before its parent goes on to the next one. */
  function TailAt(k: Container, mimeType: string): Tail
    decreases k, 1
  {
    if MatchFree(k, mimeType) then Stuck([k] + FirstChain(k), 0, 1 + |FirstChain(k)|)
    else Below(k, TailOf(k, mimeType))
  }

  /** A container k in which something was found is closed by its parent. */
  function Below(k: Container, t: Tail): Tail {
    match t
    case Stuck(spine, bare, stop) => Stuck([k] + spine, bare + 1, stop)
    case _ => Wrong
  }

  /** Siblings have distinct ids, and no container's id comes back below it or below one of its siblings. */
  predicate UniqueIds(n: Container) {
    && DistinctIds(n)
    && (forall i, j | 0 <= i < |n.containers| && 0 <= j < |n.containers| ::
          n.containers[i].uniqueId !in IdsBelow(n.containers[j]))
    && (forall k | k in n.containers :: UniqueIds(k))
  }

  function IdsBelow(n: Container): set<string>
    decreases n, 1
  {
    IdsOf(n.containers)
  }

  function IdsOf(ns: seq<Container>): (ids: set<string>)
    ensures forall k | k in ns :: k.uniqueId in ids && IdsBelow(k) <= ids
    decreases ns, 0
  {
    if ns == [] then {}
    else
      assert forall k | k in ns :: k == ns[0] || k in ns[1..];
      {ns[0].uniqueId} + IdsBelow(ns[0]) + IdsOf(ns[1..])
  }

  predicate NoRepeat<T(==)>(s: seq<T>) {
    forall i, j | 0 <= i < j < |s| :: s[i] != s[j]
  }

  // ---------- nothing outside the subtree, nothing new on a second visit ----------

  lemma {:induction false} FlattenAllHas(ns: seq<Container>, o: EmbeddedObject, mimeType: string)
    ensures o in FlattenAll(ns, mimeType) <==> exists k | k in ns :: o in Flatten(k, mimeType)
  {
    if ns != [] {
      FlattenAllHas(ns[1..], o, mimeType);
      assert o in FlattenAll(ns, mimeType) <==> o in Flatten(ns[0], mimeType) || o in FlattenAll(ns[1..], mimeType);
      if k :| k in ns && o in Flatten(k, mimeType) {
        assert k == ns[0] || k in ns[1..];
      }
    }
  }

  lemma InsideFlatten(c: Cursor, d: Cursor, o: EmbeddedObject, mimeType: string)
    requires Path(c) && Path(d) && c <= d && o in Flatten(Top(d), mimeType)
    ensures o in Flatten(Top(c), mimeType)
    ensures c < d ==> o in Flatten(d[|c|], mimeType)
    decreases |d|
  {
    if |d| > |c| + 1 {
      var up := d[..|d|-1];
      assert Top(d) in Top(up).containers;
      FlattenAllHas(Top(up).containers, o, mimeType);
      InsideFlatten(c, up, o, mimeType);
    } else if |d| == |c| + 1 {
      assert d[..|c|] == c && Top(d) == d[|c|];
      FlattenAllHas(Top(c).containers, o, mimeType);
    } else {
      assert c == d;
    }
  }

  lemma {:induction false} FoundIsInside(c: Cursor, o: EmbeddedObject, mimeType: string)
    requires Path(c) && o in Enumerate(c, mimeType).found
    ensures o in Flatten(Top(c), mimeType)
    decreases Height(Top(c)), |Top(c).containers| + 1
  {
    if o !in Matching(Top(c).contents, mimeType) {
      FoundInLevel(c, 0, c, o, mimeType);
    }
  }

  lemma {:induction false} FoundInLevel(base: Cursor, i: nat, cur: Cursor, o: EmbeddedObject, mimeType: string)
    requires Path(base) && Path(cur) && base <= cur && i <= |Top(base).containers|
    requires o in Level(base, i, cur, mimeType).found
    ensures o in Flatten(Top(base), mimeType)
    decreases Height(Top(base)), |Top(base).containers| - i
  {
    hide Level, Enumerate, After, Flatten;
    if i == |Top(base).containers| { LevelEnd(base, cur, mimeType); assert false; }
    var q := OpenAt(cur, Top(base).containers[i].uniqueId);
    LevelStep(base, i, cur, q, mimeType);
    if o in Enumerate(q, mimeType).found {
      FoundIsInside(q, o, mimeType);
      InsideFlatten(base, q, o, mimeType);
    } else {
      FoundInLevel(base, i + 1, After(q, mimeType), o, mimeType);
    }
  }

  ghost function Again(cur: Cursor, n: nat, mimeType: string): seq<EmbeddedObject>
    requires Path(cur) && 0 < n <= |cur|
  {
    Enumerate(cur[..n], mimeType).found
  }

  /** Some search from a container strictly below base and still open at cur finds o. */
  ghost predicate Refound(base: Cursor, cur: Cursor, o: EmbeddedObject, mimeType: string)
    requires Path(base) && Path(cur) && base <= cur
  {
    exists n :: |base| < n <= |cur| && o in Again(cur, n, mimeType)
  }

  /** Searching again from any container still open at the end of a search finds nothing new. */
  lemma {:induction false} SearchAgain(c: Cursor, o: EmbeddedObject, mimeType: string)
    requires Path(c)
    ensures var w := Enumerate(c, mimeType); Refound(c, w.finish, o, mimeType) ==> o in w.found
    decreases Height(Top(c)), |Top(c).containers| + 1
  {
    hide Level, Enumerate;
    EnumerateStep(c, mimeType);
    SearchAgainLevel(c, 0, c, o, false, mimeType);
  }

  lemma {:induction false} SearchAgainLevel(base: Cursor, i: nat, cur: Cursor, o: EmbeddedObject, seen: bool,
                                            mimeType: string)
    requires Path(base) && Path(cur) && base <= cur && i <= |Top(base).containers|
    requires Refound(base, cur, o, mimeType) ==> seen
    ensures var w := Level(base, i, cur, mimeType); Refound(base, w.finish, o, mimeType) ==> seen || o in w.found
    decreases Height(Top(base)), |Top(base).containers| - i
  {
    hide Level, Enumerate, After;
    if i == |Top(base).containers| {
      LevelEnd(base, cur, mimeType);
    } else {
      var q := OpenAt(cur, Top(base).containers[i].uniqueId);
      LevelStep(base, i, cur, q, mimeType);
      SearchAgain(q, o, mimeType);
      SeenStep(base, cur, q, o, mimeType);
      SearchAgainLevel(base, i + 1, After(q, mimeType), o, seen || o in Enumerate(q, mimeType).found, mimeType);
    }
  }

  lemma {:induction false} SeenStep(base: Cursor, cur: Cursor, q: Cursor, o: EmbeddedObject, mimeType: string)
    requires Path(base) && Path(cur) && Path(q) && base < q && cur <= q && |q| <= |cur| + 1 && base <= cur
    requires var w := Enumerate(q, mimeType); Refound(q, w.finish, o, mimeType) ==> o in w.found
    ensures Refound(base, After(q, mimeType), o, mimeType)
      ==> Refound(base, cur, o, mimeType) || o in Enumerate(q, mimeType).found
  {
    AfterCases(q, mimeType);
    var w, d := Enumerate(q, mimeType), After(q, mimeType);
    hide After, Path, Enumerate;
    if n :| |base| < n <= |d| && o in Again(d, n, mimeType) {
      SamePart(d, w.finish, n);
      assert o in Again(w.finish, n, mimeType);
      if n < |q| {
        SamePart(q, w.finish, n);
        SamePart(cur, q, n);
        assert o in Again(cur, n, mimeType);
      } else if n == |q| {
        SamePart(q, w.finish, n);
        assert q[..n] == q;
      }
    }
  }

  lemma SamePart(part: Cursor, whole: Cursor, n: nat)
    requires part <= whole && n <= |part|
    ensures part[..n] == whole[..n]
  {
  }
}
