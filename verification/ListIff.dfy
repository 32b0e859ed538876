/** The objects found are the flattened tree exactly when the tail of the tree is not Wrong. */
module ListIff {
  import opened ContainerTree
  import opened EnumerationProofs
  import opened ListExactness

  // ---------- splitting at the first tainted container ----------

  function Before(n: Container, j: nat, mimeType: string): seq<EmbeddedObject>
    requires j <= |n.containers|
  {
    Matching(n.contents, mimeType) + FlattenAll(n.containers[..j], mimeType)
  }

  lemma {:induction false} FlattenAllSplit(ns: seq<Container>, j: nat, mimeType: string)
    requires j < |ns|
    ensures FlattenAll(ns, mimeType)
      == FlattenAll(ns[..j], mimeType) + Flatten(ns[j], mimeType) + FlattenAll(ns[j+1..], mimeType)
  {
    hide Flatten;
    if j > 0 {
      FlattenAllSplit(ns[1..], j - 1, mimeType);
      assert ns[..j][1..] == ns[1..][..j-1] && ns[1..][j..] == ns[j+1..];
      var first, middle := Flatten(ns[0], mimeType), FlattenAll(ns[..j][1..], mimeType);
      var here, rest := Flatten(ns[j], mimeType), FlattenAll(ns[j+1..], mimeType);
      Associative(first, middle + here, rest);
      Associative(first, middle, here);
    } else {
      assert [] + Flatten(ns[0], mimeType) == Flatten(ns[0], mimeType);
    }
  }

  lemma FlattenSplit(n: Container, j: nat, mimeType: string)
    requires j < |n.containers|
    ensures Flatten(n, mimeType)
      == Before(n, j, mimeType) + Flatten(n.containers[j], mimeType) + FlattenAll(n.containers[j+1..], mimeType)
  {
    FlattenAllSplit(n.containers, j, mimeType);
    var own, before := Matching(n.contents, mimeType), FlattenAll(n.containers[..j], mimeType);
    var here, rest := Flatten(n.containers[j], mimeType), FlattenAll(n.containers[j+1..], mimeType);
    assert Flatten(n, mimeType) == own + FlattenAll(n.containers, mimeType);
    hide Flatten, FlattenAll, Matching;
    Associative(own, before + here, rest);
    Associative(own, before, here);
  }

  lemma {:induction false} DistinctStep(c: Cursor, j: nat, mimeType: string)
    requires Path(c) && DistinctIds(Top(c)) && j < |Top(c).containers|
    ensures var q := c + [Top(c).containers[j]];
      && Path(q) && c <= After(q, mimeType)
      && var rest := Level(c, j + 1, After(q, mimeType), mimeType);
      Level(c, j, c, mimeType) == Walk(Enumerate(q, mimeType).found + rest.found, rest.finish)
  {
    hide Level, Enumerate, After, DistinctIds;
    DistinctOpens(c, j);
    LevelStep(c, j, c, c + [Top(c).containers[j]], mimeType);
  }

  lemma {:induction false} DenseStep(c: Cursor, i: nat, mimeType: string)
    requires Path(c) && DistinctIds(Top(c)) && i < |Top(c).containers| && !Tainted(Top(c).containers[i], mimeType)
    ensures var rest := Level(c, i + 1, c, mimeType);
      Level(c, i, c, mimeType) == Walk(Flatten(Top(c).containers[i], mimeType) + rest.found, rest.finish)
  {
    var k := Top(c).containers[i];
    assert k in Top(c).containers && DistinctIds(k);
    hide Level, Enumerate, After, DistinctIds, Tainted, DenseBelow, Flatten;
    DistinctStep(c, i, mimeType);
    UntaintedIsDense(k, mimeType);
    DenseEnumerates(c + [k], mimeType);
    DenseCloses(c, k, mimeType);
  }

  lemma Associative(a: seq<EmbeddedObject>, b: seq<EmbeddedObject>, c: seq<EmbeddedObject>)
    ensures a + (b + c) == a + b + c
  {
  }

  lemma {:induction false} DensePrefix(c: Cursor, i: nat, j: nat, mimeType: string)
    requires Path(c) && DistinctIds(Top(c)) && i <= j < |Top(c).containers|
    requires forall l | i <= l < j :: !Tainted(Top(c).containers[l], mimeType)
    ensures Level(c, i, c, mimeType).finish == Level(c, j, c, mimeType).finish
    ensures Level(c, i, c, mimeType).found
      == FlattenAll(Top(c).containers[i..j], mimeType) + Level(c, j, c, mimeType).found
    decreases j - i
  {
    hide Level, Enumerate, After, DistinctIds, Tainted, Flatten;
    var ks := Top(c).containers;
    if i < j {
      hide FlattenAll;
      DenseStep(c, i, mimeType);
      DensePrefix(c, i + 1, j, mimeType);
      PrefixStep(ks, i, j, Level(c, j, c, mimeType).found, mimeType);
    } else {
      assert ks[i..j] == [];
    }
  }

  lemma PrefixStep(ks: seq<Container>, i: nat, j: nat, rest: seq<EmbeddedObject>, mimeType: string)
    requires i < j < |ks|
    ensures Flatten(ks[i], mimeType) + (FlattenAll(ks[i+1..j], mimeType) + rest)
      == FlattenAll(ks[i..j], mimeType) + rest
  {
    assert ks[i..j][1..] == ks[i+1..j];
  }

  lemma {:induction false} EnumerateSplit(c: Cursor, j: nat, mimeType: string)
    requires Path(c) && DistinctIds(Top(c)) && j < |Top(c).containers|
    requires forall l | 0 <= l < j :: !Tainted(Top(c).containers[l], mimeType)
    ensures var q := c + [Top(c).containers[j]];
      && Path(q) && c <= After(q, mimeType)
      && var rest := Level(c, j + 1, After(q, mimeType), mimeType);
      Enumerate(c, mimeType)
        == Walk(Before(Top(c), j, mimeType) + Enumerate(q, mimeType).found + rest.found, rest.finish)
  {
    hide Level, Enumerate, After, DistinctIds, Tainted, FlattenAll, Matching;
    EnumerateStep(c, mimeType);
    DistinctStep(c, j, mimeType);
    DensePrefix(c, 0, j, mimeType);
    var ks := Top(c).containers;
    var a, b := Matching(Top(c).contents, mimeType), FlattenAll(ks[..j], mimeType);
    assert ks[0..j] == ks[..j];
    var q := c + [ks[j]];
    var x, y := Enumerate(q, mimeType).found, Level(c, j + 1, After(q, mimeType), mimeType).found;
    assert Enumerate(c, mimeType).found == a + (b + (x + y));
    Associative(b, x, y);
    Associative(a, b + x, y);
    Associative(a, b, x);
  }

  // ---------- a drifted cursor ----------

  lemma IdsAlong(c: Cursor, d: Cursor)
    requires Path(d) && c < d
    ensures forall k | k in Top(d).containers :: k.uniqueId in IdsBelow(d[|c|])
    ensures IdsBelow(Top(d)) <= IdsBelow(d[|c|])
    decreases |d|
  {
    var up := d[..|d|-1];
    if c < up { IdsAlong(c, up); }
  }

  /** Inside an earlier sibling no later container can be opened. */
  lemma OpenFails(c: Cursor, i: nat, j: nat, cur: Cursor)
    requires Path(c) && Path(cur) && c < cur && UniqueIds(Top(c))
    requires i < |Top(c).containers| && j < |Top(c).containers| && cur[|c|] == Top(c).containers[j]
    ensures OpenAt(cur, Top(c).containers[i].uniqueId) == cur
  {
    IdsAlong(c, cur);
  }

  lemma UniqueAlong(c: Cursor, d: Cursor)
    requires Path(c) && Path(d) && c <= d && UniqueIds(Top(c))
    ensures UniqueIds(Top(d))
    decreases |d|
  {
    if c < d { UniqueAlong(c, d[..|d|-1]); } else { assert c == d; }
  }

  /** After the drift a level only finds what a search below it found before. */
  lemma {:induction false} DriftedLevel(c: Cursor, i: nat, j: nat, cur: Cursor, o: EmbeddedObject, mimeType: string)
    requires Path(c) && Path(cur) && c < cur && UniqueIds(Top(c)) && Drift(c, cur, mimeType)
    requires i <= |Top(c).containers| && j < |Top(c).containers| && cur[|c|] == Top(c).containers[j]
    requires o in Level(c, i, cur, mimeType).found
    ensures Refound(c, cur, o, mimeType)
    decreases |Top(c).containers| - i
  {
    hide Level, Enumerate, After, UniqueIds, Drift;
    if i == |Top(c).containers| { LevelEnd(c, cur, mimeType); assert false; }
    OpenFails(c, i, j, cur);
    LevelStep(c, i, cur, cur, mimeType);
    if o in Enumerate(cur, mimeType).found {
      assert cur[..|cur|] == cur;
      assert o in Again(cur, |cur|, mimeType);
    } else {
      DriftedStep(c, cur, mimeType);
      DriftedLevel(c, i + 1, j, After(cur, mimeType), o, mimeType);
      SearchAgain(cur, o, mimeType);
      SeenStep(c, cur, cur, o, mimeType);
    }
  }

  lemma {:induction false} DriftedStep(c: Cursor, cur: Cursor, mimeType: string)
    requires Path(c) && Path(cur) && c < cur && UniqueIds(Top(c)) && Drift(c, cur, mimeType)
    ensures c < After(cur, mimeType) && After(cur, mimeType)[|c|] == cur[|c|]
    ensures Drift(c, After(cur, mimeType), mimeType)
  {
    assert DistinctIds(Top(cur)) by { UniqueAlong(c, cur); }
    hide Enumerate, After, UniqueIds, DistinctIds, Tainted;
    TaintDrifts(cur, mimeType);
    StillDrifted(c, cur, cur, mimeType);
    AfterCases(cur, mimeType);
  }

  lemma NotRefound(c: Cursor, o: EmbeddedObject, mimeType: string)
    requires Path(c)
    ensures !Refound(c, c, o, mimeType)
  {
  }

  /** Searching the first tainted container leaves the cursor inside it. */
  lemma {:induction false} StaysInside(c: Cursor, j: nat, mimeType: string)
    requires Path(c) && UniqueIds(Top(c)) && j < |Top(c).containers| && Tainted(Top(c).containers[j], mimeType)
    ensures var q := c + [Top(c).containers[j]];
      && Path(q) && c < After(q, mimeType) && After(q, mimeType)[|c|] == Top(c).containers[j]
      && Drift(c, After(q, mimeType), mimeType)
  {
    var q := c + [Top(c).containers[j]];
    assert Top(c).containers[j] in Top(c).containers;
    assert DistinctIds(Top(q)) by { UniqueAlong(c, q); }
    hide Enumerate, After, UniqueIds, DistinctIds, Tainted;
    TaintDrifts(q, mimeType);
    StillDrifted(c, c, q, mimeType);
    AfterCases(q, mimeType);
    hide Path;
  }

  /** The part of a level after its first tainted container finds nothing that container did not. */
  lemma {:induction false} RestFindsNothingNew(c: Cursor, j: nat, o: EmbeddedObject, mimeType: string)
    requires Path(c) && UniqueIds(Top(c)) && j < |Top(c).containers| && Tainted(Top(c).containers[j], mimeType)
    ensures var q := c + [Top(c).containers[j]];
      && Path(q) && c < After(q, mimeType) && After(q, mimeType)[|c|] == Top(c).containers[j]
      && (Refound(c, After(q, mimeType), o, mimeType) || o in Level(c, j + 1, After(q, mimeType), mimeType).found
          ==> o in Enumerate(q, mimeType).found)
  {
    StaysInside(c, j, mimeType);
    NotRefound(c, o, mimeType);
    hide Level, Enumerate, After, UniqueIds, Tainted, Refound, Drift, Path;
    var q := c + [Top(c).containers[j]];
    var next := After(q, mimeType);
    SearchAgain(q, o, mimeType);
    SeenStep(c, c, q, o, mimeType);
    if o in Level(c, j + 1, next, mimeType).found {
      DriftedLevel(c, j + 1, j, next, o, mimeType);
    }
  }

  // ---------- the shape of a tail ----------

  ghost predicate Spine(t: Tail, mimeType: string) {
    t.Stuck? ==>
      && t.bare < |t.spine| && 1 <= t.stop <= |t.spine|
      && (forall i | 0 <= i < t.bare :: !MatchFree(t.spine[i], mimeType) && !TailOf(t.spine[i], mimeType).Wrong?)
      && (forall i | t.bare <= i < |t.spine| ::
            MatchFree(t.spine[i], mimeType) && t.spine[i+1..] == FirstChain(t.spine[i]))
  }

  lemma {:induction false} ChainFacts(k: Container, mimeType: string)
    requires MatchFree(k, mimeType)
    ensures Spine(Stuck([k] + FirstChain(k), 0, 1 + |FirstChain(k)|), mimeType)
  {
    var s := [k] + FirstChain(k);
    if k.containers != [] {
      FlattenAllEmpty(k.containers, mimeType);
      var d := k.containers[0];
      ChainFacts(d, mimeType);
      var r := [d] + FirstChain(d);
      assert r == s[1..];
      forall i | 0 <= i < |s| ensures MatchFree(s[i], mimeType) && s[i+1..] == FirstChain(s[i]) {
        if i > 0 {
          assert s[i] == r[i-1] && s[i+1..] == r[i-1+1..];
        }
      }
    }
  }

  lemma {:induction false} BelowSpine(k: Container, t: Tail, mimeType: string)
    requires Spine(t, mimeType) && !MatchFree(k, mimeType) && !TailOf(k, mimeType).Wrong?
    ensures Spine(Below(k, t), mimeType)
  {
    if t.Stuck? {
      var s := [k] + t.spine;
      assert forall i | 0 < i < |s| :: s[i] == t.spine[i-1] && s[i+1..] == t.spine[i-1+1..];
    }
  }

  lemma {:induction false} SpineFacts(n: Container, mimeType: string)
    ensures Spine(TailOf(n, mimeType), mimeType)
    decreases n
  {
    var j := FirstTainted(n.containers, mimeType);
    if j < |n.containers| {
      var k := n.containers[j];
      assert k in n.containers;
      if MatchFree(k, mimeType) {
        ChainFacts(k, mimeType);
      } else {
        SpineFacts(k, mimeType);
        if !TailOf(k, mimeType).Wrong? { BelowSpine(k, TailOf(k, mimeType), mimeType); }
      }
    }
  }

  lemma ChainPath(c: Cursor, k: Container)
    requires Path(c) && k in Top(c).containers
    ensures Path(c + ([k] + FirstChain(k)))
    decreases k
  {
    if k.containers == [] {
      assert c + ([k] + FirstChain(k)) == c + [k];
    } else {
      ChainPath(c + [k], k.containers[0]);
      assert c + ([k] + FirstChain(k)) == c + [k] + ([k.containers[0]] + FirstChain(k.containers[0]));
    }
  }

  lemma {:induction false} SpinePath(c: Cursor, mimeType: string)
    requires Path(c) && TailOf(Top(c), mimeType).Stuck?
    ensures Path(c + TailOf(Top(c), mimeType).spine)
    decreases Height(Top(c))
  {
    hide MatchFree, FirstChain, Tainted;
    var n := Top(c);
    var k := n.containers[FirstTainted(n.containers, mimeType)];
    assert k in n.containers;
    if MatchFree(k, mimeType) {
      ChainPath(c, k);
    } else {
      SpinePath(c + [k], mimeType);
      var s := TailOf(k, mimeType).spine;
      assert c + ([k] + s) == c + [k] + s;
    }
  }

  /** The cursor e left by a search from c is where the tail t of Top(c) says. */
  ghost predicate EndsAt(c: Cursor, e: Cursor, t: Tail) {
    match t
    case Intact => e == c
    case Stuck(spine, bare, stop) => stop <= |spine| && e == c + spine[..stop]
    case Wrong => false
  }
}
