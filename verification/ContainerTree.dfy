/** The content file seen by CContent: a tree of containers, read through one movable cursor.
    Enumerate is what the embedded iterator does to such a file from beginning to end,
    including the container it leaves open when a search inside it fails. */
module ContainerTree {

  datatype EmbeddedObject = EmbeddedObject(uniqueId: string, name: string, mimeType: string)

  datatype Container = Container(
    uniqueId: string, name: string, contents: seq<EmbeddedObject>, containers: seq<Container>)

  /** The open containers, outermost (the file itself) first. */
  type Cursor = seq<Container>

  ghost predicate Path(c: Cursor) {
    |c| > 0 && forall i, j {:trigger c[i], c[j]} | 0 <= i < j < |c| && j == i + 1 :: c[j] in c[i].containers
  }

  function Top(c: Cursor): Container
    requires |c| > 0
  {
    c[|c|-1]
  }

  // ---------- the cursor operations ----------

  function IndexOf(cs: seq<Container>, id: string): (i: nat)
    ensures i <= |cs|
    ensures i < |cs| ==> cs[i].uniqueId == id
    ensures forall j | 0 <= j < i :: cs[j].uniqueId != id
  {
    if cs == [] || cs[0].uniqueId == id then 0 else 1 + IndexOf(cs[1..], id)
  }

  /** Opening an id that is not in the current container leaves the cursor where it is. */
  function OpenAt(c: Cursor, id: string): (r: Cursor)
    requires |c| > 0
    ensures c <= r && |r| <= |c| + 1
    ensures |r| == |c| <==> forall k | k in Top(c).containers :: k.uniqueId != id
    ensures |r| > |c| ==> Top(r) in Top(c).containers && Top(r).uniqueId == id
    ensures Path(c) ==> Path(r)
  {
    var i := IndexOf(Top(c).containers, id);
    if i < |Top(c).containers| then c + [Top(c).containers[i]] else c
  }

  /** The outermost level cannot be closed. */
  function CloseAt(c: Cursor): (r: Cursor)
    requires |c| > 0
    ensures 0 < |r| && r <= c && |r| >= |c| - 1
    ensures |c| > 1 ==> |r| == |c| - 1
    ensures Path(c) ==> Path(r)
  {
    if |c| > 1 then c[..|c|-1] else c
  }

  // ---------- what a search is for ----------

  predicate Matches(o: EmbeddedObject, mimeType: string) {
    mimeType == "" || o.mimeType == mimeType
  }

  function Matching(os: seq<EmbeddedObject>, mimeType: string): seq<EmbeddedObject> {
    if os == [] then []
    else (if Matches(os[0], mimeType) then [os[0]] else []) + Matching(os[1..], mimeType)
  }

  /** Every matching object, each container's own before those of its containers in order. */
  function Flatten(n: Container, mimeType: string): seq<EmbeddedObject> {
    Matching(n.contents, mimeType) + FlattenAll(n.containers, mimeType)
  }

  function FlattenAll(ns: seq<Container>, mimeType: string): seq<EmbeddedObject> {
    if ns == [] then [] else Flatten(ns[0], mimeType) + FlattenAll(ns[1..], mimeType)
  }

  predicate MatchFree(n: Container, mimeType: string) {
    Flatten(n, mimeType) == []
  }

  /** Some container of the subtree, the root included, holds no match anywhere inside. */
  predicate Tainted(n: Container, mimeType: string) {
    MatchFree(n, mimeType) || exists k | k in n.containers :: Tainted(k, mimeType)
  }

  /** Every container strictly below n has a match in its subtree. */
  predicate DenseBelow(n: Container, mimeType: string) {
    forall k | k in n.containers :: !Tainted(k, mimeType)
  }

  /** Sibling containers can be told apart by their unique ids, at every level. */
  predicate DistinctIds(n: Container) {
    && (forall i, j | 0 <= i < j < |n.containers| :: n.containers[i].uniqueId != n.containers[j].uniqueId)
    && (forall k | k in n.containers :: DistinctIds(k))
  }

  function Height(n: Container): nat
    decreases n, 1
  {
    HeightAll(n.containers)
  }

  function HeightAll(ns: seq<Container>): (h: nat)
    ensures forall k | k in ns :: Height(k) < h
    decreases ns, 0
  {
    if ns == [] then 0
    else
      var first, rest := Height(ns[0]) + 1, HeightAll(ns[1..]);
      assert forall k | k in ns :: k == ns[0] || k in ns[1..];
      if first > rest then first else rest
  }

  lemma HeightDrops(c: Cursor, d: Cursor)
    requires Path(c) && Path(d) && c < d
    ensures Height(Top(d)) < Height(Top(c))
    decreases |d|
  {
    var up := d[..|d|-1];
    assert Height(Top(d)) < Height(Top(up));
    if c < up {
      HeightDrops(c, up);
    } else {
      assert up == c;
    }
  }

  // ---------- the whole enumeration ----------

  /** Objects found, in order, and the cursor once nothing more is found. */
  datatype Walk = Walk(found: seq<EmbeddedObject>, finish: Cursor)

  function Enumerate(c: Cursor, mimeType: string): (w: Walk)
    requires Path(c)
    ensures Path(w.finish) && c <= w.finish
    decreases Height(Top(c)), |Top(c).containers| + 1
  {
    var rest := Level(c, 0, c, mimeType);
    Walk(Matching(Top(c).contents, mimeType) + rest.found, rest.finish)
  }

  /** Where the cursor is once the container at q has been searched: one in which something was
      found is closed afterwards, one without is not. */
  function After(q: Cursor, mimeType: string): (next: Cursor)
    requires Path(q) && |q| > 1
    ensures Path(next) && q[..|q|-1] <= next
    decreases Height(Top(q)), |Top(q).containers| + 2
  {
    var w := Enumerate(q, mimeType);
    if w.found == [] then w.finish else CloseAt(w.finish)
  }

  /** The containers of Top(base) from the i-th on, searched with the cursor at cur. */
  function Level(base: Cursor, i: nat, cur: Cursor, mimeType: string): (w: Walk)
    requires Path(base) && Path(cur) && base <= cur && i <= |Top(base).containers|
    ensures Path(w.finish) && base <= w.finish
    decreases Height(Top(base)), |Top(base).containers| - i
  {
    if i == |Top(base).containers| then Walk([], cur)
    else
      var q := OpenAt(cur, Top(base).containers[i].uniqueId);
      assert base < q;
      HeightDrops(base, q);
      var rest := Level(base, i + 1, After(q, mimeType), mimeType);
      Walk(Enumerate(q, mimeType).found + rest.found, rest.finish)
  }

  // ---------- the definitions, one step at a time ----------

  lemma EnumerateStep(c: Cursor, mimeType: string)
    requires Path(c)
    ensures var rest := Level(c, 0, c, mimeType);
      Enumerate(c, mimeType) == Walk(Matching(Top(c).contents, mimeType) + rest.found, rest.finish)
  {
  }

  lemma LevelEnd(base: Cursor, cur: Cursor, mimeType: string)
    requires Path(base) && Path(cur) && base <= cur
    ensures Level(base, |Top(base).containers|, cur, mimeType) == Walk([], cur)
  {
  }

  lemma LevelStep(base: Cursor, i: nat, cur: Cursor, q: Cursor, mimeType: string)
    requires Path(base) && Path(cur) && base <= cur && i < |Top(base).containers|
    requires q == OpenAt(cur, Top(base).containers[i].uniqueId)
    ensures base < q && Path(q) && Height(Top(q)) < Height(Top(base))
    ensures base <= After(q, mimeType)
    ensures var rest := Level(base, i + 1, After(q, mimeType), mimeType);
      Level(base, i, cur, mimeType) == Walk(Enumerate(q, mimeType).found + rest.found, rest.finish)
  {
    assert base < q;
    HeightDrops(base, q);
  }
}
