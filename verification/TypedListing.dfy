/** What the flattened tree is a list of. */
module TypedListing {
  import opened ContainerTree
  import ListExactness

  /** The object is in the container or in one of those below it. */
  predicate Held(n: Container, o: EmbeddedObject) {
    o in n.contents || exists k | k in n.containers :: Held(k, o)
  }

  /** Everything in the tree, each container's own objects before those of its containers in order. */
  function Preorder(n: Container): seq<EmbeddedObject> {
    n.contents + PreorderAll(n.containers)
  }

  function PreorderAll(ns: seq<Container>): seq<EmbeddedObject> {
    if ns == [] then [] else Preorder(ns[0]) + PreorderAll(ns[1..])
  }

  function OfType(os: seq<EmbeddedObject>, mimeType: string): seq<EmbeddedObject> {
    if os == [] then []
    else (if os[0].mimeType == mimeType then [os[0]] else []) + OfType(os[1..], mimeType)
  }

  lemma {:induction false} OfTypeAppend(a: seq<EmbeddedObject>, b: seq<EmbeddedObject>, mimeType: string)
    ensures OfType(a + b, mimeType) == OfType(a, mimeType) + OfType(b, mimeType)
  {
    if a == [] {
      assert a + b == b;
    } else {
      OfTypeAppend(a[1..], b, mimeType);
      assert (a + b)[0] == a[0] && (a + b)[1..] == a[1..] + b;
      var here := if a[0].mimeType == mimeType then [a[0]] else [];
      var x, y := OfType(a[1..], mimeType), OfType(b, mimeType);
      assert here + (x + y) == here + x + y;
    }
  }

  lemma {:induction false} MatchingIsOfType(os: seq<EmbeddedObject>, mimeType: string)
    ensures Matching(os, mimeType) == if mimeType == "" then os else OfType(os, mimeType)
  {
    if os != [] {
      MatchingIsOfType(os[1..], mimeType);
      assert [os[0]] + os[1..] == os;
    }
  }

  /** The flattened tree is the whole tree in order, or, when a type is asked for, exactly those of its
      objects that are of that type. */
  lemma {:induction false} FlattenIsOfType(n: Container, mimeType: string)
    ensures Flatten(n, mimeType) == if mimeType == "" then Preorder(n) else OfType(Preorder(n), mimeType)
    decreases n, 1
  {
    hide FlattenAll, PreorderAll, OfType, Matching;
    MatchingIsOfType(n.contents, mimeType);
    FlattenAllIsOfType(n.containers, mimeType);
    OfTypeAppend(n.contents, PreorderAll(n.containers), mimeType);
  }

  lemma {:induction false} FlattenAllIsOfType(ns: seq<Container>, mimeType: string)
    ensures FlattenAll(ns, mimeType) == if mimeType == "" then PreorderAll(ns) else OfType(PreorderAll(ns), mimeType)
    decreases ns, 0
  {
    hide Flatten, Preorder;
    if ns != [] {
      FlattenIsOfType(ns[0], mimeType);
      FlattenAllIsOfType(ns[1..], mimeType);
      OfTypeAppend(Preorder(ns[0]), PreorderAll(ns[1..]), mimeType);
    }
  }

  lemma {:induction false} OfTypeHas(os: seq<EmbeddedObject>, mimeType: string, o: EmbeddedObject)
    ensures o in OfType(os, mimeType) <==> o in os && o.mimeType == mimeType
  {
    if os != [] {
      OfTypeHas(os[1..], mimeType, o);
      assert os == [os[0]] + os[1..];
    }
  }

  lemma {:induction false} PreorderHas(n: Container, o: EmbeddedObject)
    ensures o in Preorder(n) <==> Held(n, o)
    decreases n, 1
  {
    hide PreorderAll;
    PreorderAllHas(n.containers, o);
  }

  lemma {:induction false} PreorderAllHas(ns: seq<Container>, o: EmbeddedObject)
    ensures o in PreorderAll(ns) <==> exists k | k in ns :: Held(k, o)
    decreases ns, 0
  {
    hide Preorder, Held;
    if ns != [] {
      PreorderHas(ns[0], o);
      PreorderAllHas(ns[1..], o);
      assert forall k :: k in ns <==> k == ns[0] || k in ns[1..];
    }
  }

  /** An object is in the flattened tree if and only if it is in the tree and no type is asked for, or
      its own. */
  lemma FlattenHas(n: Container, mimeType: string, o: EmbeddedObject)
    ensures o in Flatten(n, mimeType) <==> Held(n, o) && (mimeType == "" || o.mimeType == mimeType)
  {
    hide Flatten, Preorder, OfType, Held;
    FlattenIsOfType(n, mimeType);
    OfTypeHas(Preorder(n), mimeType, o);
    PreorderHas(n, o);
  }

  /** Whatever tree is searched, drift or no drift: every object found is in it, and of the type asked
      for. */
  lemma FoundAreOfType(c: Cursor, mimeType: string, o: EmbeddedObject)
    requires Path(c) && o in Enumerate(c, mimeType).found
    ensures Held(Top(c), o) && (mimeType == "" || o.mimeType == mimeType)
  {
    hide Enumerate, Flatten, Held;
    ListExactness.FoundIsInside(c, o, mimeType);
    FlattenHas(Top(c), mimeType, o);
  }
}
