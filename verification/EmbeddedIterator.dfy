/** CContent's cursor and the resumable iterator that searches a file through it. */
module EmbeddedIterator {
  import opened Errors
  import opened ContainerTree
  import opened EnumerationProofs
  import ListExactness

  /** The container objects a listing shows: only their ids and names. */
  function Listing(cs: seq<Container>): seq<EmbeddedObject> {
    seq(|cs|, i requires 0 <= i < |cs| => EmbeddedObject(cs[i].uniqueId, cs[i].name, ""))
  }

  /** The cursor when the i-th container of Top(base) comes up, and where it goes to look inside. */
  ghost function CursorAt(base: Cursor, i: nat, mimeType: string): (cur: Cursor)
    requires Path(base) && i <= |Top(base).containers|
    ensures Path(cur) && base <= cur
    decreases i, 1
  {
    if i == 0 then base else After(InsideAt(base, i - 1, mimeType), mimeType)
  }

  ghost function InsideAt(base: Cursor, i: nat, mimeType: string): (q: Cursor)
    requires Path(base) && i < |Top(base).containers|
    ensures Path(q) && base < q && Height(Top(q)) < Height(Top(base))
    decreases i + 1, 0
  {
    var q := OpenAt(CursorAt(base, i, mimeType), Top(base).containers[i].uniqueId);
    assert base < q;
    HeightDrops(base, q);
    q
  }

  /** With first still to be reported before the i-th container of Top(base) comes up, todo is
      everything to come and finish the last cursor. */
  ghost predicate Left(base: Cursor, i: nat, mimeType: string,
                       first: seq<EmbeddedObject>, todo: seq<EmbeddedObject>, finish: Cursor)
    requires Path(base)
  {
    && i <= |Top(base).containers|
    && var rest := Level(base, i, CursorAt(base, i, mimeType), mimeType);
    && todo == first + rest.found && finish == rest.finish
  }

  /** The same while the container before the i-th, opened at inner, still has first to report. */
  ghost predicate Below(base: Cursor, i: nat, inner: Cursor, innerFinish: Cursor, mimeType: string,
                        first: seq<EmbeddedObject>, todo: seq<EmbeddedObject>, finish: Cursor)
    requires Path(base)
  {
    && 0 < i <= |Top(base).containers| && inner == InsideAt(base, i - 1, mimeType)
    && Enumerate(inner, mimeType).found != [] && innerFinish == Enumerate(inner, mimeType).finish
    && Left(base, i, mimeType, first, todo, finish)
  }

  lemma BelowTail(base: Cursor, i: nat, inner: Cursor, innerFinish: Cursor, mimeType: string,
                  first: seq<EmbeddedObject>, todo: seq<EmbeddedObject>, finish: Cursor)
    requires Path(base) && first != [] && Below(base, i, inner, innerFinish, mimeType, first, todo, finish)
    ensures todo != [] && todo[0] == first[0]
    ensures Below(base, i, inner, innerFinish, mimeType, first[1..], todo[1..], finish)
  {
    hide Level, Enumerate;
  }

  lemma BelowDone(base: Cursor, i: nat, inner: Cursor, innerFinish: Cursor, mimeType: string,
                  first: seq<EmbeddedObject>, todo: seq<EmbeddedObject>, finish: Cursor)
    requires Path(base) && Below(base, i, inner, innerFinish, mimeType, first, todo, finish)
    ensures CloseAt(innerFinish) == CursorAt(base, i, mimeType) && Left(base, i, mimeType, first, todo, finish)
  {
    hide Level, Enumerate;
  }

  lemma LeftStart(c: Cursor, mimeType: string)
    requires Path(c)
    ensures CursorAt(c, 0, mimeType) == c
    ensures var w := Enumerate(c, mimeType);
      Left(c, 0, mimeType, Matching(Top(c).contents, mimeType), w.found, w.finish)
  {
    hide Level, Enumerate;
    EnumerateStep(c, mimeType);
  }

  lemma {:induction false} CursorStays(base: Cursor, i: nat, mimeType: string)
    requires Path(base) && i <= |Top(base).containers| && DistinctIds(Top(base)) && DenseBelow(Top(base), mimeType)
    ensures CursorAt(base, i, mimeType) == base
    decreases i, 1
  {
    if i > 0 {
      var k := Top(base).containers[i-1];
      DenseInside(base, i - 1, mimeType);
      DenseEnumerates(base + [k], mimeType);
      assert k in Top(base).containers && CloseAt(base + [k]) == base;
    }
  }

  lemma {:induction false} DenseInside(base: Cursor, i: nat, mimeType: string)
    requires Path(base) && i < |Top(base).containers| && DistinctIds(Top(base)) && DenseBelow(Top(base), mimeType)
    ensures var k := Top(base).containers[i];
      InsideAt(base, i, mimeType) == base + [k] && DistinctIds(k) && DenseBelow(k, mimeType)
    decreases i + 1, 0
  {
    assert Top(base).containers[i] in Top(base).containers;
    CursorStays(base, i, mimeType);
    DistinctOpens(base, i);
  }

  lemma LeftEnd(base: Cursor, mimeType: string, todo: seq<EmbeddedObject>, finish: Cursor)
    requires Path(base) && Left(base, |Top(base).containers|, mimeType, [], todo, finish)
    ensures todo == [] && finish == CursorAt(base, |Top(base).containers|, mimeType)
  {
    LevelEnd(base, CursorAt(base, |Top(base).containers|, mimeType), mimeType);
  }

  lemma {:induction false} LeftStep(base: Cursor, i: nat, mimeType: string, todo: seq<EmbeddedObject>, finish: Cursor)
    requires Path(base) && i < |Top(base).containers| && Left(base, i, mimeType, [], todo, finish)
    ensures InsideAt(base, i, mimeType) == OpenAt(CursorAt(base, i, mimeType), Top(base).containers[i].uniqueId)
    ensures var q := InsideAt(base, i, mimeType); var w := Enumerate(q, mimeType);
      && (w.found == [] ==>
            w.finish == CursorAt(base, i + 1, mimeType) && Left(base, i + 1, mimeType, [], todo, finish))
      && (w.found != [] ==> todo != [] && todo[0] == w.found[0])
      && (w.found != [] ==> Below(base, i + 1, q, w.finish, mimeType, w.found[1..], todo[1..], finish))
  {
    hide Enumerate, Level, After, OpenAt;
    var cur, q := CursorAt(base, i, mimeType), InsideAt(base, i, mimeType);
    assert q == OpenAt(cur, Top(base).containers[i].uniqueId);
    assert CursorAt(base, i + 1, mimeType) == After(q, mimeType);
    hide CursorAt, InsideAt, Path;
    LevelStep(base, i, cur, q, mimeType);
    AfterCases(q, mimeType);
    var found, rest := Enumerate(q, mimeType).found, Level(base, i + 1, After(q, mimeType), mimeType).found;
    FirstOf(found, rest, todo);
  }

  lemma FirstOf(found: seq<EmbeddedObject>, rest: seq<EmbeddedObject>, todo: seq<EmbeddedObject>)
    requires todo == [] + (found + rest)
    ensures found == [] ==> todo == [] + rest
    ensures found != [] ==> todo != [] && todo[0] == found[0] && todo[1..] == found[1..] + rest
  {
    assert todo == found + rest;
    assert found == [] ==> todo == rest;
  }

  lemma {:induction false} ObjectInMatching(os: seq<EmbeddedObject>, i: nat, mimeType: string)
    requires i < |os| && Matches(os[i], mimeType)
    ensures os[i] in Matching(os, mimeType)
  {
    if i > 0 {
      ObjectInMatching(os[1..], i - 1, mimeType);
    }
  }

  lemma ObjectInFlatten(n: Container, i: nat, mimeType: string)
    requires i < |n.contents| && Matches(n.contents[i], mimeType)
    ensures n.contents[i] in Flatten(n, mimeType)
  {
    ObjectInMatching(n.contents, i, mimeType);
    hide Matching, FlattenAll, Matches;
  }

  lemma MatchingStep(os: seq<EmbeddedObject>, i: nat, mimeType: string)
    requires i < |os|
    ensures var here, rest := Matching(os[i..], mimeType), Matching(os[i + 1..], mimeType);
      if Matches(os[i], mimeType) then here == [os[i]] + rest && here[1..] == rest else here == rest
  {
    assert os[i..][1..] == os[i + 1..];
  }

  lemma LeftTail(base: Cursor, i: nat, mimeType: string,
                 first: seq<EmbeddedObject>, todo: seq<EmbeddedObject>, finish: Cursor)
    requires Path(base) && first != [] && Left(base, i, mimeType, first, todo, finish)
    ensures todo != [] && todo[0] == first[0] && Left(base, i, mimeType, first[1..], todo[1..], finish)
  {
    hide Level;
  }

  lemma NoneMatch(mimeType: string)
    ensures Matching([], mimeType) == []
  {
  }

  /** An open content file with its one shared cursor. */
  class Content {
    var cursor: Cursor

    constructor (root: Container)
      ensures cursor == [root] && Path(cursor)
    {
      cursor := [root];
    }

    method OpenContainer(uniqueId: string) returns (err: int)
      requires Path(cursor)
      modifies this
      ensures cursor == OpenAt(old(cursor), uniqueId) && Path(cursor)
      ensures err == if |cursor| > |old(cursor)| then KErrNone else KErrNotFound
    {
      var here := Top(cursor).containers;
      var i := 0;
      while i < |here| && here[i].uniqueId != uniqueId
        invariant 0 <= i <= |here|
        invariant forall j | 0 <= j < i :: here[j].uniqueId != uniqueId
      {
        i := i + 1;
      }
      if i == |here| {
        return KErrNotFound;
      }
      cursor := cursor + [here[i]];
      return KErrNone;
    }

    method CloseContainer() returns (err: int)
      requires Path(cursor)
      modifies this
      ensures cursor == CloseAt(old(cursor)) && Path(cursor)
      ensures err == if |old(cursor)| > 1 then KErrNone else KErrNotFound
    {
      if |cursor| > 1 {
        cursor := cursor[..|cursor|-1];
        return KErrNone;
      }
      return KErrNotFound;
    }

    method GetEmbeddedObjects() returns (contents: seq<EmbeddedObject>, containers: seq<EmbeddedObject>)
      requires Path(cursor)
      ensures contents == Top(cursor).contents && containers == Listing(Top(cursor).containers)
    {
      contents, containers := Top(cursor).contents, Listing(Top(cursor).containers);
    }
  }

  /** Iterates over the matching objects of the container that was current when it was made, and of
      everything below. todo is what it still has to report and finish where the cursor will stay. */
  class EmbeddedContentIteratorBase {
    const content: Content
    const recursive: bool   // kept, but every container is searched whatever its value
    const mimeType: string
    var contentIndex: nat
    var containerIndex: nat
    var contentObjects: seq<EmbeddedObject>
    var containerObjects: seq<EmbeddedObject>
    var subIterator: EmbeddedContentIteratorBase?

    ghost var base: Cursor
    ghost var todo: seq<EmbeddedObject>
    ghost var finish: Cursor
    ghost var Repr: set<object>

    ghost predicate Valid()
      reads this, Repr, content
      ensures Valid() ==> this in Repr && content !in Repr && |base| > 0 && Path(base) && Path(content.cursor)
      decreases Repr
    {
      && Shape()
      && if subIterator == null then Resting(Matching(contentObjects[contentIndex..], mimeType))
         else subIterator in Repr && Holds(subIterator) && contentObjects == [] && subIterator.Valid()
    }

    ghost predicate Shape()
      reads this, content
    {
      && this in Repr && content !in Repr
      && Path(base) && Path(content.cursor)
      && containerObjects == Listing(Top(base).containers)
      && (contentObjects == [] || contentObjects == Top(base).contents)
      && contentIndex <= |contentObjects| && containerIndex <= |containerObjects|
    }

    /** The cursor is at this level, and first comes before what the containers from the next on have. */
    ghost predicate Resting(first: seq<EmbeddedObject>)
      requires Path(base)
      reads this, content
    {
      && containerIndex <= |Top(base).containers|
      && content.cursor == CursorAt(base, containerIndex, mimeType)
      && Left(base, containerIndex, mimeType, first, todo, finish)
    }

    /** The iterator of the container before the next is this one's own, and what it has still to
        report comes before the rest here. */
    ghost predicate Holds(sub: EmbeddedContentIteratorBase)
      requires sub in Repr
      reads this, Repr
    {
      && sub.Repr <= Repr && this !in sub.Repr
      && sub.content == content && sub.mimeType == mimeType && Path(base)
      && Below(base, containerIndex, sub.base, sub.finish, mimeType, sub.todo, todo, finish)
    }

    /** The iterator is on an object: the one its sub-iterator is on, or the last one it looked at
        itself, if that is one to report. */
    ghost predicate OnObject()
      reads this, Repr, content
      requires Valid()
      decreases Repr
    {
      if subIterator != null then subIterator.OnObject()
      else 1 <= contentIndex <= |contentObjects| && Matches(contentObjects[contentIndex - 1], mimeType)
    }

    function Current(): EmbeddedObject
      reads this, Repr, content
      requires Valid() && OnObject()
      decreases Repr
    {
      if subIterator != null then subIterator.Current() else contentObjects[contentIndex - 1]
    }

    /** The invariant of an iterator with a sub-iterator, taken apart and put together. */
    lemma Apart()
      requires Valid() && subIterator != null
      ensures Shape() && subIterator in Repr && Holds(subIterator) && contentObjects == [] && subIterator.Valid()
      ensures Height(Top(subIterator.base)) < Height(Top(base))
    {
      hide Level, Enumerate;
    }

    lemma Together()
      requires Shape() && subIterator != null && subIterator in Repr && Holds(subIterator)
      requires contentObjects == [] && subIterator.Valid()
      ensures Valid() && OnObject() == subIterator.OnObject()
      ensures OnObject() ==> Current() == subIterator.Current()
    {
      hide Shape, Holds;
    }

    /** The same of one without. */
    lemma RestApart()
      requires Valid() && subIterator == null
      ensures Shape() && Resting(Matching(contentObjects[contentIndex..], mimeType))
    {
      hide Resting;
    }

    lemma RestTogether()
      requires Shape() && subIterator == null && Resting(Matching(contentObjects[contentIndex..], mimeType))
      ensures Valid()
    {
      hide Resting;
    }

    lemma IdleApart()
      requires Valid() && subIterator == null && contentObjects == []
      ensures Shape() && content.cursor == CursorAt(base, containerIndex, mimeType)
      ensures Left(base, containerIndex, mimeType, [], todo, finish)
    {
      hide CursorAt, Left;
      NoneMatch(mimeType);
      assert contentObjects[contentIndex..] == [];
    }

    lemma IdleTogether()
      requires Shape() && subIterator == null && contentObjects == []
      requires content.cursor == CursorAt(base, containerIndex, mimeType)
      requires Left(base, containerIndex, mimeType, [], todo, finish)
      ensures Valid()
    {
      hide CursorAt, Left;
      NoneMatch(mimeType);
      assert contentObjects[contentIndex..] == [];
    }

    /** The containers opened by the iterators below this one, outermost first. */
    ghost function Chain(): (inner: Cursor)
      reads this, Repr, content
      requires Valid()
      decreases Repr
    {
      if subIterator == null then [] else [Top(subIterator.base)] + subIterator.Chain()
    }

    /** If every container below holds a match, the cursor is at the innermost container being searched. */
    lemma {:induction false} CursorFollowsChain()
      requires Valid() && DistinctIds(Top(base)) && DenseBelow(Top(base), mimeType)
      ensures content.cursor == base + Chain()
      decreases Repr
    {
      hide Level, Enumerate, After, CursorAt, InsideAt, Matching, Path, Left, Tainted, DistinctIds, DenseBelow;
      if subIterator == null {
        CursorStays(base, containerIndex, mimeType);
        assert base + [] == base;
      } else {
        var i := containerIndex - 1;
        var sub := subIterator;
        assert Below(base, containerIndex, sub.base, sub.finish, mimeType, sub.todo, todo, finish);
        DenseInside(base, i, mimeType);
        subIterator.CursorFollowsChain();
        assert base + [Top(sub.base)] + sub.Chain() == base + ([Top(sub.base)] + sub.Chain());
      }
    }

    /** The iterator at the end of the chain, the one without a sub-iterator. */
    ghost function Innermost(): (it: EmbeddedContentIteratorBase)
      reads this, Repr, content
      requires Valid()
      ensures it in Repr && it.subIterator == null && |it.base| > 0
      decreases Repr
    {
      if subIterator == null then this else subIterator.Innermost()
    }

    /** The current object is the last one that the innermost iterator took from its container, which
        is the one at the end of the chain; it is of the type looked for, and in the subtree searched. */
    lemma {:induction false} CurrentIsInnermost()
      requires Valid() && OnObject()
      ensures var it := Innermost();
        && Top(it.base) == Top([Top(base)] + Chain())
        && 1 <= it.contentIndex <= |it.contentObjects| && it.contentObjects == Top(it.base).contents
        && Current() == it.contentObjects[it.contentIndex - 1]
      ensures Matches(Current(), mimeType) && Current() in Flatten(Top(base), mimeType)
      decreases Repr
    {
      hide Level, Enumerate, After, CursorAt, Left, Matches, Flatten;
      if subIterator == null {
        ObjectInFlatten(Top(base), contentIndex - 1, mimeType);
      } else {
        assert base < subIterator.base && Path(subIterator.base) by {
          var sub := subIterator;
          assert Below(base, containerIndex, sub.base, sub.finish, mimeType, sub.todo, todo, finish);
        }
        subIterator.CurrentIsInnermost();
        ListExactness.InsideFlatten(base, subIterator.base, Current(), mimeType);
        assert Top([Top(base)] + Chain()) == Top([Top(subIterator.base)] + subIterator.Chain());
      }
    }

    lemma CurrentMatches()
      requires Valid() && OnObject()
      ensures |base| > 0 && Matches(Current(), mimeType) && Current() in Flatten(Top(base), mimeType)
    {
      CurrentIsInnermost();
    }

    lemma CurrentStep()
      requires Valid() && OnObject()
      ensures subIterator == null ==>
        0 < contentIndex <= |contentObjects| && Current() == contentObjects[contentIndex - 1]
      ensures subIterator != null ==>
        && subIterator in Repr && subIterator.Repr < Repr
        && subIterator.Valid() && subIterator.OnObject() && Current() == subIterator.Current()
    {
      hide Matches, Flatten, Path, Below, Listing, CursorAt, Left;
    }

    /** What a caller holds after a success: that object. */
    method EmbeddedObject() returns (o: ContainerTree.EmbeddedObject)
      requires Valid() && OnObject()
      ensures o == Current() && Matches(o, mimeType) && o in Flatten(Top(base), mimeType)
      decreases Repr
    {
      hide EmbeddedContentIteratorBase.Valid, EmbeddedContentIteratorBase.OnObject;
      hide EmbeddedContentIteratorBase.Current, Matches, Flatten;
      CurrentMatches();
      CurrentStep();
      if subIterator != null {
        o := subIterator.EmbeddedObject();
      } else {
        o := contentObjects[contentIndex - 1];
      }
    }

    constructor (content: Content, recursive: bool, mimeType: string)
      requires Path(content.cursor)
      ensures this.content == content && this.recursive == recursive && this.mimeType == mimeType
      ensures contentIndex == 0 && containerIndex == 0 && subIterator == null
      ensures contentObjects == [] && containerObjects == []
      ensures Repr == {this} && base == content.cursor
    {
      this.content, this.recursive, this.mimeType := content, recursive, mimeType;
      contentIndex, containerIndex := 0, 0;
      contentObjects, containerObjects, subIterator := [], [], null;
      base, todo, finish, Repr := content.cursor, [], [], {this};
    }

    /** Lists the current container and moves to its first object; leaves (err != KErrNone) when there is none. */
    static method NewL(content: Content, recursive: bool, mimeType: string)
      returns (err: int, it: EmbeddedContentIteratorBase?)
      requires Path(content.cursor)
      modifies content
      ensures Path(content.cursor)
      ensures var w := Enumerate(old(content.cursor), mimeType);
        && (err == KErrNone <==> w.found != [])
        && (err != KErrNone ==> err == KErrNotFound && it == null && content.cursor == w.finish)
        && (err == KErrNone ==>
              && it != null && it.content == content && it.mimeType == mimeType && it.base == old(content.cursor)
              && fresh(it.Repr) && it.Valid() && it.OnObject() && it.Current() == w.found[0]
              && it.todo == w.found[1..] && it.finish == w.finish)
      decreases Height(Top(content.cursor)), 3
    {
      hide Level, Enumerate, After, CursorAt, InsideAt, Matching, Left, Below, Path;
      LeftStart(content.cursor, mimeType);
      it := new EmbeddedContentIteratorBase(content, recursive, mimeType);
      it.contentObjects, it.containerObjects := content.GetEmbeddedObjects();
      ghost var w := Enumerate(content.cursor, mimeType);
      it.todo, it.finish := w.found, w.finish;
      assert it.contentObjects[0..] == it.contentObjects;
      err := it.Next();
      if err != KErrNone {
        it := null;
      }
    }

    /** Moves to the next object; once there is none left, every later call says so again. */
    method Next() returns (err: int)
      requires Valid()
      modifies Repr, content
      ensures Valid() && fresh(Repr - old(Repr)) && base == old(base) && finish == old(finish)
      ensures old(todo) != [] ==>
        err == KErrNone && OnObject() && Current() == old(todo)[0] && todo == old(todo)[1..]
      ensures old(todo) == [] ==>
        err == KErrNotFound && todo == [] && subIterator == null && content.cursor == finish
      decreases Height(Top(base)), 2
    {
      hide Level, Enumerate, After, CursorAt, InsideAt, Matching, Left, Below, Path, Listing, Height;
      var found := false;
      if subIterator != null {
        found := NextInside();
        if found {
          return KErrNone;
        }
      }
      found := NextContent();
      if found {
        return KErrNone;
      }
      err := NextContainer();
    }

    /** The start of Next: the container already being searched; it is closed once exhausted. */
    method NextInside() returns (found: bool)
      requires Valid() && subIterator != null
      modifies Repr, content
      ensures Valid() && fresh(Repr - old(Repr)) && base == old(base) && finish == old(finish)
      ensures found ==> old(todo) != [] && OnObject() && Current() == old(todo)[0] && todo == old(todo)[1..]
      ensures !found ==> subIterator == null && todo == old(todo)
      decreases Height(Top(base)), 0
    {
      hide EmbeddedContentIteratorBase.Valid, EmbeddedContentIteratorBase.OnObject, EmbeddedContentIteratorBase.Current;
      hide Below, Path, Listing, Height;
      Apart();
      ghost var sub, b, i := subIterator, base, containerIndex;
      ghost var inner, stop, first, all, last := sub.base, sub.finish, sub.todo, todo, finish;
      assert Below(b, i, inner, stop, mimeType, first, all, last);
      var err := subIterator.Next();
      assert subIterator == sub && base == b && containerIndex == i && todo == all && finish == last;
      Repr := Repr + subIterator.Repr;
      if err == KErrNone {
        BelowTail(b, i, inner, stop, mimeType, first, all, last);
        todo := todo[1..];
        Together();
        return true;
      }
      Together();
      Leave();
      return false;
    }

    /** Back to this level: the exhausted container is closed and its iterator dropped. */
    method Leave()
      requires Valid() && subIterator != null && subIterator.todo == [] && content.cursor == subIterator.finish
      modifies this, content
      ensures Valid() && subIterator == null && contentObjects == []
      ensures Repr == old(Repr) && base == old(base) && todo == old(todo) && finish == old(finish)
    {
      hide EmbeddedContentIteratorBase.Valid, Left, Below, Path, Listing, CursorAt;
      Apart();
      BelowDone(base, containerIndex, subIterator.base, subIterator.finish, mimeType, [], todo, finish);
      var ignored := content.CloseContainer();
      subIterator := null;
      IdleTogether();
    }

    /** The first loop of Next: the matching objects of the container itself. */
    method NextContent() returns (found: bool)
      requires Valid() && subIterator == null
      modifies this
      ensures Valid() && subIterator == null && Repr == old(Repr) && base == old(base) && finish == old(finish)
      ensures found ==> old(todo) != [] && OnObject() && Current() == old(todo)[0] && todo == old(todo)[1..]
      ensures !found ==> contentObjects == [] && todo == old(todo)
    {
      hide EmbeddedContentIteratorBase.Valid, CursorAt, Left, Path, Listing, Matching;
      RestApart();
      while contentIndex < |contentObjects|
        invariant Shape() && Resting(Matching(contentObjects[contentIndex..], mimeType))
        invariant subIterator == null && Repr == old(Repr) && base == old(base) && finish == old(finish)
        invariant contentObjects == old(contentObjects) && containerIndex == old(containerIndex)
        invariant todo == old(todo)
        decreases |contentObjects| - contentIndex
      {
        MatchingStep(contentObjects, contentIndex, mimeType);
        if |mimeType| == 0 || contentObjects[contentIndex].mimeType == mimeType {
          LeftTail(base, containerIndex, mimeType, Matching(contentObjects[contentIndex..], mimeType), todo, finish);
          contentIndex := contentIndex + 1;
          todo := todo[1..];
          RestTogether();
          return true;
        }
        contentIndex := contentIndex + 1;
      }
      NoneMatch(mimeType);
      assert contentObjects[contentIndex..] == [];
      if contentIndex != 0 {
        contentObjects := [];
        contentIndex := 0;
      }
      RestTogether();
      return false;
    }

    /** The second loop of Next: the containers below. */
    method NextContainer() returns (err: int)
      requires Valid() && subIterator == null && contentObjects == []
      modifies this, content
      ensures Valid() && fresh(Repr - old(Repr)) && base == old(base) && finish == old(finish)
      ensures old(todo) != [] ==>
        err == KErrNone && OnObject() && Current() == old(todo)[0] && todo == old(todo)[1..]
      ensures old(todo) == [] ==>
        err == KErrNotFound && todo == [] && subIterator == null && content.cursor == finish
      decreases Height(Top(base)), 1
    {
      hide Level, Enumerate, After, CursorAt, InsideAt, Matching, Path;
      while containerIndex < |containerObjects|
        invariant Valid() && subIterator == null && contentObjects == [] && Repr == old(Repr)
        invariant base == old(base) && finish == old(finish) && todo == old(todo)
        decreases |containerObjects| - containerIndex
      {
        var found := TryContainer();
        if found {
          return KErrNone;
        }
      }
      IdleApart();
      LeftEnd(base, mimeType, todo, finish);
      return KErrNotFound;
    }

    /** One turn of that loop. Whether the container could be opened is not looked at, and it is
        not closed again when nothing is found. */
    method TryContainer() returns (found: bool)
      requires Valid() && subIterator == null && contentObjects == [] && containerIndex < |containerObjects|
      modifies this, content
      ensures Valid() && fresh(Repr - old(Repr)) && base == old(base) && finish == old(finish)
      ensures containerIndex == old(containerIndex) + 1 && containerObjects == old(containerObjects)
      ensures found ==> old(todo) != [] && OnObject() && Current() == old(todo)[0] && todo == old(todo)[1..]
      ensures !found ==> subIterator == null && contentObjects == [] && Repr == old(Repr) && todo == old(todo)
      decreases Height(Top(base)), 0
    {
      hide EmbeddedContentIteratorBase.Valid, EmbeddedContentIteratorBase.OnObject, EmbeddedContentIteratorBase.Current;
      hide Enumerate, CursorAt, InsideAt, OpenAt, Path, Left, Below, Listing, Height;
      IdleApart();
      ghost var b, i, all, last := base, containerIndex, todo, finish;
      var id := ContainerId();
      LeftStep(b, i, mimeType, all, last);
      var ignored := content.OpenContainer(id);
      assert content.cursor == InsideAt(b, i, mimeType);
      var err, sub := NewL(content, recursive, mimeType);
      assert base == b && containerIndex == i && todo == all && finish == last && contentObjects == [];
      containerIndex := containerIndex + 1;
      if err != KErrNone {
        IdleTogether();
        return false;
      }
      subIterator := sub;
      Repr := Repr + sub.Repr;
      todo := todo[1..];
      Together();
      return true;
    }

    function ContainerId(): (id: string)
      reads this, Repr, content
      requires Valid() && containerIndex < |containerObjects|
      ensures containerIndex < |Top(base).containers| && id == Top(base).containers[containerIndex].uniqueId
    {
      containerObjects[containerIndex].uniqueId
    }
  }
}
