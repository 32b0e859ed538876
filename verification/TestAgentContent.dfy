/** The reference agent's content file: one object in the file, the file itself, and an empty
    container that is either open or not. */
module TestAgentContent {
  import opened Errors
  import opened ContainerTree
  import opened EnumerationProofs
  import opened EmbeddedIterator

  const KDefaultContentObject := "DEFAULT"
  const KDummyContainer := "DummyContainer"
  const FILE_TYPE := "application/testagent.drm"

  const DUMMY := Container(KDummyContainer, KDummyContainer, [], [])

  /** The same file as a tree of containers. */
  function Tree(uri: string, contentType: string): Container {
    Container("", uri,
              [EmbeddedObject(KDefaultContentObject, uri, contentType), EmbeddedObject("", uri, FILE_TYPE)], [DUMMY])
  }

  class AgentContent {
    const uri: string
    const contentType: string
    var dummyContainerOpen: bool

    constructor (uri: string, contentType: string)
      ensures this.uri == uri && this.contentType == contentType && AsCursor() == [Tree(uri, contentType)]
    {
      this.uri, this.contentType, dummyContainerOpen := uri, contentType, false;
    }

    /** The flag stands for a cursor into the tree. */
    function AsCursor(): (c: Cursor)
      reads this
      ensures |c| > 0
    {
      [Tree(uri, contentType)] + if dummyContainerOpen then [DUMMY] else []
    }

    method OpenContainer(uniqueId: string) returns (err: int)
      modifies this
      ensures AsCursor() == OpenAt(old(AsCursor()), uniqueId)
      ensures err == if |AsCursor()| > |old(AsCursor())| then KErrNone else KErrNotFound
    {
      if !dummyContainerOpen && uniqueId == KDummyContainer {
        dummyContainerOpen := true;
        return KErrNone;
      }
      return KErrNotFound;
    }

    method CloseContainer() returns (err: int)
      modifies this
      ensures AsCursor() == CloseAt(old(AsCursor()))
      ensures err == if |old(AsCursor())| > 1 then KErrNone else KErrNotFound
    {
      if dummyContainerOpen {
        dummyContainerOpen := false;
        return KErrNone;
      }
      return KErrNotFound;
    }

    method GetEmbeddedObjects() returns (contents: seq<EmbeddedObject>, containers: seq<EmbeddedObject>)
      ensures contents == Top(AsCursor()).contents && containers == Listing(Top(AsCursor()).containers)
    {
      contents, containers := [], [];
      if !dummyContainerOpen {
        contents := contents + [EmbeddedObject(KDefaultContentObject, uri, contentType)];
        contents := contents + [EmbeddedObject("", uri, FILE_TYPE)];
        containers := containers + [EmbeddedObject(KDummyContainer, KDummyContainer, "")];
      }
    }

    /** The file is looked at only if the content is not of the type. */
    method Search(mimeType: string) returns (err: int, found: seq<EmbeddedObject>)
      ensures found == OwnSearch(uri, contentType, mimeType)
      ensures err == if found == [] then KErrNotFound else KErrNone
    {
      if contentType == mimeType {
        return KErrNone, [EmbeddedObject(KDefaultContentObject, uri, contentType)];
      } else if mimeType == FILE_TYPE {
        return KErrNone, [EmbeddedObject("", uri, FILE_TYPE)];
      }
      return KErrNotFound, [];
    }
  }

  /** In so many words: the content with its own type, then the file with the agent's, each if it is of
      the type asked for. */
  lemma WhatIsListed(uri: string, contentType: string, mimeType: string)
    ensures Enumerate([Tree(uri, contentType)], mimeType).found ==
      (if mimeType == "" || mimeType == contentType
       then [EmbeddedObject("DEFAULT", uri, contentType)] else [])
      + (if mimeType == "" || mimeType == "application/testagent.drm"
         then [EmbeddedObject("", uri, "application/testagent.drm")] else [])
  {
    var t := Tree(uri, contentType);
    hide Enumerate, Flatten;
    SearchLeavesDummyOpen(uri, contentType, mimeType);
    FlattenTree(uri, contentType, mimeType);
  }

  lemma FlattenTree(uri: string, contentType: string, mimeType: string)
    ensures Flatten(Tree(uri, contentType), mimeType) == Matching(Tree(uri, contentType).contents, mimeType)
    ensures Matching(Tree(uri, contentType).contents, mimeType) ==
      (if mimeType == "" || mimeType == contentType
       then [EmbeddedObject("DEFAULT", uri, contentType)] else [])
      + (if mimeType == "" || mimeType == "application/testagent.drm"
         then [EmbeddedObject("", uri, "application/testagent.drm")] else [])
  {
    var t := Tree(uri, contentType);
    assert FlattenAll([DUMMY], mimeType) == [];
    var content, file := EmbeddedObject("DEFAULT", uri, contentType), EmbeddedObject("", uri, FILE_TYPE);
    assert t.contents == [content, file] && t.contents[1..] == [file];
    assert Matching([file], mimeType) == if mimeType == "" || mimeType == FILE_TYPE then [file] else [];
  }

  /** What the agent's own search gives. */
  function OwnSearch(uri: string, contentType: string, mimeType: string): seq<EmbeddedObject> {
    if contentType == mimeType then [EmbeddedObject(KDefaultContentObject, uri, contentType)]
    else if mimeType == FILE_TYPE then [EmbeddedObject("", uri, FILE_TYPE)]
    else []
  }

  /** That is the list of the iterator exactly when a type is asked for, and the content and the file
      are not both of it. */
  lemma SearchMissesExactly(uri: string, contentType: string, mimeType: string)
    ensures OwnSearch(uri, contentType, mimeType) == Enumerate([Tree(uri, contentType)], mimeType).found
      <==> mimeType != "" && !(mimeType == contentType == "application/testagent.drm")
  {
    hide Enumerate;
    WhatIsListed(uri, contentType, mimeType);
    var own, all := OwnSearch(uri, contentType, mimeType), Enumerate([Tree(uri, contentType)], mimeType).found;
    assert mimeType == "" ==> |own| < |all|;
    assert mimeType == contentType == FILE_TYPE ==> |own| < |all|;
  }

  /** On this agent's own files the search lists what it should, and yet always leaves the empty
      container open, whatever is searched for. */
  lemma SearchLeavesDummyOpen(uri: string, contentType: string, mimeType: string)
    ensures var t := Tree(uri, contentType);
      && Path([t]) && Enumerate([t], mimeType) == Walk(Flatten(t, mimeType), [t, DUMMY])
  {
    var t := Tree(uri, contentType);
    var q := [t, DUMMY];
    assert DUMMY in t.containers;
    assert OpenAt([t], KDummyContainer) == [t] + [DUMMY] == q;
    assert MatchFree(DUMMY, mimeType);
    FailedSearchDrifts(q, mimeType);
    var w := Enumerate(q, mimeType);
    LevelStep([t], 0, [t], q, mimeType);
    LevelEnd([t], After(q, mimeType), mimeType);
    EnumerateStep([t], mimeType);
    assert w.found == [] && w.finish == q + FirstChain(DUMMY) == q;
    assert FlattenAll([DUMMY], mimeType) == [];
  }
}
