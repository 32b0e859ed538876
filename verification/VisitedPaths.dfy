/** Which files a search visits: the search is their entries in that order, and under names that
    can be told apart no path is visited twice. */
module VisitedPaths {
  import opened ContainerTree
  import opened DirectorySearch
  import opened ListExactness
  import opened ListTheorem
  import TypedListing

  function FilePaths(dir: string, names: seq<string>): (ps: seq<string>)
    ensures |ps| == |names|
  {
    seq(|names|, i requires 0 <= i < |names| => dir + names[i])
  }

  function Visited(v: Volume, dir: string, recursive: bool): seq<string>
    decreases Longer(v, dir), 1, 0
  {
    if dir !in v.dirs then []
    else FilePaths(dir, v.dirs[dir].files) + if recursive then VisitedBelow(v, dir, v.dirs[dir].dirs, 0) else []
  }

  function VisitedBelow(v: Volume, dir: string, names: seq<string>, i: nat): seq<string>
    requires dir in v.dirs && i <= |names|
    decreases Longer(v, dir), 0, |names| - i
  {
    if i == |names| then []
    else
      (if Skipped(dir, names[i]) then []
       else
         LongerShrinks(v, dir, SubDir(dir, names[i]));
         Visited(v, SubDir(dir, names[i]), true))
      + VisitedBelow(v, dir, names, i + 1)
  }

  function AllEntries(v: Volume, paths: seq<string>, mimeType: string): seq<Entry> {
    if paths == [] then [] else FileEntries(v, paths[0], mimeType) + AllEntries(v, paths[1..], mimeType)
  }

  // ---------- the search is the visited files' entries ----------

  lemma AppendAssociates<T>(a: seq<T>, b: seq<T>, c: seq<T>)
    ensures a + (b + c) == a + b + c
  {
  }

  lemma {:induction false} AllEntriesAppend(v: Volume, a: seq<string>, b: seq<string>, mimeType: string)
    ensures AllEntries(v, a + b, mimeType) == AllEntries(v, a, mimeType) + AllEntries(v, b, mimeType)
  {
    hide FileEntries;
    if a == [] {
      assert a + b == b;
    } else {
      AllEntriesAppend(v, a[1..], b, mimeType);
      assert (a + b)[0] == a[0] && (a + b)[1..] == a[1..] + b;
      AppendAssociates(FileEntries(v, a[0], mimeType), AllEntries(v, a[1..], mimeType), AllEntries(v, b, mimeType));
    }
  }

  lemma {:induction false} FilesAreEntries(v: Volume, dir: string, names: seq<string>, i: nat, mimeType: string)
    requires i <= |names|
    ensures FilesFrom(v, dir, names, i, mimeType) == AllEntries(v, FilePaths(dir, names)[i..], mimeType)
    decreases |names| - i
  {
    if i < |names| {
      FilesAreEntries(v, dir, names, i + 1, mimeType);
      assert FilePaths(dir, names)[i..][1..] == FilePaths(dir, names)[i+1..];
    }
  }

  lemma {:induction false} SearchIsVisited(v: Volume, dir: string, recursive: bool, mimeType: string)
    ensures SearchDir(v, dir, recursive, mimeType) == AllEntries(v, Visited(v, dir, recursive), mimeType)
    decreases Longer(v, dir), 1, 0
  {
    if dir in v.dirs {
      var l := v.dirs[dir];
      FilesAreEntries(v, dir, l.files, 0, mimeType);
      assert FilePaths(dir, l.files)[0..] == FilePaths(dir, l.files);
      if recursive {
        BelowIsVisited(v, dir, l.dirs, 0, mimeType);
        AllEntriesAppend(v, FilePaths(dir, l.files), VisitedBelow(v, dir, l.dirs, 0), mimeType);
      } else {
        AllEntriesAppend(v, FilePaths(dir, l.files), [], mimeType);
      }
    }
  }

  lemma NothingBelow(v: Volume, dir: string, names: seq<string>, mimeType: string)
    requires dir in v.dirs
    ensures DirsFrom(v, dir, names, |names|, mimeType) == []
    ensures AllEntries(v, VisitedBelow(v, dir, names, |names|), mimeType) == []
  {
  }

  lemma DirsStep(v: Volume, dir: string, names: seq<string>, i: nat, mimeType: string)
    requires dir in v.dirs && i < |names|
    ensures DirsFrom(v, dir, names, i, mimeType)
      == (if Skipped(dir, names[i]) then [] else SearchDir(v, SubDir(dir, names[i]), true, mimeType))
        + DirsFrom(v, dir, names, i + 1, mimeType)
  {
    hide SearchDir;
  }

  lemma {:induction false} BelowIsVisited(v: Volume, dir: string, names: seq<string>, i: nat, mimeType: string)
    requires dir in v.dirs && i <= |names|
    ensures DirsFrom(v, dir, names, i, mimeType) == AllEntries(v, VisitedBelow(v, dir, names, i), mimeType)
    decreases Longer(v, dir), 0, |names| - i
  {
    hide Visited, VisitedBelow, SearchDir, DirsFrom, Skipped, SubDir, Longer, AllEntries;
    if i == |names| {
      assert DirsFrom(v, dir, names, i, mimeType) == AllEntries(v, VisitedBelow(v, dir, names, i), mimeType) by {
        NothingBelow(v, dir, names, mimeType);
      }
    } else {
      BelowIsVisited(v, dir, names, i + 1, mimeType);
      VisitedStep(v, dir, names, i);
      DirsStep(v, dir, names, i, mimeType);
      var sub := SubDir(dir, names[i]);
      LongerShrinks(v, dir, sub);
      if Skipped(dir, names[i]) {
        assert [] + VisitedBelow(v, dir, names, i + 1) == VisitedBelow(v, dir, names, i + 1);
        assert [] + DirsFrom(v, dir, names, i + 1, mimeType) == DirsFrom(v, dir, names, i + 1, mimeType);
      } else {
        SearchIsVisited(v, sub, true, mimeType);
        AllEntriesAppend(v, Visited(v, sub, true), VisitedBelow(v, dir, names, i + 1), mimeType);
      }
    }
  }

  // ---------- no path twice ----------

  predicate CleanNames(names: seq<string>) {
    NoRepeat(names) && forall n | n in names :: '\\' !in n
  }

  /** Entry names are free of backslashes and distinct within a directory. */
  predicate Clean(v: Volume) {
    forall d | d in v.dirs :: CleanNames(v.dirs[d].files) && CleanNames(v.dirs[d].dirs)
  }

  lemma {:induction false} VisitedInside(v: Volume, dir: string, recursive: bool, p: string)
    requires p in Visited(v, dir, recursive)
    ensures dir <= p
    decreases Longer(v, dir), 1, 0
  {
    if p !in FilePaths(dir, v.dirs[dir].files) {
      var k := BelowInside(v, dir, v.dirs[dir].dirs, 0, p);
      assert dir <= SubDir(dir, v.dirs[dir].dirs[k]);
    }
  }

  lemma {:induction false} BelowInside(v: Volume, dir: string, names: seq<string>, i: nat, p: string) returns (k: nat)
    requires dir in v.dirs && i <= |names| && p in VisitedBelow(v, dir, names, i)
    ensures i <= k < |names| && SubDir(dir, names[k]) <= p
    decreases Longer(v, dir), 0, |names| - i
  {
    var sub := SubDir(dir, names[i]);
    LongerShrinks(v, dir, sub);
    if p in VisitedBelow(v, dir, names, i + 1) {
      k := BelowInside(v, dir, names, i + 1, p);
    } else {
      VisitedInside(v, sub, true, p);
      k := i;
    }
  }

  lemma SameSubDir(dir: string, a: string, b: string, p: string)
    requires '\\' !in a && '\\' !in b && SubDir(dir, a) <= p && SubDir(dir, b) <= p
    ensures a == b
  {
    var n := |dir|;
    assert forall i | n <= i < n + |a| :: p[i] == a[i-n] && p[i] != '\\';
    assert forall i | n <= i < n + |b| :: p[i] == b[i-n] && p[i] != '\\';
    assert p[n+|a|] == '\\' && p[n+|b|] == '\\';
    assert a == p[n..n+|a|] && b == p[n..n+|b|];
  }

  lemma FileNotBelow(dir: string, f: string, a: string)
    requires '\\' !in f
    ensures !(SubDir(dir, a) <= dir + f)
  {
    var p := dir + f;
    assert forall i | |dir| <= i < |p| :: p[i] == f[i-|dir|] && p[i] != '\\';
    assert SubDir(dir, a)[|dir|+|a|] == '\\';
  }

  lemma NoRepeatAppend(a: seq<string>, b: seq<string>)
    requires NoRepeat(a) && NoRepeat(b) && forall p | p in a :: p !in b
    ensures NoRepeat(a + b)
  {
    forall i, j | 0 <= i < j < |a + b| ensures (a + b)[i] != (a + b)[j] {
      if i < |a| <= j {
        assert a[i] in a && b[j-|a|] in b;
      }
    }
  }

  /** No file is visited under the same full path twice. */
  lemma {:induction false} PathsDistinct(v: Volume, dir: string, recursive: bool)
    requires Clean(v)
    ensures NoRepeat(Visited(v, dir, recursive))
    decreases Longer(v, dir), 1, 0
  {
    if dir in v.dirs {
      var l := v.dirs[dir];
      var files := FilePaths(dir, l.files);
      forall i, j | 0 <= i < j < |files| ensures files[i] != files[j] {
        assert l.files[i] != l.files[j];
        assert files[i][|dir|..] == l.files[i] && files[j][|dir|..] == l.files[j];
      }
      assert files + [] == files;
      if recursive {
        BelowDistinct(v, dir, l.dirs, 0);
        forall p | p in files ensures p !in VisitedBelow(v, dir, l.dirs, 0) {
          if p in VisitedBelow(v, dir, l.dirs, 0) {
            var i :| 0 <= i < |files| && p == dir + l.files[i];
            var k := BelowInside(v, dir, l.dirs, 0, p);
            assert l.files[i] in l.files;
            FileNotBelow(dir, l.files[i], l.dirs[k]);
          }
        }
        NoRepeatAppend(files, VisitedBelow(v, dir, l.dirs, 0));
      }
    }
  }

  lemma NoneBelow(v: Volume, dir: string, names: seq<string>)
    requires dir in v.dirs
    ensures NoRepeat(VisitedBelow(v, dir, names, |names|))
  {
  }

  lemma VisitedStep(v: Volume, dir: string, names: seq<string>, i: nat)
    requires dir in v.dirs && i < |names|
    ensures |SubDir(dir, names[i])| > |dir|
    ensures VisitedBelow(v, dir, names, i)
      == (if Skipped(dir, names[i]) then [] else Visited(v, SubDir(dir, names[i]), true))
        + VisitedBelow(v, dir, names, i + 1)
  {
    hide Visited;
  }

  lemma BelowApart(v: Volume, dir: string, names: seq<string>, i: nat)
    requires dir in v.dirs && i < |names| && CleanNames(names)
    ensures forall p | p in Visited(v, SubDir(dir, names[i]), true) :: p !in VisitedBelow(v, dir, names, i + 1)
  {
    hide Visited, VisitedBelow, SubDir, Longer;
    forall p | p in Visited(v, SubDir(dir, names[i]), true) ensures p !in VisitedBelow(v, dir, names, i + 1) {
      if p in VisitedBelow(v, dir, names, i + 1) {
        VisitedInside(v, SubDir(dir, names[i]), true, p);
        var k := BelowInside(v, dir, names, i + 1, p);
        assert names[i] in names && names[k] in names;
        SameSubDir(dir, names[i], names[k], p);
      }
    }
  }

  lemma {:induction false} BelowDistinct(v: Volume, dir: string, names: seq<string>, i: nat)
    requires Clean(v) && dir in v.dirs && i <= |names| && CleanNames(names)
    ensures NoRepeat(VisitedBelow(v, dir, names, i))
    decreases Longer(v, dir), 0, |names| - i
  {
    hide Visited, VisitedBelow, NoRepeat, Skipped, SubDir, Clean, Longer;
    if i == |names| {
      assert NoRepeat(VisitedBelow(v, dir, names, i)) by { NoneBelow(v, dir, names); }
    } else {
      VisitedStep(v, dir, names, i);
      BelowDistinct(v, dir, names, i + 1);
      if Skipped(dir, names[i]) {
        assert [] + VisitedBelow(v, dir, names, i + 1) == VisitedBelow(v, dir, names, i + 1);
      } else {
        var sub := SubDir(dir, names[i]);
        LongerShrinks(v, dir, sub);
        PathsDistinct(v, sub, true);
        BelowApart(v, dir, names, i);
        NoRepeatAppend(Visited(v, sub, true), VisitedBelow(v, dir, names, i + 1));
      }
    }
  }

  // ---------- what the client should see ----------

  function FlatEntries(v: Volume, paths: seq<string>, mimeType: string): seq<Entry> {
    if paths == [] then []
    else
      (if paths[0] in v.files then Entries(paths[0], Flatten(v.files[paths[0]], mimeType)) else [])
      + FlatEntries(v, paths[1..], mimeType)
  }

  /** The same as objects, each with the file it is in. */
  function FlatObjects(v: Volume, paths: seq<string>, mimeType: string): seq<(string, EmbeddedObject)> {
    if paths == [] then []
    else
      (if paths[0] in v.files then Pairs(paths[0], Flatten(v.files[paths[0]], mimeType)) else [])
      + FlatObjects(v, paths[1..], mimeType)
  }

  function Pairs(p: string, os: seq<EmbeddedObject>): (r: seq<(string, EmbeddedObject)>)
    ensures |r| == |os|
  {
    seq(|os|, i requires 0 <= i < |os| => (p, os[i]))
  }

  /** The entries are those objects one for one: each has its file's name, and its object's id, name and type. */
  lemma {:induction false} FlatEntriesTell(v: Volume, paths: seq<string>, mimeType: string)
    ensures var es, os := FlatEntries(v, paths, mimeType), FlatObjects(v, paths, mimeType);
      && |es| == |os|
      && forall k | 0 <= k < |es| ::
           es[k].fileName == os[k].0 && es[k].uniqueId == os[k].1.uniqueId
           && es[k].name == os[k].1.name && es[k].mimeType == os[k].1.mimeType
  {
    hide Flatten;
    if paths != [] {
      FlatEntriesTell(v, paths[1..], mimeType);
      if paths[0] in v.files {
        var p, os := paths[0], Flatten(v.files[paths[0]], mimeType);
        forall k | 0 <= k < |os|
          ensures Entries(p, os)[k] == Entry(p, os[k].uniqueId, os[k].name, os[k].mimeType)
        {
          EntriesTell(p, os, k);
        }
        hide Entries, FlatEntries, FlatObjects;
        assert forall k | 0 <= k < |os| :: Pairs(p, os)[k] == (p, os[k]);
        FlatHere(v, paths, mimeType);
      }
    }
  }

  lemma FlatHere(v: Volume, paths: seq<string>, mimeType: string)
    requires paths != [] && paths[0] in v.files
    ensures var os := Flatten(v.files[paths[0]], mimeType);
      && FlatEntries(v, paths, mimeType) == Entries(paths[0], os) + FlatEntries(v, paths[1..], mimeType)
      && FlatObjects(v, paths, mimeType) == Pairs(paths[0], os) + FlatObjects(v, paths[1..], mimeType)
  {
    hide Flatten;
  }

  /** And they are exactly the objects of the visited files that can be opened, of the type asked for. */
  lemma {:induction false} FlatObjectsHas(v: Volume, paths: seq<string>, mimeType: string, p: string, o: EmbeddedObject)
    ensures (p, o) in FlatObjects(v, paths, mimeType) <==>
      p in paths && p in v.files && TypedListing.Held(v.files[p], o) && (mimeType == "" || o.mimeType == mimeType)
  {
    hide Flatten, TypedListing.Held;
    if paths != [] {
      FlatObjectsHas(v, paths[1..], mimeType, p, o);
      assert p in paths <==> p == paths[0] || p in paths[1..];
      if paths[0] in v.files {
        TypedListing.FlattenHas(v.files[paths[0]], mimeType, o);
        PairsHas(paths[0], Flatten(v.files[paths[0]], mimeType), p, o);
      }
    }
  }

  lemma PairsHas(q: string, os: seq<EmbeddedObject>, p: string, o: EmbeddedObject)
    ensures (p, o) in Pairs(q, os) <==> p == q && o in os
  {
    if p == q && o in os {
      var i :| 0 <= i < |os| && os[i] == o;
      assert Pairs(q, os)[i] == (p, o);
    }
  }

  /** Every visited file that can be opened is one whose search reports its flattened tree. */
  predicate WellListed(v: Volume, paths: seq<string>, mimeType: string) {
    forall p | p in paths && p in v.files :: UniqueIds(v.files[p]) && !TailOf(v.files[p], mimeType).Wrong?
  }

  lemma {:induction false} EntriesAreFlat(v: Volume, paths: seq<string>, mimeType: string)
    requires WellListed(v, paths, mimeType)
    ensures AllEntries(v, paths, mimeType) == FlatEntries(v, paths, mimeType)
  {
    if paths != [] {
      if paths[0] in v.files {
        TailHolds([v.files[paths[0]]], mimeType);
      }
      EntriesAreFlat(v, paths[1..], mimeType);
    }
  }

  /** A whole search is every visited file's flattened tree, in the order of the visit. */
  lemma {:induction false} SearchIsFlattening(v: Volume, dir: string, recursive: bool, mimeType: string)
    requires WellListed(v, Visited(v, dir, recursive), mimeType)
    ensures SearchDir(v, dir, recursive, mimeType) == FlatEntries(v, Visited(v, dir, recursive), mimeType)
  {
    SearchIsVisited(v, dir, recursive, mimeType);
    EntriesAreFlat(v, Visited(v, dir, recursive), mimeType);
  }

  // ---------- and only then ----------

  /** Every visited file that can be opened tells its objects and containers apart. */
  predicate Distinguishable(v: Volume, paths: seq<string>, mimeType: string) {
    forall p | p in paths && p in v.files ::
      UniqueIds(v.files[p]) && NoRepeat(Flatten(v.files[p], mimeType))
  }

  /** The entries that are of one file. */
  function Of(es: seq<Entry>, fileName: string): seq<Entry> {
    if es == [] then [] else (if es[0].fileName == fileName then [es[0]] else []) + Of(es[1..], fileName)
  }

  lemma {:induction false} OfAppend(a: seq<Entry>, b: seq<Entry>, fileName: string)
    ensures Of(a + b, fileName) == Of(a, fileName) + Of(b, fileName)
  {
    if a == [] {
      assert a + b == b;
    } else {
      OfAppend(a[1..], b, fileName);
      assert (a + b)[0] == a[0] && (a + b)[1..] == a[1..] + b;
      var here := if a[0].fileName == fileName then [a[0]] else [];
      AppendAssociates(here, Of(a[1..], fileName), Of(b, fileName));
    }
  }

  lemma {:induction false} OfEntries(p: string, os: seq<EmbeddedObject>, fileName: string)
    ensures Of(Entries(p, os), fileName) == if p == fileName then Entries(p, os) else []
  {
    if os != [] {
      OfEntries(p, os[1..], fileName);
      EntriesStep(p, os);
      var es := Entries(p, os);
      assert es == [es[0]] + es[1..];
    }
  }

  lemma SameEntries(p: string, a: seq<EmbeddedObject>, b: seq<EmbeddedObject>)
    requires Entries(p, a) == Entries(p, b)
    ensures a == b
  {
    var es, fs := Entries(p, a), Entries(p, b);
    assert |es| == |fs|;
    forall i | 0 <= i < |a| ensures a[i] == b[i] {
      assert es[i] == EntryOf(p, a[i]) && fs[i] == EntryOf(p, b[i]);
    }
  }

  function FlatFile(v: Volume, p: string, mimeType: string): seq<Entry> {
    if p in v.files then Entries(p, Flatten(v.files[p], mimeType)) else []
  }

  lemma OfFile(v: Volume, p: string, fileName: string, mimeType: string)
    ensures Of(FileEntries(v, p, mimeType), fileName) == if p == fileName then FileEntries(v, p, mimeType) else []
    ensures Of(FlatFile(v, p, mimeType), fileName) == if p == fileName then FlatFile(v, p, mimeType) else []
  {
    if p in v.files {
      OfEntries(p, Enumerate([v.files[p]], mimeType).found, fileName);
      OfEntries(p, Flatten(v.files[p], mimeType), fileName);
    }
  }

  /** When no path is visited twice, one file's part of the whole search is its own search. */
  lemma {:induction false} OfAll(v: Volume, paths: seq<string>, fileName: string, mimeType: string)
    requires NoRepeat(paths)
    ensures Of(AllEntries(v, paths, mimeType), fileName)
      == if fileName in paths then FileEntries(v, fileName, mimeType) else []
    ensures Of(FlatEntries(v, paths, mimeType), fileName)
      == if fileName in paths then FlatFile(v, fileName, mimeType) else []
  {
    hide FileEntries, FlatFile;
    if paths != [] {
      OfAll(v, paths[1..], fileName, mimeType);
      FlatStep(v, paths, mimeType);
      OfFile(v, paths[0], fileName, mimeType);
      OfAppend(FileEntries(v, paths[0], mimeType), AllEntries(v, paths[1..], mimeType), fileName);
      OfAppend(FlatFile(v, paths[0], mimeType), FlatEntries(v, paths[1..], mimeType), fileName);
      OneOf(paths, fileName);
    }
  }

  lemma FlatStep(v: Volume, paths: seq<string>, mimeType: string)
    requires paths != []
    ensures FlatEntries(v, paths, mimeType) == FlatFile(v, paths[0], mimeType) + FlatEntries(v, paths[1..], mimeType)
  {
  }

  lemma OneOf(paths: seq<string>, p: string)
    requires paths != [] && NoRepeat(paths)
    ensures p in paths <==> p == paths[0] || p in paths[1..]
    ensures p == paths[0] ==> p !in paths[1..]
  {
  }

  /** A whole search is every visited file's flattened tree, in the order of the visit, exactly when
      no visited file that can be opened is one whose own search goes wrong. */
  lemma SearchIsFlatteningIff(v: Volume, dir: string, recursive: bool, mimeType: string)
    requires Clean(v) && Distinguishable(v, Visited(v, dir, recursive), mimeType)
    ensures SearchDir(v, dir, recursive, mimeType) == FlatEntries(v, Visited(v, dir, recursive), mimeType)
      <==> WellListed(v, Visited(v, dir, recursive), mimeType)
  {
    hide Visited, SearchDir, FlatEntries, Clean, UniqueIds, NoRepeat, TailOf;
    var paths := Visited(v, dir, recursive);
    SearchIsVisited(v, dir, recursive, mimeType);
    PathsDistinct(v, dir, recursive);
    if WellListed(v, paths, mimeType) {
      EntriesAreFlat(v, paths, mimeType);
    }
    if SearchDir(v, dir, recursive, mimeType) == FlatEntries(v, paths, mimeType) {
      forall p | p in paths && p in v.files ensures UniqueIds(v.files[p]) && !TailOf(v.files[p], mimeType).Wrong? {
        OfAll(v, paths, p, mimeType);
        FileIsWell(v, p, mimeType);
      }
    }
  }

  lemma FileIsWell(v: Volume, p: string, mimeType: string)
    requires p in v.files && FileEntries(v, p, mimeType) == FlatFile(v, p, mimeType)
    requires UniqueIds(v.files[p]) && NoRepeat(Flatten(v.files[p], mimeType))
    ensures !TailOf(v.files[p], mimeType).Wrong?
  {
    hide Enumerate, Flatten, TailOf, UniqueIds, NoRepeat, Entries;
    var c := [v.files[p]];
    SameEntries(p, Enumerate(c, mimeType).found, Flatten(v.files[p], mimeType));
    FoundExactlyIff(c, mimeType);
  }
}
