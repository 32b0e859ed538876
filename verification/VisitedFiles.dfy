/** Which files a search visits, said without the order of the visit. */
module VisitedFiles {
  import opened DirectorySearch
  import opened VisitedPaths

  /** The directory reached from another by these names, one inside the other. */
  function Below(dir: string, names: seq<string>): string
    decreases |names|
  {
    if names == [] then dir else Below(dir + names[0] + "\\", names[1..])
  }

  /** Three characters are a drive, and its directory of this name is the system's. */
  predicate IsSys(dir: string, name: string) {
    |dir| == 3 && |name| == 3 && name[0] in "sS" && name[1] in "yY" && name[2] in "sS"
  }

  /** Each name is that of a directory in the one before, and none is the system's. */
  predicate Leads(v: Volume, dir: string, names: seq<string>)
    decreases |names|
  {
    names == []
    || (dir in v.dirs && names[0] in v.dirs[dir].dirs && !IsSys(dir, names[0])
        && Leads(v, dir + names[0] + "\\", names[1..]))
  }

  /** The path is that of a file listed in the directory these names lead to. */
  predicate FileAt(v: Volume, dir: string, names: seq<string>, f: string, p: string) {
    var sub := Below(dir, names);
    Leads(v, dir, names) && sub in v.dirs && f in v.dirs[sub].files && p == sub + f
  }

  lemma VisitedCases(v: Volume, dir: string, recursive: bool, p: string)
    requires dir in v.dirs
    ensures p in Visited(v, dir, recursive) <==>
      (exists f | f in v.dirs[dir].files :: p == dir + f)
      || (recursive && p in VisitedBelow(v, dir, v.dirs[dir].dirs, 0))
  {
    hide VisitedBelow;
    var names := v.dirs[dir].files;
    var files := FilePaths(dir, names);
    forall f | f in names && p == dir + f ensures p in files {
      var i :| 0 <= i < |names| && names[i] == f;
      assert files[i] == p;
    }
    assert p in files ==> exists f | f in names :: p == dir + f;
  }

  lemma BelowCases(v: Volume, dir: string, names: seq<string>, i: nat, p: string)
    requires dir in v.dirs && i < |names|
    ensures p in VisitedBelow(v, dir, names, i) <==>
      (!IsSys(dir, names[i]) && p in Visited(v, dir + names[i] + "\\", true)) || p in VisitedBelow(v, dir, names, i + 1)
  {
    SkippedExactly(dir, names[i]);
    VisitedStep(v, dir, names, i);
    hide Visited, VisitedBelow, Skipped, IsSys;
  }

  lemma {:induction false} VisitedLeads(v: Volume, dir: string, recursive: bool, p: string)
    returns (names: seq<string>, f: string)
    requires p in Visited(v, dir, recursive)
    ensures FileAt(v, dir, names, f, p) && (recursive || names == [])
    decreases Longer(v, dir), 1, 0
  {
    VisitedCases(v, dir, recursive, p);
    if recursive && p in VisitedBelow(v, dir, v.dirs[dir].dirs, 0) {
      hide VisitedBelow;
      names, f := BelowLeads(v, dir, v.dirs[dir].dirs, 0, p);
    } else {
      hide VisitedBelow;
      names := [];
      f :| f in v.dirs[dir].files && p == dir + f;
    }
  }

  lemma {:induction false} BelowLeads(v: Volume, dir: string, subs: seq<string>, i: nat, p: string)
    returns (names: seq<string>, f: string)
    requires dir in v.dirs && i <= |subs| && subs == v.dirs[dir].dirs && p in VisitedBelow(v, dir, subs, i)
    ensures FileAt(v, dir, names, f, p)
    decreases Longer(v, dir), 0, |subs| - i
  {
    BelowCases(v, dir, subs, i, p);
    if p in VisitedBelow(v, dir, subs, i + 1) {
      hide VisitedBelow, FileAt;
      names, f := BelowLeads(v, dir, subs, i + 1, p);
    } else {
      hide VisitedBelow, Visited, IsSys;
      LongerShrinks(v, dir, dir + subs[i] + "\\");
      names, f := VisitedLeads(v, dir + subs[i] + "\\", true, p);
      names := [subs[i]] + names;
      assert names[1..] + [] == names[1..];
    }
  }

  lemma {:induction false} LedIsVisited(v: Volume, dir: string, names: seq<string>, f: string, p: string)
    requires FileAt(v, dir, names, f, p)
    ensures p in Visited(v, dir, true)
    ensures names == [] ==> p in Visited(v, dir, false)
    decreases |names|
  {
    hide Visited, IsSys;
    if names == [] {
      VisitedCases(v, dir, true, p);
      VisitedCases(v, dir, false, p);
    } else {
      LedIsVisited(v, dir + names[0] + "\\", names[1..], f, p);
      var k :| 0 <= k < |v.dirs[dir].dirs| && v.dirs[dir].dirs[k] == names[0];
      BelowHas(v, dir, 0, k, p);
      VisitedCases(v, dir, true, p);
    }
  }

  lemma {:induction false} BelowHas(v: Volume, dir: string, i: nat, k: nat, p: string)
    requires dir in v.dirs && i <= k < |v.dirs[dir].dirs|
    requires !IsSys(dir, v.dirs[dir].dirs[k]) && p in Visited(v, dir + v.dirs[dir].dirs[k] + "\\", true)
    ensures p in VisitedBelow(v, dir, v.dirs[dir].dirs, i)
    decreases k - i
  {
    hide Visited, VisitedBelow, IsSys;
    BelowCases(v, dir, v.dirs[dir].dirs, i, p);
    if i < k {
      BelowHas(v, dir, i + 1, k, p);
    }
  }

  /** A file is visited if and only if it is listed in the directory searched or, when the search is
      recursive, in one that can be reached from it through listed directories, none the system's. */
  lemma VisitedExactly(v: Volume, dir: string, recursive: bool, p: string)
    ensures p in Visited(v, dir, recursive) <==>
      exists names, f :: FileAt(v, dir, names, f, p) && (recursive || names == [])
  {
    hide Visited, FileAt;
    if p in Visited(v, dir, recursive) {
      var names, f := VisitedLeads(v, dir, recursive, p);
    }
    forall names, f | FileAt(v, dir, names, f, p) && (recursive || names == [])
      ensures p in Visited(v, dir, recursive)
    {
      LedIsVisited(v, dir, names, f, p);
    }
  }
}
