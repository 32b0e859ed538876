/** What a search of a directory finds, file by file and directory by directory. */
module DirectorySearch {
  import opened Errors
  import opened ContainerTree

  /** One content object as the client is told about it. */
  datatype Entry = Entry(fileName: string, uniqueId: string, name: string, mimeType: string)

  datatype DirListing = DirListing(files: seq<string>, dirs: seq<string>)

  /** The file system: directories by path, and the files that an agent can open. */
  datatype Volume = Volume(dirs: map<string, DirListing>, files: map<string, Container>)

  const BACKSLASH := "\\"

  function EntryOf(fileName: string, o: EmbeddedObject): Entry {
    Entry(fileName, o.uniqueId, o.name, o.mimeType)
  }

  function Entries(fileName: string, os: seq<EmbeddedObject>): (es: seq<Entry>)
    ensures |es| == |os|
  {
    seq(|os|, i requires 0 <= i < |os| => EntryOf(fileName, os[i]))
  }

  lemma EntriesStep(fileName: string, os: seq<EmbeddedObject>)
    requires os != []
    ensures var es := Entries(fileName, os);
      es[0] == EntryOf(fileName, os[0]) && es[1..] == Entries(fileName, os[1..])
  {
  }

  /** Each entry is its own object's: the file's name, and the object's id, name and type. */
  lemma EntriesTell(fileName: string, os: seq<EmbeddedObject>, k: nat)
    requires k < |os|
    ensures var e := Entries(fileName, os)[k];
      e.fileName == fileName && e.uniqueId == os[k].uniqueId && e.name == os[k].name && e.mimeType == os[k].mimeType
  {
  }

  function FileEntries(v: Volume, fileName: string, mimeType: string): seq<Entry> {
    if fileName in v.files then Entries(fileName, Enumerate([v.files[fileName]], mimeType).found) else []
  }

  function FilesFrom(v: Volume, dir: string, names: seq<string>, i: nat, mimeType: string): seq<Entry>
    requires i <= |names|
    decreases |names| - i
  {
    if i == |names| then []
    else FileEntries(v, dir + names[i], mimeType) + FilesFrom(v, dir, names, i + 1, mimeType)
  }

  function Lower(c: char): char {
    if 'A' <= c <= 'Z' then (c as int + 32) as char else c
  }

  function Fold(s: string): string {
    seq(|s|, i requires 0 <= i < |s| => Lower(s[i]))
  }

  /** The system directory of a drive is not searched; elsewhere the name means nothing. */
  predicate Skipped(dir: string, name: string) {
    Fold(name) == "sys" && |dir| == 3
  }

  /** Folding takes a text to a lower-case one exactly when it is that text, letter for letter, in either
      case. */
  lemma FoldExactly(s: string, t: string)
    requires forall i | 0 <= i < |t| :: !('A' <= t[i] <= 'Z')
    ensures Fold(s) == t <==>
      |s| == |t| && forall i | 0 <= i < |s| ::
        s[i] == t[i] || ('A' <= s[i] <= 'Z' && s[i] as int - 'A' as int == t[i] as int - 'a' as int)
  {
    if |s| == |t| && forall i | 0 <= i < |s| :: Lower(s[i]) == t[i] {
      assert Fold(s) == t;
    }
    assert Fold(s) == t ==> forall i | 0 <= i < |s| :: Lower(s[i]) == Fold(s)[i] == t[i];
    assert forall i | 0 <= i < |s| && |s| == |t| :: Lower(s[i]) == t[i] <==>
      s[i] == t[i] || ('A' <= s[i] <= 'Z' && s[i] as int - 'A' as int == t[i] as int - 'a' as int);
  }

  /** A directory is passed over exactly under a path of three characters and with one of the eight
      spellings of its name. */
  lemma SkippedExactly(dir: string, name: string)
    ensures Skipped(dir, name) <==>
      |dir| == 3 && |name| == 3 && name[0] in "sS" && name[1] in "yY" && name[2] in "sS"
  {
    FoldExactly(name, "sys");
  }

  function SubDir(dir: string, name: string): string {
    dir + name + BACKSLASH
  }

  /** Known directories whose path is at least as long as dir: smaller for every directory below. */
  ghost function Longer(v: Volume, dir: string): set<string> {
    set d | d in v.dirs && |d| >= |dir|
  }

  lemma LongerShrinks(v: Volume, dir: string, sub: string)
    requires dir in v.dirs && |sub| > |dir|
    ensures Longer(v, sub) < Longer(v, dir)
  {
    assert dir in Longer(v, dir) && dir !in Longer(v, sub);
  }

  /** A directory's own files in order and then, recursively, its directories in order. */
  function SearchDir(v: Volume, dir: string, recursive: bool, mimeType: string): seq<Entry>
    decreases Longer(v, dir), 1, 0
  {
    if dir !in v.dirs then []
    else
      FilesFrom(v, dir, v.dirs[dir].files, 0, mimeType)
      + if recursive then DirsFrom(v, dir, v.dirs[dir].dirs, 0, mimeType) else []
  }

  function DirsFrom(v: Volume, dir: string, names: seq<string>, i: nat, mimeType: string): seq<Entry>
    requires dir in v.dirs && i <= |names|
    decreases Longer(v, dir), 0, |names| - i
  {
    if i == |names| then []
    else
      (if Skipped(dir, names[i]) then []
       else
         LongerShrinks(v, dir, SubDir(dir, names[i]));
         SearchDir(v, SubDir(dir, names[i]), true, mimeType))
      + DirsFrom(v, dir, names, i + 1, mimeType)
  }

  /** The outcome of starting a search: its objects, at least one, or why there is none. */
  datatype Search = Hits(found: seq<Entry>) | Failed(err: int)

  function Find(v: Volume, path: string, recursive: bool, mimeType: string): (r: Search)
    ensures r.Hits? ==> r.found != []
    ensures r == Failed(KErrPathNotFound) <==> path == "" || path !in v.dirs
    ensures r.Failed? ==> r.err == KErrPathNotFound || r.err == KErrNotFound
  {
    if path == "" || path !in v.dirs then Failed(KErrPathNotFound)
    else
      var found := SearchDir(v, path, recursive, mimeType);
      if found == [] then Failed(KErrNotFound) else Hits(found)
  }
}
