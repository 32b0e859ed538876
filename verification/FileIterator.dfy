/** The iterators over files and directories, with the path buffers they own and borrow. */
module FileIterator {
  import opened Errors
  import opened ContainerTree
  import opened DirectorySearch
  import opened EmbeddedIterator
  import opened Options

  /** A heap descriptor: it may be read until it is freed, and freed once. */
  class HBuf {
    const text: string
    var live: bool

    constructor (text: string)
      ensures this.text == text && live
    {
      this.text := text;
      live := true;
    }

    method Free()
      requires live
      modifies this
      ensures !live
    {
      live := false;
    }
  }

  /** All matching content objects of one file, through a cursor of its own. */
  class EmbeddedContentIterator {
    const uri: string
    const content: Content
    const subIterator: EmbeddedContentIteratorBase
    ghost var todo: seq<Entry>
    ghost var Repr: set<object>

    ghost predicate Valid()
      reads this, Repr
      ensures Valid() ==> this in Repr
    {
      && this in Repr && content in Repr && subIterator in Repr && subIterator.Repr <= Repr
      && this !in subIterator.Repr && subIterator.content == content
      && subIterator.Valid()
      && todo == Entries(uri, subIterator.todo)
    }

    constructor (uri: string, content: Content, sub: EmbeddedContentIteratorBase)
      requires sub.content == content && sub.Valid()
      ensures this.uri == uri && this.content == content && subIterator == sub
      ensures Valid() && Repr == {this, content} + sub.Repr && todo == Entries(uri, sub.todo)
    {
      hide EmbeddedContentIteratorBase.Valid, Entries;
      this.uri, this.content, subIterator := uri, content, sub;
      todo, Repr := Entries(uri, sub.todo), {this, content} + sub.Repr;
    }

    ghost predicate OnObject()
      reads this, Repr
      requires Valid()
    {
      subIterator.OnObject()
    }

    function FileName(): string {
      uri
    }

    function UniqueId(): string
      reads this, Repr
      requires Valid() && OnObject()
    {
      subIterator.Current().uniqueId
    }

    function Name(): string
      reads this, Repr
      requires Valid() && OnObject()
    {
      subIterator.Current().name
    }

    function MimeType(): string
      reads this, Repr
      requires Valid() && OnObject()
    {
      subIterator.Current().mimeType
    }

    function Current(): Entry
      reads this, Repr
      requires Valid() && OnObject()
    {
      Entry(FileName(), UniqueId(), Name(), MimeType())
    }

    /** Opens the file, goes into the given container if one is named, and finds the first object there. */
    static method NewL(v: Volume, uri: string, uniqueId: string, recursive: bool, mimeType: string)
      returns (err: int, it: EmbeddedContentIterator?)
      ensures uri !in v.files ==> err != KErrNone
      ensures uri in v.files ==>
        var c := [v.files[uri]];
        var w := Enumerate(if uniqueId == "" then c else OpenAt(c, uniqueId), mimeType);
        && (err == KErrNone <==> w.found != [])
        && (err == KErrNone ==>
              && it != null && fresh(it.Repr) && it.Valid() && it.OnObject()
              && it.Current() == Entries(uri, w.found)[0] && it.todo == Entries(uri, w.found)[1..])
      ensures err != KErrNone ==> it == null
    {
      hide Entries, Enumerate, OpenAt;
      hide EmbeddedContentIteratorBase.Valid, EmbeddedContentIteratorBase.OnObject, EmbeddedContentIteratorBase.Current;
      it := null;
      if uri !in v.files {
        return KErrNotFound, null;
      }
      var content := new Content(v.files[uri]);
      if |uniqueId| > 0 {
        var ignored := content.OpenContainer(uniqueId);
      }
      ghost var w := Enumerate(content.cursor, mimeType);
      var sub;
      err, sub := EmbeddedContentIteratorBase.NewL(content, recursive, mimeType);
      if err == KErrNone {
        EntriesStep(uri, w.found);
        it := new EmbeddedContentIterator(uri, content, sub);
      }
    }

    method Next() returns (err: int)
      requires Valid()
      modifies Repr
      ensures Valid() && fresh(Repr - old(Repr))
      ensures old(todo) != [] ==> err == KErrNone && OnObject() && Current() == old(todo)[0] && todo == old(todo)[1..]
      ensures old(todo) == [] ==> err == KErrNotFound && todo == []
    {
      hide Entries, EmbeddedContentIteratorBase.Valid;
      hide EmbeddedContentIteratorBase.OnObject, EmbeddedContentIteratorBase.Current;
      ghost var first := subIterator.todo;
      if first != [] { EntriesStep(uri, first); }
      err := subIterator.Next();
      Repr := Repr + subIterator.Repr;
      todo := Entries(uri, subIterator.todo);
    }
  }

  /** What a directory still has to give: its files from the given index on, if they are still
      wanted, and its directories from the given index on. */
  ghost function Remaining(v: Volume, dir: string, recursive: bool, mimeType: string,
                           files: Option<nat>, dirIndex: nat): seq<Entry>
    requires Listed(v, dir, files, dirIndex)
  {
    (if files.Some? then FilesFrom(v, dir, v.dirs[dir].files, files.value, mimeType) else [])
    + if recursive then DirsFrom(v, dir, v.dirs[dir].dirs, dirIndex, mimeType) else []
  }

  lemma FileStep(v: Volume, dir: string, recursive: bool, mimeType: string, i: nat, d: nat)
    requires Listed(v, dir, Some(i), d) && i < |v.dirs[dir].files|
    ensures Listed(v, dir, Some(i + 1), d)
    ensures Remaining(v, dir, recursive, mimeType, Some(i), d)
      == FileEntries(v, dir + v.dirs[dir].files[i], mimeType) + Remaining(v, dir, recursive, mimeType, Some(i + 1), d)
  {
  }

  lemma FileEntriesFound(v: Volume, fileName: string, mimeType: string)
    ensures FileEntries(v, fileName, mimeType)
      == if fileName in v.files then Entries(fileName, Enumerate([v.files[fileName]], mimeType).found) else []
  {
  }

  lemma FilesDone(v: Volume, dir: string, recursive: bool, mimeType: string, d: nat)
    requires dir in v.dirs && Listed(v, dir, Some(|v.dirs[dir].files|), d)
    ensures Remaining(v, dir, recursive, mimeType, Some(|v.dirs[dir].files|), d)
      == Remaining(v, dir, recursive, mimeType, None, d)
  {
  }

  lemma DirStep(v: Volume, dir: string, mimeType: string, d: nat)
    requires Listed(v, dir, None, d) && d < |v.dirs[dir].dirs|
    ensures Listed(v, dir, None, d + 1)
    ensures var name := v.dirs[dir].dirs[d];
      Remaining(v, dir, true, mimeType, None, d)
      == (if Skipped(dir, name) then [] else SearchDir(v, SubDir(dir, name), true, mimeType))
        + Remaining(v, dir, true, mimeType, None, d + 1)
  {
  }

  lemma DirsDone(v: Volume, dir: string, recursive: bool, mimeType: string, d: nat)
    requires Listed(v, dir, None, d) && (recursive ==> d == |v.dirs[dir].dirs|)
    ensures Remaining(v, dir, recursive, mimeType, None, d) == []
  {
  }

  lemma SearchStart(v: Volume, dir: string, recursive: bool, mimeType: string)
    requires dir in v.dirs
    ensures Listed(v, dir, Some(0), 0)
    ensures Remaining(v, dir, recursive, mimeType, Some(0), 0) == SearchDir(v, dir, recursive, mimeType)
  {
  }

  lemma NoSuchDir(v: Volume, dir: string, recursive: bool, mimeType: string)
    requires dir !in v.dirs
    ensures SearchDir(v, dir, recursive, mimeType) == []
  {
  }

  ghost predicate Listed(v: Volume, dir: string, files: Option<nat>, dirIndex: nat) {
    && dir in v.dirs && dirIndex <= |v.dirs[dir].dirs|
    && (files.Some? ==> files.value <= |v.dirs[dir].files|)
  }

  /** All matching content objects of a directory. The path is borrowed from whoever made the
      iterator; the path of the file or directory being looked into is its own. */
  class FileContentIteratorBase {
    const manager: Volume
    const path: HBuf
    const recursive: bool
    const mimeType: string
    var fileSub: EmbeddedContentIterator?     // one pointer in the source, to either kind of iterator
    var dirSub: FileContentIteratorBase?
    var fileIndex: nat
    var dirIndex: nat
    var fileList: Option<seq<string>>
    var dirList: Option<seq<string>>
    var newPath: HBuf?

    ghost var todo: seq<Entry>
    ghost var Repr: set<object>

    ghost predicate Valid()
      reads this, Repr, path
      ensures Valid() ==> this in Repr && path !in Repr && path.live && Listed(manager, path.text, Files(), dirIndex)
      ensures Valid() ==> (newPath == null <==> fileSub == null && dirSub == null)
      decreases Repr
    {
      && Shape()
      && (newPath == null ==> todo == Rest())
      && (fileSub != null ==> HoldsFile(fileSub) && fileSub.Valid())
      && (dirSub != null ==> HoldsDir(dirSub) && dirSub.Valid())
    }

    /** There is a path of its own exactly while there is a sub-iterator, of one kind. */
    ghost predicate Shape()
      reads this, Repr, path
    {
      && this in Repr && path !in Repr && path.live
      && Lists()
      && (newPath == null <==> fileSub == null && dirSub == null)
      && (newPath != null ==> newPath in Repr && newPath.live)
      && (fileSub != null ==> dirSub == null && fileSub in Repr)
      && (dirSub != null ==> dirSub in Repr)
    }

    ghost predicate HoldsFile(sub: EmbeddedContentIterator)
      requires sub in Repr && Lists()
      reads this, Repr
    {
      && sub.Repr <= Repr && this !in sub.Repr && newPath !in sub.Repr
      && todo == sub.todo + Rest()
    }

    /** The directory below borrows the path that this iterator owns. */
    ghost predicate HoldsDir(sub: FileContentIteratorBase)
      requires sub in Repr && Lists()
      reads this, Repr
    {
      && fileList == None && sub.Repr <= Repr && this !in sub.Repr && newPath !in sub.Repr
      && newPath != null && sub.path == newPath && sub.manager == manager && |path.text| < |newPath.text|
      && todo == sub.todo + Rest()
    }

    /** Between two places to look, with nothing open. */
    ghost predicate Idle()
      reads this, path
    {
      this in Repr && path !in Repr && path.live && Lists() && newPath == null && fileSub == null && dirSub == null
    }

    ghost predicate Lists()
      reads this
    {
      && Listed(manager, path.text, Files(), dirIndex)
      && (fileList.Some? ==> fileList.value == manager.dirs[path.text].files)
      && dirList == if recursive then Some(manager.dirs[path.text].dirs) else None
    }

    ghost function Files(): Option<nat>
      reads this
    {
      if fileList.Some? then Some(fileIndex) else None
    }

    ghost function Rest(): seq<Entry>
      reads this
      requires Lists()
    {
      Remaining(manager, path.text, recursive, mimeType, Files(), dirIndex)
    }

    ghost predicate OnObject()
      reads this, Repr, path
      requires Valid()
      decreases Repr
    {
      (fileSub != null && fileSub.OnObject()) || (dirSub != null && dirSub.OnObject())
    }

    function Current(): Entry
      reads this, Repr, path
      requires Valid() && OnObject()
      decreases Repr
    {
      if fileSub != null then fileSub.Current() else dirSub.Current()
    }

    /** The invariant taken apart and put together: with a file open, with a directory open, with
        neither. */
    lemma FileApart()
      requires Valid() && fileSub != null
      ensures Shape() && HoldsFile(fileSub) && fileSub.Valid()
    {
    }

    lemma FileTogether()
      requires Shape() && fileSub != null && HoldsFile(fileSub) && fileSub.Valid()
      ensures Valid() && (fileSub.OnObject() ==> OnObject() && Current() == fileSub.Current())
    {
      assert dirSub == null;
      hide Shape, HoldsFile;
    }

    lemma DirApart()
      requires Valid() && dirSub != null
      ensures Shape() && HoldsDir(dirSub) && dirSub.Valid()
    {
    }

    lemma DirTogether()
      requires Shape() && dirSub != null && HoldsDir(dirSub) && dirSub.Valid()
      ensures Valid() && (dirSub.OnObject() ==> OnObject() && Current() == dirSub.Current())
    {
      assert fileSub == null;
      hide Shape, HoldsDir;
    }

    lemma IdleApart()
      requires Valid() && newPath == null
      ensures Idle() && todo == Rest()
    {
    }

    lemma IdleTogether()
      requires Idle() && todo == Rest()
      ensures Valid()
    {
    }

    /** The path buffers this iterator and those below it have to free. */
    ghost function OwnedPaths(): (ps: set<HBuf>)
      reads this, Repr, path
      requires Valid()
      ensures ps <= Repr
      decreases Repr
    {
      if newPath == null then {}
      else {newPath} + if dirSub != null then dirSub.OwnedPaths() else {}
    }

    /** An iterator over the listing of an existing directory, before its first object is looked for. */
    constructor (manager: Volume, path: HBuf, recursive: bool, mimeType: string, listing: DirListing)
      requires path.live && path.text in manager.dirs && listing == manager.dirs[path.text]
      ensures Valid() && fresh(Repr) && todo == SearchDir(manager, path.text, recursive, mimeType)
      ensures this.manager == manager && this.path == path
    {
      this.manager, this.path, this.recursive, this.mimeType := manager, path, recursive, mimeType;
      fileSub, dirSub, newPath := null, null, null;
      fileIndex, dirIndex, fileList := 0, 0, Some(listing.files);
      dirList := if recursive then Some(listing.dirs) else None;
      todo, Repr := SearchDir(manager, path.text, recursive, mimeType), {this};
      SearchStart(manager, path.text, recursive, mimeType);
    }

    /** The destructor: a sub-iterator goes before the path it has borrowed, and every path owned
        here or below is freed once, the borrowed one not at all. */
    method Delete()
      requires Valid()
      modifies Repr
      ensures forall p | p in old(OwnedPaths()) :: !p.live
      decreases Repr
    {
      if dirSub != null {
        dirSub.Delete();
      }
      if newPath != null {
        newPath.Free();
      }
    }

    static method NewL(manager: Volume, path: HBuf, recursive: bool, mimeType: string)
      returns (err: int, it: FileContentIteratorBase?)
      requires path.live
      ensures path.text !in manager.dirs ==> err == KErrPathNotFound && it == null
      ensures path.text in manager.dirs ==>
        var l := SearchDir(manager, path.text, recursive, mimeType);
        && (err == KErrNone <==> l != [])
        && (err != KErrNone ==> err == KErrNotFound && it == null)
        && (err == KErrNone ==>
              && it != null && fresh(it.Repr) && it.Valid() && it.OnObject()
              && it.Current() == l[0] && it.todo == l[1..]
              && it.manager == manager && it.path == path)
      decreases Longer(manager, path.text), 4
    {
      it := null;
      if path.text !in manager.dirs {
        return KErrPathNotFound, null;
      }
      hide SearchDir, Longer;
      hide FileContentIteratorBase.Valid, FileContentIteratorBase.OnObject, FileContentIteratorBase.Current;
      it := new FileContentIteratorBase(manager, path, recursive, mimeType, manager.dirs[path.text]);
      err := it.Next();
      if err != KErrNone {
        it := null;
      }
    }

    /** Moves to the next object; once there is none left, every later call says so again. */
    method Next() returns (err: int)
      requires Valid()
      modifies Repr
      ensures Valid() && fresh(Repr - old(Repr))
      ensures old(todo) != [] ==> err == KErrNone && OnObject() && Current() == old(todo)[0] && todo == old(todo)[1..]
      ensures old(todo) == [] ==> err == KErrNotFound && todo == []
      decreases Longer(manager, path.text), 3
    {
      hide FileContentIteratorBase.Valid, FileContentIteratorBase.OnObject, FileContentIteratorBase.Current;
      hide Remaining, Longer;
      var found := false;
      if newPath != null {
        found := NextInside();
        if found {
          return KErrNone;
        }
      }
      if fileList.Some? {
        found := NextFile();
        if found {
          return KErrNone;
        }
      }
      if recursive {
        found := NextDir();
        if found {
          return KErrNone;
        }
      } else {
        IdleApart();
        DirsDone(manager, path.text, recursive, mimeType, dirIndex);
      }
      return KErrNotFound;
    }

    /** The start of Next: the file or directory being looked into. When it is exhausted its
        iterator is deleted, and then the path the iterator borrowed. */
    method NextInside() returns (found: bool)
      requires Valid() && newPath != null
      modifies Repr
      ensures Valid() && fresh(Repr - old(Repr))
      ensures found ==> old(todo) != [] && OnObject() && Current() == old(todo)[0] && todo == old(todo)[1..]
      ensures !found ==> newPath == null && todo == old(todo)
      decreases Longer(manager, path.text), 1
    {
      hide EmbeddedContentIterator.Valid, EmbeddedContentIterator.OnObject, EmbeddedContentIterator.Current;
      hide FileContentIteratorBase.Valid, FileContentIteratorBase.OnObject, FileContentIteratorBase.Current;
      hide Remaining, SearchDir;
      if fileSub != null {
        found := NextInFile();
      } else {
        found := NextInDir();
      }
      if !found {
        CloseInside();
      }
    }

    method NextInFile() returns (found: bool)
      requires Valid() && fileSub != null
      modifies Repr
      ensures Valid() && fresh(Repr - old(Repr)) && newPath == old(newPath) && fileSub == old(fileSub) && dirSub == null
      ensures found ==> old(todo) != [] && OnObject() && Current() == old(todo)[0] && todo == old(todo)[1..]
      ensures !found ==> fileSub.todo == [] && todo == old(todo)
    {
      hide EmbeddedContentIterator.Valid, EmbeddedContentIterator.OnObject, EmbeddedContentIterator.Current;
      hide FileContentIteratorBase.Valid, FileContentIteratorBase.OnObject, FileContentIteratorBase.Current;
      hide Remaining;
      FileApart();
      ghost var all, first, rest := todo, fileSub.todo, Rest();
      var err := fileSub.Next();
      Repr := Repr + fileSub.Repr;
      if err == KErrNone {
        assert all[1..] == first[1..] + rest;
        todo := todo[1..];
      }
      FileTogether();
      return err == KErrNone;
    }

    method NextInDir() returns (found: bool)
      requires Valid() && dirSub != null
      modifies Repr
      ensures Valid() && fresh(Repr - old(Repr)) && newPath == old(newPath) && dirSub == old(dirSub) && fileSub == null
      ensures found ==> old(todo) != [] && OnObject() && Current() == old(todo)[0] && todo == old(todo)[1..]
      ensures !found ==> dirSub.todo == [] && todo == old(todo)
      decreases Longer(manager, path.text), 0
    {
      hide FileContentIteratorBase.Valid, FileContentIteratorBase.OnObject, FileContentIteratorBase.Current;
      hide Remaining, SearchDir, Longer;
      DirApart();
      LongerShrinks(manager, path.text, newPath.text);
      ghost var all, first, rest := todo, dirSub.todo, Rest();
      var err := dirSub.Next();
      Repr := Repr + dirSub.Repr;
      if err == KErrNone {
        assert all[1..] == first[1..] + rest;
        todo := todo[1..];
      }
      DirTogether();
      return err == KErrNone;
    }

    method CloseInside()
      requires Valid() && newPath != null
      requires (fileSub != null ==> fileSub.todo == []) && (dirSub != null ==> dirSub.todo == [])
      modifies Repr
      ensures Valid() && Repr == old(Repr) && newPath == null && todo == old(todo)
      ensures forall p | p in old(OwnedPaths()) :: !p.live
    {
      hide EmbeddedContentIterator.Valid, FileContentIteratorBase.Valid, Remaining;
      if dirSub != null { DirApart(); } else { FileApart(); }
      assert [] + Rest() == Rest();
      if dirSub != null {
        dirSub.Delete();
      }
      fileSub, dirSub := null, null;
      newPath.Free();
      newPath := null;
      IdleTogether();
    }

    /** The first loop of Next: the files of the directory; the list goes when they are done. */
    method NextFile() returns (found: bool)
      requires Valid() && newPath == null && fileList.Some?
      modifies this
      ensures Valid() && fresh(Repr - old(Repr))
      ensures found ==> old(todo) != [] && OnObject() && Current() == old(todo)[0] && todo == old(todo)[1..]
      ensures !found ==> newPath == null && fileList == None && todo == old(todo)
      decreases Longer(manager, path.text), 1
    {
      while fileIndex < |fileList.value|
        invariant Valid() && newPath == null && fileList == old(fileList) && Repr == old(Repr) && todo == old(todo)
        decreases |old(fileList).value| - fileIndex
      {
        ghost var full;
        found, full := TryFile();
        if found {
          return;
        }
      }
      FilesDone(manager, path.text, recursive, mimeType, dirIndex);
      fileList := None;
      return false;
    }

    /** Takes over the iterator of a file, and its path, from the object it is on. */
    method AdoptFile(full: HBuf, sub: EmbeddedContentIterator, ghost first: Entry)
      requires Idle() && full.live && full !in Repr && full != path
      requires sub.Valid() && this !in sub.Repr && full !in sub.Repr && path !in sub.Repr
      requires sub.OnObject() && sub.Current() == first && Todo(first, sub.todo)
      modifies this
      ensures Valid() && Repr == old(Repr) + {full} + sub.Repr && newPath == full && fileList == old(fileList)
      ensures fileIndex == old(fileIndex) && OnObject() && Current() == first && todo == old(todo)[1..]
    {
      hide EmbeddedContentIterator.Valid, EmbeddedContentIterator.OnObject, EmbeddedContentIterator.Current;
      hide FileContentIteratorBase.Valid, FileContentIteratorBase.OnObject, FileContentIteratorBase.Current;
      hide Remaining;
      ghost var rest, all := Rest(), todo;
      newPath, fileSub := full, sub;
      Repr := Repr + {full} + sub.Repr;
      todo := sub.todo + rest;
      assert all[1..] == todo;
      FileTogether();
    }

    method AdoptDir(full: HBuf, sub: FileContentIteratorBase, ghost first: Entry)
      requires Idle() && fileList == None && full.live && full !in Repr && full != path
      requires sub.Valid() && this !in sub.Repr && full !in sub.Repr && path !in sub.Repr
      requires sub.path == full && sub.manager == manager && |path.text| < |full.text|
      requires sub.OnObject() && sub.Current() == first && Todo(first, sub.todo)
      modifies this
      ensures Valid() && Repr == old(Repr) + {full} + sub.Repr && newPath == full
      ensures dirList == old(dirList) && dirIndex == old(dirIndex)
      ensures OnObject() && Current() == first && todo == old(todo)[1..]
    {
      hide EmbeddedContentIterator.Valid, EmbeddedContentIterator.OnObject, EmbeddedContentIterator.Current;
      hide FileContentIteratorBase.Valid, FileContentIteratorBase.OnObject, FileContentIteratorBase.Current;
      hide Remaining;
      ghost var rest, all := Rest(), todo;
      newPath, dirSub := full, sub;
      Repr := Repr + {full} + sub.Repr;
      todo := sub.todo + rest;
      assert all[1..] == todo;
      DirTogether();
    }

    /** What is to come is one object, then what is left where it was found, then the rest here. */
    ghost predicate Todo(first: Entry, inside: seq<Entry>)
      reads this
      requires Lists()
    {
      todo == [first] + inside + Rest()
    }

    /** One file, under a path of its own: kept with the iterator over the file, or freed at once. */
    method TryFile() returns (found: bool, ghost full: HBuf)
      requires Valid() && newPath == null && fileList.Some? && fileIndex < |fileList.value|
      modifies this
      ensures Valid() && fresh(Repr - old(Repr)) && fileList == old(fileList) && fileIndex == old(fileIndex) + 1
      ensures found ==> old(todo) != [] && OnObject() && Current() == old(todo)[0] && todo == old(todo)[1..]
      ensures !found ==> newPath == null && Repr == old(Repr) && todo == old(todo)
      ensures fresh(full) && full.text == path.text + fileList.value[old(fileIndex)]
      ensures if found then newPath == full && full.live else !full.live
    {
      hide EmbeddedContentIterator.Valid, EmbeddedContentIterator.OnObject, EmbeddedContentIterator.Current;
      hide FileContentIteratorBase.Valid, FileContentIteratorBase.OnObject, FileContentIteratorBase.Current;
      hide Remaining, FileEntries, Entries, Enumerate;
      IdleApart();
      FileStep(manager, path.text, recursive, mimeType, fileIndex, dirIndex);
      var name := fileList.value[fileIndex];
      fileIndex := fileIndex + 1;
      var own := new HBuf(path.text + name);
      full := own;
      ghost var l, rest := FileEntries(manager, own.text, mimeType), Rest();
      assert todo == l + rest;
      var err, sub := EmbeddedContentIterator.NewL(manager, own.text, "", recursive, mimeType);
      FileEntriesFound(manager, own.text, mimeType);
      if err != KErrNone {
        assert l + rest == rest;
        own.Free();
        IdleTogether();
        return false, full;
      }
      assert l == [l[0]] + l[1..];
      AdoptFile(own, sub, l[0]);
      return true, full;
    }

    /** The second loop of Next: the directories below. */
    method NextDir() returns (found: bool)
      requires Valid() && newPath == null && fileList == None && recursive
      modifies this
      ensures Valid() && fresh(Repr - old(Repr))
      ensures found ==> old(todo) != [] && OnObject() && Current() == old(todo)[0] && todo == old(todo)[1..]
      ensures !found ==> newPath == null && fileList == None && todo == old(todo) == []
      decreases Longer(manager, path.text), 1
    {
      while dirIndex < |dirList.value|
        invariant Valid() && newPath == null && fileList == None && Repr == old(Repr) && todo == old(todo)
        decreases |dirList.value| - dirIndex
      {
        ghost var full;
        found, full := TryDir();
        if found {
          return;
        }
      }
      DirsDone(manager, path.text, recursive, mimeType, dirIndex);
      return false;
    }

    /** One directory below, likewise; none is made for the system directory. */
    method TryDir() returns (found: bool, ghost full: HBuf?)
      requires Valid() && newPath == null && fileList == None && recursive && dirIndex < |dirList.value|
      modifies this
      ensures Valid() && fresh(Repr - old(Repr)) && dirList == old(dirList) && dirIndex == old(dirIndex) + 1
      ensures found ==> old(todo) != [] && OnObject() && Current() == old(todo)[0] && todo == old(todo)[1..]
      ensures !found ==> newPath == null && fileList == None && Repr == old(Repr) && todo == old(todo)
      ensures full == null <==> Skipped(path.text, dirList.value[old(dirIndex)])
      ensures full != null ==> fresh(full) && full.text == SubDir(path.text, dirList.value[old(dirIndex)])
      ensures found ==> full != null && newPath == full && full.live
      ensures !found && full != null ==> !full.live
      decreases Longer(manager, path.text), 0
    {
      hide FileContentIteratorBase.Valid, FileContentIteratorBase.OnObject, FileContentIteratorBase.Current;
      hide Remaining, SearchDir, Longer;
      IdleApart();
      DirStep(manager, path.text, mimeType, dirIndex);
      var name := dirList.value[dirIndex];
      dirIndex := dirIndex + 1;
      if Fold(name) == "sys" && |path.text| == 3 {
        assert todo == Rest();
        IdleTogether();
        return false, null;
      }
      var own := new HBuf(path.text + name + BACKSLASH);
      full := own;
      ghost var l, rest := SearchDir(manager, own.text, true, mimeType), Rest();
      assert todo == l + rest;
      LongerShrinks(manager, path.text, own.text);
      if own.text !in manager.dirs { NoSuchDir(manager, own.text, true, mimeType); }
      var err, sub := NewL(manager, own, recursive, mimeType);
      if err != KErrNone {
        assert l + rest == rest;
        own.Free();
        IdleTogether();
        return false, full;
      }
      assert l == [l[0]] + l[1..];
      AdoptDir(own, sub, l[0]);
      return true, full;
    }
  }

  /** The search as a whole: it keeps its own copies of the path and the type it was started with. */
  class FileContentIterator {
    const manager: Volume
    const path: HBuf
    const subIterator: FileContentIteratorBase
    ghost var Repr: set<object>

    ghost predicate Valid()
      reads this, Repr
      ensures Valid() ==> this in Repr
    {
      && this in Repr && path in Repr && subIterator in Repr && subIterator.Repr <= Repr && this !in subIterator.Repr
      && subIterator.path == path && subIterator.Valid()
    }

    ghost function Todo(): seq<Entry>
      reads this, Repr
      requires Valid()
    {
      subIterator.todo
    }

    ghost predicate OnObject()
      reads this, Repr
      requires Valid()
    {
      subIterator.OnObject()
    }

    function Current(): Entry
      reads this, Repr
      requires Valid() && OnObject()
    {
      subIterator.Current()
    }

    constructor (manager: Volume, path: HBuf, sub: FileContentIteratorBase)
      requires sub.path == path && sub.Valid()
      ensures Valid() && subIterator == sub && Repr == {this, path} + sub.Repr
    {
      this.manager, this.path, subIterator, Repr := manager, path, sub, {this, path} + sub.Repr;
    }

    static method NewL(manager: Volume, path: string, recursive: bool, mimeType: string)
      returns (err: int, it: FileContentIterator?)
      ensures var r := Find(manager, path, recursive, mimeType);
        && (r.Failed? ==> err == r.err && it == null)
        && (r.Hits? ==>
              && err == KErrNone && it != null && fresh(it.Repr) && it.Valid() && it.OnObject()
              && it.Current() == r.found[0] && it.Todo() == r.found[1..])
    {
      hide FileContentIteratorBase.Valid, FileContentIteratorBase.OnObject, FileContentIteratorBase.Current, SearchDir;
      if |path| == 0 {
        return KErrPathNotFound, null;
      }
      var own := new HBuf(path);
      var sub;
      err, sub := FileContentIteratorBase.NewL(manager, own, recursive, mimeType);
      if err != KErrNone {
        return err, null;
      }
      it := new FileContentIterator(manager, own, sub);
    }

    method Next() returns (err: int)
      requires Valid()
      modifies Repr
      ensures Valid() && fresh(Repr - old(Repr))
      ensures old(Todo()) != [] ==>
        err == KErrNone && OnObject() && Current() == old(Todo())[0] && Todo() == old(Todo())[1..]
      ensures old(Todo()) == [] ==> err == KErrNotFound && Todo() == []
    {
      hide FileContentIteratorBase.Valid, FileContentIteratorBase.OnObject, FileContentIteratorBase.Current;
      err := subIterator.Next();
      Repr := Repr + subIterator.Repr;
    }
  }
}
