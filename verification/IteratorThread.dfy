/** The worker thread's code: the shared fields and what it does with each request. */
module IteratorThread {
  import opened Errors
  import opened DirectorySearch
  import opened FileIterator
  import opened SearchTurns
  import opened Protocol

  /** The fields shared with the client, who may use them only while holding the lock. */
  class ContentIteratorData {
    var path: string
    var mimeType: string
    var uniqueId: string
    var name: string
    const recursive: bool
    var clientRequest: nat
    var completions: seq<Completion>

    constructor (searchPath: string, recursive: bool, mimeType: string)
      ensures Fields() == Shared(searchPath, mimeType, "", "") && this.recursive == recursive && completions == []
    {
      path, this.recursive, this.mimeType := searchPath, recursive, mimeType;
      uniqueId, name, clientRequest, completions := "", "", 0, [];
    }

    function Fields(): Shared
      reads this
    {
      Shared(path, mimeType, uniqueId, name)
    }

    method SetData(path: string, uniqueId: string, name: string, mimeType: string)
      modifies this`path, this`mimeType, this`uniqueId, this`name
      ensures Fields() == Shared(path, mimeType, uniqueId, name)
    {
      this.path := path;
      this.mimeType := mimeType;
      this.uniqueId := uniqueId;
      this.name := name;
    }

    method SetClientRequest(request: nat)
      modifies this`clientRequest
      ensures clientRequest == request
    {
      clientRequest := request;
    }

    method CompleteClientRequest(err: int)
      modifies this`completions
      ensures completions == old(completions) + [Completion(clientRequest, err)]
    {
      completions := completions + [Completion(clientRequest, err)];
    }
  }

  class WorkerThread {
    const manager: Volume
    const info: ContentIteratorData
    var files: FileContentIterator?
    ghost var engine: Engine
    ghost var Repr: set<object>

    ghost predicate Valid()
      reads this, Repr
      ensures Valid() ==> this in Repr && info in Repr
    {
      && this in Repr && info in Repr
      && (files == null <==> engine.NoIterator?)
      && (files != null ==>
            && files in Repr && files.Repr <= Repr && this !in files.Repr && info !in files.Repr
            && files.Valid() && engine.rest == files.Todo())
    }

    ghost function StateNow(): State
      reads this, info
    {
      State(engine, info.Fields())
    }

    constructor (manager: Volume, info: ContentIteratorData)
      ensures Valid() && Repr == {this, info} && engine == NoIterator && this.info == info && this.manager == manager
    {
      this.manager, this.info, files := manager, info, null;
      engine, Repr := NoIterator, {this, info};
    }

    /** The search step of one request: an iterator is made if there is none, which blanks the
        fields, or the one there is moves on. */
    method Advance() returns (err: int)
      requires Valid()
      modifies Repr
      ensures Valid() && fresh(Repr - old(Repr)) && info.completions == old(info.completions)
      ensures info.clientRequest == old(info.clientRequest)
      ensures (engine, err) == SearchTurns.Search(manager, info.recursive, old(StateNow()))
      ensures info.Fields() == if old(engine).NoIterator? then BLANK else old(info.Fields())
      ensures err == KErrNone ==> files != null && files.OnObject() && files.Current() == engine.current
    {
      hide FileContentIterator.Valid, FileContentIterator.Todo, Find;
      hide FileContentIterator.OnObject, FileContentIterator.Current;
      if files == null {
        err, files := FileContentIterator.NewL(manager, info.path, info.recursive, info.mimeType);
        if files != null {
          Repr := Repr + files.Repr;
          engine := Going(files.Current(), files.Todo());
        }
        info.SetData("", "", "", "");
      } else {
        err := files.Next();
        Repr := Repr + files.Repr;
        engine := Going(if err == KErrNone then files.Current() else engine.current, files.Todo());
      }
    }

    /** One request served: the state moves by exactly one turn and the client is told its error. */
    method Serve()
      requires Valid()
      modifies Repr
      ensures Valid() && fresh(Repr - old(Repr))
      ensures var (after, err) := Turn(manager, info.recursive, old(StateNow()));
        StateNow() == after && info.completions == old(info.completions) + [Completion(old(info.clientRequest), err)]
    {
      hide FileContentIterator.Valid, FileContentIterator.Todo, SearchTurns.Search;
      hide FileContentIterator.OnObject, FileContentIterator.Current;
      var err := Advance();
      if err == KErrNone {
        var e := files.Current();
        info.SetData(e.fileName, e.uniqueId, e.name, e.mimeType);
      }
      info.CompleteClientRequest(err);
    }
  }

  lemma AfterNext(v: Volume, path: string, recursive: bool, mimeType: string, n: nat)
    ensures After(v, path, recursive, mimeType, 0) == State(NoIterator, Shared(path, mimeType, "", ""))
    ensures After(v, path, recursive, mimeType, n + 1) == Turn(v, recursive, After(v, path, recursive, mimeType, n)).0
  {
  }

  /** The thread from its start, given one request after another: what the client is told and what
      it then finds in the fields is the sequential search of the parameters it started with. */
  method ThreadEntry(manager: Volume, info: ContentIteratorData, requests: seq<nat>)
    requires info.completions == [] && info.uniqueId == "" && info.name == ""
    modifies info
    ensures |info.completions| == |requests|
    ensures forall n | 0 <= n < |requests| ::
      info.completions[n]
      == Completion(requests[n], Answer(manager, old(info.path), info.recursive, old(info.mimeType), n).0)
    ensures requests != [] ==>
      info.Fields() == Answer(manager, old(info.path), info.recursive, old(info.mimeType), |requests| - 1).1
  {
    hide Answer, Turn, After, FileContentIterator.Valid, FileContentIterator.Todo;
    ghost var path, mimeType := info.path, info.mimeType;
    var thread := new WorkerThread(manager, info);
    AfterNext(manager, path, info.recursive, mimeType, 0);
    var n := 0;
    while n < |requests|
      invariant 0 <= n <= |requests| && thread.Valid() && fresh(thread.Repr - {info}) && |info.completions| == n
      invariant thread.StateNow() == After(manager, path, info.recursive, mimeType, n)
      invariant forall k | 0 <= k < n ::
        info.completions[k] == Completion(requests[k], Answer(manager, path, info.recursive, mimeType, k).0)
      invariant n > 0 ==> info.Fields() == Answer(manager, path, info.recursive, mimeType, n - 1).1
    {
      AfterNext(manager, path, info.recursive, mimeType, n);
      TurnsAnswer(manager, path, info.recursive, mimeType, n);
      info.SetClientRequest(requests[n]);
      thread.Serve();
      n := n + 1;
    }
  }
}
