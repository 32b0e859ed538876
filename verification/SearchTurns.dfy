/** One after the other, the answers a search gives to repeated requests for the next object. */
module SearchTurns {
  import opened Errors
  import opened DirectorySearch

  /** The fields that client and worker share: search parameters at first, results later. */
  datatype Shared = Shared(path: string, mimeType: string, uniqueId: string, name: string)

  /** The worker's iterator, if it has one: the object it is on and those still to come. */
  datatype Engine = NoIterator | Going(current: Entry, rest: seq<Entry>)

  datatype State = State(engine: Engine, shared: Shared)

  const BLANK := Shared("", "", "", "")

  function Published(e: Entry): Shared {
    Shared(e.fileName, e.mimeType, e.uniqueId, e.name)
  }

  /** Moves the engine: an iterator is made from the shared fields when there is none yet. */
  function Search(v: Volume, recursive: bool, s: State): (Engine, int) {
    if s.engine.NoIterator? then
      match Find(v, s.shared.path, recursive, s.shared.mimeType)
      case Hits(found) => (Going(found[0], found[1..]), KErrNone)
      case Failed(err) => (NoIterator, err)
    else if s.engine.rest == [] then (s.engine, KErrNotFound)
    else (Going(s.engine.rest[0], s.engine.rest[1..]), KErrNone)
  }

  /** One request: the error it completes with and the state it leaves. Making the iterator blanks
      the shared fields, found or not; an exhausted iterator leaves the last result in them. */
  function Turn(v: Volume, recursive: bool, s: State): (State, int) {
    var (engine, err) := Search(v, recursive, s);
    var before := if s.engine.NoIterator? then BLANK else s.shared;
    (State(engine, if err == KErrNone then Published(engine.current) else before), err)
  }

  function After(v: Volume, path: string, recursive: bool, mimeType: string, n: nat): State {
    if n == 0 then State(NoIterator, Shared(path, mimeType, "", ""))
    else Turn(v, recursive, After(v, path, recursive, mimeType, n - 1)).0
  }

  /** What the client must be told when it asks for the n-th time, counting from 0. */
  function Answer(v: Volume, path: string, recursive: bool, mimeType: string, n: nat): (int, Shared) {
    AnswerOf(Find(v, path, recursive, mimeType), n)
  }

  function AnswerOf(r: DirectorySearch.Search, n: nat): (int, Shared)
    requires r.Hits? ==> r.found != []
  {
    match r
    case Hits(found) =>
      if n < |found| then (KErrNone, Published(found[n])) else (KErrNotFound, Published(found[|found|-1]))
    case Failed(err) => (if n == 0 then err else KErrPathNotFound, BLANK)
  }

  lemma FindBlank(v: Volume, recursive: bool)
    ensures Find(v, "", recursive, "") == Failed(KErrPathNotFound)
  {
  }

  lemma {:induction false} AfterState(v: Volume, path: string, recursive: bool, mimeType: string, n: nat)
    ensures var r := Find(v, path, recursive, mimeType);
      n > 0 ==>
        After(v, path, recursive, mimeType, n) ==
        if r.Failed? then State(NoIterator, BLANK)
        else
          var i := if n <= |r.found| then n else |r.found|;
          State(Going(r.found[i-1], r.found[i..]), Published(r.found[i-1]))
  {
    FindBlank(v, recursive);
    hide Find;
    if n > 1 {
      AfterState(v, path, recursive, mimeType, n - 1);
      var r := Find(v, path, recursive, mimeType);
      if r.Hits? && n <= |r.found| {
        assert r.found[n-1..][1..] == r.found[n..];
      }
    }
  }

  /** Repeating the turn on fields it overwrites itself answers from the original parameters:
      each object in order and then the end for ever, or, when there was nothing, that the blanked
      path does not exist. */
  lemma {:induction false} TurnsAnswer(v: Volume, path: string, recursive: bool, mimeType: string, n: nat)
    ensures var (s, err) := Turn(v, recursive, After(v, path, recursive, mimeType, n));
      (err, s.shared) == Answer(v, path, recursive, mimeType, n)
  {
    FindBlank(v, recursive);
    hide Find;
    AfterState(v, path, recursive, mimeType, n);
    AfterState(v, path, recursive, mimeType, n + 1);
  }
}
