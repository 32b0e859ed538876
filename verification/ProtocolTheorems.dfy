/** What holds of every interleaving of client threads and the worker. */
module ProtocolSafety {
  import opened DirectorySearch
  import opened SearchTurns
  import opened Protocol

  /** Some interleaving of some calls leads to this state. */
  ghost predicate Reachable(cfg: Config, s: System) {
    exists start, run :: Initial(cfg, start) && Run(cfg, start, run) == Moved(s)
  }

  lemma ReachableInv(cfg: Config, s: System)
    requires Reachable(cfg, s)
    ensures Inv(cfg, s)
  {
    hide Initial, Run, Inv;
    var start, run :| Initial(cfg, start) && Run(cfg, start, run) == Moved(s);
    InitialInv(cfg, start);
    RunKeeps(cfg, start, run);
  }

  /** Conservation of the one token, and so mutual exclusion: two threads never touch the shared
      fields at the same time, whichever calls run. */
  lemma OneAtATime(cfg: Config, s: System)
    requires Reachable(cfg, s)
    ensures s.lock + s.thread + Holders(s.clients) + (if Working(s.worker) then 1 else 0) == 1
    ensures forall i | 0 <= i < |s.clients| && Holding(s.clients[i]) == 1 ::
      && s.lock == 0 && s.thread == 0 && !Working(s.worker)
      && forall j | 0 <= j < |s.clients| && j != i :: Holding(s.clients[j]) == 0
  {
    hide Reachable, Answered, Progress, AllConsistent, ClientsAgree;
    ReachableInv(cfg, s);
    forall i | 0 <= i < |s.clients| && Holding(s.clients[i]) == 1
      ensures s.lock == 0 && s.thread == 0 && !Working(s.worker)
      ensures forall j | 0 <= j < |s.clients| && j != i :: Holding(s.clients[j]) == 0
    {
      HoldersUpdate(s.clients, i, Idle);
      forall j | 0 <= j < |s.clients| && j != i ensures Holding(s.clients[j]) == 0 {
        HoldersUpdate(s.clients[i := Idle], j, Idle);
      }
    }
  }

  /** Each posted request is completed once, in order, with the error that the sequential search
      gives at that position; at most the last one is still open. */
  lemma EachRequestAnswered(cfg: Config, s: System)
    requires Reachable(cfg, s)
    ensures |s.completed| <= |s.posted| <= |s.completed| + 1
    ensures forall n | 0 <= n < |s.completed| ::
      s.completed[n] == Completion(s.posted[n], Answer(cfg.volume, cfg.path, cfg.recursive, cfg.mimeType, n).0)
  {
    hide Reachable, Answer;
    ReachableInv(cfg, s);
    AtMostOnePending(cfg, s);
    hide Pending, Tokens, Progress, AllConsistent, ClientsAgree;
  }

  lemma AtMostOnePending(cfg: Config, s: System)
    requires Inv(cfg, s)
    ensures Pending(s) <= 1 && (Count(s.clients, HoldNext) > 0 ==> Pending(s) == 0)
  {
    hide Progress, Answered, AllConsistent, ClientsAgree, Count;
  }

  /** When a request is about to be stored, every one before it has been completed. */
  lemma NoRequestOverwritten(cfg: Config, s: System, i: nat)
    requires Reachable(cfg, s) && i < |s.clients| && s.clients[i].Posting?
    ensures |s.posted| == |s.completed|
  {
    hide Reachable;
    ReachableInv(cfg, s);
    CountUpdate(s.clients, i, s.clients[i], HoldNext);
    AtMostOnePending(cfg, s);
    hide Pending, Tokens, Progress, AllConsistent, ClientsAgree;
  }

  /** Everything an accessor returns belongs to one result: the one published by the last request
      complete when it read, which is no older than the last one complete when it was called.
      Before any request it is a search parameter. */
  lemma ReadsOneResult(cfg: Config, s: System, o: Observation)
    requires Reachable(cfg, s) && o in s.observed
    ensures o.since <= o.at <= |s.completed|
    ensures o.values == Values(o.accessor,
      if o.at == 0 then Shared(cfg.path, cfg.mimeType, "", "")
      else Answer(cfg.volume, cfg.path, cfg.recursive, cfg.mimeType, o.at - 1).1)
  {
    hide Reachable, Answer, Find, Tokens, Progress, Answered, ClientsAgree;
    ReachableInv(cfg, s);
    assert Consistent(cfg, s, o);
    if o.at > 0 {
      TurnsAnswer(cfg.volume, cfg.path, cfg.recursive, cfg.mimeType, o.at - 1);
    }
  }
}

/** When calls return, and what is left after a shutdown. */
module ProtocolLiveness {
  import opened Protocol
  import opened ProtocolSafety

  /** No call under way and not the worker either can take a step. */
  predicate Quiet(cfg: Config, s: System) {
    && (forall i | 0 <= i < |s.clients| :: ClientStep(s, i).Blocked?)
    && WorkerStep(cfg, s).Blocked?
  }

  /** The lock was taken, after the worker had exited, by a call that leaves it to the worker to
      give it back. */
  predicate Stranded(s: System) {
    s.worker.Exited? && s.thread == 1
  }

  lemma NoHolders(cs: seq<Client>)
    requires forall i | 0 <= i < |cs| :: Holding(cs[i]) == 0
    ensures Holders(cs) == 0
  {
    CountNone(cs, HoldNext);
    CountNone(cs, Posted);
    CountNone(cs, HoldRead);
    CountNone(cs, HoldCancel);
  }

  /** When nothing can move every call has returned, except behind a stranded lock. */
  lemma QuietMeansReturned(cfg: Config, s: System)
    requires Reachable(cfg, s) && Quiet(cfg, s)
    ensures !Stranded(s) <==>
      s.lock == 1 && |s.posted| == |s.completed| && forall i | 0 <= i < |s.clients| :: s.clients[i].Idle?
  {
    hide Reachable, Inv, Quiet;
    ReachableInv(cfg, s);
    QuietReturned(cfg, s);
  }

  lemma QuietReturned(cfg: Config, s: System)
    requires Inv(cfg, s) && Quiet(cfg, s)
    ensures !Stranded(s) <==>
      s.lock == 1 && |s.posted| == |s.completed| && forall i | 0 <= i < |s.clients| :: s.clients[i].Idle?
  {
    hide Answered, Progress, AllConsistent, ClientsAgree;
    forall i | 0 <= i < |s.clients| ensures Holding(s.clients[i]) == 0 {
      assert ClientStep(s, i).Blocked?;
    }
    NoHolders(s.clients);
    if !Stranded(s) {
      forall i | 0 <= i < |s.clients| ensures s.clients[i].Idle? {
        assert ClientStep(s, i).Blocked?;
        CountUpdate(s.clients, i, s.clients[i], Join);
      }
      NothingPending(cfg, s);
    }
  }

  lemma NothingPending(cfg: Config, s: System)
    requires Inv(cfg, s) && Holders(s.clients) == 0 && s.thread == 0 && !Working(s.worker)
    ensures |s.posted| == |s.completed|
  {
    hide Count, Progress, AllConsistent, ClientsAgree;
  }

  /** And behind a stranded lock no waiting call ever gets any further. */
  lemma {:induction false} StrandedForever(cfg: Config, s: System, i: nat, run: seq<Move>)
    requires Inv(cfg, s) && Stranded(s) && Run(cfg, s, run).Moved?
    requires i < |s.clients| && s.clients[i].Calling?
    ensures var later := Run(cfg, s, run).next;
      |later.clients| == |s.clients| && later.clients[i] == s.clients[i] && |later.completed| == |s.completed|
    decreases |run|
  {
    hide Inv;
    if run != [] {
      var next := Do(cfg, s, run[0]).next;
      StrandedStep(cfg, s, i, run[0]);
      StrandedForever(cfg, next, i, run[1..]);
    }
  }

  lemma StrandedStep(cfg: Config, s: System, i: nat, move: Move)
    requires Inv(cfg, s) && Stranded(s) && Do(cfg, s, move).Moved?
    requires i < |s.clients| && s.clients[i].Calling?
    ensures var next := Do(cfg, s, move).next;
      Inv(cfg, next) && Stranded(next) && |next.clients| == |s.clients| && next.clients[i] == s.clients[i]
      && next.completed == s.completed
  {
    hide Answered, Progress, AllConsistent, ClientsAgree;
    match move {
      case Start(j, call) => StartKeeps(cfg, s, j, call);
      case Step(j) =>
        ClientKeeps(cfg, s, j);
        HoldersUpdate(s.clients, j, Idle);
      case Work => assert false;
    }
  }
}
