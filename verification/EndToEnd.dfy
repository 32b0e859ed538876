/** From the threads down to the trees: what a client of the asynchronous search is told. */
module EndToEnd {
  import opened Errors
  import opened ContainerTree
  import opened DirectorySearch
  import opened VisitedPaths
  import opened SearchTurns
  import opened Protocol
  import opened ProtocolSafety

  /** What there is to find: each visited file's matching objects in order, file after file. */
  function Listing(cfg: Config): seq<Entry> {
    FlatEntries(cfg.volume, Visited(cfg.volume, cfg.path, cfg.recursive), cfg.mimeType)
  }

  /** The search is of a directory in which every file's own search is right and something is found. */
  predicate Searchable(cfg: Config) {
    && cfg.path != "" && cfg.path in cfg.volume.dirs && Listing(cfg) != []
    && WellListed(cfg.volume, Visited(cfg.volume, cfg.path, cfg.recursive), cfg.mimeType)
  }

  lemma AnswersAreListing(cfg: Config, n: nat)
    requires Searchable(cfg)
    ensures Answer(cfg.volume, cfg.path, cfg.recursive, cfg.mimeType, n) == AnswerOf(Hits(Listing(cfg)), n)
  {
    SearchIsFlattening(cfg.volume, cfg.path, cfg.recursive, cfg.mimeType);
  }

  /** The objects themselves: each with the file it is in, one for each entry. */
  function Objects(cfg: Config): seq<(string, EmbeddedObject)> {
    FlatObjects(cfg.volume, Visited(cfg.volume, cfg.path, cfg.recursive), cfg.mimeType)
  }

  lemma ListingTells(cfg: Config)
    ensures var l, os := Listing(cfg), Objects(cfg);
      && |l| == |os|
      && forall k | 0 <= k < |l| ::
           l[k].fileName == os[k].0 && l[k].uniqueId == os[k].1.uniqueId
           && l[k].name == os[k].1.name && l[k].mimeType == os[k].1.mimeType
  {
    FlatEntriesTell(cfg.volume, Visited(cfg.volume, cfg.path, cfg.recursive), cfg.mimeType);
  }

  /** In every interleaving the requests complete with success once for each object of the listing,
      in its order, and with KErrNotFound from then on. */
  lemma ClientIsToldListing(cfg: Config, s: System, n: nat)
    requires Searchable(cfg) && Reachable(cfg, s) && n < |s.completed|
    ensures n < |s.posted|
    ensures s.completed[n] == Completion(s.posted[n], if n < |Objects(cfg)| then KErrNone else KErrNotFound)
  {
    hide Reachable, Searchable, Answer, Listing, Objects;
    EachRequestAnswered(cfg, s);
    AnswersAreListing(cfg, n);
    ListingTells(cfg);
  }

  lemma HitAt(l: seq<Entry>, at: nat)
    requires l != [] && at > 0
    ensures AnswerOf(Hits(l), at - 1).1 == Published(l[if at <= |l| then at - 1 else |l| - 1])
  {
  }

  /** The file and the object that the accessors tell of after so many requests: the last one stays. */
  function ObjectAt(cfg: Config, at: nat): (string, EmbeddedObject)
    requires Objects(cfg) != [] && at > 0
  {
    Objects(cfg)[if at <= |Objects(cfg)| then at - 1 else |Objects(cfg)| - 1]
  }

  lemma AnswerIsObject(cfg: Config, at: nat)
    requires Searchable(cfg) && at > 0
    ensures Objects(cfg) != []
    ensures var (file, o) := ObjectAt(cfg, at);
      Answer(cfg.volume, cfg.path, cfg.recursive, cfg.mimeType, at - 1).1
      == Shared(path := file, mimeType := o.mimeType, uniqueId := o.uniqueId, name := o.name)
  {
    hide Answer, Listing, Objects, WellListed, AnswerOf;
    AnswersAreListing(cfg, at - 1);
    HitAt(Listing(cfg), at);
    ListingTells(cfg);
  }

  /** And an accessor that reads after the n-th of them and before the next tells of that object: the
      file it is in and its id, its name, its type. After the last it goes on telling of the last. */
  lemma ClientReadsListing(cfg: Config, s: System, o: Observation)
    requires Searchable(cfg) && Reachable(cfg, s) && o in s.observed && o.at > 0
    ensures Objects(cfg) != []
    ensures var (file, object_) := ObjectAt(cfg, o.at);
      match o.accessor
      case VirtualPath => o.values == [file, object_.uniqueId]
      case Name => o.values == [object_.name]
      case MimeType => o.values == [object_.mimeType]
  {
    AnswerIsObject(cfg, o.at);
    hide Reachable, Searchable, Answer, Listing, Objects, ObjectAt;
    ReadsOneResult(cfg, s, o);
  }

  // ---------- and only then ----------

  /** What the search should come to. */
  function Expected(cfg: Config): (r: DirectorySearch.Search)
    ensures r.Hits? ==> r.found != []
  {
    if cfg.path == "" || cfg.path !in cfg.volume.dirs then Failed(KErrPathNotFound)
    else if Listing(cfg) == [] then Failed(KErrNotFound)
    else Hits(Listing(cfg))
  }

  /** The answers tell one search from another. */
  lemma AnswersTell(a: DirectorySearch.Search, b: DirectorySearch.Search)
    requires (a.Hits? ==> a.found != []) && (b.Hits? ==> b.found != [])
    requires (a.Failed? ==> a.err != KErrNone) && (b.Failed? ==> b.err != KErrNone)
    requires forall n: nat :: AnswerOf(a, n) == AnswerOf(b, n)
    ensures a == b
  {
    assert AnswerOf(a, 0) == AnswerOf(b, 0);
    if a.Hits? {
      assert AnswerOf(a, |a.found|) == AnswerOf(b, |a.found|);
      assert AnswerOf(a, |b.found|) == AnswerOf(b, |b.found|);
      forall n | 0 <= n < |a.found| ensures a.found[n] == b.found[n] {
        assert AnswerOf(a, n) == AnswerOf(b, n);
      }
    }
  }

  /** Where names and objects can be told apart, the answers to all requests are those of the flattened
      listing if and only if no visited file that can be opened is one whose own search goes wrong. */
  lemma AnswersAreExpectedIff(cfg: Config)
    requires Clean(cfg.volume)
    requires Distinguishable(cfg.volume, Visited(cfg.volume, cfg.path, cfg.recursive), cfg.mimeType)
    ensures (forall n: nat ::
               Answer(cfg.volume, cfg.path, cfg.recursive, cfg.mimeType, n) == AnswerOf(Expected(cfg), n))
      <==> (cfg.path == "" || WellListed(cfg.volume, Visited(cfg.volume, cfg.path, cfg.recursive), cfg.mimeType))
  {
    var found := Find(cfg.volume, cfg.path, cfg.recursive, cfg.mimeType);
    assert found == Expected(cfg) <==>
      cfg.path == "" || WellListed(cfg.volume, Visited(cfg.volume, cfg.path, cfg.recursive), cfg.mimeType) by {
      SearchIsFlatteningIff(cfg.volume, cfg.path, cfg.recursive, cfg.mimeType);
      hide SearchDir, WellListed, Clean, Distinguishable, FlatEntries;
    }
    hide Find, Expected, AnswerOf, WellListed, Visited, Clean, Distinguishable;
    if forall n: nat :: Answer(cfg.volume, cfg.path, cfg.recursive, cfg.mimeType, n) == AnswerOf(Expected(cfg), n) {
      forall n: nat ensures AnswerOf(found, n) == AnswerOf(Expected(cfg), n) {
        assert Answer(cfg.volume, cfg.path, cfg.recursive, cfg.mimeType, n) == AnswerOf(Expected(cfg), n);
      }
      AnswersTell(found, Expected(cfg));
    }
  }
}
