/** The two views of cache_generate(): the entries that the index gets, and the memory that they take. */
module IndexBuild {
  import opened Callbacks
  import opened KernelModule
  import opened Wrappers
  import C = Cache
  import M = IndexMemory

  /** What the walk finds to store: the aliases of each file that can be opened. */
  function Openings(files: seq<string>, images: map<string, Image>): seq<Option<seq<string>>> {
    seq(|files|, i requires 0 <= i < |files| =>
      if C.CanOpen(images, files[i]) then Some(Aliases(images[files[i]])) else None)
  }

  /** All that the files up to this one ask of memory was asked for and granted. */
  ghost predicate FileGranted(openings: seq<Option<seq<string>>>, log: seq<M.Answer>, i: nat)
    requires i < |openings|
  {
    var n := |M.Requests(openings[..i + 1])|;
    n <= |log| && M.Granted(log[..n])
  }

  /** The files that get their memory in this run of requests. */
  ghost predicate IsGranted(files: seq<string>, images: map<string, Image>, log: seq<M.Answer>, path: string) {
    forall i | 0 <= i < |files| && files[i] == path :: FileGranted(Openings(files, images), log, i)
  }

  /** How IndexMemory says that cache_generate() goes. */
  ghost predicate Went(openings: seq<Option<seq<string>>>, log: seq<M.Answer>, result: bool) {
    && M.Asked(log) <= M.Requests(openings) && (log != [] ==> M.Granted(log[..|log| - 1]))
    && (result <==> (forall image | image in openings :: image.Some?) && M.Granted(log))
    && (result ==> M.Asked(log) == M.Requests(openings))
  }

  lemma FrontGranted(log: seq<M.Answer>, n: nat)
    requires n <= |log| && M.Granted(log)
    ensures M.Granted(log[..n])
  {
  }

  /** A run that succeeds grants every file its memory. */
  lemma SuccessGrants(files: seq<string>, images: map<string, Image>, log: seq<M.Answer>, f: string)
    requires Went(Openings(files, images), log, true) && f in files
    ensures C.CanOpen(images, f) && IsGranted(files, images, log, f)
  {
    hide M.Requests, M.Granted, C.CanOpen;
    var openings := Openings(files, images);
    var i :| 0 <= i < |files| && files[i] == f;
    assert openings[i] in openings && |log| == |M.Asked(log)|;
    forall k | 0 <= k < |files| ensures FileGranted(openings, log, k) {
      M.RequestsPrefix(openings, k + 1);
      FrontGranted(log, |M.Requests(openings[..k + 1])|);
    }
  }

  /** A run that fails leaves a file that cannot be opened or does not get its memory. */
  lemma FailureShows(files: seq<string>, images: map<string, Image>, log: seq<M.Answer>) returns (f: string)
    requires Went(Openings(files, images), log, false)
    ensures f in files && !(C.CanOpen(images, f) && IsGranted(files, images, log, f))
  {
    hide M.Requests, M.Granted, M.Asked, C.CanOpen, FileGranted;
    var openings := Openings(files, images);
    if image :| image in openings && image.None? {
      var i :| 0 <= i < |openings| && openings[i] == image;
      f := files[i];
    } else {
      NotGranted(openings, log);
      f := files[|files| - 1];
    }
  }

  /** All files can be opened and get their memory exactly if the run of requests succeeds. */
  lemma AllGrantedIff(files: seq<string>, images: map<string, Image>, log: seq<M.Answer>, result: bool)
    requires Went(Openings(files, images), log, result)
    ensures (forall f | f in files :: C.CanOpen(images, f) && IsGranted(files, images, log, f)) <==> result
  {
    hide Went, IsGranted, C.CanOpen;
    if result {
      forall f | f in files ensures C.CanOpen(images, f) && IsGranted(files, images, log, f) {
        SuccessGrants(files, images, log, f);
      }
    } else {
      var f := FailureShows(files, images, log);
    }
  }

  lemma NotGranted(openings: seq<Option<seq<string>>>, log: seq<M.Answer>)
    requires M.Asked(log) <= M.Requests(openings) && !M.Granted(log)
    ensures openings != [] && !FileGranted(openings, log, |openings| - 1)
  {
    var n := |M.Requests(openings)|;
    assert |log| == |M.Asked(log)| <= n;
    assert openings[..|openings|] == openings;
    assert n <= |log| ==> log[..n] == log;
  }

  /** Storing file after file, as Cache has it, succeeds with the memory granted in a run of requests
      exactly if IndexMemory says that this run succeeds. */
  lemma GenerateAgrees(files: seq<string>, images: map<string, Image>, log: seq<M.Answer>, result: bool,
                       granted: string -> bool,
                       callback: (seq<C.IndexEntry>, string) -> (seq<C.IndexEntry>, bool))
    requires Went(Openings(files, images), log, result)
    requires forall f | f in files :: granted(f) <==> IsGranted(files, images, log, f)
    requires callback == ((es: seq<C.IndexEntry>, path: string) => C.AppendModule(es, path, images, granted))
    ensures FoldUntil(files, [], callback).1 <==> result
    ensures result ==> C.Indexes(FoldUntil(files, [], callback).0, files, images)
  {
    C.AppendingIndexes(files, [], [], images, granted, callback);
    assert [] + files == files;
    AllGrantedIff(files, images, log, result);
  }

  /** After success the entries in memory hold as many strings as the entries of the index have aliases. */
  lemma SameShape(files: seq<string>, images: map<string, Image>, entries: seq<C.IndexEntry>, blocks: seq<M.Entry>)
    requires C.Indexes(entries, files, images) && M.AllHold(blocks, Openings(files, images))
    ensures |entries| == |blocks| && forall i | 0 <= i < |entries| :: |blocks[i].strings| == |entries[i].aliases|
  {
    forall i | 0 <= i < |entries| ensures |blocks[i].strings| == |entries[i].aliases| {
      assert C.Describes(entries[i], files[i], images) && Openings(files, images)[i] == Some(Aliases(images[files[i]]));
    }
  }
}
