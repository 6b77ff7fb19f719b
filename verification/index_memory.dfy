/** The memory of the module index of cache.c: who owns which block, whatever the allocator answers. */
module IndexMemory {
  import opened Wrappers

  /** An address; every allocation gets its own. */
  type Block = int

  const NULL: Block := 0

  /** An entry of the index: its alias array and the strings in it, as many as its count says. Once
      the array has been freed the count is zero and the address is stale. */
  datatype Entry = Entry(aliases: Block, strings: seq<Block>)

  /** What memory is asked for: an array of entries, an array of aliases, or a copy of a string. */
  datatype Request = ForEntries(size: nat) | ForArray(size: nat) | ForString(size: nat)

  /** A request and the block that was granted, or NULL. */
  datatype Answer = Answer(request: Request, block: Block)

  class Memory {
    /** The blocks that have not been freed, with their sizes in elements. */
    var live: map<Block, nat>
    var next: Block
    ghost var log: seq<Answer>

    ghost predicate Valid()
      reads this
    {
      next > NULL && NULL !in live && forall b | b in live :: b < next
    }

    constructor ()
      ensures Valid() && live == map[]
    {
      live := map[];
      next := 1;
      log := [];
    }

    /** malloc() and what is built on it; NULL if there is no memory. */
    method Allocate(request: Request) returns (b: Block)
      requires Valid()
      modifies this
      ensures Valid()
      ensures b == NULL ==> live == old(live)
      ensures b != NULL ==> b !in old(live) && live == old(live)[b := request.size]
      ensures log == old(log) + [Answer(request, b)]
    {
      b := NULL;
      var granted := *;
      if granted {
        b := next;
        next := next + 1;
        live := live[b := request.size];
      }
      log := log + [Answer(request, b)];
    }

    /** realloc(): the block may stay or move; without memory it stays as it is. */
    method Reallocate(p: Block, request: Request) returns (b: Block)
      requires Valid() && (p == NULL || p in live)
      modifies this
      ensures Valid()
      ensures b == NULL ==> live == old(live)
      ensures b != NULL ==> (b == p || b !in old(live)) && live == (old(live) - {p})[b := request.size]
      ensures log == old(log) + [Answer(request, b)]
    {
      var inPlace := *;
      if inPlace && p != NULL {
        live := (live - {p})[p := request.size];
        log := log + [Answer(request, p)];
        return p;
      }
      b := NULL;
      var granted := *;
      if granted {
        b := next;
        next := next + 1;
        live := (live - {p})[b := request.size];
      }
      log := log + [Answer(request, b)];
    }

    /** free(): nothing may be freed that is not live. */
    method Free(p: Block)
      requires Valid() && (p == NULL || p in live)
      modifies this`live
      ensures Valid() && live == old(live) - {p}
    {
      live := live - {p};
    }
  }

  // ---------------------------------------------------------------- what memory is asked for

  function Asked(log: seq<Answer>): seq<Request> {
    seq(|log|, i requires 0 <= i < |log| => log[i].request)
  }

  ghost predicate Granted(log: seq<Answer>) {
    forall a | a in log :: a.block != NULL
  }

  /** The requests for the aliases of an image: the array one longer each time, and a copy of the alias. */
  function AliasRequests(aliases: seq<string>): seq<Request> {
    if aliases == [] then []
    else
      var n := |aliases|;
      AliasRequests(aliases[..n - 1]) + [ForArray(n), ForString(|aliases[n - 1]| + 1)]
  }

  /** The requests for all files, as far as they can be opened. */
  function Requests(files: seq<Option<seq<string>>>): seq<Request> {
    if files == [] then []
    else
      var n := |files|;
      Requests(files[..n - 1]) + if files[n - 1].Some? then FileRequests(n, files[n - 1].value) else []
  }

  function FileRequests(n: nat, aliases: seq<string>): seq<Request> {
    [ForEntries(n)] + AliasRequests(aliases)
  }

  /** The blocks granted for the last n strings. */
  ghost function StringsBefore(log: seq<Answer>, n: nat): set<Block> {
    if n == 0 || |log| < 2 then {} else {log[|log| - 1].block} + StringsBefore(log[..|log| - 2], n - 1)
  }

  ghost function AsSet(strings: seq<Block>): set<Block> {
    set b | b in strings
  }

  /** The last request was for a longer array of aliases, and was refused. */
  ghost predicate EndsAtArray(log: seq<Answer>) {
    log != [] && var last := log[|log| - 1]; last.block == NULL && last.request.ForArray? && last.request.size > 0
  }

  /** What is lost when an array of aliases cannot be enlarged: the strings it held. */
  ghost function Lost(log: seq<Answer>): set<Block> {
    if EndsAtArray(log) then StringsBefore(log[..|log| - 1], log[|log| - 1].request.size - 1) else {}
  }

  /** How a series of requests went: all were granted, or the last one made was refused. */
  ghost predicate Outcome(log: seq<Answer>, requests: seq<Request>, result: bool, lost: set<Block>) {
    && (log != [] ==> Granted(log[..|log| - 1]))
    && Asked(log) <= requests
    && (result <==> Granted(log)) && (result ==> Asked(log) == requests)
    && lost == Lost(log) && (EndsAtArray(log) ==> 2 * log[|log| - 1].request.size <= |log| + 1)
  }

  lemma {:induction false} StringsBeforeSame(done: seq<Answer>, log: seq<Answer>, n: nat)
    requires 2 * n <= |log|
    ensures StringsBefore(done + log, n) == StringsBefore(log, n)
  {
    if n > 0 {
      assert (done + log)[..|done + log| - 2] == done + log[..|log| - 2];
      StringsBeforeSame(done, log[..|log| - 2], n - 1);
    }
  }

  lemma LostSame(done: seq<Answer>, log: seq<Answer>)
    requires Granted(done) && (EndsAtArray(log) ==> 2 * log[|log| - 1].request.size <= |log| + 1)
    ensures Lost(done + log) == Lost(log) && (EndsAtArray(done + log) <==> EndsAtArray(log))
  {
    if log == [] {
      assert done + log == done;
    } else if EndsAtArray(log) {
      assert (done + log)[..|done + log| - 1] == done + log[..|log| - 1];
      StringsBeforeSame(done, log[..|log| - 1], log[|log| - 1].request.size - 1);
    }
  }

  /** A series of requests after one that went well. */
  lemma OutcomeAfter(done: seq<Answer>, before: seq<Request>, log: seq<Answer>, requests: seq<Request>, result: bool,
                     lost: set<Block>)
    requires Granted(done) && Asked(done) == before && Outcome(log, requests, result, lost)
    ensures Outcome(done + log, before + requests, result, lost)
  {
    LostSame(done, log);
    assert Asked(done + log) == Asked(done) + Asked(log);
    if log == [] {
      assert done + log == done;
    } else {
      assert (done + log)[..|done + log| - 1] == done + log[..|log| - 1];
    }
  }

  /** These strings are copies of the aliases, made one after the other. */
  ghost predicate Copied(log: seq<Answer>, aliases: seq<string>, strings: seq<Block>) {
    var n := |strings|;
    && |aliases| == n
    && if n == 0 then log == []
       else
         && |log| >= 2 && Copied(log[..|log| - 2], aliases[..n - 1], strings[..n - 1])
         && log[|log| - 2].request == ForArray(n) && log[|log| - 2].block != NULL
         && log[|log| - 1] == Answer(ForString(|aliases[n - 1]| + 1), strings[n - 1]) && strings[n - 1] != NULL
  }

  lemma CopiedOneMore(log: seq<Answer>, aliases: seq<string>, strings: seq<Block>, alias: string, grown: Block,
                      copy: Block)
    requires Copied(log, aliases, strings) && grown != NULL && copy != NULL
    ensures Copied(log + [Answer(ForArray(|strings| + 1), grown)] + [Answer(ForString(|alias| + 1), copy)],
                   aliases + [alias], strings + [copy])
  {
    var log' := log + [Answer(ForArray(|strings| + 1), grown)] + [Answer(ForString(|alias| + 1), copy)];
    CopiedFolds(log', aliases + [alias], strings + [copy], log, aliases, strings);
  }

  /** Copied, folded up from its parts. */
  lemma CopiedFolds(log: seq<Answer>, aliases: seq<string>, strings: seq<Block>, front: seq<Answer>,
                    others: seq<string>, before: seq<Block>)
    requires Copied(front, others, before) && |aliases| == |strings| == |before| + 1 && |log| == |front| + 2
    requires log[..|front|] == front && aliases[..|before|] == others && strings[..|before|] == before
    requires log[|front|].request == ForArray(|strings|) && log[|front|].block != NULL
    requires log[|front| + 1] == Answer(ForString(|aliases[|before|]| + 1), strings[|before|])
             && strings[|before|] != NULL
    ensures Copied(log, aliases, strings)
  {
  }

  lemma {:induction false} CopiedAsks(log: seq<Answer>, aliases: seq<string>, strings: seq<Block>)
    requires Copied(log, aliases, strings)
    ensures Granted(log) && Asked(log) == AliasRequests(aliases) && |log| == 2 * |strings|
    decreases |strings|
  {
    var n := |strings|;
    if n > 0 {
      var front, a, b := log[..|log| - 2], log[|log| - 2], log[|log| - 1];
      CopiedAsks(front, aliases[..n - 1], strings[..n - 1]);
      assert log == front + [a, b];
      assert Asked(log) == Asked(front) + [a.request, b.request];
    }
  }

  lemma {:induction false} CopiedStrings(log: seq<Answer>, aliases: seq<string>, strings: seq<Block>)
    requires Copied(log, aliases, strings)
    ensures NULL !in strings && StringsBefore(log, |strings|) == AsSet(strings)
    decreases |strings|
  {
    var n := |strings|;
    if n > 0 {
      CopiedStrings(log[..|log| - 2], aliases[..n - 1], strings[..n - 1]);
      assert strings == strings[..n - 1] + [strings[n - 1]];
    }
  }

  lemma {:induction false} AliasRequestsPrefix(aliases: seq<string>, k: nat)
    requires k <= |aliases|
    ensures AliasRequests(aliases[..k]) <= AliasRequests(aliases)
    decreases |aliases| - k
  {
    if k == |aliases| {
      assert aliases[..k] == aliases;
    } else {
      assert aliases[..k + 1][..k] == aliases[..k];
      AliasRequestsPrefix(aliases, k + 1);
    }
  }

  lemma {:induction false} RequestsPrefix(files: seq<Option<seq<string>>>, k: nat)
    requires k <= |files|
    ensures Requests(files[..k]) <= Requests(files)
    decreases |files| - k
  {
    if k == |files| {
      assert files[..k] == files;
    } else {
      assert files[..k + 1][..k] == files[..k];
      RequestsPrefix(files, k + 1);
    }
  }

  lemma NextRequests(aliases: seq<string>, n: nat)
    requires n < |aliases|
    ensures AliasRequests(aliases[..n]) + [ForArray(n + 1), ForString(|aliases[n]| + 1)] <= AliasRequests(aliases)
  {
    assert aliases[..n + 1][..n] == aliases[..n];
    AliasRequestsPrefix(aliases, n + 1);
  }

  lemma OneMore(log: seq<Answer>, a: Answer)
    requires Granted(log)
    ensures Asked(log + [a]) == Asked(log) + [a.request]
    ensures (log + [a])[..|log|] == log && (Granted(log + [a]) <==> a.block != NULL)
  {
    assert (log + [a])[..|log|] == log && (log + [a])[|log|] in log + [a];
  }

  /** The two answers to the requests for an alias, after these. */
  lemma TwoMore(log: seq<Answer>, a: Answer, b: Answer)
    requires Granted(log) && a.block != NULL
    ensures Asked(log + [a] + [b]) == Asked(log) + [a.request, b.request]
    ensures Granted((log + [a] + [b])[..|log| + 1]) && (Granted(log + [a] + [b]) <==> b.block != NULL)
  {
    var log' := log + [a] + [b];
    assert log'[..|log| + 1] == log + [a] && log'[|log| + 1] in log';
  }

  lemma AllCopied(log: seq<Answer>, aliases: seq<string>, strings: seq<Block>)
    requires Copied(log, aliases, strings)
    ensures Outcome(log, AliasRequests(aliases), true, {})
  {
    CopiedAsks(log, aliases, strings);
    assert log != [] ==> log[|log| - 1] in log;
  }

  lemma ArrayRefused(log: seq<Answer>, aliases: seq<string>, strings: seq<Block>)
    requires |strings| < |aliases| && Copied(log, aliases[..|strings|], strings)
    ensures Outcome(log + [Answer(ForArray(|strings| + 1), NULL)], AliasRequests(aliases), false, AsSet(strings))
  {
    hide Copied, AliasRequests, Asked, Granted, StringsBefore;
    var n := |strings|;
    CopiedAsks(log, aliases[..n], strings);
    CopiedStrings(log, aliases[..n], strings);
    NextRequests(aliases, n);
    OneMore(log, Answer(ForArray(n + 1), NULL));
  }

  lemma StringRefused(log: seq<Answer>, aliases: seq<string>, strings: seq<Block>, grown: Block)
    requires |strings| < |aliases| && Copied(log, aliases[..|strings|], strings) && grown != NULL
    ensures Outcome(log + [Answer(ForArray(|strings| + 1), grown)]
                        + [Answer(ForString(|aliases[|strings|]| + 1), NULL)],
                    AliasRequests(aliases), false, {})
  {
    hide StringsBefore, Copied, AliasRequests, Asked, Granted;
    var n := |strings|;
    var a, b := Answer(ForArray(n + 1), grown), Answer(ForString(|aliases[n]| + 1), NULL);
    CopiedAsks(log, aliases[..n], strings);
    NextRequests(aliases, n);
    TwoMore(log, a, b);
  }

  /** What has been asked for, up to the alias number i. */
  ghost function AliasLog(log: seq<Answer>, i: nat, alias: string, grown: Block, copy: Block): seq<Answer> {
    log + [Answer(ForArray(i + 1), grown)] + if grown == NULL then [] else [Answer(ForString(|alias| + 1), copy)]
  }

  lemma AliasLogAppends(base: seq<Answer>, log: seq<Answer>, i: nat, alias: string, grown: Block, copy: Block)
    ensures base + AliasLog(log, i, alias, grown, copy) == AliasLog(base + log, i, alias, grown, copy)
  {
  }

  /** How it went up to the next alias. */
  lemma AliasDone(log: seq<Answer>, aliases: seq<string>, strings: seq<Block>, grown: Block, copy: Block)
    requires |strings| < |aliases| && Copied(log, aliases[..|strings|], strings)
    ensures var i := |strings|; var log' := AliasLog(log, i, aliases[i], grown, copy);
            if grown == NULL then Outcome(log', AliasRequests(aliases), false, AsSet(strings))
            else if copy == NULL then Outcome(log', AliasRequests(aliases), false, {})
            else Copied(log', aliases[..i + 1], strings + [copy])
  {
    hide Outcome, Copied, AsSet, AliasRequests;
    var i := |strings|;
    if grown == NULL {
      ArrayRefused(log, aliases, strings);
      assert AliasLog(log, i, aliases[i], grown, copy) == log + [Answer(ForArray(i + 1), NULL)];
    } else if copy == NULL {
      StringRefused(log, aliases, strings, grown);
    } else {
      CopiedOneMore(log, aliases[..i], strings, aliases[i], grown, copy);
      assert aliases[..i + 1] == aliases[..i] + [aliases[i]];
    }
  }

  lemma CopiedLength(log: seq<Answer>, aliases: seq<string>, strings: seq<Block>)
    requires Copied(log, aliases, strings)
    ensures |aliases| == |strings|
  {
  }

  /** Something is lost exactly if the array that could not be enlarged held a string already. */
  lemma LostIff(log: seq<Answer>, requests: seq<Request>, result: bool, lost: set<Block>)
    requires Outcome(log, requests, result, lost)
    ensures lost != {} <==> EndsAtArray(log) && log[|log| - 1].request.size > 1
  {
    if EndsAtArray(log) && log[|log| - 1].request.size > 1 {
      var front := log[..|log| - 1];
      assert front[|front| - 1].block in StringsBefore(front, log[|log| - 1].request.size - 1);
    }
  }

  /** A run of requests that leaks: the second alias of a file finds no room in the array. */
  lemma LeakingLog(table: Block, grown: Block, copy: Block, a: string, b: string)
    requires table != NULL && grown != NULL && copy != NULL
    ensures var log := [Answer(ForEntries(1), table), Answer(ForArray(1), grown), Answer(ForString(|a| + 1), copy),
                        Answer(ForArray(2), NULL)];
            Outcome(log, Requests([Some([a, b])]), false, {copy})
  {
    var first, aliases := [Answer(ForArray(1), grown)] + [Answer(ForString(|a| + 1), copy)], [a, b];
    CopiedOneMore([], [], [], a, grown, copy);
    assert [] + [Answer(ForArray(1), grown)] == [Answer(ForArray(1), grown)];
    assert [] + [a] == [a] && [] + [copy] == [copy];
    assert aliases[..1] == [a];
    ArrayRefused(first, aliases, [copy]);
    OutcomeAfter([Answer(ForEntries(1), table)], [ForEntries(1)], first + [Answer(ForArray(2), NULL)],
                 AliasRequests(aliases), false, {copy});
    var files := [Some(aliases)];
    assert files[..0] == [] && Requests(files) == [] + FileRequests(1, aliases);
    assert [Answer(ForEntries(1), table)] + (first + [Answer(ForArray(2), NULL)])
        == [Answer(ForEntries(1), table), Answer(ForArray(1), grown), Answer(ForString(|a| + 1), copy),
            Answer(ForArray(2), NULL)];
  }

  // ---------------------------------------------------------------- ownership

  ghost function One(here: bool): int {
    if here then 1 else 0
  }

  /** How often a block is among the strings. */
  ghost function InStrings(strings: seq<Block>, b: Block): int {
    if strings == [] then 0
    else InStrings(strings[..|strings| - 1], b) + One(strings[|strings| - 1] == b)
  }

  /** How often an entry owns a block: as its array or as a string in it. */
  ghost function InEntry(e: Entry, b: Block): int {
    if e.strings == [] then 0 else InStrings(e.strings, b) + One(e.aliases == b)
  }

  ghost function InEntries(entries: seq<Entry>, b: Block): int {
    if entries == [] then 0
    else InEntries(entries[..|entries| - 1], b) + InEntry(entries[|entries| - 1], b)
  }

  /** How often the index owns a block. */
  ghost function Owned(entries: seq<Entry>, block: Block): Block -> int {
    b => InEntries(entries, b) + One(block == b)
  }

  /** The live blocks are those owned, each owned once, and the leaked ones. */
  ghost predicate Accounts(live: map<Block, nat>, leaked: set<Block>, owned: Block -> int) {
    && NULL !in live
    && leaked <= live.Keys
    && forall b | b != NULL :: owned(b) == One(b in live && b !in leaked)
  }

  lemma {:induction false} StringsUpTo(strings: seq<Block>, k: nat, b: Block)
    requires k < |strings|
    ensures InStrings(strings[..k + 1], b) == InStrings(strings[..k], b) + One(strings[k] == b)
    ensures 0 <= InStrings(strings[..k], b) && InStrings(strings[..k + 1], b) <= InStrings(strings, b)
  {
    assert strings[..k + 1][..k] == strings[..k];
    StringsPrefix(strings, k + 1, b);
    StringsPrefix(strings[..k + 1], 0, b);
    StringsPrefix(strings[..k], 0, b);
  }

  lemma {:induction false} StringsPrefix(strings: seq<Block>, k: nat, b: Block)
    requires k <= |strings|
    ensures InStrings(strings[..k], b) <= InStrings(strings, b)
    ensures 0 <= InStrings(strings, b)
  {
    if k == |strings| {
      assert strings[..k] == strings;
      if k > 0 {
        StringsPrefix(strings[..k - 1], 0, b);
      }
    } else {
      assert strings[..|strings| - 1][..k] == strings[..k];
      StringsPrefix(strings[..|strings| - 1], k, b);
    }
  }

  lemma {:induction false} EntriesUpTo(entries: seq<Entry>, k: nat, b: Block)
    requires k < |entries|
    ensures InEntries(entries[..k + 1], b) == InEntries(entries[..k], b) + InEntry(entries[k], b)
    ensures 0 <= InEntries(entries[..k], b) && InEntries(entries[..k + 1], b) <= InEntries(entries, b)
    ensures 0 <= InEntry(entries[k], b)
  {
    assert entries[..k + 1][..k] == entries[..k];
    EntriesPrefix(entries, k + 1, b);
    EntriesPrefix(entries[..k], 0, b);
    StringsPrefix(entries[k].strings, 0, b);
  }

  lemma {:induction false} EntriesPrefix(entries: seq<Entry>, k: nat, b: Block)
    requires k <= |entries|
    ensures InEntries(entries[..k], b) <= InEntries(entries, b)
    ensures 0 <= InEntries(entries, b)
  {
    if entries != [] {
      StringsPrefix(entries[|entries| - 1].strings, 0, b);
    }
    if k == |entries| {
      assert entries[..k] == entries;
      if k > 0 {
        EntriesPrefix(entries[..k - 1], 0, b);
      }
    } else {
      assert entries[..|entries| - 1][..k] == entries[..k];
      EntriesPrefix(entries[..|entries| - 1], k, b);
    }
  }

  lemma EntriesAppend(entries: seq<Entry>, e: Entry, b: Block)
    ensures InEntries(entries + [e], b) == InEntries(entries, b) + InEntry(e, b)
  {
    assert (entries + [e])[..|entries|] == entries;
  }

  lemma StringsAppend(strings: seq<Block>, s: Block, b: Block)
    ensures InStrings(strings + [s], b) == InStrings(strings, b) + One(s == b)
  {
    assert (strings + [s])[..|strings|] == strings;
  }

  lemma {:induction false} StringsHave(strings: seq<Block>, b: Block)
    ensures InStrings(strings, b) >= One(b in strings)
  {
    if strings != [] {
      StringsHave(strings[..|strings| - 1], b);
    }
  }

  // ---------------------------------------------------------------- the representation

  /** An entry with strings has an array of just that length. */
  ghost predicate Sized(live: map<Block, nat>, e: Entry) {
    e.strings != [] ==> e.aliases in live && live[e.aliases] == |e.strings|
  }

  ghost predicate Represents(live: map<Block, nat>, leaked: set<Block>, block: Block, entries: seq<Entry>) {
    && Accounts(live, leaked, Owned(entries, block))
    && (block == NULL <==> entries == [])
    && (block != NULL ==> block in live && live[block] == |entries|)
    && forall k | 0 <= k < |entries| :: Sized(live, entries[k])
  }

  /** The strings of an entry, as a set of blocks. */
  ghost function StringsOf(e: Entry): set<Block> {
    set b | b in e.strings && b != NULL
  }

  lemma StringsAsSet(log: seq<Answer>, aliases: seq<string>, e: Entry)
    requires Copied(log, aliases, e.strings)
    ensures StringsOf(e) == AsSet(e.strings)
  {
    CopiedStrings(log, aliases, e.strings);
  }

  /** Whatever happens to other blocks, each entry keeps its array. */
  lemma StaySized(live: map<Block, nat>, leaked: set<Block>, owned: Block -> int, entries: seq<Entry>,
                  live': map<Block, nat>)
    requires Accounts(live, leaked, owned)
    requires forall k | 0 <= k < |entries| :: Sized(live, entries[k])
    requires forall b | b in live && InEntries(entries, b) > 0 :: b in live' && live'[b] == live[b]
    ensures forall k | 0 <= k < |entries| :: Sized(live', entries[k])
  {
    forall k | 0 <= k < |entries| ensures Sized(live', entries[k]) {
      var e := entries[k];
      assert Sized(live, e);
      if e.strings != [] {
        EntriesUpTo(entries, k, e.aliases);
        StringsPrefix(e.strings, 0, e.aliases);
      }
    }
  }

  // ---------------------------------------------------------------- the index

  class Index {
    var block: Block
    var entries: seq<Entry>
    ghost var leaked: set<Block>

    ghost predicate Valid(memory: Memory)
      reads this, memory
    {
      memory.Valid() && Represents(memory.live, leaked, block, entries)
    }

    constructor (memory: Memory)
      requires memory.Valid() && memory.live == map[]
      ensures Valid(memory) && block == NULL && leaked == {}
    {
      block, entries, leaked := NULL, [], {};
    }

    /** _append_alias(), on the last entry. If the array cannot be enlarged the entry loses its strings. */
    method AppendAlias(memory: Memory, alias: string) returns (result: bool, ghost grown: Block, ghost copy: Block)
      requires Valid(memory) && entries != []
      requires var e := entries[|entries| - 1]; e.strings == [] ==> e.aliases == NULL
      modifies this, memory
      ensures Valid(memory) && block == old(block) && |entries| == |old(entries)|
      ensures entries[..|entries| - 1] == old(entries[..|entries| - 1])
      ensures result <==> grown != NULL && copy != NULL
      ensures var e := old(entries[|entries| - 1]);
              && memory.log == old(memory.log) + [Answer(ForArray(|e.strings| + 1), grown)]
                               + (if grown == NULL then [] else [Answer(ForString(|alias| + 1), copy)])
              && entries[|entries| - 1]
                 == (if grown == NULL then Entry(e.aliases, []) else Entry(grown, e.strings + [copy]))
              && leaked == old(leaked) + if grown == NULL then StringsOf(e) else {}
    {
      hide Represents;
      var last := |entries| - 1;
      var e := entries[last];
      ghost var others, before := entries[..last], memory.live;
      assert entries == others + [e];
      LastIsLive(memory.live, leaked, block, others, e);
      var array' := memory.Reallocate(e.aliases, ForArray(1 + |e.strings|));
      grown, copy := array', NULL;
      if array' == NULL {
        LosesArray(before, leaked, block, others, e);
        memory.Free(e.aliases);
        entries := entries[last := Entry(e.aliases, [])];
        leaked := leaked + StringsOf(e);
        assert entries == others + [Entry(e.aliases, [])];
        return false, grown, copy;
      }
      ghost var between := memory.live;
      var string' := memory.Allocate(ForString(|alias| + 1));
      copy := string';
      entries := entries[last := Entry(array', e.strings + [string'])];
      assert entries == others + [Entry(grown, e.strings + [copy])];
      GainsString(before, leaked, block, others, e, grown, between, copy, memory.live, |alias| + 1);
      result := string' != NULL;
    }

    /** The calls of the callback for the aliases of an image. log is what they ask of memory. */
    method AppendAliases(memory: Memory, aliases: seq<string>)
      returns (result: bool, ghost log: seq<Answer>, ghost lost: set<Block>)
      requires Valid(memory) && entries != [] && entries[|entries| - 1] == Entry(NULL, [])
      modifies this, memory
      ensures Valid(memory) && |entries| == |old(entries)| && entries[..|entries| - 1] == old(entries[..|entries| - 1])
      ensures memory.log == old(memory.log) + log
      ensures Outcome(log, AliasRequests(aliases), result, lost) && leaked == old(leaked) + lost
      ensures result ==> Copied(log, aliases, entries[|entries| - 1].strings)
    {
      hide Represents, Outcome;
      log, lost := [], {};
      for i := 0 to |aliases|
        invariant lost == {}
        invariant Valid(memory) && leaked == old(leaked) && memory.log == old(memory.log) + log
        invariant |entries| == |old(entries)| && entries[..|entries| - 1] == old(entries[..|entries| - 1])
        invariant Copied(log, aliases[..i], entries[|entries| - 1].strings)
        invariant i == 0 ==> entries[|entries| - 1].aliases == NULL
      {
        result, log, lost := AppendNext(memory, aliases, i, old(memory.log), log);
        if !result { return; }
      }
      assert aliases[..|aliases|] == aliases;
      AllCopied(log, aliases, entries[|entries| - 1].strings);
      result := true;
    }

    /** The call of the callback for one alias. */
    method AppendNext(memory: Memory, aliases: seq<string>, i: nat, ghost base: seq<Answer>, ghost before: seq<Answer>)
      returns (result: bool, ghost log: seq<Answer>, ghost lost: set<Block>)
      requires i < |aliases| && Valid(memory) && entries != [] && memory.log == base + before
      requires Copied(before, aliases[..i], entries[|entries| - 1].strings)
      requires i == 0 ==> entries[|entries| - 1].aliases == NULL
      modifies this, memory
      ensures Valid(memory) && |entries| == |old(entries)| && entries[..|entries| - 1] == old(entries[..|entries| - 1])
      ensures memory.log == base + log && leaked == old(leaked) + lost
      ensures result ==> lost == {} && Copied(log, aliases[..i + 1], entries[|entries| - 1].strings)
      ensures !result ==> Outcome(log, AliasRequests(aliases), false, lost)
    {
      hide Represents, Outcome, Copied, AsSet, AliasRequests;
      ghost var strings := entries[|entries| - 1].strings;
      ghost var grown, copy;
      CopiedLength(before, aliases[..i], strings);
      StringsAsSet(before, aliases[..i], entries[|entries| - 1]);
      result, grown, copy := AppendAlias(memory, aliases[i]);
      log := AliasLog(before, i, aliases[i], grown, copy);
      lost := if grown == NULL then AsSet(strings) else {};
      AliasLogAppends(base, before, i, aliases[i], grown, copy);
      AliasDone(before, aliases, strings, grown, copy);
    }

    /** _append_module(), for the aliases of an image if it can be opened. log is what it asks of memory. */
    method AppendModule(memory: Memory, image: Option<seq<string>>)
      returns (result: bool, ghost log: seq<Answer>, ghost lost: set<Block>)
      requires Valid(memory)
      modifies this, memory
      ensures Valid(memory)
      ensures |old(entries)| <= |entries| <= |old(entries)| + 1 && entries[..|old(entries)|] == old(entries)
      ensures memory.log == old(memory.log) + log && leaked == old(leaked) + lost
      ensures image == None ==>
                !result && log == [] && lost == {} && entries == old(entries) && memory.live == old(memory.live)
      ensures image.Some? ==> Outcome(log, FileRequests(|old(entries)| + 1, image.value), result, lost)
      ensures result ==> |entries| == |old(entries)| + 1 && Holds(entries[|old(entries)|], image.value)
    {
      hide Represents, AliasRequests, Outcome, Copied, Holds;
      result, log, lost := false, [], {};
      if image == None { return; }
      BlockIsLive(memory.live, leaked, block, entries);
      var enlarged := memory.Reallocate(block, ForEntries(1 + |entries|));
      ghost var first := [Answer(ForEntries(1 + |entries|), enlarged)];
      if enlarged == NULL {
        EntriesRefused(1 + |entries|, image.value);
        return false, first, {};
      }
      GainsEntry(old(memory.live), leaked, block, entries, enlarged);
      block := enlarged;
      entries := entries + [Entry(NULL, [])];
      result, log, lost := AppendAliases(memory, image.value);
      OutcomeAfter(first, [ForEntries(|entries|)], log, AliasRequests(image.value), result, lost);
      if result {
        CopiedHolds(log, image.value, entries[|entries| - 1]);
      }
      log := first + log;
    }

    /** cache_free(): every block is freed once, and nothing but what was leaked before stays. */
    method Release(memory: Memory)
      requires Valid(memory) && block != NULL
      modifies memory`live
      ensures memory.Valid() && memory.live.Keys == leaked
    {
      var i := 0;
      NothingReleased(memory.live, leaked, entries, block);
      while |entries| > i
        invariant i <= |entries| && memory.Valid() && Accounts(memory.live, leaked, Remaining(entries, block, i))
      {
        RemainingNext(memory.live, leaked, entries, block, i);
        if |entries[i].strings| != 0 {
          ReleaseEntry(memory, entries[i], Remaining(entries, block, i), Remaining(entries, block, i + 1));
        }
        i := i + 1;
      }
      OnlyBlockRemains(memory.live, leaked, entries, block);
      memory.Free(block);
    }

    /** The inner loop: the strings of an entry, then its array. */
    method ReleaseEntry(memory: Memory, e: Entry, ghost owned: Block -> int, ghost rest: Block -> int)
      requires memory.Valid() && Accounts(memory.live, leaked, owned) && e.strings != []
      requires forall b :: rest(b) >= 0 && owned(b) == rest(b) + InEntry(e, b)
      modifies memory`live
      ensures memory.Valid() && Accounts(memory.live, leaked, rest)
    {
      for j := 0 to |e.strings|
        invariant memory.Valid() && Accounts(memory.live, leaked, InHand(rest, e, j))
      {
        StringLeaves(memory.live, leaked, rest, e, j);
        memory.Free(e.strings[j]);
      }
      ArrayLeaves(memory.live, leaked, rest, e);
      memory.Free(e.aliases);
    }

    /** cache_generate(), once the files are known: the first failure releases all. log is what it asks
        of memory. Blocks leak exactly if an array of aliases that held a string already could not be
        enlarged, and then those of its strings. */
    method Generate(memory: Memory, files: seq<Option<seq<string>>>) returns (result: bool, ghost log: seq<Answer>)
      requires Valid(memory) && entries == [] && leaked == {}
      modifies this, memory
      ensures memory.log == old(memory.log) + log && Asked(log) <= Requests(files)
      ensures log != [] ==> Granted(log[..|log| - 1])
      ensures result <==> (forall image | image in files :: image.Some?) && Granted(log)
      ensures result ==> Asked(log) == Requests(files) && Valid(memory) && AllHold(entries, files)
      ensures leaked == Lost(log)
      ensures leaked != {} <==> EndsAtArray(log) && log[|log| - 1].request.size > 1
      ensures !result ==> memory.live.Keys == leaked
    {
      hide Represents, Requests, Lost, EndsAtArray, Asked, Granted, AllHold, Fails;
      log := [];
      NothingAsked();
      assert files[..0] == [];
      for i := 0 to |files|
        invariant Valid(memory) && leaked == {} && memory.log == old(memory.log) + log
        invariant Granted(log) && Asked(log) == Requests(files[..i]) && AllHold(entries, files[..i])
      {
        result, log := AppendFile(memory, files, i, old(memory.log), log);
        if !result {
          FailsTells(log, files, leaked);
          return;
        }
      }
      assert files[..|files|] == files;
      AllDone(log, files, entries);
      result := true;
    }

    /** One file of the walk; if it fails everything is released. */
    method AppendFile(memory: Memory, files: seq<Option<seq<string>>>, i: nat, ghost base: seq<Answer>,
                      ghost before: seq<Answer>)
      returns (result: bool, ghost log: seq<Answer>)
      requires i < |files| && Valid(memory) && leaked == {} && memory.log == base + before
      requires Granted(before) && Asked(before) == Requests(files[..i]) && AllHold(entries, files[..i])
      modifies this, memory
      ensures memory.log == base + log
      ensures result ==> Valid(memory) && leaked == {} && Granted(log)
                         && Asked(log) == Requests(files[..i + 1]) && AllHold(entries, files[..i + 1])
      ensures !result ==> Fails(log, files, leaked) && memory.live.Keys == leaked
    {
      hide Represents, Requests, FileRequests, Asked, Granted, Outcome, Fails, Holds;
      ghost var entries0, news, lost := entries, [], {};
      result, news, lost := AppendModule(memory, files[i]);
      FileDone(before, news, files, i, result, lost);
      log := before + news;
      assert memory.log == base + log && leaked == lost;
      if result {
        AllHoldMore(entries0, entries, files, i);
      } else if block != NULL {
        Release(memory);
      } else {
        NothingOwned(memory.live, leaked, entries);
      }
    }
  }

  /** How the index may fail: a file cannot be opened, or the last request is refused. */
  ghost predicate Fails(log: seq<Answer>, files: seq<Option<seq<string>>>, leaked: set<Block>) {
    && Asked(log) <= Requests(files) && (log != [] ==> Granted(log[..|log| - 1]))
    && (None in files || !Granted(log))
    && leaked == Lost(log) && (leaked != {} <==> EndsAtArray(log) && log[|log| - 1].request.size > 1)
  }

  lemma FailsTells(log: seq<Answer>, files: seq<Option<seq<string>>>, leaked: set<Block>)
    requires Fails(log, files, leaked)
    ensures Asked(log) <= Requests(files) && (log != [] ==> Granted(log[..|log| - 1]))
    ensures (exists image :: image in files && image.None?) || !Granted(log)
    ensures leaked == Lost(log) && (leaked != {} <==> EndsAtArray(log) && log[|log| - 1].request.size > 1)
  {
  }

  lemma AllDone(log: seq<Answer>, files: seq<Option<seq<string>>>, entries: seq<Entry>)
    requires Granted(log) && AllHold(entries, files)
    ensures log != [] ==> Granted(log[..|log| - 1])
    ensures Lost(log) == {} && !EndsAtArray(log) && forall image | image in files :: image.Some?
  {
    LostIffNone(log);
    forall image | image in files ensures image.Some? {
      var i :| 0 <= i < |files| && files[i] == image;
      assert Holds(entries[i], files[i].value);
    }
  }

  lemma EntriesRefused(n: nat, aliases: seq<string>)
    ensures Outcome([Answer(ForEntries(n), NULL)], FileRequests(n, aliases), false, {})
  {
    var log := [Answer(ForEntries(n), NULL)];
    assert log[0] in log && log[..0] == [];
  }

  /** All files up to this one, and how this one went. */
  lemma FileDone(log: seq<Answer>, news: seq<Answer>, files: seq<Option<seq<string>>>, i: nat, result: bool,
                 lost: set<Block>)
    requires i < |files| && Granted(log) && Asked(log) == Requests(files[..i])
    requires files[i] == None ==> !result && news == [] && lost == {}
    requires files[i].Some? ==> Outcome(news, FileRequests(i + 1, files[i].value), result, lost)
    ensures result ==> files[i].Some? && Granted(log + news) && lost == {}
    ensures result ==> Asked(log + news) == Requests(files[..i + 1])
    ensures !result ==> Fails(log + news, files, lost)
  {
    assert files[..i + 1][..i] == files[..i];
    RequestsPrefix(files, i + 1);
    if files[i].Some? {
      OutcomeAfter(log, Requests(files[..i]), news, FileRequests(i + 1, files[i].value), result, lost);
      LostIff(log + news, Requests(files[..i + 1]), result, lost);
    } else {
      assert log + news == log && files[i] in files;
      LostIffNone(log);
    }
  }

  lemma LostIffNone(log: seq<Answer>)
    requires Granted(log)
    ensures Lost(log) == {} && !EndsAtArray(log)
  {
    assert log != [] ==> log[|log| - 1] in log;
  }

  /** The entry holds a copy of each alias. */
  ghost predicate Holds(e: Entry, aliases: seq<string>) {
    |e.strings| == |aliases| && NULL !in e.strings
  }

  lemma CopiedHolds(log: seq<Answer>, aliases: seq<string>, e: Entry)
    requires Copied(log, aliases, e.strings)
    ensures Holds(e, aliases)
  {
    CopiedLength(log, aliases, e.strings);
    CopiedStrings(log, aliases, e.strings);
  }

  ghost predicate AllHold(entries: seq<Entry>, files: seq<Option<seq<string>>>) {
    |entries| == |files| && forall i | 0 <= i < |files| :: files[i].Some? && Holds(entries[i], files[i].value)
  }

  lemma AllHoldMore(before: seq<Entry>, entries: seq<Entry>, files: seq<Option<seq<string>>>, i: nat)
    requires i < |files| && AllHold(before, files[..i]) && |entries| == i + 1 && entries[..i] == before
    requires files[i].Some? && Holds(entries[i], files[i].value)
    ensures AllHold(entries, files[..i + 1])
  {
    forall k | 0 <= k <= i ensures files[k].Some? && Holds(entries[k], files[k].value) {
      if k < i {
        assert files[..i][k] == files[k] && entries[..i][k] == entries[k];
      }
    }
  }

  lemma BlockIsLive(live: map<Block, nat>, leaked: set<Block>, block: Block, entries: seq<Entry>)
    requires Represents(live, leaked, block, entries)
    ensures block == NULL || block in live
  {
  }

  /** Without an array of entries nothing is owned. */
  lemma NothingOwned(live: map<Block, nat>, leaked: set<Block>, entries: seq<Entry>)
    requires Represents(live, leaked, NULL, entries)
    ensures live.Keys == leaked
  {
    forall b | b in live ensures b in leaked {
      assert Owned(entries, NULL)(b) == One(b in live && b !in leaked);
    }
  }

  lemma NothingAsked()
    ensures Asked([]) == Requests([]) && Granted([]) && AllHold([], [])
  {
  }

  // ---------------------------------------------------------------- the steps of cache_free()

  /** How often a block is owned when i entries have been released. */
  ghost function Remaining(entries: seq<Entry>, block: Block, i: nat): Block -> int
    requires i <= |entries|
  {
    b => InEntries(entries, b) - InEntries(entries[..i], b) + One(block == b)
  }

  lemma NothingReleased(live: map<Block, nat>, leaked: set<Block>, entries: seq<Entry>, block: Block)
    requires Accounts(live, leaked, Owned(entries, block))
    ensures Accounts(live, leaked, Remaining(entries, block, 0))
  {
    forall b | b != NULL ensures Remaining(entries, block, 0)(b) == One(b in live && b !in leaked) {
      assert Owned(entries, block)(b) == One(b in live && b !in leaked);
    }
  }

  lemma RemainingNext(live: map<Block, nat>, leaked: set<Block>, entries: seq<Entry>, block: Block, i: nat)
    requires i < |entries| && Accounts(live, leaked, Remaining(entries, block, i))
    ensures var rest := Remaining(entries, block, i + 1);
            && (forall b :: rest(b) >= 0 && Remaining(entries, block, i)(b) == rest(b) + InEntry(entries[i], b))
            && (entries[i].strings == [] ==> Accounts(live, leaked, rest))
  {
    var rest := Remaining(entries, block, i + 1);
    forall b ensures rest(b) >= 0 && Remaining(entries, block, i)(b) == rest(b) + InEntry(entries[i], b) {
      EntriesUpTo(entries, i, b);
    }
  }

  lemma OnlyBlockRemains(live: map<Block, nat>, leaked: set<Block>, entries: seq<Entry>, block: Block)
    requires block != NULL && Accounts(live, leaked, Remaining(entries, block, |entries|))
    ensures block in live && (live - {block}).Keys == leaked
  {
    assert entries[..|entries|] == entries;
    forall b | b != NULL ensures b in live && b !in leaked <==> b == block {
      assert Remaining(entries, block, |entries|)(b) == InEntries(entries, b) - InEntries(entries, b) + One(block == b);
      assert Remaining(entries, block, |entries|)(b) == One(b in live && b !in leaked);
    }
  }

  /** What is still owned when j strings of an entry have been freed. */
  ghost function InHand(rest: Block -> int, e: Entry, j: nat): Block -> int
    requires j <= |e.strings|
  {
    b => rest(b) + InEntry(e, b) - InStrings(e.strings[..j], b)
  }

  lemma StringLeaves(live: map<Block, nat>, leaked: set<Block>, rest: Block -> int, e: Entry, j: nat)
    requires j < |e.strings| && Accounts(live, leaked, InHand(rest, e, j)) && forall b :: rest(b) >= 0
    ensures e.strings[j] == NULL || e.strings[j] in live
    ensures Accounts(live - {e.strings[j]}, leaked, InHand(rest, e, j + 1))
  {
    var s := e.strings[j];
    forall b | b != NULL
      ensures InHand(rest, e, j + 1)(b) == One(b in live - {s} && b !in leaked)
      ensures b == s ==> b in live && b !in leaked
    {
      StringsUpTo(e.strings, j, b);
      assert InHand(rest, e, j)(b) == One(b in live && b !in leaked);
    }
  }

  lemma ArrayLeaves(live: map<Block, nat>, leaked: set<Block>, rest: Block -> int, e: Entry)
    requires Accounts(live, leaked, InHand(rest, e, |e.strings|)) && e.strings != [] && forall b :: rest(b) >= 0
    ensures e.aliases == NULL || e.aliases in live
    ensures Accounts(live - {e.aliases}, leaked, rest)
  {
    assert e.strings[..|e.strings|] == e.strings;
    forall b | b != NULL
      ensures rest(b) == One(b in live - {e.aliases} && b !in leaked)
      ensures b == e.aliases ==> b in live && b !in leaked
    {
      assert InHand(rest, e, |e.strings|)(b) == One(b in live && b !in leaked);
    }
  }

  // ---------------------------------------------------------------- the steps of building

  lemma LastIsLive(live: map<Block, nat>, leaked: set<Block>, block: Block, others: seq<Entry>, e: Entry)
    requires Represents(live, leaked, block, others + [e]) && (e.strings == [] ==> e.aliases == NULL)
    ensures e.aliases == NULL || e.aliases in live
  {
    assert Sized(live, (others + [e])[|others|]);
  }

  /** The other entries and the array of entries do not own the blocks of the last entry. */
  lemma OthersKeep(live: map<Block, nat>, leaked: set<Block>, block: Block, others: seq<Entry>, e: Entry,
                   live': map<Block, nat>)
    requires Represents(live, leaked, block, others + [e])
    requires forall b | b in live && InEntry(e, b) == 0 :: b in live' && live'[b] == live[b]
    ensures block in live' && live'[block] == |others| + 1
    ensures forall k | 0 <= k < |others| :: Sized(live', others[k])
  {
    var all := others + [e];
    forall b | b in live && (b == block || InEntries(others, b) > 0) ensures InEntry(e, b) == 0 {
      EntriesAppend(others, e, b);
      EntriesPrefix(others, 0, b);
      StringsPrefix(e.strings, 0, b);
      assert Owned(all, block)(b) == One(b in live && b !in leaked);
    }
    forall k | 0 <= k < |others| ensures Sized(live, others[k]) {
      assert Sized(live, all[k]);
    }
    StaySized(live, leaked, Owned(all, block), others, live');
  }

  /** The array is freed, the strings are lost, the rest stays. */
  lemma LosesArray(live: map<Block, nat>, leaked: set<Block>, block: Block, others: seq<Entry>, e: Entry)
    requires Represents(live, leaked, block, others + [e]) && (e.strings == [] ==> e.aliases == NULL)
    ensures Represents(live - {e.aliases}, leaked + StringsOf(e), block, others + [Entry(e.aliases, [])])
  {
    hide InEntries, InStrings;
    var e' := Entry(e.aliases, []);
    var live', leaked' := live - {e.aliases}, leaked + StringsOf(e);
    forall b | b != NULL
      ensures Owned(others + [e'], block)(b) == One(b in live' && b !in leaked')
      ensures b in StringsOf(e) ==> b in live'
      ensures b == e.aliases ==> b !in leaked
    {
      EntriesAppend(others, e, b);
      EntriesAppend(others, e', b);
      EntriesPrefix(others, 0, b);
      StringsPrefix(e.strings, 0, b);
      StringsHave(e.strings, b);
      StringsMean(e.strings, b);
      assert Owned(others + [e], block)(b) == One(b in live && b !in leaked);
    }
    OthersKeepWithout(live, leaked, block, others, e, live');
  }

  lemma {:induction false} StringsMean(strings: seq<Block>, b: Block)
    ensures InStrings(strings, b) > 0 ==> b in strings
  {
    if strings != [] {
      StringsMean(strings[..|strings| - 1], b);
    }
  }

  lemma OthersKeepWithout(live: map<Block, nat>, leaked: set<Block>, block: Block, others: seq<Entry>, e: Entry,
                          live': map<Block, nat>)
    requires Represents(live, leaked, block, others + [e]) && live' == live - {e.aliases}
    requires e.strings == [] ==> e.aliases == NULL
    ensures block in live' && live'[block] == |others| + 1
    ensures forall k | 0 <= k < |others| :: Sized(live', others[k])
  {
    forall b | b in live && InEntry(e, b) == 0 ensures b in live' && live'[b] == live[b] {
      StringsPrefix(e.strings, 0, b);
    }
    OthersKeep(live, leaked, block, others, e, live');
  }

  /** The array is enlarged and holds one string more, or NULL. */
  lemma GainsString(live: map<Block, nat>, leaked: set<Block>, block: Block, others: seq<Entry>, e: Entry, grown: Block,
                    between: map<Block, nat>, copy: Block, after: map<Block, nat>, size: nat)
    requires Represents(live, leaked, block, others + [e]) && (e.strings == [] ==> e.aliases == NULL)
    requires grown != NULL && (grown == e.aliases || grown !in live)
             && between == (live - {e.aliases})[grown := 1 + |e.strings|]
    requires copy == NULL ==> after == between
    requires copy != NULL ==> copy !in between && after == between[copy := size]
    ensures Represents(after, leaked, block, others + [Entry(grown, e.strings + [copy])])
  {
    hide Owned, InEntries;
    GainsStringAccounts(live, leaked, block, others, e, grown, between, copy, after, size);
    forall b | b in live && InEntry(e, b) == 0 ensures b in after && after[b] == live[b] {
      StringsPrefix(e.strings, 0, b);
    }
    OthersKeep(live, leaked, block, others, e, after);
  }

  lemma GainsStringAccounts(live: map<Block, nat>, leaked: set<Block>, block: Block, others: seq<Entry>, e: Entry,
                            grown: Block,
                            between: map<Block, nat>, copy: Block, after: map<Block, nat>, size: nat)
    requires Accounts(live, leaked, Owned(others + [e], block)) && (e.strings == [] ==> e.aliases == NULL)
    requires grown != NULL && (grown == e.aliases || grown !in live)
             && between == (live - {e.aliases})[grown := 1 + |e.strings|]
    requires copy == NULL ==> after == between
    requires copy != NULL ==> copy !in between && after == between[copy := size]
    ensures Accounts(after, leaked, Owned(others + [Entry(grown, e.strings + [copy])], block))
  {
    hide InEntries, InStrings;
    var e' := Entry(grown, e.strings + [copy]);
    forall b | b != NULL
      ensures Owned(others + [e'], block)(b) == One(b in after && b !in leaked)
      ensures b == e.aliases ==> b !in leaked
    {
      EntriesAppend(others, e, b);
      EntriesAppend(others, e', b);
      EntriesPrefix(others, 0, b);
      assert Owned(others + [e], block)(b) == One(b in live && b !in leaked);
      StringBalance(live, leaked, InEntries(others, b) + One(block == b), e, grown, between, copy, after, size, b);
    }
  }

  /** The account of one block, of which others are the owners outside the last entry. */
  lemma StringBalance(live: map<Block, nat>, leaked: set<Block>, others: int, e: Entry, grown: Block,
                      between: map<Block, nat>, copy: Block, after: map<Block, nat>, size: nat, b: Block)
    requires b != NULL && leaked <= live.Keys && (e.strings == [] ==> e.aliases == NULL)
    requires others >= 0 && others + InEntry(e, b) == One(b in live && b !in leaked)
    requires grown != NULL && (grown == e.aliases || grown !in live)
             && between == (live - {e.aliases})[grown := 1 + |e.strings|]
    requires copy == NULL ==> after == between
    requires copy != NULL ==> copy !in between && after == between[copy := size]
    ensures others + InEntry(Entry(grown, e.strings + [copy]), b) == One(b in after && b !in leaked)
    ensures b == e.aliases ==> b !in leaked
  {
    StringsPrefix(e.strings, 0, b);
    StringsAppend(e.strings, copy, b);
  }

  /** The account of one block when the array of entries is enlarged. */
  lemma EntryBalance(live: map<Block, nat>, leaked: set<Block>, block: Block, entries: seq<Entry>, enlarged: Block,
                     b: Block)
    requires Accounts(live, leaked, Owned(entries, block)) && (block != NULL ==> block in live)
    requires enlarged != NULL && (enlarged == block || enlarged !in live) && b != NULL
    ensures Owned(entries + [Entry(NULL, [])], enlarged)(b)
         == One(b in (live - {block})[enlarged := 1 + |entries|] && b !in leaked)
    ensures b in live && InEntries(entries, b) > 0 ==> b != block && b != enlarged
    ensures b == block ==> b !in leaked
  {
    hide InEntries, InStrings;
    EntriesAppend(entries, Entry(NULL, []), b);
    EntriesPrefix(entries, 0, b);
    assert Owned(entries, block)(b) == One(b in live && b !in leaked);
  }

  lemma GainsEntryAccounts(live: map<Block, nat>, leaked: set<Block>, block: Block, entries: seq<Entry>,
                           enlarged: Block)
    requires Accounts(live, leaked, Owned(entries, block)) && (block != NULL ==> block in live)
    requires enlarged != NULL && (enlarged == block || enlarged !in live)
    ensures Accounts((live - {block})[enlarged := 1 + |entries|], leaked, Owned(entries + [Entry(NULL, [])], enlarged))
    ensures forall b | b in live && InEntries(entries, b) > 0 :: b != block && b != enlarged
  {
    hide InEntries, InEntry, Owned;
    var live', owned' := (live - {block})[enlarged := 1 + |entries|], Owned(entries + [Entry(NULL, [])], enlarged);
    forall b | b != NULL
      ensures owned'(b) == One(b in live' && b !in leaked)
      ensures b in live && InEntries(entries, b) > 0 ==> b != block && b != enlarged
      ensures b == block ==> b !in leaked
    {
      EntryBalance(live, leaked, block, entries, enlarged, b);
    }
  }

  /** The array of entries is enlarged, and holds one entry without aliases more. */
  lemma GainsEntry(live: map<Block, nat>, leaked: set<Block>, block: Block, entries: seq<Entry>, enlarged: Block)
    requires Represents(live, leaked, block, entries) && enlarged != NULL && (enlarged == block || enlarged !in live)
    ensures Represents((live - {block})[enlarged := 1 + |entries|], leaked, enlarged, entries + [Entry(NULL, [])])
  {
    hide Accounts, Owned;
    var live', fresh' := (live - {block})[enlarged := 1 + |entries|], Entry(NULL, []);
    GainsEntryAccounts(live, leaked, block, entries, enlarged);
    StaySized(live, leaked, Owned(entries, block), entries, live');
    forall k | 0 <= k <= |entries| ensures Sized(live', (entries + [fresh'])[k]) {
      assert k < |entries| ==> Sized(live', entries[k]);
    }
  }
}
