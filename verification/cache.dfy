/** The index of kernel modules of cache.c, and what a look-up in it means in terms of the files. */
module Cache {
  import opened Callbacks
  import opened Find
  import opened KernelModule
  import opened Text
  import opened Wrappers

  /** fnmatch() of an alias pattern and a requested alias. */
  type Matcher = (string, string) -> bool

  datatype IndexEntry = IndexEntry(path: string, name: string, aliases: seq<string>)

  // ---------------------------------------------------------------- module_open()

  /** What follows the last slash of a path. */
  function BaseName(path: string): string {
    if SLASH !in path then path else BaseName(path[1..])
  }

  function BeforeDot(name: string): string {
    if name == "" || name[0] == '.' then "" else [name[0]] + BeforeDot(name[1..])
  }

  /** The modules that can be opened, with their images: the file exists and its name has an extension. */
  predicate CanOpen(images: map<string, Image>, path: string) {
    path in images && '.' in BaseName(path) && |images[path]| >= MIN_IMAGE
  }

  function NameOf(path: string): string {
    NormalForm(BeforeDot(BaseName(path)))
  }

  /** The name of dir/stem.extension is its stem up to hyphens, whatever directory the file is in. */
  lemma NameOfFile(dir: string, stem: string, extension: string)
    requires SLASH !in stem && SLASH !in extension && '.' !in stem
    ensures BaseName(dir + "/" + stem + "." + extension) == BaseName(stem + "." + extension) == stem + "." + extension
    ensures NameOf(dir + "/" + stem + "." + extension) == NameOf(stem + "." + extension) == NormalForm(stem)
  {
    var file := stem + "." + extension;
    BaseNameAfter(dir, file);
    assert dir + "/" + file == dir + "/" + stem + "." + extension;
    BeforeDotIs(stem, extension);
  }

  /** A module can be opened if its file is there, its name has an extension, wherever it is, and its image
      is longer than the marker of a list. */
  lemma CanOpenFile(images: map<string, Image>, dir: string, file: string)
    requires SLASH !in file
    ensures var path := dir + "/" + file;
            CanOpen(images, path) <==> path in images && '.' in file && |images[path]| > |DEPENDS|
  {
    BaseNameAfter(dir, file);
  }

  lemma {:induction false} BaseNameAfter(dir: string, file: string)
    requires SLASH !in file
    ensures BaseName(dir + "/" + file) == file
  {
    var path := dir + "/" + file;
    assert path[|dir|] == SLASH;
    if dir == "" {
      assert path[1..] == file;
    } else {
      assert path[1..] == dir[1..] + "/" + file;
      BaseNameAfter(dir[1..], file);
    }
  }

  lemma {:induction false} BeforeDotIs(stem: string, extension: string)
    requires '.' !in stem
    ensures BeforeDot(stem + "." + extension) == stem
  {
    var name := stem + "." + extension;
    if stem == "" {
      assert name[0] == '.';
    } else {
      assert name[0] == stem[0] && name[1..] == stem[1..] + "." + extension;
      BeforeDotIs(stem[1..], extension);
    }
  }

  // ---------------------------------------------------------------- the direct scan

  /** The first file, in walking order, for which the test holds. */
  function FirstFile(files: seq<string>, test: string -> bool): Option<string> {
    if files == [] then None
    else if test(files[0]) then Some(files[0])
    else FirstFile(files[1..], test)
  }

  function ByName(files: seq<string>, name: string): Option<string> {
    FirstFile(files, path => NameOf(path) == NormalForm(name))
  }

  ghost function ByAlias(files: seq<string>, images: map<string, Image>, alias: string,
                         fnmatch: Matcher): Option<string>
  {
    FirstFile(files, path => path in images && exists p | p in Aliases(images[path]) :: fnmatch(p, alias))
  }

  /** What follows the first colon of a request, if it is not empty. */
  function AfterColon(request: string): Option<string> {
    var i := IndexFrom(request, ':', 0);
    if i + 1 < |request| then Some(request[i + 1..]) else None
  }

  /** The rules of the look-up, applied to the files themselves: by name, then by alias, then by the
      name after a colon. */
  ghost function Locate(files: seq<string>, images: map<string, Image>, request: string,
                        fnmatch: Matcher): Option<string>
  {
    var named := ByName(files, request);
    var aliased := ByAlias(files, images, request, fnmatch);
    if named.Some? then named
    else if aliased.Some? then aliased
    else if AfterColon(request).Some? then ByName(files, AfterColon(request).value)
    else None
  }

  /** path is the first file with this name, or None if there is no such file. */
  ghost predicate IsFirstNamed(files: seq<string>, name: string, path: Option<string>) {
    match path
    case None => forall i | 0 <= i < |files| :: NameOf(files[i]) != NormalForm(name)
    case Some(f) =>
      exists i | 0 <= i < |files| ::
        f == files[i] && NameOf(files[i]) == NormalForm(name)
        && forall j | 0 <= j < i :: NameOf(files[j]) != NormalForm(name)
  }

  /** One of the file's patterns matches the alias. */
  ghost predicate HasPattern(images: map<string, Image>, path: string, alias: string, fnmatch: Matcher) {
    path in images && exists p | p in Aliases(images[path]) :: fnmatch(p, alias)
  }

  /** path is the first file with a matching pattern, or None if there is no such file. */
  ghost predicate IsFirstMatching(files: seq<string>, images: map<string, Image>, alias: string, fnmatch: Matcher,
                                  path: Option<string>)
  {
    match path
    case None => forall i | 0 <= i < |files| :: !HasPattern(images, files[i], alias, fnmatch)
    case Some(f) =>
      exists i | 0 <= i < |files| ::
        f == files[i] && HasPattern(images, files[i], alias, fnmatch)
        && forall j | 0 <= j < i :: !HasPattern(images, files[j], alias, fnmatch)
  }

  lemma {:induction false} FirstFileIsFirst(files: seq<string>, test: string -> bool) returns (i: nat)
    ensures i <= |files| && (forall j | 0 <= j < i :: !test(files[j]))
    ensures i < |files| ==> test(files[i])
    ensures FirstFile(files, test) == if i < |files| then Some(files[i]) else None
  {
    if files == [] || test(files[0]) {
      i := 0;
    } else {
      i := FirstFileIsFirst(files[1..], test);
      i := i + 1;
    }
  }

  lemma ByNameIsFirst(files: seq<string>, name: string)
    ensures IsFirstNamed(files, name, ByName(files, name))
  {
    hide NameOf, NormalForm;
    var i := FirstFileIsFirst(files, path => NameOf(path) == NormalForm(name));
  }

  lemma ByAliasIsFirst(files: seq<string>, images: map<string, Image>, alias: string, fnmatch: Matcher)
    ensures IsFirstMatching(files, images, alias, fnmatch, ByAlias(files, images, alias, fnmatch))
  {
    hide Aliases;
    var i := FirstFileIsFirst(files,
                              path => path in images && exists p | p in Aliases(images[path]) :: fnmatch(p, alias));
  }

  lemma AfterFirstColon(prefix: string, name: string)
    requires ':' !in prefix
    ensures AfterColon(prefix + ":" + name) == if name == "" then None else Some(name)
  {
    var request := prefix + ":" + name;
    assert forall j | 0 <= j < |prefix| :: request[j] == prefix[j];
    IndexIs(request, ':', 0, |prefix|);
    assert request[|prefix| + 1..] == name;
  }

  lemma NoColon(request: string)
    requires ':' !in request
    ensures AfterColon(request) == None
  {
    IndexIs(request, ':', 0, |request|);
  }

  /** The rules of the look-up, in terms of positions in the list of files: the first file with that
      name; without one, the first file with a matching pattern; without one, and only if the request
      has a colon that is not its end, the first file with the name after the first colon. */
  lemma LocateMeans(files: seq<string>, images: map<string, Image>, request: string, fnmatch: Matcher)
    ensures var path := Locate(files, images, request, fnmatch);
            || (path.Some? && IsFirstNamed(files, request, path))
            || (IsFirstNamed(files, request, None)
                && (|| (path.Some? && IsFirstMatching(files, images, request, fnmatch, path))
                    || (IsFirstMatching(files, images, request, fnmatch, None)
                        && IsByColon(files, request, path))))
  {
    hide IsFirstNamed, IsFirstMatching, ByName, ByAlias, IsByColon;
    ByNameIsFirst(files, request);
    ByAliasIsFirst(files, images, request, fnmatch);
    ByColonMeans(files, request);
  }

  /** The last resort: by the name after the first colon. */
  ghost predicate IsByColon(files: seq<string>, request: string, path: Option<string>) {
    && (':' !in request ==> path == None)
    && forall prefix, name | request == prefix + ":" + name && ':' !in prefix ::
         if name == "" then path == None else IsFirstNamed(files, name, path)
  }

  lemma ByColonMeans(files: seq<string>, request: string)
    ensures IsByColon(files, request,
                      if AfterColon(request).Some? then ByName(files, AfterColon(request).value) else None)
  {
    var path := if AfterColon(request).Some? then ByName(files, AfterColon(request).value) else None;
    if ':' !in request {
      NoColon(request);
    }
    forall prefix, name | request == prefix + ":" + name && ':' !in prefix
      ensures if name == "" then path == None else IsFirstNamed(files, name, path)
    {
      AfterFirstColon(prefix, name);
      ByNameIsFirst(files, name);
    }
  }

  // ---------------------------------------------------------------- building the index

  ghost predicate Describes(e: IndexEntry, path: string, images: map<string, Image>) {
    CanOpen(images, path) && e == IndexEntry(path, NameOf(path), Aliases(images[path]))
  }

  /** The index has one entry for each file, in the same order. */
  ghost predicate Indexes(entries: seq<IndexEntry>, files: seq<string>, images: map<string, Image>) {
    && |entries| == |files|
    && forall i | 0 <= i < |files| :: Describes(entries[i], files[i], images)
  }

  /** _append_module() as a step of the walk. granted tells whether memory for the entry is granted. */
  function AppendModule(entries: seq<IndexEntry>, path: string, images: map<string, Image>, granted: string -> bool)
    : (seq<IndexEntry>, bool)
  {
    if CanOpen(images, path) && granted(path)
    then (entries + [IndexEntry(path, NameOf(path), Aliases(images[path]))], true)
    else (entries, false)
  }

  /** Appending file after file indexes the files, unless one cannot be opened or gets no memory. */
  lemma {:induction false} AppendingIndexes(files: seq<string>, done: seq<string>, entries: seq<IndexEntry>,
                                            images: map<string, Image>, granted: string -> bool,
                                            callback: (seq<IndexEntry>, string) -> (seq<IndexEntry>, bool))
    requires callback == ((es: seq<IndexEntry>, path: string) => AppendModule(es, path, images, granted))
    requires Indexes(entries, done, images)
    ensures FoldUntil(files, entries, callback).1 <==> forall f | f in files :: CanOpen(images, f) && granted(f)
    ensures FoldUntil(files, entries, callback).1
            ==> Indexes(FoldUntil(files, entries, callback).0, done + files, images)
  {
    if files == [] {
      assert done + files == done;
    } else {
      assert files == [files[0]] + files[1..];
      assert done + files == done + [files[0]] + files[1..];
      var r := callback(entries, files[0]);
      if r.1 {
        AppendingIndexes(files[1..], done + [files[0]], r.0, images, granted, callback);
      }
    }
  }

  lemma {:induction false} FirstFileAt(files: seq<string>, test: string -> bool, i: nat)
    requires i <= |files| && (forall j | 0 <= j < i :: !test(files[j])) && (i < |files| ==> test(files[i]))
    ensures FirstFile(files, test) == if i < |files| then Some(files[i]) else None
  {
    if i > 0 {
      FirstFileAt(files[1..], test, i - 1);
    }
  }

  // ---------------------------------------------------------------- the index itself

  class Index {
    var entries: seq<IndexEntry>

    constructor ()
      ensures entries == []
    {
      entries := [];
    }

    /** cache_generate(). release is what uname() reports, if it works. */
    method Generate(release: Option<string>, tree: Directory, matches: string -> bool,
                    images: map<string, Image>, granted: string -> bool)
      returns (result: bool)
      requires entries == []
      modifies this
      ensures release == None ==> result && entries == []
      ensures release.Some? ==>
                var path := "/lib/modules/" + release.value;
                && (result <==>
                      && |path| < PATH_MAX
                      && Stop !in WalkDirectory(tree, path, matches)
                      && forall f | f in FilesIn(tree, path, matches) :: CanOpen(images, f) && granted(f))
                && (result ==> Indexes(entries, FilesIn(tree, path, matches), images))
      ensures !result ==> entries == []
    {
      if release == None { return true; }
      var path := "/lib/modules/" + release.value;
      if |path| >= PATH_MAX { return false; }
      var callback := (es: seq<IndexEntry>, file: string) => AppendModule(es, file, images, granted);
      entries, result := FindAll(tree, path, matches, callback, entries);
      ghost var files := FilesIn(tree, path, matches);
      SuccessVisitsAll(WalkDirectory(tree, path, matches), [], callback);
      AppendingIndexes(files, [], [], images, granted, callback);
      assert [] + files == files;
      if !result {
        entries := [];
      }
    }

    /** cache_find_module(): the position of the first entry with this name, or the number of entries. */
    method FindModule(name: string) returns (i: nat)
      requires name != ""
      ensures i <= |entries|
      ensures forall j | 0 <= j < i :: NormalForm(entries[j].name) != NormalForm(name)
      ensures i < |entries| ==> NormalForm(entries[i].name) == NormalForm(name)
    {
      i := 0;
      while |entries| > i
        invariant i <= |entries| && forall j | 0 <= j < i :: NormalForm(entries[j].name) != NormalForm(name)
      {
        var same := ModuleCmp(name, entries[i].name);
        if same { return; }
        i := i + 1;
      }
    }

    /** The loops of cache_find_alias(). */
    method FindPattern(alias: string, fnmatch: Matcher) returns (i: nat)
      ensures i <= |entries|
      ensures forall j | 0 <= j < i :: !exists p | p in entries[j].aliases :: fnmatch(p, alias)
      ensures i < |entries| ==> exists p | p in entries[i].aliases :: fnmatch(p, alias)
    {
      i := 0;
      while |entries| > i
        invariant i <= |entries|
        invariant forall j | 0 <= j < i :: !exists p | p in entries[j].aliases :: fnmatch(p, alias)
      {
        var aliases := entries[i].aliases;
        for j := 0 to |aliases|
          invariant forall k | 0 <= k < j :: !fnmatch(aliases[k], alias)
        {
          if fnmatch(aliases[j], alias) {
            assert aliases[j] in entries[i].aliases;
            return;
          }
        }
        i := i + 1;
      }
    }

    /** cache_find_alias(): by pattern, then by the name after a colon. */
    method FindAlias(alias: string, fnmatch: Matcher) returns (i: nat, ghost byPattern: bool)
      ensures i <= |entries|
      ensures byPattern ==> i < |entries| && (exists p | p in entries[i].aliases :: fnmatch(p, alias))
                            && forall j | 0 <= j < i :: !exists p | p in entries[j].aliases :: fnmatch(p, alias)
      ensures !byPattern ==> forall j | 0 <= j < |entries| :: !exists p | p in entries[j].aliases :: fnmatch(p, alias)
      ensures !byPattern && AfterColon(alias) == None ==> i == |entries|
      ensures !byPattern && AfterColon(alias).Some? ==>
                var name := AfterColon(alias).value;
                && (forall j | 0 <= j < i :: NormalForm(entries[j].name) != NormalForm(name))
                && (i < |entries| ==> NormalForm(entries[i].name) == NormalForm(name))
    {
      i := FindPattern(alias, fnmatch);
      byPattern := i < |entries|;
      if i < |entries| { return; }
      var colon := 0;
      while colon < |alias| && alias[colon] != ':'
        invariant colon <= |alias| && forall j | 0 <= j < colon :: alias[j] != ':'
      {
        colon := colon + 1;
      }
      IndexIs(alias, ':', 0, colon);
      if colon + 1 < |alias| {
        i := FindModule(alias[colon + 1..]);
      }
    }

    /** The look-up of _load_by_name_or_alias(): through the index as directly in the files. */
    method Find(request: string, fnmatch: Matcher, ghost files: seq<string>, ghost images: map<string, Image>)
      returns (path: Option<string>)
      requires request != "" && Indexes(entries, files, images)
      ensures path == Locate(files, images, request, fnmatch)
      ensures || (path.Some? && IsFirstNamed(files, request, path))
              || (IsFirstNamed(files, request, None)
                  && (|| (path.Some? && IsFirstMatching(files, images, request, fnmatch, path))
                      || (IsFirstMatching(files, images, request, fnmatch, None)
                          && IsByColon(files, request, path))))
    {
      hide IsFirstNamed, IsFirstMatching, IsByColon;
      LocateMeans(files, images, request, fnmatch);
      var i := FindModule(request);
      NamesAgree(entries, files, images, request, i);
      if i < |entries| { return Some(entries[i].path); }
      ghost var byPattern;
      i, byPattern := FindAlias(request, fnmatch);
      PatternsAgree(entries, files, images, request, fnmatch, if byPattern then i else |entries|);
      if !byPattern && AfterColon(request).Some? {
        NamesAgree(entries, files, images, AfterColon(request).value, i);
      }
      path := if i < |entries| then Some(entries[i].path) else None;
    }
  }

  lemma NamesAgree(entries: seq<IndexEntry>, files: seq<string>, images: map<string, Image>, name: string, i: nat)
    requires Indexes(entries, files, images) && i <= |entries|
    requires forall j | 0 <= j < i :: NormalForm(entries[j].name) != NormalForm(name)
    requires i < |entries| ==> NormalForm(entries[i].name) == NormalForm(name)
    ensures ByName(files, name) == if i < |entries| then Some(entries[i].path) else None
  {
    forall j | 0 <= j < |entries|
      ensures NormalForm(entries[j].name) == NameOf(files[j]) && entries[j].path == files[j]
    {
      assert Describes(entries[j], files[j], images);
      NormalFormIsNormal(BeforeDot(BaseName(files[j])));
    }
    FirstFileAt(files, path => NameOf(path) == NormalForm(name), i);
  }

  lemma PatternsAgree(entries: seq<IndexEntry>, files: seq<string>, images: map<string, Image>, alias: string,
                      fnmatch: Matcher, i: nat)
    requires Indexes(entries, files, images) && i <= |entries|
    requires forall j | 0 <= j < i :: !exists p | p in entries[j].aliases :: fnmatch(p, alias)
    requires i < |entries| ==> exists p | p in entries[i].aliases :: fnmatch(p, alias)
    ensures ByAlias(files, images, alias, fnmatch) == if i < |entries| then Some(entries[i].path) else None
  {
    forall j | 0 <= j < |entries|
      ensures files[j] in images && entries[j].aliases == Aliases(images[files[j]]) && entries[j].path == files[j]
    {
      assert Describes(entries[j], files[j], images);
    }
    FirstFileAt(files, path => path in images && exists p | p in Aliases(images[path]) :: fnmatch(p, alias), i);
  }
}
