/** find_all() of find.c: a recursive directory walk that runs a callback on each matching regular
    file and stops at the first failure. */
module Find {
  import opened Callbacks

  const PATH_MAX := 4096

  /** A directory as readdir_r() yields it. readable: opendir() works; complete: readdir_r() reaches
      the end instead of failing after the entries. */
  datatype Directory = Directory(entries: seq<Entry>, readable: bool, complete: bool)
  datatype Entry = Entry(name: string, node: Node)
  datatype Node = RegularFile | Subdirectory(directory: Directory) | Other

  function PathOf(directory: string, name: string): string {
    directory + "/" + name
  }

  // ---------------------------------------------------------------- the order of the walk

  /** What the walk meets: a matching file, or something that ends it. */
  datatype Event = Visit(path: string) | Stop

  function WalkDirectory(d: Directory, path: string, matches: string -> bool): seq<Event>
    decreases d
  {
    if !d.readable then [Stop]
    else WalkEntries(d.entries, path, matches) + if d.complete then [] else [Stop]
  }

  /** The pre-order list of events of some entries of a directory. */
  function WalkEntries(entries: seq<Entry>, path: string, matches: string -> bool): seq<Event>
    decreases entries
  {
    if entries == [] then [] else WalkEntry(entries[0], path, matches) + WalkEntries(entries[1..], path, matches)
  }

  function WalkEntry(e: Entry, path: string, matches: string -> bool): seq<Event>
    decreases e
  {
    match e.node
    case RegularFile =>
      if !matches(e.name) then []
      else if |PathOf(path, e.name)| >= PATH_MAX then [Stop] else [Visit(PathOf(path, e.name))]
    case Subdirectory(directory) =>
      if e.name == "." || e.name == ".." then []
      else if |PathOf(path, e.name)| >= PATH_MAX then [Stop]
      else WalkDirectory(directory, PathOf(path, e.name), matches)
    case Other => []
  }

  // ---------------------------------------------------------------- the fold of the callback

  /** The callback run on the visited files from left to right, until a stop or a refusal. */
  function Fold<S>(events: seq<Event>, s: S, callback: (S, string) -> (S, bool)): (S, bool) {
    if events == [] then (s, true)
    else match events[0] {
      case Stop => (s, false)
      case Visit(path) =>
        var (s', ok) := callback(s, path);
        if ok then Fold(events[1..], s', callback) else (s', false)
    }
  }

  lemma {:induction false} FoldAppend<S>(a: seq<Event>, b: seq<Event>, s: S, callback: (S, string) -> (S, bool))
    ensures Fold(a + b, s, callback)
         == (var r := Fold(a, s, callback); if r.1 then Fold(b, r.0, callback) else r)
  {
    if a == [] {
      assert a + b == b;
    } else {
      assert (a + b)[1..] == a[1..] + b;
      match a[0] {
        case Stop =>
        case Visit(path) =>
          var r := callback(s, path);
          if r.1 {
            FoldAppend(a[1..], b, r.0, callback);
          }
      }
    }
  }

  /** The walk itself. */
  method FindAll<S>(d: Directory, path: string, matches: string -> bool, callback: (S, string) -> (S, bool), s0: S)
    returns (s: S, result: bool)
    ensures (s, result) == Fold(WalkDirectory(d, path, matches), s0, callback)
    decreases d
  {
    s := s0;
    if !d.readable { return s, false; }
    var i := 0;
    ghost var end := if d.complete then [] else [Stop];
    ghost var expected := Fold(WalkDirectory(d, path, matches), s0, callback);
    while i < |d.entries|
      invariant i <= |d.entries|
      invariant expected == Fold(WalkEntries(d.entries[i..], path, matches) + end, s, callback)
    {
      var e := d.entries[i];
      ghost var rest := WalkEntries(d.entries[i + 1..], path, matches);
      assert WalkEntries(d.entries[i..], path, matches) == WalkEntry(e, path, matches) + rest;
      assert WalkEntry(e, path, matches) + rest + end == WalkEntry(e, path, matches) + (rest + end);
      FoldAppend(WalkEntry(e, path, matches), rest + end, s, callback);
      var ok := true;
      match e.node {
        case RegularFile =>
          if matches(e.name) {
            var file := PathOf(path, e.name);
            if |file| >= PATH_MAX { return s, false; }
            FoldOne(file, s, callback);
            var r := callback(s, file);
            s, ok := r.0, r.1;
          }
        case Subdirectory(directory) =>
          if e.name != "." && e.name != ".." {
            var file := PathOf(path, e.name);
            if |file| >= PATH_MAX { return s, false; }
            s, ok := FindAll(directory, file, matches, callback, s);
          }
        case Other =>
      }
      if !ok { return s, false; }
      i := i + 1;
    }
    result := d.complete;
  }

  lemma FoldOne<S>(path: string, s: S, callback: (S, string) -> (S, bool))
    ensures Fold([Visit(path)], s, callback) == callback(s, path)
  {
    var r := callback(s, path);
    assert [Visit(path)][1..] == [];
    assert r == (r.0, r.1);
  }

  // ---------------------------------------------------------------- each file once

  /** The paths visited by a walk that never stops. */
  function Files(events: seq<Event>): seq<string> {
    if events == [] then []
    else (if events[0].Visit? then [events[0].path] else []) + Files(events[1..])
  }

  /** A walk that succeeds met nothing that ends it and ran the callback on every matching file in
      pre-order. */
  lemma {:induction false} SuccessVisitsAll<S>(events: seq<Event>, s: S, callback: (S, string) -> (S, bool))
    ensures Fold(events, s, callback).1 <==> Stop !in events && FoldUntil(Files(events), s, callback).1
    ensures Fold(events, s, callback).1 ==> Fold(events, s, callback) == FoldUntil(Files(events), s, callback)
  {
    if events != [] {
      match events[0] {
        case Stop =>
        case Visit(path) =>
          var r := callback(s, path);
          assert Files(events) == [path] + Files(events[1..]);
          assert Files(events)[1..] == Files(events[1..]);
          if r.1 {
            SuccessVisitsAll(events[1..], r.0, callback);
          }
      }
    }
  }

  const SLASH := '/'

  /** Names are slash-free, and distinct within a directory. */
  ghost predicate IsProper(d: Directory)
    decreases d
  {
    && (forall i, j | 0 <= i < j < |d.entries| :: d.entries[i].name != d.entries[j].name)
    && (forall i | 0 <= i < |d.entries| ::
          && SLASH !in d.entries[i].name
          && (d.entries[i].node.Subdirectory? ==> IsProper(d.entries[i].node.directory)))
  }

  /** The path of a matching file, given by the names on the way down. */
  ghost predicate LeadsTo(d: Directory, names: seq<string>, matches: string -> bool)
    decreases |names|
  {
    && names != []
    && exists i | 0 <= i < |d.entries| ::
         && d.entries[i].name == names[0]
         && if |names| == 1 then d.entries[i].node.RegularFile? && matches(names[0])
            else d.entries[i].node.Subdirectory? && names[0] != "." && names[0] != ".."
                 && LeadsTo(d.entries[i].node.directory, names[1..], matches)
  }

  function Render(path: string, names: seq<string>): string
    decreases |names|
  {
    if names == [] then path else Render(PathOf(path, names[0]), names[1..])
  }

  function FilesIn(d: Directory, path: string, matches: string -> bool): seq<string> {
    Files(WalkDirectory(d, path, matches))
  }

  lemma {:induction false} FilesAppend(a: seq<Event>, b: seq<Event>)
    ensures Files(a + b) == Files(a) + Files(b)
  {
    if a == [] {
      assert a + b == b;
    } else {
      assert (a + b)[1..] == a[1..] + b;
      FilesAppend(a[1..], b);
    }
  }

  lemma FilesOfDirectory(d: Directory, path: string, matches: string -> bool)
    requires Stop !in WalkDirectory(d, path, matches)
    ensures d.readable && Stop !in WalkEntries(d.entries, path, matches)
    ensures FilesIn(d, path, matches) == Files(WalkEntries(d.entries, path, matches))
  {
    if d.readable {
      var events := WalkEntries(d.entries, path, matches);
      assert WalkDirectory(d, path, matches) == events + if d.complete then [] else [Stop];
      EndsWithStop(events);
      assert events + [] == events;
    } else {
      EndsWithStop([]);
    }
  }

  lemma EndsWithStop(events: seq<Event>)
    ensures Stop in events + [Stop] && Stop in [Stop]
  {
    assert (events + [Stop])[|events|] == Stop;
  }

  // ---------------------------------------------------------------- in the order of the directories

  lemma {:induction false} WalkAppend(a: seq<Entry>, b: seq<Entry>, path: string, matches: string -> bool)
    ensures WalkEntries(a + b, path, matches) == WalkEntries(a, path, matches) + WalkEntries(b, path, matches)
  {
    if a == [] {
      assert a + b == b;
    } else {
      assert (a + b)[1..] == a[1..] + b;
      WalkAppend(a[1..], b, path, matches);
    }
  }

  /** Files are visited in the order in which their directories are read. */
  lemma EntriesInOrder(a: seq<Entry>, b: seq<Entry>, path: string, matches: string -> bool)
    ensures FilesIn(Directory(a + b, true, true), path, matches)
         == FilesIn(Directory(a, true, true), path, matches) + FilesIn(Directory(b, true, true), path, matches)
  {
    WalkAppend(a, b, path, matches);
    FilesAppend(WalkEntries(a, path, matches), WalkEntries(b, path, matches));
    forall c: seq<Entry>
      ensures WalkDirectory(Directory(c, true, true), path, matches) == WalkEntries(c, path, matches)
    {
      assert WalkEntries(c, path, matches) + [] == WalkEntries(c, path, matches);
    }
  }

  // ---------------------------------------------------------------- what ends a walk

  /** The names lead to something that the walk cannot deal with: a directory that cannot be opened or
      read to its end, or a path that does not fit. */
  ghost predicate LeadsToTrouble(d: Directory, path: string, names: seq<string>, matches: string -> bool)
    decreases |names|
  {
    if names == [] then !d.readable || !d.complete
    else exists i | 0 <= i < |d.entries| ::
           d.entries[i].name == names[0] && IsTrouble(d.entries[i], path, names, matches)
  }

  ghost predicate IsTrouble(e: Entry, path: string, names: seq<string>, matches: string -> bool)
    requires names != []
    decreases |names|, 0
  {
    var fits := |PathOf(path, e.name)| < PATH_MAX;
    match e.node
    case RegularFile => matches(e.name) && |names| == 1 && !fits
    case Subdirectory(directory) =>
      && e.name != "." && e.name != ".."
      && if fits then LeadsToTrouble(directory, PathOf(path, e.name), names[1..], matches) else |names| == 1
    case Other => false
  }

  lemma {:induction false} StopInEntries(entries: seq<Entry>, path: string, matches: string -> bool)
    ensures Stop in WalkEntries(entries, path, matches)
       <==> exists i | 0 <= i < |entries| :: Stop in WalkEntry(entries[i], path, matches)
  {
    if entries != [] {
      var first, rest := WalkEntry(entries[0], path, matches), WalkEntries(entries[1..], path, matches);
      StopInEntries(entries[1..], path, matches);
      assert Stop in first + rest <==> Stop in first || Stop in rest;
      if Stop in rest {
        var i :| 0 <= i < |entries[1..]| && Stop in WalkEntry(entries[1..][i], path, matches);
        assert entries[i + 1] == entries[1..][i];
      }
      if i :| 0 < i < |entries| && Stop in WalkEntry(entries[i], path, matches) {
        assert entries[1..][i - 1] == entries[i];
      }
    }
  }

  lemma StopInDirectory(d: Directory, path: string, matches: string -> bool)
    ensures Stop in WalkDirectory(d, path, matches)
       <==> !d.readable || !d.complete || Stop in WalkEntries(d.entries, path, matches)
  {
    EndsWithStop([]);
    if d.readable {
      EndsWithStop(WalkEntries(d.entries, path, matches));
    }
  }

  /** A walk is ended by trouble exactly if some names on the way down lead to it. */
  lemma {:induction false} StopIff(d: Directory, path: string, matches: string -> bool)
    ensures Stop in WalkDirectory(d, path, matches)
       <==> exists names: seq<string> :: LeadsToTrouble(d, path, names, matches)
    decreases d
  {
    StopInDirectory(d, path, matches);
    StopInEntries(d.entries, path, matches);
    if Stop in WalkDirectory(d, path, matches) {
      if !d.readable || !d.complete {
        assert LeadsToTrouble(d, path, [], matches);
      } else {
        var i :| 0 <= i < |d.entries| && Stop in WalkEntry(d.entries[i], path, matches);
        var names := TroubleOf(d, path, matches, i);
      }
    }
    if names: seq<string> :| LeadsToTrouble(d, path, names, matches) {
      if names != [] {
        TroubleStops(d, path, matches, names);
      }
      assert Stop in WalkDirectory(d, path, matches) && LeadsToTrouble(d, path, names, matches);
    }
  }

  lemma {:induction false} TroubleOf(d: Directory, path: string, matches: string -> bool, i: nat)
    returns (names: seq<string>)
    requires i < |d.entries| && Stop in WalkEntry(d.entries[i], path, matches)
    ensures LeadsToTrouble(d, path, names, matches)
    decreases d, 0
  {
    var e := d.entries[i];
    names := [e.name];
    if e.node.Subdirectory? && |PathOf(path, e.name)| < PATH_MAX {
      StopIff(e.node.directory, PathOf(path, e.name), matches);
      var below: seq<string> :| LeadsToTrouble(e.node.directory, PathOf(path, e.name), below, matches);
      names := [e.name] + below;
      assert names[1..] == below;
    }
    assert IsTrouble(e, path, names, matches);
  }

  lemma {:induction false} TroubleStops(d: Directory, path: string, matches: string -> bool, names: seq<string>)
    requires names != [] && LeadsToTrouble(d, path, names, matches)
    ensures exists i | 0 <= i < |d.entries| :: Stop in WalkEntry(d.entries[i], path, matches)
    decreases d, 0
  {
    var i :| 0 <= i < |d.entries| && d.entries[i].name == names[0] && IsTrouble(d.entries[i], path, names, matches);
    var e := d.entries[i];
    EndsWithStop([]);
    if e.node.Subdirectory? && |PathOf(path, e.name)| < PATH_MAX {
      assert LeadsToTrouble(e.node.directory, PathOf(path, e.name), names[1..], matches);
      StopIff(e.node.directory, PathOf(path, e.name), matches);
    }
    assert Stop in WalkEntry(e, path, matches);
  }

  // ---------------------------------------------------------------- which files are visited

  /** What an entry contributes carries its name as the first component after the path. */
  lemma {:induction false} FilesBelow(entries: seq<Entry>, path: string, matches: string -> bool, p: string)
    requires Stop !in WalkEntries(entries, path, matches)
    ensures p in Files(WalkEntries(entries, path, matches))
       <==> exists i :: 0 <= i < |entries| && p in Files(WalkEntry(entries[i], path, matches))
    decreases entries
  {
    if entries != [] {
      var first, rest := WalkEntry(entries[0], path, matches), WalkEntries(entries[1..], path, matches);
      assert forall e | e in rest :: e in first + rest;
      FilesAppend(first, rest);
      FilesBelow(entries[1..], path, matches, p);
      if p in Files(rest) {
        var i :| 0 <= i < |entries[1..]| && p in Files(WalkEntry(entries[1..][i], path, matches));
        assert entries[i + 1] == entries[1..][i];
      }
      if i :| 0 < i < |entries| && p in Files(WalkEntry(entries[i], path, matches)) {
        assert entries[1..][i - 1] == entries[i];
      }
    }
  }

  lemma {:induction false} StopBelow(entries: seq<Entry>, path: string, matches: string -> bool, i: nat)
    requires i < |entries| && Stop !in WalkEntries(entries, path, matches)
    ensures Stop !in WalkEntry(entries[i], path, matches)
    decreases entries
  {
    var first, rest := WalkEntry(entries[0], path, matches), WalkEntries(entries[1..], path, matches);
    assert forall e | e in first || e in rest :: e in first + rest;
    if i > 0 {
      StopBelow(entries[1..], path, matches, i - 1);
    }
  }

  /** A walk that meets nothing to stop it visits exactly the matching files of the tree. */
  lemma {:induction false} VisitedIffMatching(d: Directory, path: string, matches: string -> bool, p: string)
    requires Stop !in WalkDirectory(d, path, matches)
    ensures p in FilesIn(d, path, matches)
       <==> exists names: seq<string> :: LeadsTo(d, names, matches) && p == Render(path, names)
    decreases d
  {
    FilesOfDirectory(d, path, matches);
    FilesBelow(d.entries, path, matches, p);
    if i :| 0 <= i < |d.entries| && p in Files(WalkEntry(d.entries[i], path, matches)) {
      StopBelow(d.entries, path, matches, i);
      var names := NamesOf(d, path, matches, i, p);
    }
    if names: seq<string> :| LeadsTo(d, names, matches) && p == Render(path, names) {
      var i := EntryOf(d, path, matches, names);
    }
  }

  lemma {:induction false} NamesOf(d: Directory, path: string, matches: string -> bool, i: nat, p: string)
    returns (names: seq<string>)
    requires i < |d.entries| && Stop !in WalkEntry(d.entries[i], path, matches)
    requires p in Files(WalkEntry(d.entries[i], path, matches))
    ensures LeadsTo(d, names, matches) && p == Render(path, names)
    decreases d, 0
  {
    var e := d.entries[i];
    match e.node
    case RegularFile =>
      names := [e.name];
      assert p == PathOf(path, e.name) == Render(path, names);
    case Subdirectory(directory) =>
      VisitedIffMatching(directory, PathOf(path, e.name), matches, p);
      var below: seq<string> :| LeadsTo(directory, below, matches) && p == Render(PathOf(path, e.name), below);
      names := [e.name] + below;
      assert names[1..] == below;
    case Other =>
      assert false;
      names := [];
  }

  lemma {:induction false} EntryOf(d: Directory, path: string, matches: string -> bool,
                                   names: seq<string>) returns (i: nat)
    requires Stop !in WalkDirectory(d, path, matches) && LeadsTo(d, names, matches)
    ensures i < |d.entries| && Render(path, names) in Files(WalkEntry(d.entries[i], path, matches))
    decreases d, 0
  {
    FilesOfDirectory(d, path, matches);
    i :| 0 <= i < |d.entries|
         && d.entries[i].name == names[0]
         && if |names| == 1 then d.entries[i].node.RegularFile? && matches(names[0])
            else d.entries[i].node.Subdirectory? && names[0] != "." && names[0] != ".."
                 && LeadsTo(d.entries[i].node.directory, names[1..], matches);
    StopBelow(d.entries, path, matches, i);
    EndsWithStop([]);
    var e := d.entries[i];
    if |names| == 1 {
      var file := PathOf(path, e.name);
      assert names[1..] == [] && Render(path, names) == file;
      assert WalkEntry(e, path, matches) == [Visit(file)];
      assert [Visit(file)][1..] == [] && Files([Visit(file)]) == [file];
    } else {
      VisitedIffMatching(e.node.directory, PathOf(path, e.name), matches, Render(path, names));
      assert LeadsTo(e.node.directory, names[1..], matches);
      assert Render(path, names) == Render(PathOf(path, e.name), names[1..]);
    }
  }

  // ---------------------------------------------------------------- distinct paths

  ghost predicate Distinct(files: seq<string>) {
    forall i, j | 0 <= i < j < |files| :: files[i] != files[j]
  }

  function FirstComponent(s: string): string {
    if s == "" || s[0] == SLASH then "" else [s[0]] + FirstComponent(s[1..])
  }

  lemma {:induction false} FirstComponentIs(a: string, x: string)
    requires SLASH !in a && (x == "" || x[0] == SLASH)
    ensures FirstComponent(a + x) == a
  {
    if a == "" {
      assert a + x == x;
    } else {
      assert (a + x)[1..] == a[1..] + x;
      FirstComponentIs(a[1..], x);
    }
  }

  /** Two paths below one directory that share a path go through the same name. */
  lemma SameName(path: string, a: string, b: string, x: string, y: string)
    requires SLASH !in a && SLASH !in b
    requires (x == "" || x[0] == SLASH) && (y == "" || y[0] == SLASH)
    requires PathOf(path, a) + x == PathOf(path, b) + y
    ensures a == b
  {
    var n := |path| + 1;
    assert (PathOf(path, a) + x)[n..] == a + x && (PathOf(path, b) + y)[n..] == b + y;
    FirstComponentIs(a, x);
    FirstComponentIs(b, y);
  }

  /** Everything below an entry is its own path or continues it with a slash. */
  lemma {:induction false} BelowEntry(e: Entry, path: string, matches: string -> bool, p: string)
    requires Stop !in WalkEntry(e, path, matches) && p in Files(WalkEntry(e, path, matches))
    ensures exists x :: (x == "" || x[0] == SLASH) && p == PathOf(path, e.name) + x
    decreases e, 1
  {
    if e.node.Subdirectory? {
      var x := BelowDirectory(e.node.directory, PathOf(path, e.name), matches, p);
    } else {
      assert p == PathOf(path, e.name) + "";
    }
  }

  lemma {:induction false} BelowDirectory(d: Directory, path: string, matches: string -> bool, p: string)
    returns (x: string)
    requires Stop !in WalkDirectory(d, path, matches) && p in FilesIn(d, path, matches)
    ensures x != "" && x[0] == SLASH && p == path + x
  {
    VisitedIffMatching(d, path, matches, p);
    var names: seq<string> :| LeadsTo(d, names, matches) && p == Render(path, names);
    x := RenderExtends(PathOf(path, names[0]), names[1..]);
    x := "/" + names[0] + x;
    assert p == path + x;
  }

  lemma {:induction false} RenderExtends(path: string, names: seq<string>) returns (x: string)
    ensures Render(path, names) == path + x
    decreases |names|
  {
    if names == [] {
      x := "";
    } else {
      var y := RenderExtends(PathOf(path, names[0]), names[1..]);
      x := "/" + names[0] + y;
    }
  }

  /** No file is visited twice. */
  lemma {:induction false} VisitedOnce(d: Directory, path: string, matches: string -> bool)
    requires IsProper(d) && Stop !in WalkDirectory(d, path, matches)
    ensures Distinct(FilesIn(d, path, matches))
    decreases d
  {
    FilesOfDirectory(d, path, matches);
    forall i | 0 <= i < |d.entries| ensures Distinct(Files(WalkEntry(d.entries[i], path, matches))) {
      StopBelow(d.entries, path, matches, i);
      VisitedOnceBelow(d, path, matches, i);
    }
    DistinctEntries(d.entries, path, matches);
  }

  lemma {:induction false} VisitedOnceBelow(d: Directory, path: string, matches: string -> bool, i: nat)
    requires IsProper(d) && i < |d.entries| && Stop !in WalkEntry(d.entries[i], path, matches)
    ensures Distinct(Files(WalkEntry(d.entries[i], path, matches)))
    decreases d, 0
  {
    var e := d.entries[i];
    match e.node
    case RegularFile =>
      var file := PathOf(path, e.name);
      assert [Visit(file)][1..] == [] && Files([Visit(file)]) == [file] + [];
    case Subdirectory(directory) =>
      EndsWithStop([]);
      if e.name != "." && e.name != ".." {
        VisitedOnce(directory, PathOf(path, e.name), matches);
      }
    case Other =>
  }

  lemma {:induction false} DistinctEntries(entries: seq<Entry>, path: string, matches: string -> bool)
    requires forall i, j | 0 <= i < j < |entries| :: entries[i].name != entries[j].name
    requires forall i | 0 <= i < |entries| :: SLASH !in entries[i].name
    requires forall i | 0 <= i < |entries| :: Distinct(Files(WalkEntry(entries[i], path, matches)))
    requires Stop !in WalkEntries(entries, path, matches)
    ensures Distinct(Files(WalkEntries(entries, path, matches)))
    decreases entries
  {
    if entries != [] {
      var first, rest := WalkEntry(entries[0], path, matches), WalkEntries(entries[1..], path, matches);
      assert forall e | e in first || e in rest :: e in first + rest;
      assert forall i | 0 <= i < |entries[1..]| :: entries[1..][i] == entries[i + 1];
      DistinctEntries(entries[1..], path, matches);
      FilesAppend(first, rest);
      forall p | p in Files(first) ensures p !in Files(rest) {
        if p in Files(rest) {
          SharedPath(entries, path, matches, p);
        }
      }
      DistinctAppend(Files(first), Files(rest));
    }
  }

  /** A path visited below the first entry and below a later one would give them the same name. */
  lemma SharedPath(entries: seq<Entry>, path: string, matches: string -> bool, p: string)
    requires entries != [] && Stop !in WalkEntries(entries, path, matches)
    requires forall i | 0 <= i < |entries| :: SLASH !in entries[i].name
    requires p in Files(WalkEntry(entries[0], path, matches)) && p in Files(WalkEntries(entries[1..], path, matches))
    ensures exists i :: 0 < i < |entries| && entries[i].name == entries[0].name
  {
    StopBelow(entries, path, matches, 0);
    BelowEntry(entries[0], path, matches, p);
    var rest := WalkEntries(entries[1..], path, matches);
    assert forall e | e in rest :: e in WalkEntry(entries[0], path, matches) + rest;
    FilesBelow(entries[1..], path, matches, p);
    var i :| 0 <= i < |entries[1..]| && p in Files(WalkEntry(entries[1..][i], path, matches));
    assert entries[1..][i] == entries[i + 1];
    StopBelow(entries, path, matches, i + 1);
    BelowEntry(entries[i + 1], path, matches, p);
    var x :| (x == "" || x[0] == SLASH) && p == PathOf(path, entries[0].name) + x;
    var y :| (y == "" || y[0] == SLASH) && p == PathOf(path, entries[i + 1].name) + y;
    SameName(path, entries[0].name, entries[i + 1].name, x, y);
  }

  lemma DistinctAppend(a: seq<string>, b: seq<string>)
    requires Distinct(a) && Distinct(b) && forall p | p in a :: p !in b
    ensures Distinct(a + b)
  {
    forall i, j | 0 <= i < j < |a + b| ensures (a + b)[i] != (a + b)[j] {
      if i < |a| <= j {
        assert a[i] in a && b[j - |a|] in b;
      }
    }
  }
}
