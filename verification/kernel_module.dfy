/** A kernel module image, as module.c reads it: the name, the dependency list and the aliases. */
module KernelModule {
  import opened Callbacks
  import opened Text
  import opened Wrappers

  /** The bytes of the file. What is read as a string ends at a NUL byte, or with the image. */
  type Image = string

  const DEPENDS := "depends="
  const ALIAS := "alias="

  /** module_for_each_dependency() demands an image longer than the marker. */
  const MIN_IMAGE := 9

  /** The marker begins at this offset, and the image goes on after it. */
  predicate MarkerAt(image: Image, marker: string, offset: nat) {
    offset + |marker| < |image| && marker <= image[offset..]
  }

  /** The strings that follow the markers from an offset on. */
  function StringsAfter(image: Image, marker: string, offset: nat): seq<string>
    decreases |image| - offset
  {
    if offset + |marker| >= |image| then []
    else
      (if MarkerAt(image, marker, offset) then [CStr(image, offset + |marker|)] else [])
      + StringsAfter(image, marker, offset + 1)
  }

  function Aliases(image: Image): seq<string> {
    StringsAfter(image, ALIAS, 0)
  }

  /** The dependencies listed after the first marker; None if there is no marker. */
  function Dependencies(image: Image): Option<seq<string>> {
    var found := StringsAfter(image, DEPENDS, 0);
    if found == [] then None else Some(Tokens(found[0]))
  }

  // ---------------------------------------------------------------- printing and decoding

  /** The first marker is where it first occurs. */
  lemma {:induction false} FirstString(image: Image, marker: string, from: nat, offset: nat)
    requires from <= offset && MarkerAt(image, marker, offset)
    requires forall i | from <= i < offset :: !MarkerAt(image, marker, i)
    ensures StringsAfter(image, marker, from) != []
    ensures StringsAfter(image, marker, from)[0] == CStr(image, offset + |marker|)
    decreases offset - from
  {
    hide CStr;
    if from < offset {
      FirstString(image, marker, from + 1, offset);
    }
  }

  lemma {:induction false} NoString(image: Image, marker: string, from: nat)
    requires forall i | from <= i :: !MarkerAt(image, marker, i)
    ensures StringsAfter(image, marker, from) == []
    decreases |image| - from
  {
    if from + |marker| < |image| {
      NoString(image, marker, from + 1);
    }
  }

  predicate HasNoList(image: Image) {
    forall o: nat | o < |image| :: !MarkerAt(image, DEPENDS, o)
  }

  /** The first marker of the image is at this offset. */
  predicate ListStartsAt(image: Image, o: nat) {
    MarkerAt(image, DEPENDS, o) && forall i | 0 <= i < o :: !MarkerAt(image, DEPENDS, i)
  }

  /** These are the names behind the first marker. */
  ghost predicate Lists(image: Image, names: seq<string>) {
    exists o: nat :: ListStartsAt(image, o) && names == Tokens(CStr(image, o + |DEPENDS|))
  }

  /** Without a marker there is no list, which is not the same as an empty one; otherwise the list is
      what follows the first marker. */
  lemma DependenciesMean(image: Image)
    ensures HasNoList(image) <==> Dependencies(image) == None
    ensures forall names :: Lists(image, names) <==> Dependencies(image) == Some(names)
  {
    hide Tokens, CStr;
    if HasNoList(image) {
      NoString(image, DEPENDS, 0);
    } else {
      var o := FirstMarker(image);
      FirstString(image, DEPENDS, 0, o);
      assert Lists(image, Tokens(CStr(image, o + |DEPENDS|)));
    }
    forall names | Lists(image, names) ensures Dependencies(image) == Some(names) {
      var o: nat :| ListStartsAt(image, o) && names == Tokens(CStr(image, o + |DEPENDS|));
      FirstString(image, DEPENDS, 0, o);
    }
  }

  lemma FirstMarker(image: Image) returns (o: nat)
    requires !HasNoList(image)
    ensures ListStartsAt(image, o)
  {
    o := 0;
    var some: nat :| some < |image| && MarkerAt(image, DEPENDS, some);
    while !MarkerAt(image, DEPENDS, o)
      invariant o <= some && forall i | 0 <= i < o :: !MarkerAt(image, DEPENDS, i)
      decreases some - o
    {
      o := o + 1;
    }
  }

  /** These are the offsets of all markers from an offset on, in order. */
  ghost predicate AreMarkers(image: Image, marker: string, from: nat, offsets: seq<int>) {
    && (forall i, j | 0 <= i < j < |offsets| :: offsets[i] < offsets[j])
    && (forall o | o in offsets :: from <= o)
    && (forall o: nat | from <= o :: MarkerAt(image, marker, o) <==> o in offsets)
  }

  /** These are the strings behind the markers at these offsets. */
  ghost predicate AreBehind(image: Image, marker: string, offsets: seq<int>, strings: seq<string>) {
    && |strings| == |offsets|
    && forall i | 0 <= i < |offsets| ::
         0 <= offsets[i] && offsets[i] + |marker| <= |image| && strings[i] == CStr(image, offsets[i] + |marker|)
  }

  lemma MarkersFrom(image: Image, marker: string, from: nat, rest: seq<int>)
    requires AreMarkers(image, marker, from + 1, rest)
    ensures MarkerAt(image, marker, from) ==> AreMarkers(image, marker, from, [from] + rest)
    ensures !MarkerAt(image, marker, from) ==> AreMarkers(image, marker, from, rest)
  {
    hide MarkerAt;
    assert forall j | 0 <= j < |rest| :: rest[j] in rest;
  }

  lemma NoMarkersFrom(image: Image, marker: string, from: nat)
    requires from + |marker| >= |image|
    ensures AreMarkers(image, marker, from, []) && StringsAfter(image, marker, from) == []
  {
  }

  /** The strings found are those behind the markers, in the order of their offsets. */
  lemma {:induction false} StringsOfMarkers(image: Image, marker: string, from: nat) returns (offsets: seq<int>)
    ensures AreMarkers(image, marker, from, offsets)
    ensures AreBehind(image, marker, offsets, StringsAfter(image, marker, from))
    decreases |image| - from
  {
    hide CStr, StringsAfter, AreMarkers;
    if from + |marker| >= |image| {
      offsets := [];
      NoMarkersFrom(image, marker, from);
    } else {
      var rest := StringsOfMarkers(image, marker, from + 1);
      MarkersFrom(image, marker, from, rest);
      StringsFrom(image, marker, from);
      offsets := if MarkerAt(image, marker, from) then [from] + rest else rest;
    }
  }

  /** The aliases of an image are the strings behind all its markers, in their order. */
  lemma AliasesMean(image: Image) returns (offsets: seq<int>)
    ensures AreMarkers(image, ALIAS, 0, offsets) && AreBehind(image, ALIAS, offsets, Aliases(image))
  {
    offsets := StringsOfMarkers(image, ALIAS, 0);
  }

  lemma StringThere(prefix: string, s: string, after: string)
    requires NUL !in s
    ensures CStr(prefix + s + [NUL] + after, |prefix|) == s
  {
    var image := prefix + s + [NUL] + after;
    assert image[|prefix|..|prefix| + |s|] == s;
    assert forall j | |prefix| <= j < |prefix| + |s| :: image[j] == s[j - |prefix|];
    IndexIs(image, NUL, |prefix|, |prefix| + |s|);
  }

  lemma MarkerThere(before: string, marker: string, after: string)
    requires after != ""
    ensures MarkerAt(before + marker + after, marker, |before|)
  {
    assert (before + marker + after)[|before|..] == marker + after;
  }

  /** A printed list of names, anywhere in an image, is decoded to the same names, unless the marker
      already occurs before it. */
  lemma DependenciesRoundTrip(before: string, names: seq<string>, after: string)
    requires forall n | n in names :: IsToken(n) && NUL !in n
    requires forall i | 0 <= i < |before| :: !(DEPENDS <= (before + DEPENDS + Join(names) + [NUL] + after)[i..])
    ensures Dependencies(before + DEPENDS + Join(names) + [NUL] + after) == Some(names)
  {
    hide StringsAfter, CStr, Tokens, Join;
    var list := Join(names);
    var image := before + DEPENDS + list + [NUL] + after;
    JoinHasNoNul(names);
    StringThere(before + DEPENDS, list, after);
    MarkerThere(before, DEPENDS, list + [NUL] + after);
    assert image == before + DEPENDS + (list + [NUL] + after);
    FirstString(image, DEPENDS, 0, |before|);
    TokensOfJoin(names);
  }

  lemma {:induction false} JoinHasNoNul(names: seq<string>)
    requires forall n | n in names :: NUL !in n
    ensures NUL !in Join(names)
  {
    if |names| > 1 {
      JoinHasNoNul(names[..|names| - 1]);
      assert names[|names| - 1] in names;
    } else if |names| == 1 {
      assert names[0] in names;
    }
  }

  // ---------------------------------------------------------------- the loops over the image

  lemma StringsFrom(image: Image, marker: string, offset: nat)
    requires offset + |marker| < |image|
    ensures var rest := StringsAfter(image, marker, offset + 1);
            StringsAfter(image, marker, offset)
            == if marker <= image[offset..] then [CStr(image, offset + |marker|)] + rest else rest
  {
    hide CStr;
  }

  lemma NoMoreStrings<S>(image: Image, marker: string, offset: nat, s: S, callback: (S, string) -> (S, bool))
    requires offset + |marker| >= |image|
    ensures FoldUntil(StringsAfter(image, marker, offset), s, callback) == (s, true)
  {
  }

  /** module_for_each_alias() */
  method ForEachAlias<S>(image: Image, callback: (S, string) -> (S, bool), s0: S) returns (s: S, result: bool)
    requires |image| >= MIN_IMAGE
    ensures (s, result) == FoldUntil(Aliases(image), s0, callback)
  {
    hide FoldUntil, StringsAfter, CStr;
    s := s0;
    var offset := 0;
    while offset + |ALIAS| < |image|
      invariant FoldUntil(StringsAfter(image, ALIAS, offset), s, callback) == FoldUntil(Aliases(image), s0, callback)
    {
      ghost var rest := StringsAfter(image, ALIAS, offset + 1);
      StringsFrom(image, ALIAS, offset);
      if ALIAS <= image[offset..] {
        var alias := ReadString(image, offset + |ALIAS|);
        FoldUntilCons(alias, rest, s, callback);
        var r := callback(s, alias);
        s := r.0;
        if !r.1 { return s, false; }
      }
      offset := offset + 1;
    }
    NoMoreStrings(image, ALIAS, offset, s, callback);
    result := true;
  }

  /** strdup() of the string at an offset. */
  method ReadString(image: Image, offset: nat) returns (s: string)
    requires offset <= |image|
    ensures s == CStr(image, offset)
  {
    var end := offset;
    while end < |image| && image[end] != NUL
      invariant offset <= end <= |image| && forall i | offset <= i < end :: image[i] != NUL
    {
      end := end + 1;
    }
    IndexIs(image, NUL, offset, end);
    s := image[offset..end];
  }

  /** The search of module_for_each_dependency() for its marker. */
  method FindDependencies(image: Image) returns (offset: Option<nat>)
    requires |image| >= MIN_IMAGE
    ensures match offset
            case None => StringsAfter(image, DEPENDS, 0) == []
            case Some(i) => i <= |image| && StringsAfter(image, DEPENDS, 0) != []
                            && StringsAfter(image, DEPENDS, 0)[0] == CStr(image, i)
  {
    var i := 0;
    while i + |DEPENDS| < |image|
      invariant forall j | 0 <= j < i :: !MarkerAt(image, DEPENDS, j)
    {
      if DEPENDS <= image[i..] {
        FirstString(image, DEPENDS, 0, i);
        return Some(i + |DEPENDS|);
      }
      i := i + 1;
    }
    NoString(image, DEPENDS, 0);
    offset := None;
  }

  /** module_for_each_dependency(): the callback is run on the decoded names, in order, until it
      refuses one. granted tells whether strdup() of a non-empty list works. */
  method ForEachDependency<S>(image: Image, granted: bool, callback: (S, string) -> (S, bool), s0: S)
    returns (s: S, result: bool)
    requires |image| >= MIN_IMAGE
    ensures HasNoList(image) ==> s == s0 && !result
    ensures granted ==> forall names | Lists(image, names) :: (s, result) == FoldUntil(names, s0, callback)
    ensures granted ==>
              (s, result) == match Dependencies(image)
                             case None => (s0, false)
                             case Some(names) => FoldUntil(names, s0, callback)
    ensures !granted ==> s == s0 && (result ==> Dependencies(image) == Some([]))
  {
    hide StringsAfter, HasNoList, Lists, FoldUntil;
    DependenciesMean(image);
    NothingToCall(s0, callback);
    s := s0;
    var offset := FindDependencies(image);
    if offset == None { return s, false; }
    var list := ReadString(image, offset.value);
    if list == "" { return s, true; }
    if !granted { return s, false; }
    var copy := new char[|list| + 1](i requires 0 <= i <= |list| => if i < |list| then list[i] else NUL);
    ListInCopy(copy[..], list);
    s, result := ForEachToken(copy, callback, s0);
  }

  lemma NothingToCall<S>(s: S, callback: (S, string) -> (S, bool))
    ensures FoldUntil([], s, callback) == (s, true) && Tokens("") == []
  {
  }

  /** The loop over the names, which strtok_r() cuts out of the copy one by one. */
  method ForEachToken<S>(copy: array<char>, callback: (S, string) -> (S, bool), s0: S) returns (s: S, result: bool)
    requires Terminated(copy)
    modifies copy
    ensures (s, result) == FoldUntil(Tokens(old(CStr(copy[..], 0))), s0, callback)
  {
    hide FoldUntil, IndexFrom, Tokens;
    s := s0;
    ghost var all := Tokens(CStr(copy[..], 0));
    ghost var rest := all;
    var start, next, found := NextToken(copy, 0);
    while found
      invariant Remaining(copy, start, next, found, rest)
      invariant FoldUntil(rest, s, callback) == FoldUntil(all, s0, callback)
      decreases |rest|, found
    {
      ghost var later := Tokens(CStr(copy[..], next));
      var n := StrLen(copy, start);
      var name := copy[start..start + n];
      FoldUntilCons(name, later, s, callback);
      var r := callback(s, name);
      s := r.0;
      if !r.1 { return s, false; }
      rest := later;
      start, next, found := NextToken(copy, next);
    }
    NothingToCall(s, callback);
    result := true;
  }

  lemma ListInCopy(copy: string, list: string)
    requires NUL !in list && |copy| == |list| + 1 && copy[..|list|] == list && copy[|list|] == NUL
    ensures CStr(copy, 0) == list
  {
    assert forall j | 0 <= j < |list| :: copy[j] == list[j];
    IndexIs(copy, NUL, 0, |list|);
  }

  // ---------------------------------------------------------------- names

  function Underscored(c: char): char {
    if c == '-' then '_' else c
  }

  function NormalForm(name: string): (r: string)
    ensures |r| == |name|
  {
    seq(|name|, i requires 0 <= i < |name| => Underscored(name[i]))
  }

  /** A hyphen becomes an underscore, and nothing else changes. */
  lemma NormalFormAt(name: string, i: nat)
    requires i < |name|
    ensures NormalForm(name)[i] == if name[i] == '-' then '_' else name[i]
  {
  }

  lemma NormalFormIsNormal(name: string)
    ensures '-' !in NormalForm(name) && NormalForm(NormalForm(name)) == NormalForm(name)
  {
  }

  /** The loop of module_open() that rewrites a name in place. */
  method NormaliseInPlace(name: array<char>)
    requires Terminated(name)
    modifies name
    ensures Terminated(name) && CStr(name[..], 0) == NormalForm(old(CStr(name[..], 0)))
  {
    ghost var before := name[..];
    ghost var length := IndexFrom(before, NUL, 0);
    var i := 0;
    var n := StrLen(name, 0);
    while n > i
      invariant i <= n == length < name.Length && IndexFrom(name[..], NUL, 0) == length
      invariant forall j | 0 <= j < name.Length :: name[j] == if j < i then Underscored(before[j]) else before[j]
      decreases n - i
    {
      if name[i] == '-' {
        name[i] := '_';
      }
      i := i + 1;
      IndexIs(name[..], NUL, 0, length);
      n := StrLen(name, 0);
    }
    assert CStr(name[..], 0) == NormalForm(before[..length]);
  }

  /** _module_cmp() */
  method ModuleCmp(a: string, b: string) returns (same: bool)
    requires a != ""
    ensures same <==> NormalForm(a) == NormalForm(b)
    ensures same <==> |a| == |b| && forall i | 0 <= i < |a| :: a[i] == b[i] || (a[i] in "-_" && b[i] in "-_")
  {
    if |b| != |a| {
      return false;
    }
    var i := 0;
    while |a| > i
      invariant i <= |a| && forall j | 0 <= j < i :: Underscored(a[j]) == Underscored(b[j])
    {
      if a[i] == '-' || a[i] == '_' {
        if b[i] != '-' && b[i] != '_' {
          assert NormalForm(a)[i] != NormalForm(b)[i];
          return false;
        }
      } else if a[i] != b[i] {
        assert NormalForm(a)[i] != NormalForm(b)[i];
        return false;
      }
      i := i + 1;
    }
    same := true;
  }
}
