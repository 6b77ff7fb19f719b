/** C strings: searching for a character, the text before a NUL byte, and comma-separated lists. */
module Text {

  const NUL := '\0'
  const COMMA := ','

  predicate IsIndex(s: string, c: char, from: nat, i: nat) {
    from <= i <= |s| && (forall j | from <= j < i :: s[j] != c) && (i < |s| ==> s[i] == c)
  }

  lemma IndexExists(s: string, c: char, from: nat)
    requires from <= |s|
    ensures exists i: nat :: IsIndex(s, c, from, i)
    decreases |s| - from
  {
    if from == |s| || s[from] == c {
      assert IsIndex(s, c, from, from);
    } else {
      IndexExists(s, c, from + 1);
      var i: nat :| IsIndex(s, c, from + 1, i);
      assert IsIndex(s, c, from, i);
    }
  }

  /** The first position of c at or after a position, or the end. */
  function IndexFrom(s: string, c: char, from: nat): (i: nat)
    requires from <= |s|
    ensures IsIndex(s, c, from, i)
  {
    IndexExists(s, c, from);
    var i :| 0 <= i <= |s| && IsIndex(s, c, from, i);
    i
  }

  /** The C string that starts at a position. */
  function CStr(s: string, from: nat): string
    requires from <= |s|
  {
    s[from..IndexFrom(s, NUL, from)]
  }

  lemma IndexIs(s: string, c: char, from: nat, i: nat)
    requires IsIndex(s, c, from, i)
    ensures IndexFrom(s, c, from) == i
  {
  }

  /** The non-empty fields of a comma-separated list. */
  function Tokens(s: string): seq<string>
    decreases |s|
  {
    if s == "" then []
    else if s[0] == COMMA then Tokens(s[1..])
    else
      var n := IndexFrom(s, COMMA, 0);
      [s[..n]] + Tokens(s[n..])
  }

  /** All fields of a comma-separated list, empty ones included. */
  function Split(s: string): seq<string>
    decreases |s|
  {
    var n := IndexFrom(s, COMMA, 0);
    if n == |s| then [s] else [s[..n]] + Split(s[n + 1..])
  }

  function NonEmpty(fields: seq<string>): seq<string> {
    if fields == [] then []
    else (if fields[0] == "" then [] else [fields[0]]) + NonEmpty(fields[1..])
  }

  function Join(fields: seq<string>): string {
    if fields == [] then ""
    else if |fields| == 1 then fields[0]
    else Join(fields[..|fields| - 1]) + [COMMA] + fields[|fields| - 1]
  }

  lemma JoinNotEmpty(fields: seq<string>)
    requires fields != [] && forall f | f in fields :: IsToken(f)
    ensures Join(fields) != ""
  {
    assert fields[|fields| - 1] in fields;
  }

  predicate IsToken(s: string) {
    s != "" && COMMA !in s
  }

  lemma {:induction false} TokensAreTokens(s: string)
    ensures forall t | t in Tokens(s) :: IsToken(t)
    decreases |s|
  {
    if s != "" {
      if s[0] == COMMA {
        TokensAreTokens(s[1..]);
      } else {
        TokensAreTokens(s[IndexFrom(s, COMMA, 0)..]);
      }
    }
  }

  /** Skipping runs of commas is the same as dropping the empty fields. */
  lemma {:induction false} TokensAreNonEmptyFields(s: string)
    ensures Tokens(s) == NonEmpty(Split(s))
    decreases |s|
  {
    var n := IndexFrom(s, COMMA, 0);
    if n == |s| {
      if s != "" {
        assert s[..n] == s && s[n..] == "";
      }
      assert NonEmpty([s]) == if s == "" then [] else [s];
    } else {
      TokensAreNonEmptyFields(s[n + 1..]);
      assert Split(s)[1..] == Split(s[n + 1..]);
      if n > 0 {
        assert s[n..][0] == COMMA && s[n..][1..] == s[n + 1..];
      }
    }
  }

  lemma {:induction false} TokensOfOne(t: string)
    requires IsToken(t)
    ensures Tokens(t) == [t]
  {
    IndexIs(t, COMMA, 0, |t|);
    assert t[..|t|] == t && t[|t|..] == "";
  }

  /** Tokens of a list and of what follows a comma. */
  lemma {:induction false} TokensAppend(s: string, t: string)
    ensures Tokens(s + [COMMA] + t) == Tokens(s) + Tokens(t)
    decreases |s|
  {
    var whole := s + [COMMA] + t;
    if s == "" {
      assert whole[1..] == t;
    } else if s[0] == COMMA {
      TokensAppend(s[1..], t);
      assert whole[1..] == s[1..] + [COMMA] + t;
    } else {
      var n := IndexFrom(s, COMMA, 0);
      IndexIs(whole, COMMA, 0, n);
      TokensAppend(s[n..], t);
      assert whole[..n] == s[..n] && whole[n..] == s[n..] + [COMMA] + t;
    }
  }

  /** Printing a list of tokens and splitting it again gives the list back. */
  lemma {:induction false} TokensOfJoin(fields: seq<string>)
    requires forall f | f in fields :: IsToken(f)
    ensures Tokens(Join(fields)) == fields
  {
    if |fields| == 1 {
      TokensOfOne(fields[0]);
    } else if |fields| > 1 {
      var front, last := fields[..|fields| - 1], fields[|fields| - 1];
      TokensOfJoin(front);
      TokensAppend(Join(front), last);
      TokensOfOne(last);
    }
  }

  /** Leading commas do not matter. */
  lemma {:induction false} TokensSkip(s: string, n: nat)
    requires n <= |s| && forall i | 0 <= i < n :: s[i] == COMMA
    ensures Tokens(s) == Tokens(s[n..])
  {
    if n == 0 {
      assert s[0..] == s;
    } else {
      TokensSkip(s[1..], n - 1);
      assert s[1..][n - 1..] == s[n..];
    }
  }

  // ---------------------------------------------------------------- scanning an array

  /** memchr() on the positions from..limit; the result is limit if c is not there. */
  method Scan(a: array<char>, from: nat, limit: nat, c: char) returns (i: nat)
    requires from <= limit <= a.Length
    ensures from <= i <= limit && (forall j | from <= j < i :: a[j] != c) && (i < limit ==> a[i] == c)
  {
    i := from;
    while i < limit && a[i] != c
      invariant from <= i <= limit && forall j | from <= j < i :: a[j] != c
    {
      i := i + 1;
    }
  }

  /** An array that ends with a NUL byte: C string functions stay within it. */
  ghost predicate Terminated(a: array<char>)
    reads a
  {
    a.Length > 0 && a[a.Length - 1] == NUL
  }

  /** strlen() */
  method StrLen(a: array<char>, from: nat) returns (n: nat)
    requires from < a.Length && IndexFrom(a[..], NUL, from) < a.Length
    ensures from + n == IndexFrom(a[..], NUL, from) && |CStr(a[..], from)| == n
  {
    n := 0;
    while a[from + n] != NUL
      invariant from + n <= IndexFrom(a[..], NUL, from) && forall j | from <= j < from + n :: a[j] != NUL
      decreases a.Length - n
    {
      n := n + 1;
    }
    IndexIs(a[..], NUL, from, from + n);
  }

  /** strchr(): the first c before the end of the string. */
  method StrChr(a: array<char>, from: nat, c: char) returns (i: nat, found: bool)
    requires Terminated(a) && from < a.Length && c != NUL
    ensures from <= i <= IndexFrom(a[..], NUL, from) < a.Length
    ensures (forall j | from <= j < i :: a[j] != c) && (found <==> a[i] == c)
    ensures found <==> c in CStr(a[..], from)
    ensures !found ==> i == IndexFrom(a[..], NUL, from)
  {
    i := from;
    while a[i] != c && a[i] != NUL
      invariant from <= i < a.Length && forall j | from <= j < i :: a[j] != c && a[j] != NUL
      decreases a.Length - i
    {
      i := i + 1;
    }
    found := a[i] == c;
    if found {
      assert CStr(a[..], from)[i - from] == c;
    } else {
      IndexIs(a[..], NUL, from, i);
    }
  }

  /** strncmp() with the length of the keyword: it stops at the first difference. */
  method StartsWith(a: array<char>, from: nat, keyword: string) returns (yes: bool)
    requires Terminated(a) && from < a.Length && NUL !in keyword
    ensures yes <==> keyword <= CStr(a[..], from)
  {
    var i := 0;
    ghost var end := IndexFrom(a[..], NUL, from);
    ghost var text := CStr(a[..], from);
    while i < |keyword| && a[from + i] == keyword[i]
      invariant 0 <= i <= |keyword| && from + i <= end < a.Length
      invariant keyword[..i] == text[..i]
    {
      assert keyword[i] in keyword;
      i := i + 1;
    }
    yes := i == |keyword|;
    assert from + i < end ==> text[i] == a[from + i];
  }

  /** strspn() with a comma. */
  method SkipCommas(a: array<char>, from: nat) returns (start: nat)
    requires Terminated(a) && from < a.Length
    ensures from <= start < a.Length && a[start] != COMMA
    ensures Tokens(CStr(a[..], from)) == Tokens(CStr(a[..], start))
    ensures a[start] == NUL ==> Tokens(CStr(a[..], from)) == []
  {
    ghost var s := a[..];
    ghost var end := IndexFrom(s, NUL, from);
    start := from;
    while a[start] == COMMA
      invariant from <= start <= end < a.Length && forall i | from <= i < start :: a[i] == COMMA
      decreases a.Length - start
    {
      start := start + 1;
    }
    TokensSkip(CStr(s, from), start - from);
    IndexIs(s, NUL, start, end);
    assert CStr(s, from)[start - from..] == CStr(s, start);
  }

  /** strcspn() with a comma. */
  method TokenEnd(a: array<char>, start: nat) returns (next: nat)
    requires Terminated(a) && start < a.Length && a[start] != COMMA && a[start] != NUL
    ensures start < next < a.Length && (a[next] == COMMA || a[next] == NUL)
    ensures forall i | start <= i < next :: a[i] != COMMA && a[i] != NUL
  {
    next := start + 1;
    while a[next] != COMMA && a[next] != NUL
      invariant start < next < a.Length && forall i | start <= i < next :: a[i] != COMMA && a[i] != NUL
      decreases a.Length - next
    {
      next := next + 1;
    }
  }

  /** strtok_r() with a comma: the first token at or after a position is cut out in place. */
  method StrTok(a: array<char>, from: nat) returns (start: nat, next: nat, found: bool)
    requires Terminated(a) && from < a.Length
    modifies a
    ensures Terminated(a)
    ensures !found ==> Tokens(old(CStr(a[..], from))) == []
    ensures found ==>
              && from <= start < next < a.Length
              && IsToken(CStr(a[..], start)) && NUL !in CStr(a[..], start)
              && Tokens(old(CStr(a[..], from))) == [CStr(a[..], start)] + Tokens(CStr(a[..], next))
              && var end := start + |CStr(a[..], start)|;
                 next == end + 1 || (next == end && a[next] == NUL)
  {
    hide IndexFrom, CStr, Tokens, IsToken;
    start := SkipCommas(a, from);
    next, found := start, a[start] != NUL;
    if !found { return; }
    next := TokenEnd(a, start);
    ghost var s, end := a[..], next;
    if a[next] == COMMA {
      a[next] := NUL;
      next := next + 1;
    }
    TokenTaken(s, a[..], start, end, next);
  }

  /** The array holds these tokens from a position on: the first one is already cut out. */
  ghost predicate Remaining(copy: array<char>, start: nat, next: nat, found: bool, tokens: seq<string>)
    reads copy
  {
    && Terminated(copy)
    && (found ==>
          && start < next < copy.Length && IsToken(CStr(copy[..], start))
          && tokens == [CStr(copy[..], start)] + Tokens(CStr(copy[..], next))
          && var end := start + |CStr(copy[..], start)|;
             next == end + 1 || (next == end && Tokens(CStr(copy[..], next)) == []))
    && (!found ==> tokens == [])
  }

  /** strtok_r() on the rest of the list. */
  method NextToken(copy: array<char>, from: nat) returns (start: nat, next: nat, found: bool)
    requires Terminated(copy) && from < copy.Length
    modifies copy
    ensures Remaining(copy, start, next, found, Tokens(old(CStr(copy[..], from))))
    ensures found ==> from <= start
  {
    start, next, found := StrTok(copy, from);
    if found && copy[next] == NUL {
      IndexIs(copy[..], NUL, next, next);
    }
  }

  /** Overwriting the delimiter leaves the token and the rest of the list. */
  lemma TokenCut(s: string, t: string, start: nat, next: nat)
    requires start < next < |s| - 1 && t == s[next := NUL]
    requires forall i | start <= i < next :: s[i] != NUL
    ensures CStr(t, start) == s[start..next] && CStr(t, next + 1) == CStr(s, next + 1)
  {
    IndexIs(t, NUL, start, next);
    SameCStr(s, t, next + 1);
  }

  lemma SameCStr(s: string, t: string, from: nat)
    requires from <= |s| == |t| && s[from..] == t[from..]
    ensures CStr(s, from) == CStr(t, from)
  {
    assert forall i | from <= i < |s| :: s[i] == s[from..][i - from] == t[i];
    IndexIs(t, NUL, from, IndexFrom(s, NUL, from));
    assert CStr(s, from) == CStr(t, from);
  }

  /** The first token of a string, and where the rest of it begins. */
  lemma TokenFirst(s: string, start: nat, next: nat)
    requires start < next < |s| && (s[next] == COMMA || s[next] == NUL)
    requires forall i | start <= i < next :: s[i] != COMMA && s[i] != NUL
    ensures IsToken(s[start..next]) && NUL !in s[start..next]
    ensures Tokens(CStr(s, start))
         == [s[start..next]] + if s[next] == COMMA then Tokens(CStr(s, next + 1)) else []
  {
    hide Tokens;
    var text := CStr(s, start);
    if s[next] == NUL {
      IndexIs(s, NUL, start, next);
      TokensOfOne(text);
    } else {
      var end := IndexFrom(s, NUL, next + 1);
      IndexIs(s, NUL, start, end);
      TokensOfOne(s[start..next]);
      TokensAppend(s[start..next], s[next + 1..end]);
      assert text == s[start..next] + [COMMA] + s[next + 1..end];
    }
  }

  /** What strtok_r() leaves of a string: its first token, and the rest after it. */
  lemma TokenTaken(s: string, t: string, start: nat, end: nat, next: nat)
    requires start < end < |s| && s[|s| - 1] == NUL
    requires forall i | start <= i < end :: s[i] != COMMA && s[i] != NUL
    requires || (s[end] == COMMA && t == s[end := NUL] && next == end + 1)
             || (s[end] == NUL && t == s && next == end)
    ensures IsToken(CStr(t, start)) && NUL !in CStr(t, start) && |CStr(t, start)| == end - start
    ensures next < |t| && Tokens(CStr(s, start)) == [CStr(t, start)] + Tokens(CStr(t, next))
  {
    hide Tokens, IsToken;
    TokenFirst(s, start, end);
    if s[end] == COMMA {
      TokenCut(s, t, start, end);
    } else {
      IndexIs(s, NUL, start, end);
      IndexIs(s, NUL, end, end);
      NoTokens();
      assert CStr(t, next) == "" && CStr(t, start) == s[start..end];
    }
  }

  lemma NoTokens()
    ensures Tokens("") == []
  {
  }

  /** strcpy() to a position of another array. */
  method StrCpy(dst: array<char>, at: nat, src: array<char>, from: nat)
    requires dst != src && Terminated(src) && from < src.Length
    requires at + |CStr(src[..], from)| < dst.Length
    modifies dst
    ensures var n := |CStr(src[..], from)|;
            && dst[..at] == old(dst[..at]) && dst[at..at + n] == CStr(src[..], from) && dst[at + n] == NUL
  {
    var i := 0;
    ghost var text := CStr(src[..], from);
    while src[from + i] != NUL
      invariant i <= |text| && dst[..at] == old(dst[..at]) && dst[at..at + i] == text[..i]
      decreases |text| - i
    {
      assert text[i] == src[from + i];
      dst[at + i] := src[from + i];
      i := i + 1;
    }
    dst[at + i] := NUL;
    assert i == |text|;
  }
}
