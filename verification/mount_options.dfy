/** Option parsing of mount.c: recognised options become flags, the others are joined again. */
module MountOptions {
  import opened Text

  type Flags = bv32

  datatype Known = Known(text: string, flag: Flags)

  /** The table of recognised options, with the values of MS_RDONLY, MS_NOEXEC, MS_NODEV and MS_NOSUID. */
  const OPTIONS := [Known("ro", 1), Known("noexec", 8), Known("nodev", 4), Known("nosuid", 2)]

  function FlagOf(token: string): Flags {
    if token == "ro" then 1
    else if token == "noexec" then 8
    else if token == "nodev" then 4
    else if token == "nosuid" then 2
    else 0
  }

  predicate IsKnown(token: string) {
    FlagOf(token) != 0
  }

  function SetFlag(flags: Flags, token: string): Flags {
    flags | FlagOf(token)
  }

  /** What is accumulated over all tokens, from left to right. */
  function Fold<F>(tokens: seq<string>, flags: F, step: (F, string) -> F): F {
    if tokens == [] then flags else step(Fold(tokens[..|tokens| - 1], flags, step), tokens[|tokens| - 1])
  }

  /** The tokens that are not known, in order. */
  function Unknown(tokens: seq<string>, known: string -> bool): seq<string> {
    if tokens == [] then []
    else
      var last := tokens[|tokens| - 1];
      Unknown(tokens[..|tokens| - 1], known) + if known(last) then [] else [last]
  }

  // ---------------------------------------------------------------- what they mean

  predicate HasFlag(flags: Flags, flag: Flags) {
    flags & flag != 0
  }

  lemma OrHasFlag(a: Flags, b: Flags, flag: Flags)
    ensures HasFlag(a | b, flag) <==> HasFlag(a, flag) || HasFlag(b, flag)
  {
    assert (a | b) & flag == (a & flag) | (b & flag);
  }

  lemma FlagOfTable(token: string, known: Known)
    requires known in OPTIONS
    ensures HasFlag(FlagOf(token), known.flag) <==> token == known.text
  {
    assert known == OPTIONS[0] || known == OPTIONS[1] || known == OPTIONS[2] || known == OPTIONS[3];
    assert |"ro"| == 2 && |"noexec"| == 6 && |"nodev"| == 5 && |"nosuid"| == 6 && "nosuid"[2] == 's'
           && "noexec"[2] == 'e';
  }

  lemma LastFlagSet(tokens: seq<string>, flags: Flags)
    requires tokens != []
    ensures Fold(tokens, flags, SetFlag) == Fold(tokens[..|tokens| - 1], flags, SetFlag) | FlagOf(tokens[|tokens| - 1])
  {
    hide FlagOf;
  }

  lemma FlagOfLast(tokens: seq<string>, flags: Flags, known: Known)
    requires tokens != [] && known in OPTIONS
    ensures var before := Fold(tokens[..|tokens| - 1], flags, SetFlag);
            HasFlag(Fold(tokens, flags, SetFlag), known.flag)
            <==> HasFlag(before, known.flag) || tokens[|tokens| - 1] == known.text
  {
    hide FlagOf, SetFlag, HasFlag, Fold;
    LastFlagSet(tokens, flags);
    OrHasFlag(Fold(tokens[..|tokens| - 1], flags, SetFlag), FlagOf(tokens[|tokens| - 1]), known.flag);
    FlagOfTable(tokens[|tokens| - 1], known);
  }

  lemma NoTokens(flags: Flags)
    ensures Fold([], flags, SetFlag) == flags
  {
  }

  /** A known flag is set exactly if it was set before or its option is in the list. */
  lemma {:induction false} FlagsAreTheOptions(tokens: seq<string>, flags: Flags, known: Known)
    requires known in OPTIONS
    ensures HasFlag(Fold(tokens, flags, SetFlag), known.flag) <==> HasFlag(flags, known.flag) || known.text in tokens
  {
    hide HasFlag, FlagOf, SetFlag, Fold;
    if tokens == [] {
      NoTokens(flags);
    } else {
      var front, last := tokens[..|tokens| - 1], tokens[|tokens| - 1];
      FlagsAreTheOptions(front, flags, known);
      FlagOfLast(tokens, flags, known);
      assert tokens == front + [last];
    }
  }

  /** No other bit changes. */
  lemma {:induction false} OtherBitsStay(tokens: seq<string>, flags: Flags)
    ensures Fold(tokens, flags, SetFlag) & 0xFFFF_FFF0 == flags & 0xFFFF_FFF0
  {
    if tokens != [] {
      OtherBitsStay(tokens[..|tokens| - 1], flags);
      LowBits(Fold(tokens[..|tokens| - 1], flags, SetFlag), FlagOf(tokens[|tokens| - 1]));
    }
  }

  lemma LowBits(a: Flags, b: Flags)
    requires b < 16
    ensures (a | b) & 0xFFFF_FFF0 == a & 0xFFFF_FFF0
  {
  }

  /** A token is left over exactly if it is in the list and not known. */
  lemma {:induction false} UnknownAreTheOthers(tokens: seq<string>, token: string, known: string -> bool)
    ensures token in Unknown(tokens, known) <==> token in tokens && !known(token)
  {
    if tokens != [] {
      UnknownAreTheOthers(tokens[..|tokens| - 1], token, known);
      assert tokens == tokens[..|tokens| - 1] + [tokens[|tokens| - 1]];
    }
  }

  function Not(known: string -> bool): string -> bool {
    t => !known(t)
  }

  lemma LastIsEither(tokens: seq<string>, known: string -> bool)
    requires tokens != []
    ensures var front, last := tokens[..|tokens| - 1], tokens[|tokens| - 1];
            && Unknown(tokens, known) == Unknown(front, known) + (if known(last) then [] else [last])
            && Unknown(tokens, Not(known)) == Unknown(front, Not(known)) + (if known(last) then [last] else [])
  {
  }

  /** Together these tokens are all tokens, each as often as it is among them. */
  ghost predicate AddUp(others: seq<string>, those: seq<string>, all: seq<string>) {
    multiset(others) + multiset(those) == multiset(all)
  }

  lemma OneToEither(front: seq<string>, last: string, others: seq<string>, those: seq<string>, here: bool)
    requires AddUp(others, those, front)
    ensures AddUp(others + (if here then [] else [last]), those + (if here then [last] else []), front + [last])
  {
    assert others + [] == others && those + [] == those;
  }

  /** Together the known and the unknown tokens are all tokens, each as often as it was listed. */
  lemma {:induction false} NoTokenIsLost(tokens: seq<string>, known: string -> bool)
    ensures AddUp(Unknown(tokens, known), Unknown(tokens, Not(known)), tokens)
  {
    hide Unknown, Not, AddUp;
    if tokens == [] {
      NoneAddUp(known);
    } else {
      var front, last := tokens[..|tokens| - 1], tokens[|tokens| - 1];
      var others, those := Unknown(front, known), Unknown(front, Not(known));
      NoTokenIsLost(front, known);
      LastIsEither(tokens, known);
      OneToEither(front, last, others, those, known(last));
      assert tokens == front + [last];
    }
  }

  lemma NoneAddUp(known: string -> bool)
    ensures AddUp(Unknown([], known), Unknown([], Not(known)), [])
  {
  }

  /** What is left over of a longer list follows what is left over of its beginning. */
  lemma {:induction false} UnknownKeepOrder(a: seq<string>, b: seq<string>, known: string -> bool)
    ensures Unknown(a + b, known) == Unknown(a, known) + Unknown(b, known)
  {
    if b == [] {
      assert a + b == a;
    } else {
      assert (a + b)[..|a + b| - 1] == a + b[..|b| - 1];
      UnknownKeepOrder(a, b[..|b| - 1], known);
    }
  }

  lemma {:induction false} UnknownStay(tokens: seq<string>, flags: Flags)
    requires forall t | t in tokens :: !IsKnown(t)
    ensures Unknown(tokens, IsKnown) == tokens && Fold(tokens, flags, SetFlag) == flags
  {
    if tokens != [] {
      UnknownStay(tokens[..|tokens| - 1], flags);
      assert !IsKnown(tokens[|tokens| - 1]);
    }
  }

  function Leftover(options: string): string {
    Join(Unknown(Tokens(options), IsKnown))
  }

  /** Parsing the leftovers again sets no flag and leaves them as they are. */
  lemma ReparsingChangesNothing(options: string, flags: Flags)
    ensures Fold(Tokens(Leftover(options)), flags, SetFlag) == flags
    ensures Leftover(Leftover(options)) == Leftover(options)
  {
    var tokens := Tokens(options);
    var others := Unknown(tokens, IsKnown);
    TokensAreTokens(options);
    forall t | t in others ensures IsToken(t) && !IsKnown(t) {
      UnknownAreTheOthers(tokens, t, IsKnown);
    }
    TokensOfJoin(others);
    UnknownStay(others, flags);
  }

  // ---------------------------------------------------------------- the parser

  /** The search in the table of options. */
  method LookUp(option: string) returns (flag: Flags)
    ensures flag == FlagOf(option)
  {
    flag := 0;
    for i := 0 to |OPTIONS|
      invariant flag == 0
      invariant forall j | 0 <= j < i :: OPTIONS[j].text != option
    {
      if OPTIONS[i].text == option {
        return OPTIONS[i].flag;
      }
    }
    assert OPTIONS[0].text != option && OPTIONS[1].text != option && OPTIONS[2].text != option
           && OPTIONS[3].text != option;
  }

  /** The bytes begin with this text and its NUL byte. */
  ghost predicate BeginsWith(d: string, text: string) {
    |text| < |d| && d[..|text|] == text && d[|text|] == NUL && NUL !in text
  }

  /** data holds this text, with room for its own length in all. */
  ghost predicate Contains(data: array<char>, text: string)
    reads data
  {
    BeginsWith(data[..], text)
  }

  function Appended(text: string, option: string): string {
    if text == "" then option else text + [COMMA] + option
  }

  lemma LengthOf(d: string, text: string)
    requires BeginsWith(d, text)
    ensures |text| < |d| && IndexFrom(d, NUL, 0) == |text| && NUL !in text
    ensures d[|text| := COMMA][..|text| + 1] == text + [COMMA]
  {
    assert forall j | 0 <= j < |text| :: d[j] == text[j];
    IndexIs(d, NUL, 0, |text|);
  }

  lemma NoNulInside(s: string, from: nat)
    requires from <= |s|
    ensures NUL !in CStr(s, from)
  {
  }

  lemma AppendedInPlace(d: string, text: string, option: string, at: nat)
    requires at == (if text == "" then 0 else |text| + 1) && at + |option| < |d| && NUL !in text && NUL !in option
    requires text != "" ==> d[..at] == text + [COMMA]
    requires d[at..at + |option|] == option && d[at + |option|] == NUL
    ensures BeginsWith(d, Appended(text, option))
  {
    assert d[..at + |option|] == d[..at] + d[at..at + |option|];
  }

  /** An unrecognised option is appended to those before it. */
  method AppendOption(data: array<char>, copy: array<char>, start: nat, ghost text: string, ghost option: string)
    requires data != copy && Terminated(copy) && start < copy.Length && option == CStr(copy[..], start)
    requires Contains(data, text) && |Appended(text, option)| < data.Length
    modifies data
    ensures Contains(data, Appended(text, option))
  {
    hide IndexFrom, CStr, BeginsWith;
    ghost var d := data[..];
    LengthOf(d, text);
    NoNulInside(copy[..], start);
    var n := StrLen(data, 0);
    if n == 0 {
      StrCpy(data, 0, copy, start);
      AppendedInPlace(data[..], text, option, 0);
    } else {
      data[n] := COMMA;
      assert data[..n + 1] == d[n := COMMA][..n + 1];
      StrCpy(data, n + 1, copy, start);
      assert data[..][..n + 1] == data[..n + 1];
      assert data[..][n + 1..n + 1 + |option|] == data[n + 1..n + 1 + |option|];
      AppendedInPlace(data[..], text, option, n + 1);
    }
  }

  lemma TextAt(s: string, start: nat, n: nat)
    requires start <= |s| && |CStr(s, start)| == n
    ensures start + n <= |s| && s[start..start + n] == CStr(s, start)
  {
  }

  lemma FlagTells(flags: Flags, option: string)
    ensures SetFlag(flags, option) == flags | FlagOf(option) && (IsKnown(option) <==> FlagOf(option) != 0)
  {
  }

  /** One option, cut out of the copy, becomes a flag or a leftover. */
  method TakeOption(copy: array<char>, start: nat, leftovers: array<char>, flags: Flags,
                    ghost text: string, ghost option: string)
    returns (newFlags: Flags)
    requires Terminated(copy) && leftovers != copy && start < copy.Length && option == CStr(copy[..], start)
    requires Contains(leftovers, text) && |Appended(text, option)| < leftovers.Length
    modifies leftovers
    ensures newFlags == SetFlag(flags, option)
    ensures Contains(leftovers, if IsKnown(option) then text else Appended(text, option))
  {
    hide CStr, IndexFrom, BeginsWith, FlagOf, SetFlag, IsKnown;
    var n := StrLen(copy, start);
    var token := copy[start..start + n];
    TextAt(copy[..], start, n);
    var flag := LookUp(token);
    newFlags := flags | flag;
    FlagTells(flags, option);
    if flag == 0 {
      AppendOption(leftovers, copy, start, text, option);
    }
  }

  /** What the parser has made of the tokens taken so far. */
  ghost predicate Parsed<F>(taken: seq<string>, before: F, flags: F, text: string,
                            step: (F, string) -> F, known: string -> bool)
  {
    && (forall t | t in taken :: IsToken(t))
    && flags == Fold(taken, before, step) && text == Join(Unknown(taken, known))
  }

  lemma JoinAppended(others: seq<string>, option: string)
    requires forall t | t in others :: IsToken(t)
    ensures Join(others + [option]) == Appended(Join(others), option)
  {
    assert (others + [option])[..|others|] == others;
    if others == [] {
      assert others + [option] == [option];
    } else {
      JoinNotEmpty(others);
    }
  }

  lemma ParsedStep<F>(taken: seq<string>, before: F, flags: F, text: string, option: string,
                      step: (F, string) -> F, known: string -> bool)
    requires Parsed(taken, before, flags, text, step, known) && IsToken(option)
    ensures Parsed(taken + [option], before, step(flags, option),
                   if known(option) then text else Appended(text, option), step, known)
  {
    var others := Unknown(taken, known);
    assert (taken + [option])[..|taken|] == taken && others + [] == others;
    forall t | t in others ensures IsToken(t) {
      UnknownAreTheOthers(taken, t, known);
    }
    JoinAppended(others, option);
  }

  /** _parse_options(). The buffer for the leftovers has the size of the options string with its NUL
      byte, and writing stays within it. */
  method ParseOptions(options: string, flags: Flags, copyAllocated: bool, dataAllocated: bool)
    returns (result: bool, newFlags: Flags, data: array?<char>)
    requires NUL !in options
    ensures result <==> copyAllocated && dataAllocated
    ensures result ==> newFlags == Fold(Tokens(options), flags, SetFlag)
    ensures result ==> data != null && data.Length == 1 + |options| && Contains(data, Leftover(options))
    ensures !result ==> newFlags == flags
  {
    newFlags, data := flags, null;
    var size := 1 + |options|;
    if !copyAllocated { return false, newFlags, data; }
    var copy := new char[size](i requires 0 <= i < size => if i < |options| then options[i] else NUL);
    if !dataAllocated { return false, newFlags, data; }
    var leftovers := new char[size];
    leftovers[0] := NUL;
    IndexIs(copy[..], NUL, 0, |options|);
    assert CStr(copy[..], 0) == options;
    newFlags := ParseInPlace(copy, leftovers, flags, Tokens(options));
    result, data := true, leftovers;
  }

  lemma Shift(taken: seq<string>, option: string, rest: seq<string>)
    ensures taken + ([option] + rest) == taken + [option] + rest
    ensures taken + [] == taken
  {
  }

  /** The loop over the tokens. */
  method ParseInPlace(copy: array<char>, leftovers: array<char>, flags: Flags, ghost tokens: seq<string>)
    returns (newFlags: Flags)
    requires Terminated(copy) && tokens == Tokens(CStr(copy[..], 0))
    requires copy != leftovers && copy.Length == leftovers.Length && Contains(leftovers, "")
    modifies copy, leftovers
    ensures newFlags == Fold(tokens, flags, SetFlag)
    ensures Contains(leftovers, Join(Unknown(tokens, IsKnown)))
  {
    ghost var taken: seq<string>, rest, text := [], tokens, "";
    newFlags := flags;
    var start, next, found := NextToken(copy, 0);
    while found
      invariant Remaining(copy, start, next, found, rest) && tokens == taken + rest
      invariant Parsed(taken, flags, newFlags, text, SetFlag, IsKnown) && Contains(leftovers, text)
      invariant found && text != "" ==> |text| < start
      decreases |rest|, found
    {
      ghost var option, later := CStr(copy[..], start), Tokens(CStr(copy[..], next));
      ParsedStep(taken, flags, newFlags, text, option, SetFlag, IsKnown);
      newFlags := TakeOption(copy, start, leftovers, newFlags, text, option);
      text := if IsKnown(option) then text else Appended(text, option);
      Shift(taken, option, later);
      taken, rest := taken + [option], later;
      start, next, found := NextToken(copy, next);
    }
    Shift(taken, "", []);
  }
}
