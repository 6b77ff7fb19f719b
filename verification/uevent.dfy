/** The uevent scanner of devd.c. It does not jump from field to field: after each look it moves on
    by one more than the length of what follows the delimiter, which revisits the inside of fields. */
module Uevent {
  import opened FieldScan
  import opened Text
  import opened Wrappers

  const MODALIAS := "MODALIAS="
  const ACTION := "ACTION="
  const DRIVER := "DRIVER="

  /** The values found so far. */
  datatype Values = Values(alias: Option<string>, action: Option<string>, driver: Option<string>)

  const NOTHING := Values(None, None, None)

  datatype Outcome = Ignored | NotAdded | Modprobe(name: string) | ActionMissing

  // ---------------------------------------------------------------- the plain reading of a message

  function Look(f: string, v: Values): Values {
    if MODALIAS <= f then v.(alias := Some(f[|MODALIAS|..]))
    else if ACTION <= f then v.(action := Some(f[|ACTION|..]))
    else if DRIVER <= f then v.(driver := Some(f[|DRIVER|..]))
    else v
  }

  function PlainRead(fields: seq<string>, v: Values): Values {
    if fields == [] then v else PlainRead(fields[1..], Look(fields[0], v))
  }

  predicate HasKeyword(f: string) {
    MODALIAS <= f || ACTION <= f || DRIVER <= f
  }

  function LastWith(fields: seq<string>, keyword: string): Option<string> {
    if fields == [] then None
    else if keyword <= fields[|fields| - 1] then Some(fields[|fields| - 1][|keyword|..])
    else LastWith(fields[..|fields| - 1], keyword)
  }

  /** The plain reading takes the last field of each keyword. */
  lemma {:induction false} PlainReadIsLast(fields: seq<string>)
    ensures PlainRead(fields, NOTHING)
         == Values(LastWith(fields, MODALIAS), LastWith(fields, ACTION), LastWith(fields, DRIVER))
  {
    if fields != [] {
      var front, last := fields[..|fields| - 1], fields[|fields| - 1];
      PlainReadIsLast(front);
      PlainReadAppend(front, last, NOTHING);
      assert fields == front + [last];
      KeywordsDiffer(last);
    }
  }

  lemma KeywordsDiffer(f: string)
    ensures !(MODALIAS <= f && ACTION <= f) && !(MODALIAS <= f && DRIVER <= f) && !(ACTION <= f && DRIVER <= f)
  {
    if |f| > 0 {
      assert MODALIAS <= f ==> f[0] == 'M';
      assert ACTION <= f ==> f[0] == 'A';
      assert DRIVER <= f ==> f[0] == 'D';
    }
  }

  lemma {:induction false} PlainReadAppend(fields: seq<string>, last: string, v: Values)
    ensures PlainRead(fields + [last], v) == Look(last, PlainRead(fields, v))
  {
    if fields == [] {
      assert fields + [last] == [last];
      assert PlainRead([last][1..], Look(last, v)) == Look(last, v);
    } else {
      assert (fields + [last])[1..] == fields[1..] + [last];
      PlainReadAppend(fields[1..], last, Look(fields[0], v));
    }
  }

  // ---------------------------------------------------------------- how the scanner reads one field

  const EQUALS := '='

  /** How far the scanner moves on from the start of f, the rest of the field it is in. */
  function Hop(f: string): (n: nat)
    ensures 1 <= n <= |f| + 1
  {
    var d := IndexFrom(f, EQUALS, 0);
    if d == |f| then |f| + 1
    else if HasKeyword(f) then |f| - d
    else 1 + |f| - d
  }

  lemma HopMoves()
    ensures Moves(Hop)
  {
  }

  /** All the looks the scanner takes within a field, and within all fields. */
  ghost function LooksAt(f: string, v: Values): Values {
    HopMoves();
    Visit(f, v, Hop, Look)
  }

  ghost function ScannerRead(fields: seq<string>, v: Values): Values {
    HopMoves();
    Read(fields, v, Hop, Look)
  }

  /** A revisited part of the field begins with a keyword. */
  predicate HidesKeyword(f: string)
    decreases |f|
  {
    Hop(f) <= |f| && (HasKeyword(f[Hop(f)..]) || HidesKeyword(f[Hop(f)..]))
  }

  lemma {:induction false} VisitIsLook(f: string, v: Values)
    requires !HidesKeyword(f)
    ensures LooksAt(f, v) == Look(f, v)
    decreases |f|
  {
    if Hop(f) <= |f| {
      VisitIsLook(f[Hop(f)..], Look(f, v));
    }
  }

  /** A value found while visiting g is no longer than what follows its keyword in g. */
  ghost predicate Within(before: Option<string>, after: Option<string>, size: int) {
    after == before || (after.Some? && |after.value| <= size)
  }

  lemma {:induction false} VisitFindsWithin(g: string, v: Values)
    ensures var w := LooksAt(g, v);
            && Within(v.alias, w.alias, |g| - |MODALIAS|)
            && Within(v.action, w.action, |g| - |ACTION|)
            && Within(v.driver, w.driver, |g| - |DRIVER|)
            && (MODALIAS <= g ==> w.alias.Some? && |w.alias.value| <= |g| - |MODALIAS|)
            && (ACTION <= g ==> w.action.Some? && |w.action.value| <= |g| - |ACTION|)
            && (DRIVER <= g ==> w.driver.Some? && |w.driver.value| <= |g| - |DRIVER|)
    decreases |g|
  {
    KeywordsDiffer(g);
    if Hop(g) <= |g| {
      VisitFindsWithin(g[Hop(g)..], Look(g, v));
    }
  }

  /** Two different results of visiting come from two different starting values, or a hidden keyword
      leaves a value that a plain look at the whole field cannot leave. */
  lemma {:induction false} HiddenKeywordShows(f: string, g: string, v: Values)
    requires |g| < |f| && (HasKeyword(g) || HidesKeyword(g))
    requires Within(None, v.alias, |f| - |MODALIAS|) && Within(None, v.action, |f| - |ACTION|)
             && Within(None, v.driver, |f| - |DRIVER|)
    ensures var w := LooksAt(g, v);
            || (w.alias.Some? && |w.alias.value| < |f| - |MODALIAS|)
            || (w.action.Some? && |w.action.value| < |f| - |ACTION|)
            || (w.driver.Some? && |w.driver.value| < |f| - |DRIVER|)
    decreases |g|
  {
    VisitFindsWithin(g, v);
    if !HasKeyword(g) {
      HiddenKeywordShows(f, g[Hop(g)..], Look(g, v));
    }
  }

  /** Visiting a field amounts to one look at it exactly if it hides no keyword. */
  lemma VisitIsLookIff(f: string)
    ensures (forall v :: LooksAt(f, v) == Look(f, v)) <==> !HidesKeyword(f)
  {
    if HidesKeyword(f) {
      KeywordsDiffer(f);
      HiddenKeywordShows(f, f[Hop(f)..], Look(f, NOTHING));
      assert LooksAt(f, NOTHING) != Look(f, NOTHING);
    } else {
      forall v ensures LooksAt(f, v) == Look(f, v) {
        VisitIsLook(f, v);
      }
    }
  }

  /** No proper suffix of the field begins with a keyword. */
  predicate IsPlain(f: string) {
    forall i | 0 < i < |f| :: !HasKeyword(f[i..])
  }

  lemma {:induction false} PlainHidesNothing(f: string)
    requires IsPlain(f)
    ensures !HidesKeyword(f)
    decreases |f|
  {
    if Hop(f) < |f| {
      var g := f[Hop(f)..];
      assert forall i | 0 < i < |g| :: g[i..] == f[Hop(f) + i..];
      PlainHidesNothing(g);
    } else if Hop(f) == |f| {
      assert f[Hop(f)..] == "";
    }
  }

  /** Main result: without hidden keywords, the scanner agrees with the plain reading. */
  lemma {:induction false} ScannerReadsPlainly(fields: seq<string>, v: Values)
    requires forall f | f in fields :: !HidesKeyword(f)
    ensures ScannerRead(fields, v) == PlainRead(fields, v)
  {
    if fields != [] {
      VisitIsLook(fields[0], v);
      ScannerReadsPlainly(fields[1..], Look(fields[0], v));
    }
  }

  /** When no proper suffix of a field begins with a keyword, the scanner finds, for each keyword, the
      last field that begins with it. */
  lemma LastFieldsAreFound(fields: seq<string>)
    requires forall f | f in fields :: IsPlain(f)
    ensures ScannerRead(fields, NOTHING)
         == Values(LastWith(fields, MODALIAS), LastWith(fields, ACTION), LastWith(fields, DRIVER))
  {
    forall f | f in fields ensures !HidesKeyword(f) {
      PlainHidesNothing(f);
    }
    ScannerReadsPlainly(fields, NOTHING);
    PlainReadIsLast(fields);
  }

  lemma LooksAtAction(v: Values)
    ensures LooksAt("ACTION=ab", v) == v.(action := Some("ab"))
  {
    var g, h, w := "ACTION=ab", "ION=ab", v.(action := Some("ab"));
    KeywordsDiffer(g);
    IndexIs(g, EQUALS, 0, 6);
    assert g[|ACTION|..] == "ab" && Look(g, v) == w && Hop(g) == 3 && g[3..] == h;
    IndexIs(h, EQUALS, 0, 3);
    assert h[0] == 'I' && Look(h, w) == w && Hop(h) == 4 && h[4..] == "ab";
    IndexIs("ab", EQUALS, 0, 2);
    assert Hop("ab") == 3 && Look("ab", w) == w;
  }

  /** Within a field the scanner goes on with what is left of it. */
  lemma LooksGoOn(f: string, d: nat, v: Values)
    requires d <= |f| && IndexFrom(f, EQUALS, 0) == d
    ensures d == |f| ==> LooksAt(f, v) == Look(f, v)
    ensures d < |f| && HasKeyword(f) ==> LooksAt(f, v) == LooksAt(f[|f| - d..], Look(f, v))
    ensures 0 < d < |f| && !HasKeyword(f) ==> LooksAt(f, v) == LooksAt(f[1 + |f| - d..], Look(f, v))
  {
    HopByDelimiter(f, d);
  }

  const MISREAD := ["@", "ACTION=add", "DRIVER=x", "SUBSYSTEMS=ACTION=ab"]

  lemma LooksAtHeader(v: Values)
    ensures LooksAt("@", v) == Look("@", v) == v
  {
    IndexIs("@", EQUALS, 0, 1);
    LooksGoOn("@", 1, v);
    assert "@"[0] == '@';
  }

  lemma LooksAtAdd(v: Values)
    ensures LooksAt("ACTION=add", v) == Look("ACTION=add", v) == v.(action := Some("add"))
  {
    var g, h, w := "ACTION=add", "ON=add", v.(action := Some("add"));
    KeywordsDiffer(g);
    IndexIs(g, EQUALS, 0, 6);
    assert g[|ACTION|..] == "add" && Look(g, v) == w && g[4..] == h;
    LooksGoOn(g, 6, v);
    IndexIs(h, EQUALS, 0, 2);
    assert h[0] == 'O' && !HasKeyword(h) && h[5..] == "d";
    LooksGoOn(h, 2, w);
    IndexIs("d", EQUALS, 0, 1);
    LooksGoOn("d", 1, w);
  }

  lemma LooksAtDriver(v: Values)
    ensures LooksAt("DRIVER=x", v) == Look("DRIVER=x", v) == v.(driver := Some("x"))
  {
    var g, h, w := "DRIVER=x", "IVER=x", v.(driver := Some("x"));
    KeywordsDiffer(g);
    IndexIs(g, EQUALS, 0, 6);
    assert g[|DRIVER|..] == "x" && Look(g, v) == w && g[2..] == h;
    LooksGoOn(g, 6, v);
    IndexIs(h, EQUALS, 0, 4);
    assert h[0] == 'I' && !HasKeyword(h) && h[3..] == "R=x";
    LooksGoOn(h, 4, w);
    IndexIs("R=x", EQUALS, 0, 1);
    assert "R=x"[0] == 'R' && !HasKeyword("R=x") && "R=x"[3..] == "";
    LooksGoOn("R=x", 1, w);
    IndexIs("", EQUALS, 0, 0);
    LooksGoOn("", 0, w);
  }

  /** A field the scanner misreads: it takes an action out of the middle of another value. */
  lemma LooksAtHidden(v: Values)
    ensures LooksAt("SUBSYSTEMS=ACTION=ab", v) == v.(action := Some("ab"))
    ensures Look("SUBSYSTEMS=ACTION=ab", v) == v
  {
    var f := "SUBSYSTEMS=ACTION=ab";
    IndexIs(f, EQUALS, 0, 10);
    assert f[0] == 'S' && !HasKeyword(f) && f[11..] == "ACTION=ab";
    LooksGoOn(f, 10, v);
    LooksAtAction(v);
  }

  /** A message of an added device that the scanner takes for another kind of event. */
  lemma MisreadMessage()
    ensures Decide(ScannerRead(MISREAD, NOTHING)) == NotAdded
    ensures Decide(PlainRead(MISREAD, NOTHING)) == Modprobe("x")
  {
    hide Hop, LooksAt, Look, ScannerRead, PlainRead;
    var added := NOTHING.(action := Some("add"));
    var known := added.(driver := Some("x"));
    LooksAtHeader(NOTHING);
    LooksAtAdd(NOTHING);
    LooksAtDriver(added);
    LooksAtHidden(known);
    ReadOne("@", MISREAD[1..], NOTHING);
    ReadOne("ACTION=add", MISREAD[2..], NOTHING);
    ReadOne("DRIVER=x", MISREAD[3..], added);
    ReadOne("SUBSYSTEMS=ACTION=ab", [], known);
    ReadNone(known);
    ReadNone(known.(action := Some("ab")));
    assert MISREAD == ["@"] + MISREAD[1..] && MISREAD[1..] == ["ACTION=add"] + MISREAD[2..];
    assert MISREAD[2..] == ["DRIVER=x"] + MISREAD[3..] && MISREAD[3..] == ["SUBSYSTEMS=ACTION=ab"] + [];
    assert known.action.value == "add" && "ab" != "add";
  }

  lemma ReadOne(f: string, rest: seq<string>, v: Values)
    ensures ScannerRead([f] + rest, v) == ScannerRead(rest, LooksAt(f, v))
    ensures PlainRead([f] + rest, v) == PlainRead(rest, Look(f, v))
  {
    assert ([f] + rest)[1..] == rest;
  }

  lemma ReadNone(v: Values)
    ensures ScannerRead([], v) == v && PlainRead([], v) == v
  {
  }

  // ---------------------------------------------------------------- pointers into the message

  predicate KeywordAt(s: string, p: int, keyword: string) {
    0 <= p <= |s| && keyword <= CStr(s, p)
  }

  /** What follows the keyword at the last of these positions that has it. */
  function LastLook(s: string, looks: seq<int>, keyword: string): Option<nat> {
    if looks == [] then None
    else
      var last := looks[|looks| - 1];
      if KeywordAt(s, last, keyword) then Some(last + |keyword|) else LastLook(s, looks[..|looks| - 1], keyword)
  }

  lemma {:induction false} LastLookIsLast(s: string, looks: seq<int>, keyword: string)
    requires Increasing(looks)
    ensures LastLook(s, looks, keyword) == None ==> forall p | p in looks :: !KeywordAt(s, p, keyword)
    ensures LastLook(s, looks, keyword).Some? ==>
              var last := LastLook(s, looks, keyword).value - |keyword|;
              && last in looks && KeywordAt(s, last, keyword)
              && forall p | p in looks && KeywordAt(s, p, keyword) :: p <= last
  {
    hide KeywordAt;
    if looks != [] {
      var front, last := looks[..|looks| - 1], looks[|looks| - 1];
      LastLookIsLast(s, front, keyword);
      assert looks == front + [last];
    }
  }

  /** The looks of the scanner, from a position on. */
  ghost function ScannerLooks(s: string, at: nat): seq<int> {
    HopMoves();
    Positions(s, at, Hop)
  }

  /** A revisited part of the field begins with this keyword. */
  predicate Hides(f: string, keyword: string)
    decreases |f|
  {
    Hop(f) <= |f| && (keyword <= f[Hop(f)..] || Hides(f[Hop(f)..], keyword))
  }

  /** A field hides the keyword, and no later field begins with it. */
  predicate Misleads(fields: seq<string>, keyword: string) {
    exists i | 0 <= i < |fields| :: Hides(fields[i], keyword) && NoneBegins(fields[i + 1..], keyword)
  }

  predicate NoneBegins(fields: seq<string>, keyword: string) {
    forall f | f in fields :: !(keyword <= f)
  }

  lemma MisleadsCons(f: string, rest: seq<string>, keyword: string)
    ensures Misleads([f] + rest, keyword)
       <==> Misleads(rest, keyword) || (Hides(f, keyword) && NoneBegins(rest, keyword))
  {
    var fields := [f] + rest;
    assert forall i | 0 <= i < |rest| :: fields[i + 1] == rest[i] && fields[i + 1 + 1..] == rest[i + 1..];
    assert fields[0] == f && fields[0 + 1..] == rest;
    if Misleads(rest, keyword) {
      var i :| 0 <= i < |rest| && Hides(rest[i], keyword) && NoneBegins(rest[i + 1..], keyword);
      assert Hides(fields[i + 1], keyword);
    }
    if i :| 0 < i < |fields| && Hides(fields[i], keyword) && NoneBegins(fields[i + 1..], keyword) {
      assert fields[i] == rest[i - 1] && fields[i + 1..] == rest[i - 1 + 1..];
    }
  }

  lemma {:induction false} LastLookAppend(s: string, a: seq<int>, b: seq<int>, keyword: string)
    ensures LastLook(s, a + b, keyword)
         == if LastLook(s, b, keyword).Some? then LastLook(s, b, keyword) else LastLook(s, a, keyword)
  {
    if b == [] {
      assert a + b == a;
    } else {
      assert (a + b)[..|a + b| - 1] == a + b[..|b| - 1];
      LastLookAppend(s, a, b[..|b| - 1], keyword);
    }
  }

  /** The looks within one field. */
  ghost function LooksWithin(f: string, p: nat): seq<int> {
    HopMoves();
    FieldLooks(f, p, Hop)
  }

  lemma LooksSplit(s: string, p: nat)
    requires p < |s| && s[|s| - 1] == NUL
    ensures IndexFrom(s, NUL, p) < |s|
    ensures ScannerLooks(s, p) == LooksWithin(CStr(s, p), p) + ScannerLooks(s, IndexFrom(s, NUL, p) + 1)
  {
    hide Hop, Positions;
    HopMoves();
    PositionsSplit(s, p, Hop);
  }

  lemma WithinUnfolds(f: string, p: nat)
    ensures LooksWithin(f, p) == if Hop(f) > |f| then [p] else [p] + LooksWithin(f[Hop(f)..], p + Hop(f))
  {
    hide Hop;
  }

  /** What the looks within one field leave. */
  lemma {:induction false} LastLookWithin(s: string, p: nat, keyword: string)
    requires p < |s| && s[|s| - 1] == NUL
    ensures var f, found := CStr(s, p), LastLook(s, LooksWithin(CStr(s, p), p), keyword);
            && (Hides(f, keyword) ==> found.Some? && found.value > p + |keyword|)
            && (!Hides(f, keyword) ==> found == if keyword <= f then Some(p + |keyword|) else None)
    decreases |s| - p
  {
    hide Hop, LastLook, LooksWithin;
    var f, next := CStr(s, p), p + Hop(CStr(s, p));
    WithinUnfolds(f, p);
    LastLookOne(s, p, keyword);
    if Hop(f) <= |f| {
      SuffixOfField(s, p, next);
      LastLookWithin(s, next, keyword);
      LastLookAppend(s, [p], LooksWithin(CStr(s, next), next), keyword);
    }
  }

  lemma LastLookOne(s: string, p: nat, keyword: string)
    ensures LastLook(s, [p], keyword) == if KeywordAt(s, p, keyword) then Some(p + |keyword|) else None
  {
    LastLookOn(s, [], p, keyword);
    assert [] + [p] == [p];
  }

  lemma NoneBeginsIff(s: string, p: nat, keyword: string)
    requires p < |s| && s[|s| - 1] == NUL
    ensures NoneBegins(FieldsFrom(s, p), keyword) <==> LastLook(s, FieldStarts(s, p), keyword) == None
  {
    hide LastLook, FieldsFrom, FieldStarts;
    var starts, fields := FieldStarts(s, p), FieldsFrom(s, p);
    FieldStartsAreStarts(s, p);
    LastLookIsLast(s, starts, keyword);
    SameLength(s, p);
    forall i | 0 <= i < |starts| ensures KeywordAt(s, starts[i], keyword) <==> keyword <= fields[i] {
      FieldAtStart(s, p, i);
    }
    if NoneBegins(fields, keyword) {
      forall q | q in starts ensures !KeywordAt(s, q, keyword) {
        var i :| 0 <= i < |starts| && starts[i] == q;
        assert fields[i] in fields;
      }
    } else {
      var f :| f in fields && keyword <= f;
      var i :| 0 <= i < |fields| && fields[i] == f;
      assert starts[i] in starts && KeywordAt(s, starts[i], keyword);
    }
  }

  lemma SameLength(s: string, p: nat)
    requires p < |s| && s[|s| - 1] == NUL
    ensures |FieldsFrom(s, p)| == |FieldStarts(s, p)|
  {
    FieldAtStart(s, p, 0);
  }

  /** Later looks are found later. */
  lemma LooksAreLater(s: string, at: nat, keyword: string)
    ensures var found := LastLook(s, ScannerLooks(s, at), keyword); found.Some? ==> found.value >= at + |keyword|
  {
    hide LastLook, Positions;
    HopMoves();
    PositionsIncrease(s, at, Hop);
    LastLookIsLast(s, ScannerLooks(s, at), keyword);
  }

  /** Main result for whole messages: the scanner takes the value of a keyword from where the plain
      reading takes it, unless a field hides the keyword and no later field begins with it. */
  lemma {:induction false} SamePointerIff(s: string, p: nat, keyword: string)
    requires p < |s| && s[|s| - 1] == NUL
    ensures LastLook(s, ScannerLooks(s, p), keyword) == LastLook(s, FieldStarts(s, p), keyword)
       <==> !Misleads(FieldsFrom(s, p), keyword)
    decreases |s| - p
  {
    hide LastLook, Hop, Hides, Misleads, Positions, FieldStarts, FieldsFrom, LooksWithin, ScannerLooks;
    var f, end := CStr(s, p), IndexFrom(s, NUL, p);
    LooksSplit(s, p);
    LastLookWithin(s, p, keyword);
    LastLookAppend(s, LooksWithin(f, p), ScannerLooks(s, end + 1), keyword);
    if end + 1 == |s| {
      LastField(s, p, keyword);
    } else {
      SamePointerIff(s, end + 1, keyword);
      FirstField(s, p, keyword);
      LooksAreLater(s, end + 1, keyword);
      NothingMissed(s, end + 1, keyword);
    }
  }

  lemma LastField(s: string, p: nat, keyword: string)
    requires p < |s| && s[|s| - 1] == NUL && IndexFrom(s, NUL, p) + 1 == |s|
    ensures Misleads(FieldsFrom(s, p), keyword) <==> Hides(CStr(s, p), keyword)
    ensures ScannerLooks(s, |s|) == [] && LastLook(s, [], keyword) == None
    ensures LastLook(s, FieldStarts(s, p), keyword) == if keyword <= CStr(s, p) then Some(p + |keyword|) else None
  {
    MisleadsCons(CStr(s, p), [], keyword);
    assert [CStr(s, p)] + [] == [CStr(s, p)];
    LastLookOne(s, p, keyword);
  }

  lemma FirstField(s: string, p: nat, keyword: string)
    requires p < |s| && s[|s| - 1] == NUL && IndexFrom(s, NUL, p) + 1 < |s|
    ensures var next := IndexFrom(s, NUL, p) + 1;
            var found := LastLook(s, FieldStarts(s, next), keyword);
            && (Misleads(FieldsFrom(s, p), keyword)
                <==> Misleads(FieldsFrom(s, next), keyword) || (Hides(CStr(s, p), keyword) && found == None))
            && LastLook(s, FieldStarts(s, p), keyword)
               == if found.Some? then found else if keyword <= CStr(s, p) then Some(p + |keyword|) else None
  {
    hide Misleads, Hides, Hop, FieldsFrom, FieldStarts, LastLook, NoneBegins;
    var next := IndexFrom(s, NUL, p) + 1;
    FieldsUnfold(s, p);
    StartsUnfold(s, p);
    MisleadsCons(CStr(s, p), FieldsFrom(s, next), keyword);
    NoneBeginsIff(s, next, keyword);
    LastLookOne(s, p, keyword);
    LastLookAppend(s, [p], FieldStarts(s, next), keyword);
  }

  /** What a plain reading finds, the scanner finds too. */
  lemma NothingMissed(s: string, at: nat, keyword: string)
    requires at < |s| && s[|s| - 1] == NUL
    ensures LastLook(s, ScannerLooks(s, at), keyword) == None ==> LastLook(s, FieldStarts(s, at), keyword) == None
  {
    hide LastLook, Positions, FieldStarts, CStr, KeywordAt, Increasing, Hop;
    HopMoves();
    PositionsIncrease(s, at, Hop);
    FieldStartsAreStarts(s, at);
    LastLookIsLast(s, ScannerLooks(s, at), keyword);
    LastLookIsLast(s, FieldStarts(s, at), keyword);
    var found := LastLook(s, FieldStarts(s, at), keyword);
    if found.Some? {
      PositionsCoverFields(s, at, found.value - |keyword|, Hop);
    }
  }

  lemma {:induction false} LastLookIsLastWith(s: string, looks: seq<int>, fields: seq<string>, keyword: string)
    requires |looks| == |fields|
    requires forall i | 0 <= i < |looks| :: 0 <= looks[i] <= |s| && fields[i] == CStr(s, looks[i])
    ensures match LastWith(fields, keyword)
            case None => LastLook(s, looks, keyword) == None
            case Some(value) => var found := LastLook(s, looks, keyword);
                                found.Some? && found.value <= |s| && value == CStr(s, found.value)
  {
    if looks != [] {
      var n := |looks| - 1;
      if keyword <= fields[n] {
        KeywordSkipped(s, looks[n], keyword);
      } else {
        LastLookIsLastWith(s, looks[..n], fields[..n], keyword);
      }
    }
  }

  lemma KeywordSkipped(s: string, p: nat, keyword: string)
    requires p <= |s| && keyword <= CStr(s, p)
    ensures p + |keyword| <= |s| && CStr(s, p + |keyword|) == CStr(s, p)[|keyword|..]
  {
    IndexIs(s, NUL, p + |keyword|, IndexFrom(s, NUL, p));
  }

  /** The plain reading takes the last field of each keyword, in terms of pointers. */
  lemma PlainPointer(s: string, at: nat, keyword: string)
    requires at < |s| && s[|s| - 1] == NUL
    ensures match LastWith(FieldsFrom(s, at), keyword)
            case None => LastLook(s, FieldStarts(s, at), keyword) == None
            case Some(value) => var found := LastLook(s, FieldStarts(s, at), keyword);
                                found.Some? && found.value <= |s| && value == CStr(s, found.value)
  {
    FieldAtStart(s, at, 0);
    forall i | 0 <= i < |FieldStarts(s, at)|
      ensures 0 <= FieldStarts(s, at)[i] <= |s| && FieldsFrom(s, at)[i] == CStr(s, FieldStarts(s, at)[i])
    {
      FieldAtStart(s, at, i);
    }
    LastLookIsLastWith(s, FieldStarts(s, at), FieldsFrom(s, at), keyword);
  }

  // ---------------------------------------------------------------- the scanner itself

  function Decide(v: Values): Outcome {
    if v.driver.None? && v.alias.None? then Ignored
    else if v.action.None? then ActionMissing
    else if v.action.value != "add" then NotAdded
    else Modprobe(if v.driver.Some? then v.driver.value else v.alias.value)
  }

  /** The driver comes before the alias, and only an added device counts. */
  lemma DecideMeans(v: Values)
    ensures Decide(v) == Ignored <==> v.driver == None && v.alias == None
    ensures Decide(v) == ActionMissing <==> (v.driver.Some? || v.alias.Some?) && v.action == None
    ensures Decide(v) == NotAdded
       <==> (v.driver.Some? || v.alias.Some?) && v.action.Some? && v.action.value != "add"
    ensures forall name ::
              Decide(v) == Modprobe(name)
              <==> v.action == Some("add") && (v.driver == Some(name) || (v.driver == None && v.alias == Some(name)))
  {
  }

  /** What is decided about a message whose fields are plain, in terms of the last field of each keyword. */
  lemma PlainDecision(fields: seq<string>)
    requires forall f | f in fields :: IsPlain(f)
    ensures var driver, alias, action := LastWith(fields, DRIVER), LastWith(fields, MODALIAS), LastWith(fields, ACTION);
            Decide(ScannerRead(fields, NOTHING))
            == if driver == None && alias == None then Ignored
               else if action == None then ActionMissing
               else if action.value != "add" then NotAdded
               else Modprobe(if driver.Some? then driver.value else alias.value)
  {
    hide LastWith, ScannerRead, IsPlain;
    LastFieldsAreFound(fields);
  }

  /** The decision that these pointers into the message call for. */
  ghost predicate IsDecision(s: string, alias: Option<nat>, action: Option<nat>, driver: Option<nat>, o: Outcome) {
    var name := if driver.Some? then driver else alias;
    if name == None then o == Ignored
    else if action == None then o == ActionMissing
    else
      && name.value < |s| && action.value < |s|
      && o == if CStr(s, action.value) == "add" then Modprobe(CStr(s, name.value)) else NotAdded
  }

  /** What is decided about any message, in terms of the pointers that the scanner leaves. */
  lemma PointersDecide(s: string, at: nat, v: Values, alias: Option<nat>, action: Option<nat>, driver: Option<nat>)
    requires Looked(s, ScannerLooks(s, at), v, alias, action, driver)
    ensures IsDecision(s, alias, action, driver, Decide(v))
    ensures alias == LastLook(s, ScannerLooks(s, at), MODALIAS) && action == LastLook(s, ScannerLooks(s, at), ACTION)
    ensures driver == LastLook(s, ScannerLooks(s, at), DRIVER)
  {
    hide LastLook, ScannerLooks, CStr;
  }

  lemma LookedMeans(s: string, at: nat, v: Values, alias: Option<nat>, action: Option<nat>, driver: Option<nat>)
    requires Looked(s, ScannerLooks(s, at), v, alias, action, driver)
    ensures Holds(s, alias, v.alias) && Holds(s, action, v.action) && Holds(s, driver, v.driver)
  {
    hide LastLook, ScannerLooks, Holds;
  }

  /** A pointer into the message and the text it stands for. */
  ghost predicate Holds(s: string, pointer: Option<nat>, value: Option<string>) {
    match pointer
    case None => value == None
    case Some(p) => p < |s| && value == Some(CStr(s, p))
  }

  /** The delimiter ends the keyword a field begins with. */
  lemma KeywordEndsAtDelimiter(f: string, keyword: string)
    requires keyword <= f && keyword in {MODALIAS, ACTION, DRIVER}
    ensures IndexFrom(f, EQUALS, 0) == |keyword| - 1
  {
    assert forall i | 0 <= i < |keyword| - 1 :: keyword[i] != EQUALS && f[i] == keyword[i];
    assert keyword[|keyword| - 1] == EQUALS;
    IndexIs(f, EQUALS, 0, |keyword| - 1);
  }

  /** A look at this position: the pointer for the keyword afterwards. */
  function Pointed(s: string, p: nat, keyword: string, before: Option<nat>): Option<nat> {
    if KeywordAt(s, p, keyword) then Some(p + |keyword|) else before
  }

  /** One look: the field at this position, if it has a delimiter, may set one of three pointers. */
  method LookAt(message: array<char>, position: nat, delimiter: nat,
                alias0: Option<nat>, action0: Option<nat>, name0: Option<nat>)
    returns (value: nat, alias: Option<nat>, action: Option<nat>, name: Option<nat>)
    requires Terminated(message) && position < message.Length
    requires position <= delimiter < IndexFrom(message[..], NUL, position) < message.Length
    requires delimiter - position == IndexFrom(CStr(message[..], position), EQUALS, 0)
    ensures value == (if HasKeyword(CStr(message[..], position)) then delimiter + 1 else delimiter)
    ensures value <= IndexFrom(message[..], NUL, position)
    ensures alias == Pointed(message[..], position, MODALIAS, alias0)
    ensures action == Pointed(message[..], position, ACTION, action0)
    ensures name == Pointed(message[..], position, DRIVER, name0)
  {
    hide CStr, IndexFrom, IsIndex;
    ghost var f := CStr(message[..], position);
    value, alias, action, name := delimiter, alias0, action0, name0;
    KeywordsDiffer(f);
    var starts := StartsWith(message, position, MODALIAS);
    if starts {
      KeywordEndsAtDelimiter(f, MODALIAS);
      value := delimiter + 1;
      alias := Some(value);
    } else {
      starts := StartsWith(message, position, ACTION);
      if starts {
        KeywordEndsAtDelimiter(f, ACTION);
        value := delimiter + 1;
        action := Some(value);
      } else {
        starts := StartsWith(message, position, DRIVER);
        if starts {
          KeywordEndsAtDelimiter(f, DRIVER);
          value := delimiter + 1;
          name := Some(value);
        }
      }
    }
  }

  /** The pointers hold the values that a look leaves. */
  lemma PointedHolds(s: string, p: nat, alias: Option<nat>, action: Option<nat>, name: Option<nat>, v: Values)
    requires p < |s| && s[|s| - 1] == NUL
    requires Holds(s, alias, v.alias) && Holds(s, action, v.action) && Holds(s, name, v.driver)
    ensures var w := Look(CStr(s, p), v);
            && Holds(s, Pointed(s, p, MODALIAS, alias), w.alias) && Holds(s, Pointed(s, p, ACTION, action), w.action)
            && Holds(s, Pointed(s, p, DRIVER, name), w.driver)
  {
    hide CStr;
    KeywordsDiffer(CStr(s, p));
    ValueInMessage(s, p, MODALIAS);
    ValueInMessage(s, p, ACTION);
    ValueInMessage(s, p, DRIVER);
  }

  lemma ValueInMessage(s: string, p: nat, keyword: string)
    requires p < |s| && s[|s| - 1] == NUL
    ensures KeywordAt(s, p, keyword) ==>
              p + |keyword| < |s| && CStr(s, p + |keyword|) == CStr(s, p)[|keyword|..]
  {
    if KeywordAt(s, p, keyword) {
      SuffixOfField(s, p, p + |keyword|);
    }
  }

  /** The loop's progress: the looks taken so far, and those still to come, make up the whole run. */
  ghost predicate Scanned(s: string, at: nat, position: nat, v: Values, positions: seq<int>) {
    && Moves(Hop)
    && Run(s, position, v, Hop, Look) == Run(s, at, NOTHING, Hop, Look)
    && positions + Positions(s, position, Hop) == Positions(s, at, Hop)
  }

  lemma ScannedStep(s: string, at: nat, position: nat, v: Values, positions: seq<int>)
    requires position < |s| && Scanned(s, at, position, v, positions)
    ensures Scanned(s, at, Next(s, position, Hop), Look(CStr(s, position), v), positions + [position])
  {
    var rest := Positions(s, Next(s, position, Hop), Hop);
    assert positions + [position] + rest == positions + ([position] + rest);
  }

  lemma NothingScanned(s: string, at: nat)
    ensures Scanned(s, at, at, NOTHING, [])
  {
    HopMoves();
    assert [] + Positions(s, at, Hop) == Positions(s, at, Hop);
  }

  lemma ScannedAll(s: string, at: nat, v: Values, positions: seq<int>)
    requires at < |s| && s[|s| - 1] == NUL && Scanned(s, at, |s|, v, positions)
    ensures v == ScannerRead(FieldsFrom(s, at), NOTHING) && positions == ScannerLooks(s, at)
  {
    RunReadsFields(s, at, NOTHING, Hop, Look);
    assert Positions(s, |s|, Hop) == [] && Run(s, |s|, v, Hop, Look) == v;
  }

  /** Where the position moves after a look, in terms of the delimiter. */
  lemma HopByDelimiter(f: string, d: nat)
    requires d <= |f| && IndexFrom(f, EQUALS, 0) == d
    ensures d == |f| ==> Hop(f) == |f| + 1 && !HasKeyword(f)
    ensures d < |f| ==> Hop(f) == 1 + |f| - (if HasKeyword(f) then d + 1 else d)
  {
    if d == |f| && HasKeyword(f) {
      KeywordEndsAtDelimiter(f, if MODALIAS <= f then MODALIAS else if ACTION <= f then ACTION else DRIVER);
      assert false;
    }
  }

  /** One iteration of the loop: a look at the field at this position, and the position after it. */
  method Iterate(message: array<char>, position: nat,
                 alias0: Option<nat>, action0: Option<nat>, name0: Option<nat>)
    returns (next: nat, alias: Option<nat>, action: Option<nat>, name: Option<nat>)
    requires Terminated(message) && position < message.Length
    ensures position < next == Next(message[..], position, Hop) <= message.Length
    ensures alias == Pointed(message[..], position, MODALIAS, alias0)
    ensures action == Pointed(message[..], position, ACTION, action0)
    ensures name == Pointed(message[..], position, DRIVER, name0)
  {
    ghost var s := message[..];
    ghost var f, end := CStr(s, position), IndexFrom(s, NUL, position);
    alias, action, name := alias0, action0, name0;
    var delimiter, present := StrChr(message, position, EQUALS);
    IndexIs(f, EQUALS, 0, delimiter - position);
    HopByDelimiter(f, delimiter - position);
    if present {
      delimiter, alias, action, name := LookAt(message, position, delimiter, alias, action, name);
      SuffixOfField(s, position, delimiter);
      var n := StrLen(message, delimiter);
      next := position + 1 + n;
    } else {
      var n := StrLen(message, position);
      next := position + 1 + n;
    }
  }

  /** What the looks taken so far have left. */
  ghost predicate Looked(s: string, looks: seq<int>, v: Values, alias: Option<nat>, action: Option<nat>,
                         name: Option<nat>)
  {
    && alias == LastLook(s, looks, MODALIAS) && action == LastLook(s, looks, ACTION)
       && name == LastLook(s, looks, DRIVER)
    && Holds(s, alias, v.alias) && Holds(s, action, v.action) && Holds(s, name, v.driver)
  }

  lemma LookedOn(s: string, looks: seq<int>, v: Values, alias: Option<nat>, action: Option<nat>, name: Option<nat>,
                 p: nat)
    requires Looked(s, looks, v, alias, action, name) && p < |s| && s[|s| - 1] == NUL
    ensures Looked(s, looks + [p], Look(CStr(s, p), v), Pointed(s, p, MODALIAS, alias), Pointed(s, p, ACTION, action),
                   Pointed(s, p, DRIVER, name))
  {
    PointedHolds(s, p, alias, action, name, v);
    LastLookOn(s, looks, p, MODALIAS);
    LastLookOn(s, looks, p, ACTION);
    LastLookOn(s, looks, p, DRIVER);
  }

  lemma LastLookOn(s: string, looks: seq<int>, p: nat, keyword: string)
    ensures LastLook(s, looks + [p], keyword)
         == if KeywordAt(s, p, keyword) then Some(p + |keyword|) else LastLook(s, looks, keyword)
  {
    assert (looks + [p])[..|looks|] == looks;
  }

  /** The scanning loop, from the @ sign on. looks records where it looks. */
  method ScanMessage(message: array<char>, at: nat)
    returns (alias: Option<nat>, action: Option<nat>, name: Option<nat>, ghost looks: seq<int>)
    requires Terminated(message) && at < message.Length
    ensures looks == ScannerLooks(message[..], at)
    ensures Looked(message[..], ScannerLooks(message[..], at), ScannerRead(FieldsFrom(message[..], at), NOTHING),
                   alias, action, name)
  {
    hide Look, Pointed, Looked, Run, Scanned, CStr, Hop, Next, IsIndex, FieldsFrom, ScannerRead, ScannerLooks;
    ghost var s, v := message[..], NOTHING;
    assert |s| == message.Length && s[|s| - 1] == NUL;
    hide Terminated;
    var position := at;
    alias, action, name, looks := None, None, None, [];
    NothingLooked(s);
    NothingScanned(s, at);
    while position < message.Length
      invariant at <= position <= message.Length
      invariant Looked(s, looks, v, alias, action, name)
      invariant Scanned(s, at, position, v, looks)
      decreases message.Length - position
    {
      ghost var p := position;
      LookedOn(s, looks, v, alias, action, name, p);
      ScannedStep(s, at, p, v, looks);
      position, alias, action, name := Iterate(message, position, alias, action, name);
      v, looks := Look(CStr(s, p), v), looks + [p];
    }
    ScannedAll(s, at, v, looks);
  }

  lemma NothingLooked(s: string)
    ensures Looked(s, [], NOTHING, None, None, None)
  {
  }

  /** _handle_new_device(): the message is followed by a NUL byte and nothing more is read. */
  method HandleNewDevice(message: array<char>) returns (o: Outcome, ghost looks: seq<int>)
    requires Terminated(message) && message.Length > 1
    ensures '@' !in CStr(message[..], 0) ==> o == Ignored
    ensures '@' in CStr(message[..], 0) ==>
              var s, at := message[..], IndexFrom(message[..], '@', 0);
              && at < |s| && o == Decide(ScannerRead(FieldsFrom(s, at), NOTHING))
              && (var positions := ScannerLooks(s, at);
                  IsDecision(s, LastLook(s, positions, MODALIAS), LastLook(s, positions, ACTION),
                             LastLook(s, positions, DRIVER), o))
              && var fields := FieldsFrom(s, at);
                 var driver, alias := LastWith(fields, DRIVER), LastWith(fields, MODALIAS);
                 var action := LastWith(fields, ACTION);
                 (forall f | f in fields :: IsPlain(f)) ==>
                   o == if driver == None && alias == None then Ignored
                        else if action == None then ActionMissing
                        else if action.value != "add" then NotAdded
                        else Modprobe(if driver.Some? then driver.value else alias.value)
    ensures looks == if '@' in CStr(message[..], 0)
                     then ScannerLooks(message[..], IndexFrom(message[..], '@', 0)) else []
  {
    hide Decide, LastWith, LastLook, ScannerLooks, ScannerRead, FieldsFrom, IsPlain, IsIndex, Looked, Holds;
    hide IsDecision;
    looks := [];
    var at, found := StrChr(message, 0, '@');
    if !found { return Ignored, []; }
    IndexIs(message[..], '@', 0, at);
    ghost var s := message[..];
    ghost var fields, v := FieldsFrom(s, at), ScannerRead(FieldsFrom(s, at), NOTHING);
    var alias, action, name;
    alias, action, name, looks := ScanMessage(message, at);
    LookedMeans(s, at, v, alias, action, name);
    PointersDecide(s, at, v, alias, action, name);
    if forall f | f in fields :: IsPlain(f) {
      PlainDecision(fields);
    }
    o := Choose(message, alias, action, name, v);
  }

  /** A message that starts with a header of an at-sign alone. */
  lemma HeaderFirst(fields: seq<string>)
    requires fields != [] && fields[0] == "@" && forall f | f in fields :: NUL !in f
    ensures var s := Message(fields);
            && |s| > 1 && s[|s| - 1] == NUL && '@' in CStr(s, 0) && IndexFrom(s, '@', 0) == 0
            && FieldsFrom(s, 0) == fields
  {
    hide FieldsFrom;
    var s := Message(fields);
    MessageEnds(fields);
    FieldsOfMessage("", fields);
    assert "" + s == s && s == "@" + [NUL] + Message(fields[1..]);
    IndexIs(s, '@', 0, 0);
    IndexIs(s, NUL, 0, 1);
    assert CStr(s, 0)[0] == '@';
  }

  lemma MisreadIsText()
    ensures |MISREAD| == 4 && MISREAD[0] == "@" && forall f | f in MISREAD :: NUL !in f
  {
    forall i | 0 <= i < 4 ensures NUL !in MISREAD[i] {
      assert i == 0 || i == 1 || i == 2 || i == 3;
    }
  }

  /** The handler given that message does nothing, although a device was added. */
  method HandleMisread() returns (o: Outcome)
    ensures o == NotAdded && Decide(PlainRead(MISREAD, NOTHING)) == Modprobe("x")
  {
    hide Decide, ScannerRead, PlainRead, FieldsFrom, LastWith, LastLook, ScannerLooks, IsPlain, Message, IsDecision;
    MisreadIsText();
    HeaderFirst(MISREAD);
    MisreadMessage();
    var text := Message(MISREAD);
    var message := new char[|text|](i requires 0 <= i < |text| => text[i]);
    assert message[..] == text;
    ghost var looks;
    o, looks := HandleNewDevice(message);
  }

  /** The choice of the module, once the whole message is scanned. */
  method Choose(message: array<char>, alias: Option<nat>, action: Option<nat>, name: Option<nat>, ghost v: Values)
    returns (o: Outcome)
    requires Terminated(message)
    requires Holds(message[..], alias, v.alias) && Holds(message[..], action, v.action)
             && Holds(message[..], name, v.driver)
    ensures o == if v.driver == None && v.alias == None then Ignored
                 else if v.action == None then ActionMissing
                 else if v.action.value != "add" then NotAdded
                 else Modprobe(if v.driver.Some? then v.driver.value else v.alias.value)
    ensures o == Decide(v)
  {
    var chosen := name;
    if name == None {
      if alias == None { return Ignored; }
      chosen := alias;
    }
    if action == None { return ActionMissing; }
    var n := StrLen(message, action.value);
    if message[action.value..action.value + n] != "add" { return NotAdded; }
    n := StrLen(message, chosen.value);
    o := Modprobe(message[chosen.value..chosen.value + n]);
  }
}
