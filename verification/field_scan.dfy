/** A scanner over NUL-terminated fields that takes one look at a time and then moves on by some
    distance, but never past the start of the next field. What a look does and how far the scanner
    moves depend on the rest of the field it is in. */
module FieldScan {
  import opened Text

  ghost predicate Moves(hop: string -> nat) {
    forall f :: 1 <= hop(f) <= |f| + 1
  }

  /** The NUL-separated fields of a text. */
  function Fields(text: string): seq<string>
    decreases |text|
  {
    var n := IndexFrom(text, NUL, 0);
    if n == |text| then [text] else [text[..n]] + Fields(text[n + 1..])
  }

  /** The fields from p on of a text that ends with a NUL byte. */
  function FieldsFrom(s: string, p: nat): seq<string>
    requires p < |s| && s[|s| - 1] == NUL
    decreases |s| - p
  {
    var end := IndexFrom(s, NUL, p);
    if end + 1 == |s| then [CStr(s, p)] else [CStr(s, p)] + FieldsFrom(s, end + 1)
  }

  /** Where those fields start. */
  function FieldStarts(s: string, p: nat): seq<int>
    requires p < |s| && s[|s| - 1] == NUL
    decreases |s| - p
  {
    var end := IndexFrom(s, NUL, p);
    if end + 1 == |s| then [p] else [p] + FieldStarts(s, end + 1)
  }

  ghost predicate Increasing(ps: seq<int>) {
    forall i, j | 0 <= i < j < |ps| :: ps[i] < ps[j]
  }

  lemma {:induction false} FieldStartsAreStarts(s: string, p: nat)
    requires p < |s| && s[|s| - 1] == NUL
    ensures Increasing(FieldStarts(s, p))
    ensures forall q | q in FieldStarts(s, p) :: p <= q < |s| && (q == p || s[q - 1] == NUL)
    decreases |s| - p
  {
    var end := IndexFrom(s, NUL, p);
    if end + 1 < |s| {
      var rest := FieldStarts(s, end + 1);
      FieldStartsAreStarts(s, end + 1);
      assert forall i | 0 <= i < |rest| :: rest[i] in rest;
      assert FieldStarts(s, p) == [p] + rest;
    }
  }

  lemma FieldsUnfold(s: string, p: nat)
    requires p < |s| && s[|s| - 1] == NUL
    ensures var end := IndexFrom(s, NUL, p);
            FieldsFrom(s, p) == if end + 1 == |s| then [CStr(s, p)] else [CStr(s, p)] + FieldsFrom(s, end + 1)
  {
  }

  lemma StartsUnfold(s: string, p: nat)
    requires p < |s| && s[|s| - 1] == NUL
    ensures var end := IndexFrom(s, NUL, p);
            FieldStarts(s, p) == if end + 1 == |s| then [p] else [p] + FieldStarts(s, end + 1)
    ensures IndexFrom(s, NUL, p) + 1 < |s| ==> FieldStarts(s, IndexFrom(s, NUL, p) + 1) != []
  {
  }

  /** A field is what is read from its start. */
  lemma {:induction false} FieldAtStart(s: string, p: nat, i: nat)
    requires p < |s| && s[|s| - 1] == NUL && i < |FieldStarts(s, p)|
    ensures |FieldsFrom(s, p)| == |FieldStarts(s, p)|
    ensures 0 <= FieldStarts(s, p)[i] <= |s| && FieldsFrom(s, p)[i] == CStr(s, FieldStarts(s, p)[i])
    decreases |s| - p
  {
    hide FieldsFrom, FieldStarts, CStr;
    FieldsUnfold(s, p);
    StartsUnfold(s, p);
    var end := IndexFrom(s, NUL, p);
    if end + 1 < |s| {
      FieldAtStart(s, end + 1, if i == 0 then 0 else i - 1);
    }
  }

  lemma FieldsStep(s: string, p: nat)
    requires p < |s| && s[|s| - 1] == NUL
    ensures var end := IndexFrom(s, NUL, p);
            && end < |s|
            && Fields(s[p..|s| - 1]) == if end + 1 == |s| then [CStr(s, p)]
                                       else [CStr(s, p)] + Fields(s[end + 1..|s| - 1])
  {
    var end, text := IndexFrom(s, NUL, p), s[p..|s| - 1];
    IndexIs(text, NUL, 0, end - p);
    assert text[..end - p] == CStr(s, p);
    if end + 1 < |s| {
      assert text[end - p + 1..] == s[end + 1..|s| - 1];
    }
  }

  lemma {:induction false} FieldsFromAreFields(s: string, p: nat)
    requires p < |s| && s[|s| - 1] == NUL
    ensures FieldsFrom(s, p) == Fields(s[p..|s| - 1])
    decreases |s| - p
  {
    hide Fields, CStr;
    FieldsStep(s, p);
    var end := IndexFrom(s, NUL, p);
    if end + 1 < |s| {
      FieldsFromAreFields(s, end + 1);
    }
  }

  /** A message made of these fields. */
  function Message(fields: seq<string>): string {
    if fields == [] then "" else fields[0] + [NUL] + Message(fields[1..])
  }

  lemma {:induction false} MessageEnds(fields: seq<string>)
    requires fields != []
    ensures var m := Message(fields); |m| > |fields[0]| && m[|m| - 1] == NUL
  {
    if |fields| > 1 {
      MessageEnds(fields[1..]);
    }
  }

  /** Splitting a message gives the fields it was made of. */
  lemma {:induction false} FieldsOfMessage(prefix: string, fields: seq<string>)
    requires fields != [] && forall f | f in fields :: NUL !in f
    ensures var s := prefix + Message(fields); |prefix| < |s| && s[|s| - 1] == NUL && FieldsFrom(s, |prefix|) == fields
    decreases |fields|
  {
    hide FieldsFrom, Message, CStr, IndexFrom;
    MessageEnds(fields);
    MessageUnfolds(fields);
    var s, f, rest := prefix + Message(fields), fields[0], Message(fields[1..]);
    FirstFieldEnds(prefix, f, rest);
    FieldsUnfold(s, |prefix|);
    if |fields| > 1 {
      FieldsOfMessage(prefix + f + [NUL], fields[1..]);
      Regroup(prefix, f, rest);
      assert fields == [f] + fields[1..];
    } else {
      assert fields == [f];
    }
  }

  lemma Regroup(prefix: string, f: string, rest: string)
    ensures prefix + (f + [NUL] + rest) == prefix + f + [NUL] + rest
  {
  }

  lemma MessageUnfolds(fields: seq<string>)
    requires fields != []
    ensures Message(fields) == fields[0] + [NUL] + Message(fields[1..])
    ensures |fields| == 1 ==> Message(fields[1..]) == ""
  {
  }

  lemma FirstFieldEnds(prefix: string, f: string, rest: string)
    requires NUL !in f
    ensures var s := prefix + (f + [NUL] + rest);
            IndexFrom(s, NUL, |prefix|) == |prefix| + |f| && CStr(s, |prefix|) == f
  {
    var s, end := prefix + (f + [NUL] + rest), |prefix| + |f|;
    assert s[|prefix|..end] == f;
    assert forall j | |prefix| <= j < end :: s[j] == f[j - |prefix|];
    IndexIs(s, NUL, |prefix|, end);
  }

  // ---------------------------------------------------------------- field by field

  /** All looks within one field. */
  ghost function Visit<V>(f: string, v: V, hop: string -> nat, look: (string, V) -> V): V
    requires Moves(hop)
    decreases |f|
  {
    if hop(f) > |f| then look(f, v) else Visit(f[hop(f)..], look(f, v), hop, look)
  }

  ghost function Read<V>(fields: seq<string>, v: V, hop: string -> nat, look: (string, V) -> V): V
    requires Moves(hop)
  {
    if fields == [] then v else Read(fields[1..], Visit(fields[0], v, hop, look), hop, look)
  }

  // ---------------------------------------------------------------- position by position

  /** The position after one look from p. */
  ghost function Next(s: string, p: nat, hop: string -> nat): nat
    requires p < |s|
  {
    p + hop(CStr(s, p))
  }

  /** All looks from p on. */
  ghost function Run<V>(s: string, p: nat, v: V, hop: string -> nat, look: (string, V) -> V): V
    requires Moves(hop)
    decreases |s| - p
  {
    if p >= |s| then v else Run(s, Next(s, p, hop), look(CStr(s, p), v), hop, look)
  }

  /** Where the scanner looks. */
  ghost function Positions(s: string, p: nat, hop: string -> nat): seq<int>
    requires Moves(hop)
    decreases |s| - p
  {
    if p >= |s| then [] else [p] + Positions(s, Next(s, p, hop), hop)
  }

  lemma SuffixOfField(s: string, p: nat, d: nat)
    requires p < |s| && s[|s| - 1] == NUL && p <= d <= IndexFrom(s, NUL, p)
    ensures IndexFrom(s, NUL, d) == IndexFrom(s, NUL, p) < |s|
    ensures CStr(s, d) == CStr(s, p)[d - p..]
  {
    IndexIs(s, NUL, d, IndexFrom(s, NUL, p));
  }

  /** Within a field the looks are those of Visit, and the scanner never passes the next field. */
  lemma {:induction false} RunVisitsField<V>(s: string, p: nat, v: V, hop: string -> nat, look: (string, V) -> V)
    requires Moves(hop) && p < |s| && s[|s| - 1] == NUL
    ensures IndexFrom(s, NUL, p) < |s|
    ensures Run(s, p, v, hop, look) == Run(s, IndexFrom(s, NUL, p) + 1, Visit(CStr(s, p), v, hop, look), hop, look)
    decreases |s| - p
  {
    var f, next := CStr(s, p), Next(s, p, hop);
    if hop(f) <= |f| {
      SuffixOfField(s, p, next);
      RunVisitsField(s, next, look(f, v), hop, look);
    }
  }

  /** The looks within a field that starts at p. */
  ghost function FieldLooks(f: string, p: nat, hop: string -> nat): seq<int>
    requires Moves(hop)
    decreases |f|
  {
    if hop(f) > |f| then [p] else [p] + FieldLooks(f[hop(f)..], p + hop(f), hop)
  }

  lemma PositionsUnfold(s: string, p: nat, hop: string -> nat)
    requires Moves(hop) && p < |s|
    ensures Positions(s, p, hop) == [p] + Positions(s, Next(s, p, hop), hop)
    ensures Next(s, p, hop) == p + hop(CStr(s, p))
  {
  }

  lemma LooksUnfold(f: string, p: nat, hop: string -> nat)
    requires Moves(hop)
    ensures FieldLooks(f, p, hop) == if hop(f) > |f| then [p] else [p] + FieldLooks(f[hop(f)..], p + hop(f), hop)
  {
  }

  /** The scanner looks within the first field, and then from the start of the next one on. */
  lemma {:induction false} PositionsSplit(s: string, p: nat, hop: string -> nat)
    requires Moves(hop) && p < |s| && s[|s| - 1] == NUL
    ensures IndexFrom(s, NUL, p) < |s|
    ensures Positions(s, p, hop) == FieldLooks(CStr(s, p), p, hop) + Positions(s, IndexFrom(s, NUL, p) + 1, hop)
    decreases |s| - p
  {
    hide CStr, IsIndex, Moves, Positions, FieldLooks, Next;
    PositionsUnfold(s, p, hop);
    LooksUnfold(CStr(s, p), p, hop);
    var f, next, end := CStr(s, p), Next(s, p, hop), IndexFrom(s, NUL, p);
    HopStays(s, p, hop);
    if hop(f) <= |f| {
      SuffixOfField(s, p, next);
      PositionsSplit(s, next, hop);
      var within, after := FieldLooks(CStr(s, next), next, hop), Positions(s, end + 1, hop);
      assert [p] + (within + after) == [p] + within + after;
    }
  }

  /** A look is followed by one in the same field, or at the start of the next field. */
  lemma HopStays(s: string, p: nat, hop: string -> nat)
    requires Moves(hop) && p < |s| && s[|s| - 1] == NUL
    ensures p < Next(s, p, hop) && IndexFrom(s, NUL, p) < |s|
    ensures hop(CStr(s, p)) <= |CStr(s, p)| ==> Next(s, p, hop) <= IndexFrom(s, NUL, p)
    ensures hop(CStr(s, p)) > |CStr(s, p)| ==> Next(s, p, hop) == IndexFrom(s, NUL, p) + 1
  {
  }

  lemma ReadFrom<V>(s: string, p: nat, v: V, hop: string -> nat, look: (string, V) -> V)
    requires Moves(hop) && p < |s| && s[|s| - 1] == NUL
    ensures var end, w := IndexFrom(s, NUL, p), Visit(CStr(s, p), v, hop, look);
            && end < |s|
            && Read(FieldsFrom(s, p), v, hop, look)
               == if end + 1 == |s| then w else Read(FieldsFrom(s, end + 1), w, hop, look)
  {
    hide Visit, CStr, FieldsFrom;
    FieldsUnfold(s, p);
    var end := IndexFrom(s, NUL, p);
    if end + 1 == |s| {
      assert [CStr(s, p)][1..] == [];
    } else {
      assert FieldsFrom(s, p)[1..] == FieldsFrom(s, end + 1);
    }
  }

  lemma RunEnds<V>(s: string, p: nat, v: V, hop: string -> nat, look: (string, V) -> V)
    requires Moves(hop) && p >= |s|
    ensures Run(s, p, v, hop, look) == v
  {
  }

  /** Refinement: the position-by-position scan is the field-by-field reading. */
  lemma {:induction false} RunReadsFields<V>(s: string, p: nat, v: V, hop: string -> nat, look: (string, V) -> V)
    requires Moves(hop) && p < |s| && s[|s| - 1] == NUL
    ensures Run(s, p, v, hop, look) == Read(FieldsFrom(s, p), v, hop, look)
    decreases |s| - p
  {
    hide Run, Read, Visit, CStr, FieldsFrom;
    var end := IndexFrom(s, NUL, p);
    RunVisitsField(s, p, v, hop, look);
    ReadFrom(s, p, v, hop, look);
    var w := Visit(CStr(s, p), v, hop, look);
    if end + 1 < |s| {
      RunReadsFields(s, end + 1, w, hop, look);
    } else {
      RunEnds(s, |s|, w, hop, look);
    }
  }

  /** The looks are at strictly increasing positions before the end. */
  lemma {:induction false} PositionsIncrease(s: string, p: nat, hop: string -> nat)
    requires Moves(hop)
    ensures forall q | q in Positions(s, p, hop) :: p <= q < |s|
    ensures Increasing(Positions(s, p, hop))
    decreases |s| - p
  {
    if p < |s| {
      var rest := Positions(s, Next(s, p, hop), hop);
      PositionsIncrease(s, Next(s, p, hop), hop);
      assert forall i | 0 <= i < |rest| :: rest[i] in rest;
      assert Positions(s, p, hop) == [p] + rest;
    }
  }

  /** No field start is skipped. */
  lemma {:induction false} PositionsCoverFields(s: string, p: nat, q: nat, hop: string -> nat)
    requires Moves(hop) && p <= q < |s| && s[|s| - 1] == NUL && (q == p || s[q - 1] == NUL)
    ensures q in Positions(s, p, hop)
    decreases |s| - p
  {
    var next, end := Next(s, p, hop), IndexFrom(s, NUL, p);
    if q > p {
      assert end <= q - 1;
      PositionsCoverFields(s, next, q, hop);
      assert Positions(s, p, hop) == [p] + Positions(s, next, hop);
    }
  }
}
