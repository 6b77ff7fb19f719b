/** Callbacks that may refuse an item and so end a series of calls. */
module Callbacks {

  /** A callback run on items from left to right until it refuses one. */
  function FoldUntil<S>(items: seq<string>, s: S, callback: (S, string) -> (S, bool)): (S, bool) {
    if items == [] then (s, true)
    else
      var (s', ok) := callback(s, items[0]);
      if ok then FoldUntil(items[1..], s', callback) else (s', false)
  }

  lemma FoldUntilCons<S>(item: string, rest: seq<string>, s: S, callback: (S, string) -> (S, bool))
    ensures FoldUntil([item] + rest, s, callback)
         == (var r := callback(s, item); if r.1 then FoldUntil(rest, r.0, callback) else (r.0, false))
  {
    assert ([item] + rest)[1..] == rest;
  }

  /** The first item that is refused ends the series: what comes after it is not looked at, and what it
      left behind stays. */
  lemma {:induction false} RefusalEnds<S>(before: seq<string>, item: string, rest: seq<string>, s: S,
                                          callback: (S, string) -> (S, bool))
    ensures var r := FoldUntil(before, s, callback);
            FoldUntil(before + [item] + rest, s, callback)
            == if !r.1 then r
               else if callback(r.0, item).1 then FoldUntil(rest, callback(r.0, item).0, callback)
               else (callback(r.0, item).0, false)
  {
    if before == [] {
      assert before + [item] + rest == [item] + rest;
      FoldUntilCons(item, rest, s, callback);
    } else {
      var r := callback(s, before[0]);
      assert before + [item] + rest == [before[0]] + (before[1..] + [item] + rest);
      FoldUntilCons(before[0], before[1..] + [item] + rest, s, callback);
      if r.1 {
        RefusalEnds(before[1..], item, rest, r.0, callback);
      }
    }
  }
}
