/** Copying what a match has recorded, so that it outlives the path and the router. */
module Copies {
  import opened Wrappers
  import opened Bytes
  import Lexing
  import opened Tokens
  import opened RouteTree
  import ParamBounds
  import opened SymbolLists
  import opened GraphLayout
  import opened Resolution
  import ListBounds
  import Matching
  import Routers
  import Dispatchers
  import opened ParamSnapshots

  /** What a recorded parameter's pointers lead to: its name, and its slice of the path. */
  function Recorded(s: Text, c: Capture): Param
    requires IsSlice(s, c) && 0 !in c.name
  {
    ParamSnapshots.Param(Some(c.name), Some(s[c.start..c.start + c.length]))
  }

  function AllRecorded(s: Text, captures: seq<Capture>): (list: seq<Param>)
    requires AllSlices(s, captures) && Matching.NamesEnd(captures)
    ensures |list| == |captures| && AllGiven(list)
    ensures forall i | 0 <= i < |list| :: list[i] == Recorded(s, captures[i])
  {
    seq(|captures|, i requires 0 <= i < |captures| => Recorded(s, captures[i]))
  }

  /** The copy has each name, and each value up to its first NUL. */
  ghost predicate ReadsBack(s: Text, captures: seq<Capture>, copy: Snapshot)
    requires AllSlices(s, captures)
  {
    && |copy.params| == |captures|
    && forall i | 0 <= i < |captures| ::
         && copy.params[i].name <= |copy.region| && copy.params[i].value <= |copy.region|
         && StringAt(copy.region, copy.params[i].name) == captures[i].name
         && StringAt(copy.region, copy.params[i].value) ==
            UpToNul(s[captures[i].start..captures[i].start + captures[i].length])
  }

  lemma PackedReadsBack(s: Text, captures: seq<Capture>, copy: Snapshot)
    requires AllSlices(s, captures) && Matching.NamesEnd(captures) && Packed(AllRecorded(s, captures), copy)
    ensures ReadsBack(s, captures, copy)
  {
    hide PackedUpTo, StringAt, UpToNul, PackedSize;
    var list := AllRecorded(s, captures);
    forall i | 0 <= i < |captures|
      ensures copy.params[i].name <= |copy.region| && copy.params[i].value <= |copy.region|
      ensures StringAt(copy.region, copy.params[i].name) == captures[i].name
      ensures StringAt(copy.region, copy.params[i].value) ==
              UpToNul(s[captures[i].start..captures[i].start + captures[i].length])
    {
      ReadBack(list, copy, i);
      assert list[i] == Recorded(s, captures[i]);
    }
  }

  /** The copy's last parameter is `_`, and its value the path from here on, up to its first NUL. */
  ghost predicate RestReadsBack(s: Text, start: nat, copy: Snapshot) {
    && start <= |s| && copy.params != []
    && var last := copy.params[|copy.params| - 1];
       && last.name <= |copy.region| && StringAt(copy.region, last.name) == [95]
       && last.value <= |copy.region| && StringAt(copy.region, last.value) == UpToNul(s[start..])
  }

  lemma WildcardReadsBack(s: Text, entries: seq<Entry>, segs: seq<Lexing.Seg>, last: Token, deep: Path, m: Match,
                          copy: Snapshot)
    requires ScanAlong(entries, segs, last, |s|, deep, m) && |deep| < |segs| && m.Found?
    requires AllSlices(s, m.captures) && ReadsBack(s, m.captures, copy)
    ensures exists e ::
              && BestCatcher(entries, segs, deep, e) && m.route == e.route
              && RestReadsBack(s, segs[|e.pattern.steps|].start, copy)
  {
    hide ScanAlong, StringAt, UpToNul;
    ParamBounds.WildcardCaptures(entries, segs, last, |s|, deep, m);
    var e :| BestCatcher(entries, segs, deep, e) && m.route == e.route && m.captures != []
             && var c := m.captures[|m.captures| - 1];
                c.name == [95] && c.start == segs[|e.pattern.steps|].start && c.start + c.length == |s|;
    assert s[segs[|e.pattern.steps|].start..|s|] == s[segs[|e.pattern.steps|].start..];
    assert IsSlice(s, m.captures[|m.captures| - 1]);
  }

  /** Matches a path and copies what has been recorded. Unless a write leaves the buffer, the copy is refused only for
    * its size, and reading it gives the names and values of the match that the list of patterns calls for. */
  method MatchAndCopy(dispatcher: Dispatchers.Dispatcher, path: Option<Text>, ghost d: Dictionaries, ghost t: Tree,
                      ghost entries: seq<Entry>)
    returns (route: Option<Route>, copy: Option<Snapshot>)
    requires dispatcher.router.Serves(d, t, entries) && dispatcher.Valid() && !dispatcher.overran
    requires !ListBounds.Overruns(entries, Lexing.Segments(Lexing.Loaded(path), 0))
    modifies dispatcher, dispatcher.base, dispatcher.lx
    ensures dispatcher.Valid() && !dispatcher.overran
    ensures var s := Lexing.Loaded(path);
            forall m :: Scan(entries, Lexing.Segments(s, 0), Lexing.Last(s, 0), |s|, m) ==>
              var captures := if m.Found? then m.captures else [];
              && AllSlices(s, captures) && Matching.NamesEnd(captures)
              && (copy.Some? <==> PackedSize(AllRecorded(s, captures)) <= 65535)
              && (copy.Some? ==> ReadsBack(s, captures, copy.value))
    ensures var s := Lexing.Loaded(path);
            var segs := Lexing.Segments(s, 0);
            forall m, deep ::
              ScanAlong(entries, segs, Lexing.Last(s, 0), |s|, deep, m) && |deep| < |segs| && m.Found? && copy.Some? ==>
                exists e ::
                  && BestCatcher(entries, segs, deep, e) && m.route == e.route
                  && RestReadsBack(s, segs[|e.pattern.steps|].start, copy.value)
  {
    hide Routers.Router.Serves, ListBounds.Overruns, Scan, Packed, PackedSize, ReadsBack;
    route := dispatcher.Match(path, d, t, entries);
    var captures := dispatcher.Params();
    var list := AllRecorded(dispatcher.lx.str, captures);
    copy := ParamsCopy(Some(ParamSnapshots.Params(Some(list), |list|)));
    assert list[..|list|] == list;
    EmptyCopy(list);
    if copy.Some? {
      PackedReadsBack(dispatcher.lx.str, captures, copy.value);
      ghost var s := Lexing.Loaded(path);
      ghost var segs := Lexing.Segments(s, 0);
      forall m, deep | ScanAlong(entries, segs, Lexing.Last(s, 0), |s|, deep, m) && |deep| < |segs| && m.Found?
        ensures exists e ::
                  && BestCatcher(entries, segs, deep, e) && m.route == e.route
                  && RestReadsBack(s, segs[|e.pattern.steps|].start, copy.value)
      {
        ScanFrom(entries, segs, Lexing.Last(s, 0), |s|, deep, m);
        WildcardReadsBack(s, entries, segs, Lexing.Last(s, 0), deep, m, copy.value);
      }
    }
  }

  lemma EmptyCopy(list: seq<Param>)
    requires AllGiven(list)
    ensures list == [] ==> PackedSize(list) == 0 && Packed(list, Snapshot([], []))
  {
  }
}
