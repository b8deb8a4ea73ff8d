/** The route builder: patterns go into the segment tree, conflicts are refused. */
module Builders {
  import opened Wrappers
  import opened Bytes
  import opened Tokens
  import opened RouteTree
  import opened SymbolTables
  import opened Insertion
  import opened Acceptance
  import Compatibility
  import opened Segments
  import opened SegmentWalks
  import opened Regularity
  import opened Ledgers
  import Prelexing

  class Builder {
    const root: Segment
    const literals: SymbolTable
    const params: SymbolTable
    const fallback: Route
    const ledger: Ledger       // records what the two callbacks are called with
    const retain: bool         // whether the callbacks are set
    const release: bool
    const syntax: Prelexing.Syntax
    var corrupted: bool
    ghost var h: Layout
    ghost var objects: set<Segment>     // the segments of the layout
    ghost var tree: Tree
    ghost var regs: seq<Registration>   // every call so far, also the refused ones

    /** The objects stand for the tree, and the tables are sound. */
    ghost predicate Sturdy()
      reads `h, `tree, `objects, objects, literals, literals.arena, params, params.arena
    {
      && objects == h.at.Values
      && [] in h.at && root == h.at[[]]
      && Linked(h, tree) && Regular(tree)
      && literals.Valid() && params.Valid() && literals != params && literals.arena != params.arena
    }

    ghost function State(): Build
      reads this, literals, params
    {
      Build(corrupted, tree, literals.base, params.base)
    }

    ghost predicate Valid()
      reads this, objects, literals, literals.arena, params, params.arena
    {
      Sturdy() && State() == AddAll(syntax, regs)
    }

    constructor (syntax: Prelexing.Syntax, fallback: Route, ledger: Ledger, retain: bool, release: bool)
      modifies ledger
      ensures Valid() && regs == [] && tree == EMPTY && fresh(objects)
      ensures this.syntax == syntax && this.fallback == fallback && this.ledger == ledger
      ensures this.retain == retain && this.release == release
      ensures fresh(literals) && fresh(literals.arena) && fresh(params) && fresh(params.arena)
      ensures ledger.released == old(ledger.released)
      ensures ledger.retained == old(ledger.retained) + if retain then multiset{fallback.ctx} else multiset{}
    {
      RetainRoute(ledger, retain, fallback);
      this.syntax, this.fallback := syntax, fallback;
      this.ledger, this.retain, this.release := ledger, retain, release;
      corrupted, tree, regs := false, EMPTY, [];
      literals := new SymbolTable();
      params := new SymbolTable();
      var s := new Segment([]);
      root, objects := s, {s};
      h := Layout(map[[] := s], map[[] := []]);
      new;
      hide Builder.Valid, SymbolTable.Valid, FieldsOf, Blank;
      StartIsValid();
    }

    lemma StartIsValid()
      requires FieldsOf(root) == Blank([]) && objects == {root} && h == Layout(map[[] := root], map[[] := []])
      requires !corrupted && tree == EMPTY && regs == []
      requires literals.Valid() && params.Valid() && literals != params && literals.arena != params.arena
      requires literals.base == params.base == []
      ensures Valid()
    {
      hide Linked, Regular, SymbolTable.Valid, FieldsOf, Blank;
      RootAlone(root);
    }

    static method RetainRoute(ledger: Ledger, retain: bool, route: Route)
      modifies ledger`retained
      ensures ledger.retained == old(ledger.retained) + if retain then multiset{route.ctx} else multiset{}
    {
      if retain {
        ledger.Retain(route.ctx);
      }
    }

    // A copy of the route, and a reference for it.
    method Terminate(route: Route) returns (terminal: Route)
      modifies ledger`retained
      ensures terminal == route
      ensures ledger.retained == old(ledger.retained) + if retain then multiset{route.ctx} else multiset{}
    {
      RetainRoute(ledger, retain, route);
      return route;
    }

    /** A literal token: find the child with this text, or make it. */
    method EnterLiteral(cur: Segment, x: Text, ghost p: Path) returns (err: Error, child: Segment?)
      requires Sturdy() && p in h.at && h.at[p] == cur && 0 !in x
      modifies this`h, this`tree, this`objects, objects, literals, literals.arena
      ensures Sturdy() && fresh(objects - old(objects))
      ensures old(SubAt(tree, p)).Some?
      ensures var e := Enter(old(SubAt(tree, p)).value, old(literals.base), params.base, Literal(0, x));
              && err == e.error && tree == Replace(old(tree), p, e.tree)
              && literals.base == e.literals && params.base == e.params
              && (err == Ok ==> p + [Lit(x)] in h.at && child == h.at[p + [Lit(x)]])
    {
      hide Linked, Regular, Replace, SubAt, SymbolTable.Valid, PlaceIn, AddAll, Grown, FieldsOf;
      PlaceFields(h, tree, p);
      SubAtKeeps(tree, p);
      ReplaceSelf(tree, p);
      RegularIsDistinct(SubAt(tree, p).value);
      if cur.specType == SpecParam {
        return LiteralConflictsWithParam, null;
      }
      child := FindChild(cur, x, h, tree, p);
      if child != null {
        return Ok, child;
      }
      err, child := MakeChild(cur, x, p);
    }

    method MakeChild(cur: Segment, x: Text, ghost p: Path) returns (err: Error, child: Segment?)
      requires Sturdy() && p in h.at && h.at[p] == cur && 0 !in x
      requires SubAt(tree, p).Some? && Find(SubAt(tree, p).value.kids, x) == None
      requires var s := SubAt(tree, p).value.special; s.NoSpecial? || s.WildcardEdge?
      modifies this`h, this`tree, this`objects, objects, literals, literals.arena
      ensures Sturdy() && fresh(objects - old(objects))
      ensures var e := Enter(old(SubAt(tree, p)).value, old(literals.base), params.base, Literal(0, x));
              && err == e.error && tree == Replace(old(tree), p, e.tree)
              && literals.base == e.literals && params.base == e.params
              && (err == Ok ==> p + [Lit(x)] in h.at && child == h.at[p + [Lit(x)]])
    {
      hide Linked, Regular, Replace, SubAt, SymbolTable.Valid, Grown, FieldsOf, Blank, Enter, WithKid, WithParam,
           Find, Intern;
      ghost var sub := SubAt(tree, p).value;
      SubAtKeeps(tree, p);
      ReplaceSelf(tree, p);
      EnterMakesKid(sub, literals.base, params.base, x);
      var stored;
      stored, err := literals.Append(x);
      if err != Ok {
        return err, null;
      }
      err, child := LinkKid(cur, stored.value, p);
    }

    method LinkKid(cur: Segment, x: Text, ghost p: Path) returns (err: Error, child: Segment?)
      requires Sturdy() && p in h.at && h.at[p] == cur
      requires SubAt(tree, p).Some? && Find(SubAt(tree, p).value.kids, x) == None && Regular(SubAt(tree, p).value)
      requires |SubAt(tree, p).value.kids| < NODE_MAX_CHILD_COUNT ==> Regular(WithKid(SubAt(tree, p).value, x))
      modifies this`h, this`tree, this`objects, objects
      ensures Sturdy() && fresh(objects - old(objects))
      ensures |old(SubAt(tree, p)).value.kids| >= NODE_MAX_CHILD_COUNT ==> err == OutOfRange && tree == old(tree)
      ensures |old(SubAt(tree, p)).value.kids| < NODE_MAX_CHILD_COUNT ==>
                && err == Ok && tree == Replace(old(tree), p, WithKid(old(SubAt(tree, p)).value, x))
                && p + [Lit(x)] in h.at && child == h.at[p + [Lit(x)]]
    {
      hide Linked, Regular, Replace, SubAt, SymbolTable.Valid, Grown, FieldsOf, Blank, WithKid, WithParam, Find;
      ghost var sub := SubAt(tree, p).value;
      RegularIsDistinct(sub);
      child := new Segment(x);
      err, h := AppendChild(cur, child, h, tree, p);
      if err == Ok {
        ReplaceKeepsRegular(tree, p, WithKid(sub, x));
        tree, objects := Replace(tree, p, WithKid(sub, x)), objects + {child};
      }
    }

    method LinkParam(cur: Segment, x: Text, ghost p: Path) returns (child: Segment)
      requires Sturdy() && p in h.at && h.at[p] == cur && cur.specType == SpecNone
      requires SubAt(tree, p).Some? && !SubAt(tree, p).value.special.ParamEdge?
      requires Regular(WithParam(SubAt(tree, p).value, x))
      modifies this`h, this`tree, this`objects, objects
      ensures Sturdy() && fresh(objects - old(objects))
      ensures tree == Replace(old(tree), p, WithParam(old(SubAt(tree, p)).value, x))
      ensures p + [Par(x)] in h.at && child == h.at[p + [Par(x)]]
    {
      hide Linked, Regular, Replace, SubAt, SymbolTable.Valid, Grown, FieldsOf, Blank, WithParam, Find;
      ghost var sub := SubAt(tree, p).value;
      child := new Segment(x);
      h := AttachParam(cur, child, h, tree, p);
      ReplaceKeepsRegular(tree, p, WithParam(sub, x));
      tree, objects := Replace(tree, p, WithParam(sub, x)), objects + {child};
    }

    /** A parameter token: make the parameter's segment, or check that it has this name. */
    method EnterParam(cur: Segment, x: Text, ghost p: Path) returns (err: Error, child: Segment?)
      requires Sturdy() && p in h.at && h.at[p] == cur && 0 !in x
      requires SubAt(tree, p).Some? && !SubAt(tree, p).value.special.HalfParam?
      modifies this`h, this`tree, this`objects, objects, params, params.arena
      ensures Sturdy() && fresh(objects - old(objects))
      ensures var e := Enter(old(SubAt(tree, p)).value, literals.base, old(params.base), Param(0, x));
              && err == e.error && tree == Replace(old(tree), p, e.tree)
              && literals.base == e.literals && params.base == e.params
              && (err == Ok ==> p + [Par(x)] in h.at && child == h.at[p + [Par(x)]])
    {
      hide Linked, Regular, Replace, SubAt, SymbolTable.Valid, Grown, FieldsOf, Blank, Enter, WithKid, WithParam,
           Find, Intern;
      PlaceFields(h, tree, p);
      ghost var sub := SubAt(tree, p).value;
      SubAtKeeps(tree, p);
      ReplaceSelf(tree, p);
      EnterMakesParam(sub, literals.base, params.base, x);
      if cur.specType == SpecWildcard {
        return ParamConflictsWithWildcard, null;
      }
      if cur.childCount > 0 {
        return ParamConflictsWithLiteral, null;
      }
      if cur.specType == SpecNone {
        var stored;
        stored, err := params.Append(x);
        if err != Ok {
          MarkHalfParam(cur, h, tree, p);
          ReplaceKeepsRegular(tree, p, sub.(special := HalfParam));
          tree := Replace(tree, p, sub.(special := HalfParam));
          return err, null;
        }
        child := LinkParam(cur, stored.value, p);
        return Ok, child;
      }
      if cur.param.str != x {
        return ParamNameMismatch, null;
      }
      return Ok, cur.param;
    }

    /** A final token: store the route at this segment, unless something is in its way. */
    method Finish(cur: Segment, lx: Prelexing.Prelexer, tok: Token, route: Route, ghost p: Path, ghost toks: seq<Token>)
      returns (err: Error)
      requires Sturdy() && Stands(cur, p) && lx.Valid()
      requires !Continues(toks) && toks != [] && tok == toks[0]
      requires tok.Wildcard? ==> |toks| == 2 && toks[1] == Prelexing.Next(lx.syntax, lx.str, lx.cursor).0
      modifies this`tree, objects, ledger`retained, lx`cursor
      ensures Sturdy() && lx.Valid()
      ensures Now(err) == old(Left(p, toks, route))
      ensures ledger.retained == old(ledger.retained) + if err == Ok && retain then multiset{route.ctx} else multiset{}
    {
      hide Linked, Regular, Replace, SubAt, SymbolTable.Valid, PlaceIn, AddAll, Insert, NoHalf;
      InsertEnds(SubAt(tree, p).value, literals.base, params.base, toks, route);
      PlaceFields(h, tree, p);
      SubAtKeeps(tree, p);
      ReplaceSelf(tree, p);
      match tok {
        case End =>
          if cur.terminal != None {
            return DuplicateRoute;
          }
          Store(cur, AtEnd, route, p);
          return Ok;
        case Wildcard =>
          if cur.specType == SpecWildcard {
            return DuplicateRoute;
          }
          if cur.specType == SpecParam {
            return WildcardConflictsWithParam;
          }
          var after := lx.NextToken();
          if after != End {
            return WildcardNotFinal;
          }
          Store(cur, AtWildcard, route, p);
          return Ok;
        case Trailing =>
          if cur.trailing != None {
            return DuplicateRoute;
          }
          Store(cur, AtTrailing, route, p);
          return Ok;
        case _ =>
          return IllegalPattern;
      }
    }

    /** Retains the route's context and stores the route. */
    method Store(cur: Segment, f: Final, route: Route, ghost p: Path)
      requires Sturdy() && p in h.at && h.at[p] == cur && SubAt(tree, p).Some?
      requires f.AtWildcard? ==> cur.specType == SpecNone
      modifies this`tree, objects, ledger`retained
      ensures Sturdy() && tree == Replace(old(tree), p, WithRoute(old(SubAt(tree, p)).value, f, route))
      ensures ledger.retained == old(ledger.retained) + if retain then multiset{route.ctx} else multiset{}
    {
      hide Linked, Replace, SubAt, SymbolTable.Valid, PlaceIn, AddAll;
      SubAtKeeps(tree, p);
      ghost var sub := SubAt(tree, p).value;
      PlaceFields(h, tree, p);
      ReplaceKeepsRegular(tree, p, WithRoute(sub, f, route));
      var terminal := Terminate(route);
      StoreRoute(cur, f, terminal, h, tree, p);
      tree := Replace(tree, p, WithRoute(sub, f, route));
    }

    /** The loop's cursor stands on a segment. */
    ghost predicate Stands(cur: Segment, p: Path)
      reads `h, `tree
    {
      p in h.at && h.at[p] == cur && SubAt(tree, p).Some? && NoHalf(SubAt(tree, p).value)
    }

    /** What the whole insertion comes to, when these tokens are left at this place. */
    ghost function Left(p: Path, toks: seq<Token>, route: Route): Outcome
      requires SubAt(tree, p).Some?
      reads `tree, literals, params
    {
      Under(tree, p, Insert(SubAt(tree, p).value, literals.base, params.base, toks, route))
    }

    ghost function Now(error: Error): Outcome
      reads `tree, literals, params
    {
      Outcome(error, tree, literals.base, params.base)
    }

    lemma RootStands(toks: seq<Token>, route: Route)
      requires Sturdy() && NoHalf(tree)
      ensures Stands(root, []) && SubAt(tree, []).Some?
      ensures Left([], toks, route) == Insert(tree, literals.base, params.base, toks, route)
    {
    }

    /** The loop over the pattern's tokens. */
    method InsertPattern(pattern: Option<CString>, route: Route) returns (err: Error)
      requires Sturdy() && NoHalf(tree)
      modifies this`h, this`tree, this`objects, objects, literals, literals.arena, params, params.arena, ledger`retained
      ensures Sturdy() && fresh(objects - old(objects))
      ensures Now(err) ==
              Insert(old(tree), old(literals.base), old(params.base), TokensOf(syntax, Registration(pattern, route)),
                     route)
      ensures ledger.retained == old(ledger.retained) + if err == Ok && retain then multiset{route.ctx} else multiset{}
    {
      hide Builder.Sturdy, Builder.Stands, Builder.Left, Builder.Now, NoHalf, Replace, SubAt, AddAll, Insert, Enter;
      var lx := new Prelexing.Prelexer(syntax);
      lx.Load(pattern);
      ghost var p, toks := [], TokensOf(syntax, Registration(pattern, route));
      ghost var all := Insert(tree, literals.base, params.base, toks, route);
      assert toks == Prelexing.Run(lx.syntax, lx.str, lx.cursor) by {
        Prelexing.RefusedRunsAlike(syntax, lx.syntax);
      }
      RootStands(toks, route);
      var cur: Segment := root;
      var more := true;
      err := Ok;
      while more
        invariant Sturdy() && fresh(objects - old(objects)) && lx.Valid()
        invariant more ==> toks == Prelexing.Run(lx.syntax, lx.str, lx.cursor)
        invariant more ==> SubAt(tree, p).Some? && Stands(cur, p) && all == Left(p, toks, route)
        invariant !more ==> all == Now(err)
        invariant ledger.retained ==
                  old(ledger.retained) + if !more && err == Ok && retain then multiset{route.ctx} else multiset{}
        decreases more, |lx.str| - lx.cursor
      {
        more, err, cur, p, toks := Advance(cur, lx, route, p, toks);
      }
    }

    /** One turn of the loop: take the next token and act on it. */
    method Advance(cur: Segment, lx: Prelexing.Prelexer, route: Route, ghost p: Path, ghost toks: seq<Token>)
      returns (more: bool, err: Error, cur': Segment, ghost p': Path, ghost toks': seq<Token>)
      requires Sturdy() && Stands(cur, p) && lx.Valid() && toks == Prelexing.Run(lx.syntax, lx.str, lx.cursor)
      modifies this`h, this`tree, this`objects, objects, literals, literals.arena, params, params.arena
      modifies ledger`retained, lx`cursor
      ensures Sturdy() && fresh(objects - old(objects)) && lx.Valid()
      ensures more ==> old(lx.cursor) < lx.cursor && toks' == Prelexing.Run(lx.syntax, lx.str, lx.cursor)
      ensures more ==> SubAt(tree, p').Some? && Stands(cur', p') && Left(p', toks', route) == old(Left(p, toks, route))
      ensures !more ==> Now(err) == old(Left(p, toks, route))
      ensures ledger.retained ==
              old(ledger.retained) + if !more && err == Ok && retain then multiset{route.ctx} else multiset{}
    {
      hide Builder.Sturdy, Builder.Left, Builder.Now, NoHalf, Replace, SubAt, AddAll, Insert, Enter;
      var tok := lx.NextToken();
      RunHead(lx.syntax, lx.str, old(lx.cursor));
      cur', p', toks' := cur, p, toks;
      if tok.Literal? || tok.Param? {
        Prelexing.TextHasNoNul(lx.syntax, tok);
        var child;
        err, child := Turn(cur, tok, route, p, toks);
        more := err == Ok;
        if more {
          cur', p', toks' := child, p + [Prelexing.StepOf(tok)], toks[1..];
        }
      } else {
        err := Finish(cur, lx, tok, route, p, toks);
        more := false;
      }
    }

    lemma TablesApart()
      requires Sturdy()
      ensures literals != params && literals.arena != params.arena
    {
    }

    /** One turn of the loop, for a literal or a parameter: what is left to insert is left below. */
    method Turn(cur: Segment, tok: Token, ghost route: Route, ghost p: Path, ghost toks: seq<Token>)
      returns (err: Error, child: Segment?)
      requires Sturdy() && Stands(cur, p)
      requires Continues(toks) && tok == toks[0] && 0 !in tok.text
      modifies this`h, this`tree, this`objects, objects, literals, literals.arena, params, params.arena
      ensures Sturdy() && fresh(objects - old(objects))
      ensures var p' := p + [Prelexing.StepOf(tok)];
              if err == Ok then
                child != null && Stands(child, p') && SubAt(tree, p').Some?
                && Left(p', toks[1..], route) == old(Left(p, toks, route))
              else Now(err) == old(Left(p, toks, route))
    {
      hide Builder.Sturdy, NoHalf, Replace, SubAt, SymbolTable.Valid, AddAll, Insert, Enter;
      ghost var before, sub, L, P := tree, SubAt(tree, p).value, literals.base, params.base;
      TablesApart();
      NoHalfHere(sub);
      EnterIgnoresPointer(sub, L, P, tok);
      if tok.Literal? {
        err, child := EnterLiteral(cur, tok.text, p);
      } else {
        err, child := EnterParam(cur, tok.text, p);
      }
      if err != Ok {
        InsertEnters(sub, L, P, toks, route);
        return;
      }
      EnterKeepsNoHalf(sub, L, P, tok);
      UnderEnter(before, p, L, P, toks, route);
    }

    /** Adds a route: exactly what the specification's Add does to the builder's state. */
    method AddRoute(pattern: Option<CString>, route: Route) returns (err: Error)
      requires Valid()
      modifies this`h, this`tree, this`regs, this`corrupted, this`objects, objects
      modifies literals, literals.arena, params, params.arena, ledger`retained
      ensures Valid() && fresh(objects - old(objects))
      ensures regs == old(regs) + [Registration(pattern, route)]
      ensures (err, State()) == Acceptance.Add(old(State()), syntax, Registration(pattern, route))
      ensures ledger.retained == old(ledger.retained) + if err == Ok && retain then multiset{route.ctx} else multiset{}
    {
      hide Builder.Sturdy, NoHalf, Compatibility.Sound, Insert, AddAll;
      ghost var reg, before := Registration(pattern, route), regs;
      AddAllExtends(syntax, before, reg);
      if corrupted {
        regs := before + [reg];
        return BuilderCorrupted;
      }
      AcceptedTreeHolds(syntax, before);
      SoundIsRegular(tree);
      err := InsertPattern(pattern, route);
      if err != Ok {
        corrupted := true;
      }
      regs := before + [reg];
    }

    /** Releases what the builder retained and still holds. */
    method Free()
      requires Valid() && (release ==> NoHalf(tree))
      modifies ledger`released
      ensures forall c :: ledger.released[c] ==
                old(ledger.released)[c] + if release then Of(Some(fallback), Carries(c)) + Sum(tree, Carries(c)) else 0
    {
      if !release {
        return;
      }
      SegmentRelease(root, ledger, h, tree, [], tree);
      ledger.Release(fallback.ctx);
    }
  }

  lemma RegularIsDistinct(t: Tree)
    requires Regular(t)
    ensures DistinctTexts(t.kids)
  {
  }

  lemma {:induction false} ReplaceKeepsRegular(t: Tree, p: Path, s: Tree)
    requires SubAt(t, p).Some? && Regular(t) && Regular(s)
    ensures Regular(Replace(t, p, s))
    decreases |p|
  {
    if p != [] {
      var d := Down(t, p[0]).value;
      DownKeeps(t, p[0]);
      ReplaceKeepsRegular(d, p[1..], s);
      ReplaceDownKeeps(t, p[0], Replace(d, p[1..], s));
    }
  }

  lemma RootAlone(s: Segment)
    requires FieldsOf(s) == Blank([])
    ensures Linked(Layout(map[[] := s], map[[] := []]), EMPTY) && Regular(EMPTY)
    ensures Layout(map[[] := s], map[[] := []]).at.Values == {s}
  {
    var h := Layout(map[[] := s], map[[] := []]);
    forall p | ViewAt(EMPTY, p).Some? ensures p in h.at {
      EmptyHasNothingBelow(p);
    }
    assert PlaceIn(h, Snapshot(h.at.Values), EMPTY, []);
  }

  lemma EnterMakesKid(t: Tree, literals: seq<Text>, params: seq<Text>, x: Text)
    requires Regular(t) && Find(t.kids, x) == None && (t.special.NoSpecial? || t.special.WildcardEdge?)
    ensures Enter(t, literals, params, Literal(0, x)) ==
            if |literals| >= UINT16_MAX then Outcome(OutOfRange, t, literals, params)
            else if |t.kids| >= NODE_MAX_CHILD_COUNT then Outcome(OutOfRange, t, Intern(literals, x), params)
            else Outcome(Ok, WithKid(t, x), Intern(literals, x), params)
    ensures |t.kids| < NODE_MAX_CHILD_COUNT ==> Regular(WithKid(t, x))
  {
    if |t.kids| < NODE_MAX_CHILD_COUNT {
      EnterKeeps(t, [], [], Literal(0, x));
    }
  }

  lemma EnterMakesParam(t: Tree, literals: seq<Text>, params: seq<Text>, x: Text)
    requires Regular(t) && !t.special.HalfParam?
    ensures Enter(t, literals, params, Param(0, x)) ==
            if t.special.WildcardEdge? then Outcome(ParamConflictsWithWildcard, t, literals, params)
            else if |t.kids| > 0 then Outcome(ParamConflictsWithLiteral, t, literals, params)
            else if t.special.ParamEdge? then
              (if t.special.name == x then Outcome(Ok, t, literals, params) else Outcome(ParamNameMismatch, t,
                  literals, params))
            else if |params| >= UINT16_MAX then Outcome(OutOfRange, t.(special := HalfParam), literals, params)
            else Outcome(Ok, WithParam(t, x), literals, Intern(params, x))
    ensures t.special.NoSpecial? && t.kids == [] ==> Regular(WithParam(t, x)) && Regular(t.(special := HalfParam))
  {
  }

  lemma RunHead(syn: Prelexing.Syntax, s: CString, c: nat)
    requires c <= |s|
    ensures var toks, tok := Prelexing.Run(syn, s, c), Prelexing.Next(syn, s, c).0;
            && toks != [] && toks[0] == tok
            && (tok.Literal? || tok.Param? ==> toks[1..] == Prelexing.Run(syn, s, Prelexing.Next(syn, s, c).1))
            && (tok.Wildcard? ==> |toks| == 2 && toks[1] == Prelexing.Next(syn, s, Prelexing.Next(syn, s, c).1).0)
  {
  }

  lemma NoHalfHere(t: Tree)
    requires NoHalf(t)
    ensures !t.special.HalfParam?
  {
  }

  lemma EnterIgnoresPointer(t: Tree, literals: seq<Text>, params: seq<Text>, tok: Token)
    requires tok.Literal? || tok.Param?
    ensures Enter(t, literals, params, tok) ==
            Enter(t, literals, params, if tok.Literal? then Literal(0, tok.text) else Param(0, tok.text))
  {
  }

  lemma InsertEnters(t: Tree, literals: seq<Text>, params: seq<Text>, toks: seq<Token>, r: Route)
    requires Continues(toks) && Enter(t, literals, params, toks[0]).error != Ok
    ensures Insert(t, literals, params, toks, r) == Enter(t, literals, params, toks[0])
  {
  }

  lemma InsertEnds(t: Tree, literals: seq<Text>, params: seq<Text>, toks: seq<Token>, r: Route)
    requires !Continues(toks)
    ensures Insert(t, literals, params, toks, r) ==
            Outcome(Insertion.Terminate(t, toks, r).0, Insertion.Terminate(t, toks, r).1, literals, params)
  {
  }

  lemma EnterKeepsNoHalf(t: Tree, literals: seq<Text>, params: seq<Text>, tok: Token)
    requires tok.Literal? || tok.Param?
    requires NoHalf(t) && Enter(t, literals, params, tok).error == Ok
    ensures Down(Enter(t, literals, params, tok).tree, Prelexing.StepOf(tok)).Some?
    ensures NoHalf(Down(Enter(t, literals, params, tok).tree, Prelexing.StepOf(tok)).value)
  {
  }

  lemma AddAllExtends(syn: Prelexing.Syntax, regs: seq<Registration>, reg: Registration)
    ensures AddAll(syn, regs + [reg]) == Acceptance.Add(AddAll(syn, regs), syn, reg).1
  {
  }
}
