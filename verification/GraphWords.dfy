/** How many words a compiled graph takes, read off the list of patterns. */
module GraphWords {
  import opened Wrappers
  import opened Bytes
  import opened Tokens
  import opened RouteTree
  import opened Insertion
  import opened Acceptance
  import opened Resolution
  import opened GraphLayout
  import opened Capacity
  import Compatibility
  import Prelexing

  /** The nonempty beginnings of the patterns' steps: each is a segment. */
  function Prefixes(u: set<Pattern>): set<Path> {
    set q, k | q in u && 0 < k <= |q.steps| :: q.steps[..k]
  }

  function WithFinal(u: set<Pattern>, f: Final): set<Pattern> {
    set q | q in u && q.final == f
  }

  /** One word for the root, three for every other segment, two for every wildcard and every trailing slash. */
  function ListWords(entries: seq<Entry>): nat {
    var u := PatternsOf(entries);
    1 + 3 * |Prefixes(u)| + 2 * |WithFinal(u, AtWildcard)| + 2 * |WithFinal(u, AtTrailing)|
  }

  /** The routes and the words of the graph can both be counted in 16 bits. */
  predicate GraphFits(syn: Prelexing.Syntax, regs: seq<Registration>) {
    |regs| <= 65535 && AllParse(syn, regs) && ListWords(Entries(syn, regs)) <= 65535
  }

  // ---- What an insertion adds ----

  /** How far a path goes in the tree. */
  function Depth(t: Tree, p: Path): (d: nat)
    ensures d <= |p|
    decreases |p|
  {
    if p == [] || Down(t, p[0]) == None then 0 else 1 + Depth(Down(t, p[0]).value, p[1..])
  }

  lemma {:induction false} DepthIff(t: Tree, p: Path, k: nat)
    requires k <= |p|
    ensures SubAt(t, p[..k]).Some? <==> k <= Depth(t, p)
    decreases k
  {
    if k > 0 {
      assert p[..k][1..] == p[1..][..k - 1];
      if Down(t, p[0]).Some? {
        DepthIff(Down(t, p[0]).value, p[1..], k - 1);
      }
    }
  }

  lemma EmptyHasNoDepth(p: Path)
    ensures Depth(EMPTY, p) == 0
  {
  }

  lemma {:induction false} KidsSizeAgrees(a: seq<Kid>, b: seq<Kid>, n: nat)
    requires n <= |a| && n <= |b| && forall i | 0 <= i < n :: a[i] == b[i]
    ensures KidsSize(a, n) == KidsSize(b, n)
    decreases n
  {
    if n > 0 {
      KidsSizeAgrees(a, b, n - 1);
    }
  }

  lemma {:induction false} KidsSizeAfterReplace(kids: seq<Kid>, n: nat, i: nat, s: Kid)
    requires i < |kids| && n <= |kids|
    ensures KidsSize(kids[i := s], n) == KidsSize(kids, n) + if i < n then Size(s.tree) - Size(kids[i].tree) else 0
    decreases n
  {
    if n > 0 {
      KidsSizeAfterReplace(kids, n - 1, i, s);
    }
  }

  lemma EmptySize()
    ensures Size(EMPTY) == 1
  {
  }

  /** A new segment takes its own word and the two of its edge. */
  lemma EnterSize(t: Tree, literals: seq<Text>, params: seq<Text>, tok: Token)
    requires (tok.Literal? || tok.Param?) && Enter(t, literals, params, tok).error == Ok
    ensures Size(Enter(t, literals, params, tok).tree) ==
            Size(t) + if Down(t, Prelexing.StepOf(tok)) == None then 3 else 0
  {
    var e := Enter(t, literals, params, tok).tree;
    EmptySize();
    if tok.Literal? && e != t {
      assert e.kids == t.kids + [Kid(tok.text, EMPTY)];
      KidsSizeAgrees(t.kids, e.kids, |t.kids|);
    }
  }

  lemma ReplaceDownSize(t: Tree, st: Step, s: Tree)
    requires Down(t, st).Some?
    ensures Size(ReplaceDown(t, st, s)) == Size(t) + Size(s) - Size(Down(t, st).value)
  {
    if st.Lit? {
      KidsSizeAfterReplace(t.kids, |t.kids|, Find(t.kids, st.text).value, Kid(st.text, s));
    }
  }

  lemma TerminateSize(t: Tree, toks: seq<Token>, r: Route)
    requires Terminate(t, toks, r).0 == Ok
    ensures !Continues(toks) ==>
              && Prelexing.PatternOf(toks).Some?
              && Size(Terminate(t, toks, r).1) ==
                 Size(t) + if Prelexing.PatternOf(toks).value.final.AtEnd? then 0 else 2
  {
  }

  /** An accepted insertion adds three words for each new segment, and two for a wildcard or a trailing slash. */
  lemma {:induction false} InsertSize(t: Tree, literals: seq<Text>, params: seq<Text>, toks: seq<Token>, r: Route,
                                      p: Pattern)
    requires Insert(t, literals, params, toks, r).error == Ok && Prelexing.PatternOf(toks) == Some(p)
    ensures Size(Insert(t, literals, params, toks, r).tree) ==
            Size(t) + 3 * (|p.steps| - Depth(t, p.steps)) + if p.final.AtEnd? then 0 else 2
    decreases |toks|
  {
    hide Enter, Terminate, Size, ReplaceDown;
    if Continues(toks) {
      var st := Prelexing.StepOf(toks[0]);
      var e := Enter(t, literals, params, toks[0]);
      var d := Down(e.tree, st).value;
      PatternUnfolds(toks);
      EnterSize(t, literals, params, toks[0]);
      EnterGoesDown(t, literals, params, toks[0]);
      EmptyHasNoDepth(Rest(p).steps);
      InsertSize(d, e.literals, e.params, toks[1..], r, Rest(p));
      ReplaceDownSize(e.tree, st, Insert(d, e.literals, e.params, toks[1..], r).tree);
    } else {
      TerminateSize(t, toks, r);
    }
  }

  // ---- What a list comes to ----

  function Beginnings(p: Path, n: nat): set<Path>
    requires n <= |p|
  {
    set k | 0 < k <= n :: p[..k]
  }

  /** Of a path's beginnings only those past the j-th are new. */
  lemma {:induction false} NewBeginnings(s: set<Path>, p: Path, n: nat, j: nat)
    requires j <= n <= |p| && forall k | 0 < k <= |p| :: p[..k] in s <==> k <= j
    ensures |s + Beginnings(p, n)| == |s| + n - j
    decreases n
  {
    if n == j {
      assert s + Beginnings(p, n) == s;
    } else {
      NewBeginnings(s, p, n - 1, j);
      var before := s + Beginnings(p, n - 1);
      assert p[..n] !in before by {
        assert forall k | 0 < k <= n - 1 :: |p[..k]| == k;
      }
      assert s + Beginnings(p, n) == before + {p[..n]};
    }
  }

  lemma PrefixesOneMore(u: set<Pattern>, q: Pattern)
    ensures Prefixes(u + {q}) == Prefixes(u) + Beginnings(q.steps, |q.steps|)
  {
    forall x | x in Prefixes(u + {q}) ensures x in Prefixes(u) + Beginnings(q.steps, |q.steps|) {
      var q', k :| q' in u + {q} && 0 < k <= |q'.steps| && q'.steps[..k] == x;
    }
  }

  lemma PrefixIff(entries: seq<Entry>, p: Path, k: nat)
    requires 0 < k <= |p|
    ensures p[..k] in Prefixes(PatternsOf(entries)) <==> OnTheWay(entries, p[..k])
  {
    if p[..k] in Prefixes(PatternsOf(entries)) {
      var q, i :| q in PatternsOf(entries) && 0 < i <= |q.steps| && q.steps[..i] == p[..k];
      var e :| e in entries && e.pattern == q;
      assert IsPrefix(p[..k], e.pattern.steps);
    }
    if OnTheWay(entries, p[..k]) {
      var e :| e in entries && IsPrefix(p[..k], e.pattern.steps);
      assert e.pattern in PatternsOf(entries) && e.pattern.steps[..k] == p[..k];
    }
  }

  lemma WithFinalOneMore(u: set<Pattern>, q: Pattern, f: Final)
    requires q !in u
    ensures |WithFinal(u + {q}, f)| == |WithFinal(u, f)| + if q.final == f then 1 else 0
  {
    assert WithFinal(u + {q}, f) == WithFinal(u, f) + if q.final == f then {q} else {};
  }

  lemma NotListed(t: Tree, entries: seq<Entry>, q: Pattern)
    requires Holds(t, entries) && Lookup(t, q) == None
    ensures q !in PatternsOf(entries)
  {
    forall e | e in entries ensures e.pattern != q {
      assert Entry(e.pattern, e.route) in entries;
    }
  }

  lemma ListWordsOneMore(t: Tree, entries: seq<Entry>, e: Entry)
    requires Compatibility.Sound(t) && Holds(t, entries) && Lookup(t, e.pattern) == None
    ensures ListWords(entries + [e]) ==
            ListWords(entries) + 3 * (|e.pattern.steps| - Depth(t, e.pattern.steps))
            + if e.pattern.final.AtEnd? then 0 else 2
  {
    hide Compatibility.Sound, Prefixes, OnTheWay, WithFinal, Depth;
    var u, q := PatternsOf(entries), e.pattern;
    OneMorePattern(entries, e);
    NotListed(t, entries, q);
    WithFinalOneMore(u, q, AtWildcard);
    WithFinalOneMore(u, q, AtTrailing);
    PrefixesOneMore(u, q);
    forall k | 0 < k <= |q.steps| ensures q.steps[..k] in Prefixes(u) <==> k <= Depth(t, q.steps) {
      PrefixIff(entries, q.steps, k);
      OnTheWayIff(t, entries, q.steps[..k]);
      DepthIff(t, q.steps, k);
    }
    NewBeginnings(Prefixes(u), q.steps, |q.steps|, Depth(t, q.steps));
  }

  /** The graph of an accepted list takes as many words as the list says. */
  lemma {:induction false} SizeIsListWords(syn: Prelexing.Syntax, regs: seq<Registration>)
    requires Accepted(syn, regs)
    ensures AllParse(syn, regs) && Size(AddAll(syn, regs).tree) == ListWords(Entries(syn, regs))
    decreases |regs|
  {
    hide Size, Insert, Holds, Compatibility.Sound, ListWords, Lookup;
    AcceptedTreeHolds(syn, regs);
    if regs == [] {
      NothingTakesOne();
    } else {
      var n := |regs| - 1;
      var b, p := AddAll(syn, regs[..n]), Prelexing.Parse(syn, regs[n].pattern).value;
      AcceptedBefore(syn, regs);
      LastEntry(syn, regs);
      AcceptedTreeHolds(syn, regs[..n]);
      SizeIsListWords(syn, regs[..n]);
      InsertAddsOne(b.tree, b.literals, b.params, TokensOf(syn, regs[n]), regs[n].route, p);
      InsertSize(b.tree, b.literals, b.params, TokensOf(syn, regs[n]), regs[n].route, p);
      ListWordsOneMore(b.tree, Entries(syn, regs[..n]), Entry(p, regs[n].route));
    }
  }

  lemma NothingTakesOne()
    ensures Size(EMPTY) == 1 && ListWords([]) == 1
  {
    assert PatternsOf([]) == {};
    assert Prefixes({}) == {} && WithFinal({}, AtWildcard) == {} && WithFinal({}, AtTrailing) == {};
  }
}
