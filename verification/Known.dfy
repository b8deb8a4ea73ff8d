/** Every text in the tree has been interned, so that compiling can resolve it. */
module KnownTexts {
  import opened Bytes
  import opened Tokens
  import Permutations
  import opened RouteTree
  import opened SymbolTables
  import opened Insertion
  import Compatibility
  import opened Regularity
  import opened Acceptance
  import opened GraphLayout
  import opened Routers
  import Prelexing

  ghost predicate Known(d: Dictionaries, t: Tree) {
    && (forall i | 0 <= i < |t.kids| :: t.kids[i].text in d.literals && Known(d, t.kids[i].tree))
    && (t.special.ParamEdge? ==> t.special.name in d.params && Known(d, t.special.sub))
  }

  predicate Includes(d: Dictionaries, d': Dictionaries) {
    (forall x | x in d.literals :: x in d'.literals) && (forall x | x in d.params :: x in d'.params)
  }

  lemma {:induction false} KnownInMore(d: Dictionaries, d': Dictionaries, t: Tree)
    requires Known(d, t) && Includes(d, d')
    ensures Known(d', t)
    decreases t
  {
    forall i | 0 <= i < |t.kids| ensures t.kids[i].text in d'.literals && Known(d', t.kids[i].tree) {
      KnownInMore(d, d', t.kids[i].tree);
    }
    if t.special.ParamEdge? {
      KnownInMore(d, d', t.special.sub);
    }
  }

  lemma EnterKeepsKnown(t: Tree, d: Dictionaries, tok: Token)
    requires tok.Literal? || tok.Param?
    requires Known(d, t)
    ensures var e := Enter(t, d.literals, d.params, tok);
            && Includes(d, Dictionaries(e.literals, e.params)) && Known(Dictionaries(e.literals, e.params), e.tree)
  {
    var e := Enter(t, d.literals, d.params, tok);
    var d' := Dictionaries(e.literals, e.params);
    KnownInMore(d, d', t);
    if tok.Literal? && e.tree != t {
      assert forall i | 0 <= i < |t.kids| :: e.tree.kids[i] == t.kids[i];
    }
  }

  lemma ReplaceDownKeepsKnown(d: Dictionaries, t: Tree, st: Step, s: Tree)
    requires Down(t, st).Some? && Known(d, t) && Known(d, s)
    ensures Known(d, ReplaceDown(t, st, s))
  {
  }

  lemma {:induction false} InsertKeepsKnown(t: Tree, d: Dictionaries, toks: seq<Token>, r: Route)
    requires Known(d, t)
    ensures var o := Insert(t, d.literals, d.params, toks, r);
            && Includes(d, Dictionaries(o.literals, o.params)) && Known(Dictionaries(o.literals, o.params), o.tree)
    decreases |toks|
  {
    if Continues(toks) {
      var st := Prelexing.StepOf(toks[0]);
      var e := Enter(t, d.literals, d.params, toks[0]);
      var d1 := Dictionaries(e.literals, e.params);
      EnterKeepsKnown(t, d, toks[0]);
      if e.error == Ok {
        var sub := Down(e.tree, st).value;
        InsertKeepsKnown(sub, d1, toks[1..], r);
        var o := Insert(sub, e.literals, e.params, toks[1..], r);
        KnownInMore(d1, Dictionaries(o.literals, o.params), e.tree);
        ReplaceDownKeepsKnown(Dictionaries(o.literals, o.params), e.tree, st, o.tree);
      }
    }
  }

  /** Whatever was added, also if the last addition was refused, the tables know the tree's texts. */
  lemma {:induction false} BuiltIsKnown(syn: Prelexing.Syntax, regs: seq<Registration>)
    ensures var b := AddAll(syn, regs); Known(Dictionaries(b.literals, b.params), b.tree)
    decreases |regs|
  {
    if regs != [] {
      var b, reg := AddAll(syn, regs[..|regs| - 1]), regs[|regs| - 1];
      BuiltIsKnown(syn, regs[..|regs| - 1]);
      InsertKeepsKnown(b.tree, Dictionaries(b.literals, b.params), TokensOf(syn, reg), reg.route);
    }
  }

  lemma {:induction false} KnownIsCompilable(d: Dictionaries, t: Tree)
    requires Known(d, t) && Regular(t) && NoHalf(t) && NulFree(d.literals) && NulFree(d.params)
    ensures Compilable(d, t)
    decreases t
  {
    forall i | 0 <= i < |t.kids|
      ensures t.kids[i].text in d.literals && 0 !in t.kids[i].text && Compilable(d, t.kids[i].tree)
    {
      KnownIsCompilable(d, t.kids[i].tree);
    }
    if t.special.ParamEdge? {
      KnownIsCompilable(d, t.special.sub);
    }
  }

  lemma PermutationIsNulFree(a: seq<Text>, b: seq<Text>)
    requires multiset(a) == multiset(b) && NulFree(a)
    ensures NulFree(b)
    ensures forall x | x in a :: x in b
  {
    Permutations.PermutationKeepsMembers(a, b);
    forall i | 0 <= i < |b| ensures 0 !in b[i] {
      assert b[i] in a;
    }
  }

  /** An accepted build can be compiled with dictionaries made of its tables. */
  lemma AcceptedIsCompilable(syn: Prelexing.Syntax, regs: seq<Registration>, d: Dictionaries)
    requires Accepted(syn, regs)
    requires multiset(d.literals) == multiset(AddAll(syn, regs).literals) && NulFree(AddAll(syn, regs).literals)
    requires multiset(d.params) == multiset(AddAll(syn, regs).params) && NulFree(AddAll(syn, regs).params)
    ensures Compilable(d, AddAll(syn, regs).tree)
  {
    hide AddAll, Regular, NoHalf, Known, Compatibility.Sound, NulFree, Compilable, Holds, AllParse;
    var b := AddAll(syn, regs);
    BuiltIsKnown(syn, regs);
    AcceptedTreeHolds(syn, regs);
    SoundIsRegular(b.tree);
    PermutationIsNulFree(b.literals, d.literals);
    PermutationIsNulFree(b.params, d.params);
    KnownInMore(Dictionaries(b.literals, b.params), d, b.tree);
    KnownIsCompilable(d, b.tree);
  }
}
