/** The compiled symbols: a sorted list of strings in one region, searched from two kinds of key. */
module SymbolLists {
  import opened Wrappers
  import opened Bytes
  import Arenas
  import opened Permutations
  import opened SymbolTables

  type Word = w: int | 0 <= w < 65536

  predicate Ascending(texts: seq<Text>) {
    forall i, j | 0 <= i < j < |texts| :: Before(texts[i], texts[j])
  }

  /** A string stored with a terminator behind it; it may hold NULs itself. */
  predicate StoredAt(region: seq<Byte>, at: nat, x: Text) {
    && at + |x| < |region|
    && region[at..at + |x|] == x
    && region[at + |x|] == 0
  }

  /** The string that starts at `at` and runs up to the next NUL. */
  predicate CStringAt(region: seq<Byte>, at: nat, x: Text) {
    StoredAt(region, at, x) && 0 !in x
  }

  function StringAt(region: seq<Byte>, at: nat): Text
    requires at <= |region|
    decreases |region| - at
  {
    if at == |region| || region[at] == 0 then [] else [region[at]] + StringAt(region, at + 1)
  }

  /** The part of a text that a C string shows. */
  function UpToNul(x: Text): Text {
    if x == [] || x[0] == 0 then [] else [x[0]] + UpToNul(x[1..])
  }

  lemma {:induction false} NulFreeIsWhole(x: Text)
    ensures UpToNul(x) == x <==> 0 !in x
  {
    if x != [] {
      NulFreeIsWhole(x[1..]);
      assert x == [x[0]] + x[1..];
    }
  }

  lemma {:induction false} StoredIsRead(region: seq<Byte>, at: nat, x: Text)
    requires StoredAt(region, at, x)
    ensures StringAt(region, at) == UpToNul(x)
    decreases |x|
  {
    if x != [] {
      assert region[at] == region[at..at + |x|][0];
      assert region[at + 1..at + |x|] == region[at..at + |x|][1..] == x[1..];
      if x[0] != 0 {
        StoredIsRead(region, at + 1, x[1..]);
      }
    }
  }

  lemma CStringIsRead(region: seq<Byte>, at: nat, x: Text)
    requires CStringAt(region, at, x)
    ensures StringAt(region, at) == x
  {
    StoredIsRead(region, at, x);
    NulFreeIsWhole(x);
  }

  lemma CStringByte(region: seq<Byte>, at: nat, x: Text, i: nat)
    requires CStringAt(region, at, x) && i <= |x|
    ensures region[at + i] == At(x, i)
    ensures At(x, i) == 0 <==> i == |x|
  {
  }

  /** One plus the index of a text, or zero. */
  function SymbolOf(texts: seq<Text>, x: Text): (s: nat)
    ensures s <= |texts|
    ensures s > 0 ==> texts[s - 1] == x
    ensures s == 0 <==> x !in texts
  {
    SymbolFrom(texts, x, 0)
  }

  function SymbolFrom(texts: seq<Text>, x: Text, i: nat): (s: nat)
    requires i <= |texts|
    ensures s <= |texts|
    ensures s > 0 ==> i < s && texts[s - 1] == x
    ensures s == 0 <==> x !in texts[i..]
    decreases |texts| - i
  {
    if i == |texts| then 0 else if texts[i] == x then i + 1 else SymbolFrom(texts, x, i + 1)
  }

  lemma AscendingIsDistinct(texts: seq<Text>)
    requires Ascending(texts)
    ensures Distinct(texts)
  {
    forall i, j | 0 <= i < j < |texts| ensures texts[i] != texts[j] {
      BeforeIsIrreflexive(texts[i]);
    }
  }

  /** In a list of distinct texts the symbol of an entry is its place. */
  lemma SymbolOfEntry(texts: seq<Text>, i: nat)
    requires Distinct(texts) && i < |texts|
    ensures SymbolOf(texts, texts[i]) == i + 1
  {
  }

  lemma SearchLeft(texts: seq<Text>, key: Text, mid: nat)
    requires Ascending(texts) && mid < |texts| && Before(key, texts[mid])
    ensures forall k | mid <= k < |texts| :: texts[k] != key
  {
    forall k | mid <= k < |texts| ensures texts[k] != key {
      if k > mid {
        BeforeIsTransitive(key, texts[mid], texts[k]);
      }
      BeforeIsIrreflexive(key);
    }
  }

  lemma SearchRight(texts: seq<Text>, key: Text, mid: nat)
    requires Ascending(texts) && mid < |texts| && Before(texts[mid], key)
    ensures forall k | 0 <= k <= mid :: texts[k] != key
  {
    forall k | 0 <= k <= mid ensures texts[k] != key {
      if k < mid {
        BeforeIsTransitive(texts[k], texts[mid], key);
      }
      BeforeIsIrreflexive(key);
    }
  }

  ghost predicate Orders(r: int, a: Text, b: Text) {
    (r == 0 <==> a == b) && (r < 0 <==> Before(a, b)) && (r > 0 <==> Before(b, a))
  }

  lemma OrdersEqual(a: Text)
    ensures Orders(0, a, a)
  {
    BeforeIsIrreflexive(a);
  }

  lemma OrdersBefore(r: int, a: Text, b: Text)
    requires r < 0 && Before(a, b)
    ensures Orders(r, a, b) && Orders(-r, b, a)
  {
  }

  // The symbols of a router: offsets of the strings in their region.
  datatype Symbols = Symbols(base: seq<nat>, region: seq<Byte>) {

    ghost predicate Holds(texts: seq<Text>) {
      && |base| == |texts| <= UINT16_MAX
      && Ascending(texts)
      && forall i | 0 <= i < |texts| :: CStringAt(region, base[i], texts[i])
    }

    /** Compares a bounded key with a stored string, byte by byte. */
    method CompareBounded(key: Text, sym: nat, ghost text: Text) returns (r: int)
      requires CStringAt(region, sym, text) && 0 !in key
      ensures Orders(r, key, text)
    {
      var i := 0;
      while true
        invariant i <= |key| && i <= |text| && key[..i] == text[..i]
        decreases |key| - i
      {
        CStringByte(region, sym, text, i);
        var b: int := region[sym + i];
        if !(i < |key|) {
          if b == 0 {
            assert key[..i] == key && text[..i] == text;
            OrdersEqual(key);
            return 0;
          }
          BeforeAtDifference(key, text, i);
          OrdersBefore(-b, key, text);
          return -b;
        }
        var k: int := key[i];
        if k != b {
          if i == |text| || text[i] < key[i] {
            BeforeAtDifference(text, key, i);
            OrdersBefore(b - k, text, key);
          } else {
            BeforeAtDifference(key, text, i);
            OrdersBefore(k - b, key, text);
          }
          return k - b;
        }
        assert key[..i + 1] == key[..i] + [key[i]] && text[..i + 1] == text[..i] + [text[i]];
        i := i + 1;
      }
    }

    /** Compares two terminated strings. */
    method Compare(key: Text, sym: nat, ghost text: Text) returns (r: int)
      requires CStringAt(region, sym, text) && 0 !in key
      ensures Orders(r, key, text)
    {
      var i := 0;
      CStringByte(region, sym, text, 0);
      while At(key, i) != 0 && region[sym + i] != 0 && At(key, i) == region[sym + i]
        invariant i <= |key| && i <= |text| && key[..i] == text[..i]
        invariant region[sym + i] == At(text, i) && (At(text, i) == 0 <==> i == |text|)
        decreases |key| - i
      {
        assert key[..i + 1] == key[..i] + [key[i]] && text[..i + 1] == text[..i] + [text[i]];
        i := i + 1;
        CStringByte(region, sym, text, i);
      }
      var k: int, b: int := At(key, i), region[sym + i];
      r := k - b;
      if i == |key| && i == |text| {
        assert key[..i] == key && text[..i] == text;
        OrdersEqual(key);
      } else if k < b {
        BeforeAtDifference(key, text, i);
        OrdersBefore(r, key, text);
      } else {
        BeforeAtDifference(text, key, i);
        OrdersBefore(-r, text, key);
      }
    }

    /** Binary search with a bounded key. */
    method NResolve(key: Text, ghost texts: seq<Text>) returns (symbol: nat)
      requires Holds(texts) && 0 !in key
      ensures symbol == SymbolOf(texts, key) <= UINT16_MAX
    {
      AscendingIsDistinct(texts);
      var low, high := 0, |base|;
      while low < high
        invariant low <= high <= |base|
        invariant forall k | 0 <= k < low || high <= k < |base| :: texts[k] != key
      {
        var mid := (low + high) / 2;
        var cond := CompareBounded(key, base[mid], texts[mid]);
        if cond < 0 {
          SearchLeft(texts, key, mid);
          high := mid;
        } else if cond > 0 {
          SearchRight(texts, key, mid);
          low := mid + 1;
        } else {
          SymbolOfEntry(texts, mid);
          return mid + 1;
        }
      }
      return 0;
    }

    /** Binary search with a terminated key. */
    method Resolve(key: Text, ghost texts: seq<Text>) returns (symbol: nat)
      requires Holds(texts) && 0 !in key
      ensures symbol == SymbolOf(texts, key) <= UINT16_MAX
    {
      AscendingIsDistinct(texts);
      var low, high := 0, |base|;
      while low < high
        invariant low <= high <= |base|
        invariant forall k | 0 <= k < low || high <= k < |base| :: texts[k] != key
      {
        var mid := (low + high) / 2;
        var cond := Compare(key, base[mid], texts[mid]);
        if cond < 0 {
          SearchLeft(texts, key, mid);
          high := mid;
        } else if cond > 0 {
          SearchRight(texts, key, mid);
          low := mid + 1;
        } else {
          SymbolOfEntry(texts, mid);
          return mid + 1;
        }
      }
      return 0;
    }

    /** The string of a symbol, or nothing for zero. */
    function Lookup(symbol: nat): Option<Text>
      requires symbol <= |base| && forall i | 0 <= i < |base| :: base[i] <= |region|
    {
      if symbol == 0 then None else Some(StringAt(region, base[symbol - 1]))
    }

    /** Looking up what resolving gave returns the key, for every interned text. */
    lemma ResolveThenLookup(texts: seq<Text>, x: Text)
      requires Holds(texts)
      ensures 0 <= SymbolOf(texts, x) <= UINT16_MAX
      ensures x in texts <==> SymbolOf(texts, x) != 0
      ensures x in texts ==> Lookup(SymbolOf(texts, x)) == Some(x)
    {
      var s := SymbolOf(texts, x);
      if s > 0 {
        CStringIsRead(region, base[s - 1], texts[s - 1]);
      }
    }
  }

  // ---- Compilation of a table ----

  lemma NotBeforeIsTransitive(a: Text, b: Text, c: Text)
    requires !Before(b, a) && !Before(c, b)
    ensures !Before(c, a)
  {
  }

  predicate SortedUpTo(s: seq<Text>, n: nat)
    requires n <= |s|
  {
    forall p, q | 0 <= p < q < n :: !Before(s[q], s[p])
  }

  /** Sorted up to n, but for the entry at j, which may still have to move down. */
  predicate SortedBut(s: seq<Text>, n: nat, j: nat)
    requires j < n <= |s|
  {
    && (forall p, q | 0 <= p < q < n && q != j :: !Before(s[q], s[p]))
  }

  function Swapped(s: seq<Text>, i: nat, j: nat): seq<Text>
    requires i < |s| && j < |s|
  {
    s[i := s[j]][j := s[i]]
  }

  lemma SwapIsPermutation(s: seq<Text>, i: nat, j: nat)
    requires i < |s| && j < |s|
    ensures multiset(Swapped(s, i, j)) == multiset(s)
  {
  }

  lemma SinkStep(s: seq<Text>, n: nat, j: nat)
    requires 0 < j < n <= |s| && SortedBut(s, n, j) && Before(s[j], s[j - 1])
    ensures SortedBut(Swapped(s, j - 1, j), n, j - 1)
  {
    var s' := Swapped(s, j - 1, j);
    forall p, q | 0 <= p < q < n && q != j - 1 ensures !Before(s'[q], s'[p]) {
      if q == j && p == j - 1 {
        if Before(s[j - 1], s[j]) {
          BeforeIsTransitive(s[j], s[j - 1], s[j]);
          BeforeIsIrreflexive(s[j]);
        }
      }
    }
  }

  lemma SinkDone(s: seq<Text>, n: nat, j: nat)
    requires j < n <= |s| && SortedBut(s, n, j) && (j == 0 || !Before(s[j], s[j - 1]))
    ensures SortedUpTo(s, n)
  {
    forall p, q | 0 <= p < q < n ensures !Before(s[q], s[p]) {
      if q == j && p < j - 1 {
        NotBeforeIsTransitive(s[p], s[j - 1], s[j]);
      }
    }
  }

  /** Sinks the entry at i to its place. */
  method Sink(a: array<Text>, i: nat)
    requires i < a.Length && SortedUpTo(a[..], i)
    modifies a
    ensures SortedUpTo(a[..], i + 1)
    ensures multiset(a[..]) == multiset(old(a[..]))
  {
    var j := i;
    while j > 0 && Before(a[j], a[j - 1])
      invariant 0 <= j <= i && SortedBut(a[..], i + 1, j)
      invariant multiset(a[..]) == multiset(old(a[..]))
    {
      SinkStep(a[..], i + 1, j);
      SwapIsPermutation(a[..], j - 1, j);
      ghost var s := a[..];
      a[j - 1], a[j] := a[j], a[j - 1];
      assert a[..] == Swapped(s, j - 1, j);
      j := j - 1;
    }
    SinkDone(a[..], i + 1, j);
  }

  method SortTexts(a: array<Text>)
    modifies a
    ensures SortedUpTo(a[..], a.Length)
    ensures multiset(a[..]) == multiset(old(a[..]))
  {
    var i := 0;
    while i < a.Length
      invariant i <= a.Length && SortedUpTo(a[..], i)
      invariant multiset(a[..]) == multiset(old(a[..]))
    {
      Sink(a, i);
      i := i + 1;
    }
  }

  lemma {:induction false} StoredSizeRemove(a: seq<Text>, i: nat)
    requires i < |a|
    ensures StoredSize(a) == StoredSize(Without(a, i)) + |a[i]| + 1
    decreases |a|
  {
    var n := |a| - 1;
    if i < n {
      StoredSizeRemove(a[..n], i);
      assert Without(a, i)[..n - 1] == Without(a[..n], i);
      assert Without(a, i)[n - 1] == a[n];
    } else {
      assert Without(a, i) == a[..n];
    }
  }

  /** The stored size depends on which texts there are, not on their order. */
  lemma {:induction false} StoredSizeOfPermutation(a: seq<Text>, b: seq<Text>)
    requires multiset(a) == multiset(b)
    ensures StoredSize(a) == StoredSize(b)
    decreases |a|
  {
    PermutationKeepsMembers(a, b);
    if a != [] {
      var i := PermutationWithoutLast(a, b);
      StoredSizeOfPermutation(a[..|a| - 1], Without(b, i));
      StoredSizeRemove(b, i);
    }
  }

  lemma {:induction false} StoredSizeOfPrefix(a: seq<Text>, i: nat)
    requires i < |a|
    ensures StoredSize(a[..i]) + |a[i]| + 1 == StoredSize(a[..i + 1]) <= StoredSize(a)
    decreases |a| - i
  {
    assert a[..i + 1][..i] == a[..i];
    if i + 1 < |a| {
      StoredSizeOfPrefix(a, i + 1);
    } else {
      assert a[..i + 1] == a;
    }
  }

  lemma SortedDistinctIsAscending(s: seq<Text>)
    requires SortedUpTo(s, |s|) && Distinct(s)
    ensures Ascending(s)
  {
    forall i, j | 0 <= i < j < |s| ensures Before(s[i], s[j]) {
      BeforeIsTotal(s[i], s[j]);
    }
  }

  /** Copies a string and its terminator. */
  method CopyString(region: array<Byte>, at: nat, x: Text)
    requires at + |x| < region.Length && 0 !in x
    modifies region
    ensures CStringAt(region[..], at, x)
    ensures region[..at] == old(region[..at])
  {
    var i := 0;
    while i < |x|
      invariant i <= |x| && region[at..at + i] == x[..i]
      invariant region[..at] == old(region[..at])
    {
      region[at + i] := x[i];
      assert region[at..at + (i + 1)] == region[at..at + i] + [x[i]];
      i := i + 1;
    }
    region[at + |x|] := 0;
    assert region[at..at + |x|] == x;
  }

  predicate StoredBelow(base: seq<nat>, region: seq<Byte>, texts: seq<Text>, n: nat, cursor: nat)
    requires n <= |base| && n <= |texts|
  {
    forall k | 0 <= k < n :: CStringAt(region, base[k], texts[k]) && base[k] + |texts[k]| < cursor
  }

  lemma StoredBelowIsKept(base: seq<nat>, r: seq<Byte>, r': seq<Byte>, texts: seq<Text>, n: nat, cursor: nat)
    requires n <= |base| && n <= |texts| && StoredBelow(base, r, texts, n, cursor)
    requires cursor <= |r| && cursor <= |r'| && r[..cursor] == r'[..cursor]
    ensures StoredBelow(base, r', texts, n, cursor)
  {
  }

  lemma NothingStored(texts: seq<Text>)
    ensures StoredSize(texts[..0]) == 0
  {
  }

  /** Copies the texts one after the other: they fill exactly their stored size. */
  method CopyStrings(texts: seq<Text>, size: nat) returns (base: seq<nat>, region: seq<Byte>)
    requires NulFree(texts) && size == StoredSize(texts)
    ensures |base| == |texts| && |region| == size
    ensures StoredBelow(base, region, texts, |texts|, size)
  {
    hide StoredSize, CStringAt;
    var bytes := new Byte[size];
    base := [];
    var cursor, i := 0, 0;
    NothingStored(texts);
    while i < |texts|
      invariant i <= |texts| && |base| == i
      invariant cursor == StoredSize(texts[..i]) <= bytes.Length
      invariant StoredBelow(base, bytes[..], texts, i, cursor)
    {
      StoredSizeOfPrefix(texts, i);
      ghost var before := bytes[..];
      CopyString(bytes, cursor, texts[i]);
      StoredBelowIsKept(base, before, bytes[..], texts, i, cursor);
      base := base + [cursor];
      cursor := cursor + |texts[i]| + 1;
      i := i + 1;
    }
    assert texts[..i] == texts;
    region := bytes[..];
  }

  /** The sorted strings of a table, in a region exactly as large as what the table's arena has used. */
  method CompileSymbols(tbl: SymbolTable) returns (sym: Symbols, ghost texts: seq<Text>)
    requires tbl.Valid()
    ensures sym.Holds(texts)
    ensures multiset(texts) == multiset(tbl.base)
    ensures |texts| == |tbl.base| && (forall x | x in tbl.base :: x in texts)
            && (forall x | x in texts :: x in tbl.base)
    ensures |sym.region| == Arenas.Used(tbl.arena.blocks)
  {
    var strings := tbl.base;
    if tbl.count == 0 {
      return Symbols([], []), [];
    }
    var size := tbl.arena.ArenaUsed();
    var a := new Text[|strings|](i requires 0 <= i < |strings| => strings[i]);
    assert a[..] == strings;
    SortTexts(a);
    texts := a[..];
    PermutationIsDistinct(strings, texts);
    PermutationKeepsMembers(strings, texts);
    SortedDistinctIsAscending(texts);
    StoredSizeOfPermutation(strings, texts);
    assert NulFree(texts) by {
      forall i | 0 <= i < |texts| ensures 0 !in texts[i] {
        assert texts[i] in strings;
      }
    }
    var base, region := CopyStrings(a[..], size);
    sym := Symbols(base, region);
  }
}
