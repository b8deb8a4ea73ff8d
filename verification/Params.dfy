/** A deep copy of recorded parameters: measured first, then packed into one region of exactly that size. */
module ParamSnapshots {
  import opened Wrappers
  import opened Bytes
  import opened SymbolTables
  import opened SymbolLists

  /** A recorded parameter; either pointer may be null, and the value is not terminated. */
  datatype Param = Param(name: Option<CString>, value: Option<Text>)

  /** The caller's parameters: the first `count` slots of a buffer that may be null. */
  datatype Params = Params(base: Option<seq<Param>>, count: nat)

  /** A copied parameter: where its two strings start in the region. */
  datatype ParamNt = ParamNt(name: nat, value: nat)

  datatype Snapshot = Snapshot(params: seq<ParamNt>, region: seq<Byte>)

  predicate Given(p: Param) {
    p.name.Some? && p.value.Some?
  }

  predicate AllGiven(list: seq<Param>) {
    forall i | 0 <= i < |list| :: Given(list[i])
  }

  /** Bytes that the strings take with their terminators. */
  function PackedSize(list: seq<Param>): nat
    requires AllGiven(list)
  {
    if list == [] then 0
    else
      var p := list[|list| - 1];
      PackedSize(list[..|list| - 1]) + |p.name.value| + 1 + |p.value.value| + 1
  }

  lemma PackedSizeOneMore(list: seq<Param>, i: nat)
    requires i < |list| && AllGiven(list[..i + 1])
    ensures AllGiven(list[..i])
    ensures PackedSize(list[..i + 1]) == PackedSize(list[..i]) + |list[i].name.value| + 1 + |list[i].value.value| + 1
  {
    assert list[..i + 1][..i] == list[..i];
    assert list[..i + 1][i] == list[i];
    forall k | 0 <= k < i ensures Given(list[..i][k]) {
      assert list[..i + 1][k] == list[k];
    }
  }

  lemma {:induction false} PackedSizeGrows(list: seq<Param>, i: nat)
    requires i <= |list| && AllGiven(list)
    ensures AllGiven(list[..i]) && PackedSize(list[..i]) <= PackedSize(list)
    decreases |list| - i
  {
    if i == |list| {
      assert list[..i] == list;
    } else {
      PackedSizeGrows(list, i + 1);
      PackedSizeOneMore(list, i);
    }
  }

  /** What can be copied: nothing null, and the total fits 16 bits. */
  ghost predicate Copyable(params: Option<Params>)
    requires params.Some? && params.value.base.Some? ==> params.value.count <= |params.value.base.value|
  {
    && params.Some?
    && (params.value.count > 0 ==>
          && params.value.base.Some?
          && AllGiven(params.value.base.value[..params.value.count])
          && PackedSize(params.value.base.value[..params.value.count]) <= 65535)
  }

  /** The strings fill the region, one right behind the other. */
  ghost predicate Packed(list: seq<Param>, s: Snapshot)
    requires AllGiven(list)
  {
    |s.region| == PackedSize(list) && |s.params| == |list| && PackedUpTo(list, s.params, s.region, |list|)
  }

  ghost predicate PackedUpTo(list: seq<Param>, nt: seq<ParamNt>, region: seq<Byte>, n: nat)
    requires n <= |list| && n <= |nt| && AllGiven(list)
  {
    forall i | 0 <= i < n ::
      && AllGiven(list[..i]) && nt[i].name == PackedSize(list[..i])
      && nt[i].value == nt[i].name + |list[i].name.value| + 1
      && StoredAt(region, nt[i].name, list[i].name.value)
      && StoredAt(region, nt[i].value, list[i].value.value)
      && nt[i].value + |list[i].value.value| < PackedSize(list[..n])
  }

  /** Reading a snapshot gives every name, and every value up to its first NUL: the whole value iff it has none. */
  lemma ReadBack(list: seq<Param>, s: Snapshot, i: nat)
    requires AllGiven(list) && Packed(list, s) && i < |list|
    ensures s.params[i].name <= |s.region| && StringAt(s.region, s.params[i].name) == list[i].name.value
    ensures s.params[i].value <= |s.region|
    ensures StringAt(s.region, s.params[i].value) == UpToNul(list[i].value.value)
    ensures UpToNul(list[i].value.value) == list[i].value.value <==> 0 !in list[i].value.value
  {
    StoredIsRead(s.region, s.params[i].name, list[i].name.value);
    NulFreeIsWhole(list[i].name.value);
    StoredIsRead(s.region, s.params[i].value, list[i].value.value);
    NulFreeIsWhole(list[i].value.value);
  }

  /** The strings of a snapshot lie in the region one behind the other: each name before its value, each value before
    * the next parameter's name, the last value before the end. */
  lemma {:induction false} StringsApart(list: seq<Param>, s: Snapshot, i: nat, j: nat)
    requires AllGiven(list) && Packed(list, s) && i <= j < |list|
    ensures s.params[i].name + |list[i].name.value| < s.params[i].value
    ensures s.params[i].value + |list[i].value.value| < if i < j then s.params[j].name else |s.region|
    decreases j - i
  {
    hide StoredAt;
    StringsTile(list, s, i);
    if i < j {
      StringsApart(list, s, i + 1, j);
    } else {
      assert list[..|list|] == list;
    }
  }

  /** The strings fill the region: the first name is at its start, each string and its terminator are followed by the
    * next, and the last by the end. */
  lemma StringsTile(list: seq<Param>, s: Snapshot, i: nat)
    requires AllGiven(list) && Packed(list, s) && i < |list|
    ensures i == 0 ==> s.params[i].name == 0
    ensures s.params[i].value == s.params[i].name + |list[i].name.value| + 1
    ensures s.params[i].value + |list[i].value.value| + 1 ==
            if i + 1 < |list| then s.params[i + 1].name else |s.region|
  {
    hide StoredAt;
    PackedSizeOneMore(list, i);
    assert list[..|list|] == list;
  }

  lemma StoredIsKept(r: seq<Byte>, r': seq<Byte>, at: nat, x: Text, n: nat)
    requires StoredAt(r, at, x) && at + |x| < n <= |r| && n <= |r'| && r[..n] == r'[..n]
    ensures StoredAt(r', at, x)
  {
  }

  lemma PackedIsKept(list: seq<Param>, nt: seq<ParamNt>, more: ParamNt, r: seq<Byte>, r': seq<Byte>, n: nat)
    requires n < |list| && n == |nt| && AllGiven(list) && PackedUpTo(list, nt, r, n)
    requires AllGiven(list[..n]) && PackedSize(list[..n]) <= |r| == |r'|
    requires r[..PackedSize(list[..n])] == r'[..PackedSize(list[..n])]
    requires more.name == PackedSize(list[..n]) && more.value == more.name + |list[n].name.value| + 1
    requires StoredAt(r', more.name, list[n].name.value) && StoredAt(r', more.value, list[n].value.value)
    ensures PackedUpTo(list, nt + [more], r', n + 1)
  {
    PackedSizeGrows(list, n + 1);
    PackedSizeOneMore(list, n);
    forall i | 0 <= i < n
      ensures StoredAt(r', nt[i].name, list[i].name.value) && StoredAt(r', nt[i].value, list[i].value.value)
    {
      StoredIsKept(r, r', nt[i].name, list[i].name.value, PackedSize(list[..n]));
      StoredIsKept(r, r', nt[i].value, list[i].value.value, PackedSize(list[..n]));
    }
  }

  /** Copies bytes; the terminator is what the zeroed region has behind them. */
  method CopyBytes(region: array<Byte>, at: nat, x: Text)
    requires at + |x| < region.Length && region[at + |x|] == 0
    modifies region
    ensures StoredAt(region[..], at, x)
    ensures forall k | 0 <= k < region.Length && !(at <= k < at + |x|) :: region[k] == old(region[k])
  {
    var i := 0;
    while i < |x|
      invariant i <= |x| && forall k | 0 <= k < i :: region[at + k] == x[k]
      invariant forall k | 0 <= k < region.Length && !(at <= k < at + |x|) :: region[k] == old(region[k])
    {
      region[at + i] := x[i];
      i := i + 1;
    }
    assert region[..][at..at + |x|] == x;
  }

  /** The measuring pass. */
  method Measure(list: seq<Param>) returns (size: Option<nat>)
    ensures size == if AllGiven(list) && PackedSize(list) <= UINT16_MAX then Some(PackedSize(list)) else None
  {
    var n, i := 0, 0;
    while i < |list|
      invariant i <= |list| && AllGiven(list[..i]) && n == PackedSize(list[..i]) <= UINT16_MAX
    {
      if list[i].name == None || list[i].value == None {
        assert !Given(list[i]);
        return None;
      }
      assert AllGiven(list[..i + 1]);
      PackedSizeOneMore(list, i);
      if AllGiven(list) {
        PackedSizeGrows(list, i + 1);
      }
      var nameSize, valueSize := |list[i].name.value| + 1, |list[i].value.value| + 1;
      if nameSize > UINT16_MAX - n {
        return None;
      }
      n := n + nameSize;
      if valueSize > UINT16_MAX - n {
        return None;
      }
      n := n + valueSize;
      i := i + 1;
    }
    assert list[..i] == list;
    return Some(n);
  }

  /** Copies one parameter's two strings. */
  method PackOne(region: array<Byte>, cursor: nat, src: Param) returns (dest: ParamNt, end: nat)
    requires Given(src) && cursor + |src.name.value| + 1 + |src.value.value| < region.Length
    requires forall k | cursor <= k < region.Length :: region[k] == 0
    modifies region
    ensures dest == ParamNt(cursor, cursor + |src.name.value| + 1) && end == dest.value + |src.value.value| + 1
    ensures StoredAt(region[..], dest.name, src.name.value) && StoredAt(region[..], dest.value, src.value.value)
    ensures region[..cursor] == old(region[..cursor])
    ensures forall k | end <= k < region.Length :: region[k] == 0
  {
    hide StoredAt;
    CopyBytes(region, cursor, src.name.value);
    ghost var named := region[..];
    dest := ParamNt(cursor, cursor + |src.name.value| + 1);
    CopyBytes(region, dest.value, src.value.value);
    assert named[..dest.value] == region[..][..dest.value];
    StoredIsKept(named, region[..], cursor, src.name.value, dest.value);
    end := dest.value + |src.value.value| + 1;
  }

  /** The copying pass: it fills exactly the size that was measured. */
  method Pack(list: seq<Param>, size: nat) returns (s: Snapshot)
    requires AllGiven(list) && size == PackedSize(list)
    ensures Packed(list, s)
  {
    hide StoredAt, PackedUpTo, PackedSize;
    var region := new Byte[size](_ => 0);
    var nt: seq<ParamNt> := [];
    var cursor, i := 0, 0;
    NothingPacked(list, region[..]);
    while i < |list|
      invariant i <= |list| && |nt| == i
      invariant AllGiven(list[..i]) && cursor == PackedSize(list[..i]) <= size
      invariant PackedUpTo(list, nt, region[..], i)
      invariant forall k | cursor <= k < size :: region[k] == 0
    {
      PackedSizeGrows(list, i + 1);
      PackedSizeOneMore(list, i);
      ghost var before := region[..];
      var dest, end := PackOne(region, cursor, list[i]);
      assert before[..cursor] == region[..cursor] == region[..][..cursor];
      PackedIsKept(list, nt, dest, before, region[..], i);
      nt := nt + [dest];
      cursor := end;
      i := i + 1;
    }
    assert list[..i] == list;
    s := Snapshot(nt, region[..]);
  }

  lemma NothingPacked(list: seq<Param>, region: seq<Byte>)
    requires AllGiven(list)
    ensures AllGiven(list[..0]) && PackedSize(list[..0]) == 0 && PackedUpTo(list, [], region, 0)
  {
  }

  /** Copies the parameters, or refuses: exactly when something is null or the total exceeds 65535 bytes. */
  method ParamsCopy(params: Option<Params>) returns (s: Option<Snapshot>)
    requires params.Some? && params.value.base.Some? ==> params.value.count <= |params.value.base.value|
    ensures s.Some? <==> Copyable(params)
    ensures s.Some? ==>
              if params.value.count == 0 then s.value == Snapshot([], [])
              else Packed(params.value.base.value[..params.value.count], s.value)
  {
    if params == None {
      return None;
    }
    if params.value.count == 0 {
      return Some(Snapshot([], []));
    }
    if params.value.base == None {
      return None;
    }
    var list := params.value.base.value[..params.value.count];
    var size := Measure(list);
    if size == None {
      return None;
    }
    var packed := Pack(list, size.value);
    return Some(packed);
  }

  /** The first parameter of this name. */
  method FindParam(params: seq<Param>, name: CString) returns (i: Option<nat>)
    requires forall k | 0 <= k < |params| :: params[k].name.Some?
    ensures i.Some? ==> i.value < |params| && params[i.value].name == Some(name)
                        && forall k | 0 <= k < i.value :: params[k].name != Some(name)
    ensures i == None ==> forall k | 0 <= k < |params| :: params[k].name != Some(name)
  {
    var n := 0;
    while n < |params|
      invariant n <= |params| && forall k | 0 <= k < n :: params[k].name != Some(name)
    {
      if params[n].name.value == name {
        return Some(n);
      }
      n := n + 1;
    }
    return None;
  }
}
