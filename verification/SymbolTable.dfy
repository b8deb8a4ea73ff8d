/** The growing intern table of the builder. */
module SymbolTables {
  import opened Wrappers
  import opened Bytes
  import opened Tokens
  import Arenas
  import Permutations

  const UINT16_MAX := 65535

  function Intern(table: seq<Text>, x: Text): seq<Text> {
    if x in table then table else table + [x]
  }

  predicate NulFree(texts: seq<Text>) {
    forall i | 0 <= i < |texts| :: 0 !in texts[i]
  }

  /** Bytes that the texts take with their terminators. */
  function StoredSize(texts: seq<Text>): nat {
    if texts == [] then 0 else StoredSize(texts[..|texts| - 1]) + |texts[|texts| - 1]| + 1
  }

  lemma StoredSizeAppend(texts: seq<Text>, x: Text)
    ensures StoredSize(texts + [x]) == StoredSize(texts) + |x| + 1
  {
  }

  class SymbolTable {
    var base: seq<Text>   // the slots in use; each stands for the string its pointer leads to
    var count: nat
    var capacity: nat
    const arena: Arenas.Arena

    ghost predicate Valid()
      reads this, arena
    {
      && count == |base| <= capacity && count <= UINT16_MAX
      && Permutations.Distinct(base) && NulFree(base)
      && arena.Valid()
      && Arenas.Used(arena.blocks) == StoredSize(base)
    }

    constructor ()
      ensures Valid() && base == [] && fresh(arena)
    {
      base, count, capacity := [], 0, 0;
      arena := new Arenas.Arena();
    }

    // Reserves the next slots; the strings are stored by the caller.
    method NextSlot(len: nat) returns (slot: nat)
      requires count <= capacity
      modifies this`count, this`capacity
      ensures slot == old(count) && count == old(count) + len <= capacity
      ensures old(capacity) <= capacity
    {
      if count + len > capacity {
        var newCapacity := if capacity > 0 then capacity * 2 else 1024;
        while newCapacity < count + len
          invariant newCapacity > 0 && newCapacity >= capacity
        {
          newCapacity := newCapacity * 2;
        }
        capacity := newCapacity;
      }
      slot := count;
      count := count + len;
    }

    method Append(str: Text) returns (stored: Option<Text>, err: Error)
      requires Valid() && 0 !in str
      modifies this, arena
      ensures Valid()
      ensures |old(base)| >= UINT16_MAX ==> stored == None && err == OutOfRange && base == old(base)
      ensures |old(base)| < UINT16_MAX ==> stored == Some(str) && err == Ok && base == Intern(old(base), str)
    {
      if count >= UINT16_MAX {
        return None, OutOfRange;
      }
      var i := 0;
      while i < count
        invariant i <= count && forall k | 0 <= k < i :: base[k] != str
      {
        if base[i] == str {
          return Some(base[i]), Ok;
        }
        i := i + 1;
      }
      var slot := NextSlot(1);
      var address := arena.Alloc(|str| + 1);
      StoredSizeAppend(base, str);
      base := base + [str];
      return Some(base[slot]), Ok;
    }
  }
}
