/**
 * The allocation helpers of the loader (hermit-base.c, duplicated in
 * main.c): a list of strings grown with realloc, memdup, and the scope
 * cleanup handlers.
 */
module Alloc {
  import opened Wrappers

  /**
   * A list of C strings with a separate element count and capacity, grown
   * in place by `reserve` (the loader's dir_list/env_list together with
   * their *_size and *_max counters). The capacity is the array's length.
   */
  class StrList {
    var items: array<string>
    var size: nat

    ghost predicate Valid()
      reads this
    {
      size <= items.Length
    }

    /** The strings stored so far, in insertion order. */
    function Contents(): seq<string>
      reads this, items
      requires Valid()
    {
      items[..size]
    }

    /** An empty list with no storage (NULL, 0, 0). */
    constructor ()
      ensures Valid() && Contents() == [] && items.Length == 0
      ensures fresh(items)
    {
      items := new string[0];
      size := 0;
    }

    /**
     * reserve: ensure room for `capacity` elements. A list that is large
     * enough is left exactly as it is. Otherwise the storage is
     * reallocated to exactly `capacity` slots (reallocOk says whether
     * realloc succeeds); the stored strings are kept and on failure
     * nothing changes. The capacity never shrinks.
     */
    method Reserve(capacity: nat, reallocOk: bool) returns (ok: bool)
      requires Valid()
      modifies this
      ensures Valid() && size == old(size) && Contents() == old(Contents())
      ensures ok <==> old(items.Length) >= capacity || reallocOk
      ensures old(items.Length) >= capacity ==> items == old(items)
      ensures old(items.Length) < capacity && ok ==> items.Length == capacity && fresh(items)
      ensures !ok ==> items == old(items)
      ensures items.Length >= old(items.Length)
    {
      if items.Length >= capacity {
        return true;
      }
      if !reallocOk {
        return false;
      }
      var previous := items;
      var grown := new string[capacity];
      for i := 0 to previous.Length
        modifies grown
        invariant grown[..i] == previous[..i]
      {
        grown[i] := previous[i];
      }
      assert grown[..size] == grown[..previous.Length][..size];
      items := grown;
      ok := true;
    }

    /** `list[size++] = s`, which the caller may do only below capacity. */
    method Push(s: string)
      requires Valid() && size < items.Length
      modifies this, items
      ensures Valid() && items == old(items)
      ensures Contents() == old(Contents()) + [s]
    {
      items[size] := s;
      size := size + 1;
    }
  }

  /**
   * memdup: allocate `size` elements (mallocOk says whether malloc
   * succeeds) and copy the first `size` elements of src into them;
   * NULL when the allocation fails.
   */
  method Memdup<T(0)>(src: seq<T>, size: nat, mallocOk: bool) returns (dest: Option<array<T>>)
    requires size <= |src|
    ensures dest.None? <==> !mallocOk
    ensures dest.Some? ==> fresh(dest.value)
    ensures dest.Some? ==> dest.value.Length == size && dest.value[..] == src[..size]
  {
    if !mallocOk {
      return None;
    }
    var block := new T[size];
    for i := 0 to size
      invariant block[..i] == src[..i]
    {
      block[i] := src[i];
    }
    return Some(block);
  }

  /** The resources the manifest reader owns: the open file and two heap blocks. */
  datatype Block = JsonBytes | JsonTree

  datatype MemEvent = FileOpened | FileClosed | Allocated(b: Block) | Freed(b: Block)

  /** cleanup_free: free the block the variable points to, unless it is NULL. */
  function CleanupFree(log: seq<MemEvent>, p: Option<Block>): (log': seq<MemEvent>)
    ensures p.None? ==> log' == log
    ensures p.Some? ==> log' == log + [Freed(p.value)]
  {
    match p
    case None => log
    case Some(b) => log + [Freed(b)]
  }

  /** cleanup_close: close the file the variable holds, unless it is NULL. */
  function CleanupClose(log: seq<MemEvent>, isOpen: bool): (log': seq<MemEvent>)
    ensures !isOpen ==> log' == log
    ensures isOpen ==> log' == log + [FileClosed]
  {
    if isOpen then log + [FileClosed] else log
  }

  /** How many times an event occurs in a log. */
  function Count(log: seq<MemEvent>, e: MemEvent): nat
  {
    if log == [] then 0 else Count(log[..|log| - 1], e) + (if log[|log| - 1] == e then 1 else 0)
  }

  /** Counting over a concatenation adds up. */
  lemma {:induction false} CountConcat(a: seq<MemEvent>, b: seq<MemEvent>, e: MemEvent)
    ensures Count(a + b, e) == Count(a, e) + Count(b, e)
    decreases |b|
  {
    if b == [] {
      assert a + b == a;
    } else {
      var b' := b[..|b| - 1];
      assert (a + b)[..|a + b| - 1] == a + b';
      CountConcat(a, b', e);
    }
  }

  /** No block is freed unless an allocation of it is still outstanding. */
  predicate NoDoubleFree(log: seq<MemEvent>, b: Block)
  {
    forall i :: 0 <= i < |log| && log[i] == Freed(b) ==> Count(log[..i], Freed(b)) < Count(log[..i], Allocated(b))
  }

  /** Appending an event keeps a log free of double frees, provided a free has an allocation to match. */
  lemma NoDoubleFreeSnoc(log: seq<MemEvent>, b: Block, x: MemEvent)
    requires NoDoubleFree(log, b)
    requires x == Freed(b) ==> Count(log, Freed(b)) < Count(log, Allocated(b))
    ensures NoDoubleFree(log + [x], b)
  {
    var log' := log + [x];
    forall i | 0 <= i < |log'| && log'[i] == Freed(b)
      ensures Count(log'[..i], Freed(b)) < Count(log'[..i], Allocated(b))
    {
      if i < |log| {
        assert log'[..i] == log[..i];
      } else {
        assert log'[..i] == log;
      }
    }
  }
}
