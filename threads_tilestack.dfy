/**
 * The retry stack of failed tiles (rt_tilestack_*, threads.c).
 *
 * Every operation runs under the stack's own mutex in the source, so each
 * method below is one atomic step. The outcome of a `realloc` is an input
 * (`allocOk`), since memory exhaustion cannot be predicted from the state.
 */
module TileStacks {
  import opened TaskTile

  /** The two outcomes of rt_tilestack_pop: a tile was taken, or RT_TILESTACK_EMPTY. */
  datatype PopStatus = Popped | StackEmpty

  /** The amount by which a full stack grows its backing storage. */
  const GrowthRate: int := 512

  class TileStack {
    /** Backing storage; its length is the C field `size`. */
    var s: array<Tile>
    /** Index of the topmost entry, -1 when the stack is empty. */
    var top: int
    var growthrate: int

    /** The stack invariant the source maintains: -1 <= top < size. */
    ghost predicate Valid()
      reads this
    {
      -1 <= top < s.Length && growthrate == GrowthRate
    }

    /** The stored tiles, bottom first. */
    ghost function Entries(): seq<Tile>
      reads this, s
      requires Valid()
    {
      s[..top + 1]
    }

    /** rt_tilestack_init: empty, with capacity `size` when positive and none otherwise. */
    constructor (size: int)
      ensures Valid() && fresh(s)
      ensures Entries() == []
      ensures s.Length == if size > 0 then size else 0
    {
      growthrate := GrowthRate;
      top := -1;
      if size > 0 {
        s := new Tile[size];
      } else {
        s := new Tile[0];
      }
    }

    /**
     * rt_tilestack_push. The storage grows by `growthrate` exactly when the
     * incremented top reaches the capacity; if that reallocation fails, top
     * is rolled back and -1 is returned.
     */
    method Push(t: Tile, allocOk: bool) returns (rc: int)
      requires Valid()
      modifies this, s
      ensures Valid()
      ensures rc == 0 <==> old(top) + 1 < old(s.Length) || allocOk
      ensures rc == 0 || rc == -1
      ensures rc == 0 ==> Entries() == old(Entries()) + [t]
      ensures rc == -1 ==> Entries() == old(Entries()) && s == old(s)
      ensures s.Length == if old(top) + 1 == old(s.Length) && allocOk
                          then old(s.Length) + GrowthRate
                          else old(s.Length)
      ensures s != old(s) ==> fresh(s)
    {
      top := top + 1;
      if top >= s.Length {
        var newsize := s.Length + growthrate;
        if !allocOk {
          top := top - 1;
          return -1;
        }
        var olds := s;
        var tmp := new Tile[newsize](i reads olds => if 0 <= i < olds.Length then olds[i] else Tile(0, 0));
        s := tmp;
      }
      s[top] := t;
      rc := 0;
    }

    /**
     * rt_tilestack_pop. On an empty stack the caller's tile `tileIn` is
     * returned untouched together with RT_TILESTACK_EMPTY.
     */
    method Pop(tileIn: Tile) returns (status: PopStatus, t: Tile)
      requires Valid()
      modifies this`top
      ensures Valid()
      ensures old(Entries()) == [] ==> status == StackEmpty && t == tileIn && top == old(top)
      ensures old(Entries()) != [] ==>
        status == Popped && t == old(Entries())[|old(Entries())| - 1]
        && Entries() == old(Entries())[..|old(Entries())| - 1]
    {
      if top < 0 {
        return StackEmpty, tileIn;
      }
      t := s[top];
      top := top - 1;
      status := Popped;
    }

    /** rt_tilestack_popall: drops every entry and keeps the storage. */
    method PopAll()
      requires Valid()
      modifies this`top
      ensures Valid() && Entries() == []
    {
      top := -1;
    }

    /** rt_tilestack_empty: 1 exactly when no entry is stored, else 0. */
    method Empty() returns (r: int)
      requires Valid()
      ensures r == 0 || r == 1
      ensures r == 1 <==> Entries() == []
    {
      if top < 0 {
        return 1;
      }
      return 0;
    }

    /**
     * rt_tilestack_compact: shrinks the storage to the number of entries,
     * only when it is larger, keeping the entries; -1 if reallocation fails.
     */
    method Compact(allocOk: bool) returns (rc: int)
      requires Valid()
      modifies this`s
      ensures Valid()
      ensures Entries() == old(Entries())
      ensures rc == 0 || rc == -1
      ensures rc == -1 <==> old(s.Length) > old(top) + 1 && !allocOk
      ensures s.Length == if old(s.Length) > old(top) + 1 && allocOk then old(top) + 1 else old(s.Length)
      ensures s != old(s) ==> fresh(s)
    {
      if s.Length > top + 1 {
        var newsize := top + 1;
        if !allocOk {
          return -1;
        }
        var olds := s;
        var tmp := new Tile[newsize](i reads olds => if 0 <= i < olds.Length then olds[i] else Tile(0, 0));
        s := tmp;
      }
      rc := 0;
    }
  }
}
