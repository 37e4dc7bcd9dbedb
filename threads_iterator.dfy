/**
 * The shared iterator (rt_shared_iterator_*, threads.c): a cursor over a
 * half-open range that hands out consecutive tiles to the workers, with a
 * sticky fatal-error flag.
 *
 * Each operation is one locked step in the source. `Step` is that step as a
 * function on the iterator's fields; the class below performs it in place
 * and is proved to agree with it, and the lemmas about repeated calls are
 * stated on the function.
 */
module Iterators {
  import opened TaskTile
  import opened Arithmetic

  /** The fields of rt_shared_iterator_t (the mutex aside). */
  datatype IterState = IterState(start: int, current: int, end: int, fatalError: bool)

  /** What one next_tile call leaves behind and hands back. */
  datatype Claim = Claim(next: IterState, status: SchedStatus, tile: Tile)

  /** The state set(tile) establishes: cursor at the range start, flag cleared. */
  function Started(range: Tile): IterState
  {
    IterState(range.start, range.start, range.end, false)
  }

  function Min(a: int, b: int): int
  {
    if a <= b then a else b
  }

  /**
   * One call of rt_shared_iterator_next_tile(it, reqsize, tile), where
   * `tileIn` is what the caller's tile held before the call.
   */
  function Step(it: IterState, reqsize: int, tileIn: Tile): (r: Claim)
    // The fatal flag is never changed by a tile request ...
    ensures r.next.fatalError == it.fatalError
    // ... and once set, the request reports DONE and touches nothing.
    ensures it.fatalError ==> r == Claim(it, SchedDone, tileIn)
    // Otherwise the cursor moves by the request, whether or not a tile is granted,
    ensures !it.fatalError ==> r.next == it.(current := it.current + reqsize)
    // a tile is granted exactly when the cursor is still inside the range,
    ensures !it.fatalError ==> (r.status == SchedContinue <==> it.current < it.end)
    // and it runs from the cursor to the request's end, clipped to the range.
    ensures r.status == SchedContinue ==> r.tile == Tile(it.current, Min(it.current + reqsize, it.end))
    // The DONE tile is {0,0}, clipped like any other tile end.
    ensures !it.fatalError && r.status == SchedDone ==> r.tile == Tile(0, Min(0, it.end))
  {
    if it.fatalError then Claim(it, SchedDone, tileIn)
    else
      var cur := it.current + reqsize;
      var done := it.current >= it.end;
      var start := if done then 0 else it.current;
      var stop := if done then 0 else cur;
      Claim(it.(current := cur), if done then SchedDone else SchedContinue,
            Tile(start, if stop > it.end then it.end else stop))
  }

  /** The iterator after `n` calls of next_tile with the same request size. */
  function After(it: IterState, reqsize: int, n: nat): IterState
    decreases n
  {
    if n == 0 then it else After(Step(it, reqsize, Tile(0, 0)).next, reqsize, n - 1)
  }

  /** What the (n+1)-th call of next_tile returns. */
  function Call(it: IterState, reqsize: int, n: nat, tileIn: Tile): Claim
  {
    Step(After(it, reqsize, n), reqsize, tileIn)
  }

  /** The number of tiles of size k > 0 that cover [start, end). */
  function TileCount(range: Tile, k: int): nat
    requires k > 0
  {
    if range.end <= range.start then 0 else (range.end - range.start + k - 1) / k
  }

  /** Every call advances the cursor by the requested size, DONE calls included. */
  lemma {:induction false} AfterAdvances(it: IterState, reqsize: int, n: nat)
    requires !it.fatalError
    ensures After(it, reqsize, n) == it.(current := it.current + n * reqsize)
    decreases n
  {
    if n > 0 {
      var nxt := Step(it, reqsize, Tile(0, 0)).next;
      AfterAdvances(nxt, reqsize, n - 1);
      assert nxt.current + (n - 1) * reqsize == it.current + n * reqsize;
    }
  }

  /** A flagged iterator is frozen: every later call is DONE and hands back the caller's tile. */
  lemma {:induction false} FatalIsSticky(it: IterState, reqsize: int, n: nat, tileIn: Tile)
    requires it.fatalError
    ensures After(it, reqsize, n) == it
    ensures Call(it, reqsize, n, tileIn) == Claim(it, SchedDone, tileIn)
    decreases n
  {
    if n > 0 {
      FatalIsSticky(it, reqsize, n - 1, tileIn);
    }
  }

  /**
   * After set(range), call j (counting from 0) of next_tile(k) grants the
   * tile [s + j*k, min(s + (j+1)*k, e)) while s + j*k < e, and is DONE with
   * the tile {0, min(0, e)} from then on.
   */
  lemma TileOfCall(range: Tile, k: int, j: nat, tileIn: Tile)
    requires k > 0
    ensures var c := Call(Started(range), k, j, tileIn);
      && (range.start + j * k < range.end ==>
            c.status == SchedContinue
            && c.tile == Tile(range.start + j * k, Min(range.start + j * k + k, range.end)))
      && (range.start + j * k >= range.end ==>
            c.status == SchedDone && c.tile == Tile(0, Min(0, range.end)))
  {
    AfterAdvances(Started(range), k, j);
  }

  /** The calls that grant a tile are exactly the first TileCount(range, k). */
  lemma CallsGrantingTiles(range: Tile, k: int, j: nat, tileIn: Tile)
    requires k > 0
    ensures Call(Started(range), k, j, tileIn).status == SchedContinue <==> j < TileCount(range, k)
  {
    TileOfCall(range, k, j, tileIn);
    var s, e := range.start, range.end;
    if e > s {
      CeilDiv(e - s, k, j);
    } else {
      MulMono(0, j, k);
    }
  }

  /** Consecutive granted tiles meet: each one starts where the previous one ended. */
  lemma TilesAreConsecutive(range: Tile, k: int, j: nat, tileIn: Tile)
    requires k > 0
    requires Call(Started(range), k, j + 1, tileIn).status == SchedContinue
    ensures Call(Started(range), k, j, tileIn).status == SchedContinue
    ensures Call(Started(range), k, j, tileIn).tile.end == Call(Started(range), k, j + 1, tileIn).tile.start
  {
    TileOfCall(range, k, j, tileIn);
    TileOfCall(range, k, j + 1, tileIn);
    assert (j + 1) * k == j * k + k;
  }

  /**
   * Exactly-once coverage: a work unit x is handed out by a granted tile of
   * call j if and only if x lies in [start, end) and j == (x - start) / k.
   * So the granted tiles are pairwise disjoint and their union is the range.
   */
  lemma ExactlyOnce(range: Tile, k: int, j: nat, x: int, tileIn: Tile)
    requires k > 0
    ensures var c := Call(Started(range), k, j, tileIn);
      (c.status == SchedContinue && Contains(c.tile, x))
      <==> (range.start <= x < range.end && j == (x - range.start) / k)
  {
    TileOfCall(range, k, j, tileIn);
    var s, e := range.start, range.end;
    var c := Call(Started(range), k, j, tileIn);
    if c.status == SchedContinue && Contains(c.tile, x) {
      assert s + j * k <= x < s + j * k + k;
      DivUnique(x - s, k, j);
    }
    if s <= x < e && j == (x - s) / k {
      DivBounds(x - s, k);
      assert j * k <= x - s < j * k + k;
    }
  }

  /** No tile handed out twice: two different calls never grant a common unit. */
  lemma GrantedTilesDisjoint(range: Tile, k: int, i: nat, j: nat, x: int, tileIn: Tile)
    requires k > 0 && i != j
    ensures !(Call(Started(range), k, i, tileIn).status == SchedContinue && Contains(Call(Started(range), k, i, tileIn).tile, x)
              && Call(Started(range), k, j, tileIn).status == SchedContinue && Contains(Call(Started(range), k, j, tileIn).tile, x))
  {
    ExactlyOnce(range, k, i, x, tileIn);
    ExactlyOnce(range, k, j, x, tileIn);
  }

  /** The sum of the sizes of the tiles granted by the first n calls. */
  function Granted(it: IterState, reqsize: int, n: nat): nat
    decreases n
  {
    if n == 0 then 0
    else
      var c := Call(it, reqsize, n - 1, Tile(0, 0));
      Granted(it, reqsize, n - 1) + (if c.status == SchedContinue then Size(c.tile) else 0)
  }

  /**
   * Work conservation: after set(range), the first n calls of next_tile(k)
   * together grant min(n*k, end - start) units; once TileCount calls have
   * been made the whole range has been handed out.
   */
  lemma {:induction false} GrantedTotal(range: Tile, k: int, n: nat)
    requires k > 0 && range.start <= range.end
    ensures Granted(Started(range), k, n) == Min(n * k, range.end - range.start)
    decreases n
  {
    if n > 0 {
      GrantedTotal(range, k, n - 1);
      TileOfCall(range, k, n - 1, Tile(0, 0));
      assert (n - 1) * k + k == n * k;
    }
  }

  /** The shared iterator object, one locked step per method. */
  class SharedIterator {
    var start: int
    var current: int
    var end: int
    var fatalError: bool

    function State(): IterState
      reads this
    {
      IterState(start, current, end, fatalError)
    }

    /** rt_shared_iterator_init: the structure is zeroed. */
    constructor ()
      ensures State() == IterState(0, 0, 0, false)
    {
      start, current, end, fatalError := 0, 0, 0, false;
    }

    /** rt_shared_iterator_set: cursor to the start of `tile`, fatal flag cleared. */
    method Set(tile: Tile)
      modifies this
      ensures State() == Started(tile)
    {
      start := tile.start;
      current := tile.start;
      end := tile.end;
      fatalError := false;
    }

    /** rt_shared_iterator_next_tile. */
    method NextTile(reqsize: int, tileIn: Tile) returns (rc: SchedStatus, tile: Tile)
      modifies this
      ensures Claim(State(), rc, tile) == Step(old(State()), reqsize, tileIn)
    {
      rc := SchedContinue;
      tile := tileIn;
      if !fatalError {
        var tstart := current;
        current := current + reqsize;
        var tend := current;
        if tstart >= end {
          tstart := 0;
          tend := 0;
          rc := SchedDone;
        }
        if tend > end {
          tend := end;
        }
        tile := Tile(tstart, tend);
      } else {
        rc := SchedDone;
      }
    }

    /** rt_shared_iterator_setfatalerror: raises the sticky flag. */
    method SetFatalError()
      modifies this
      ensures State() == old(State()).(fatalError := true)
    {
      fatalError := true;
    }

    /** rt_shared_iterator_getfatalerror: -1 while the flag is raised, else 0. */
    method GetFatalError() returns (rc: int)
      ensures rc == -1 <==> fatalError
      ensures rc == 0 <==> !fatalError
    {
      rc := 0;
      if fatalError {
        rc := -1;
      }
    }
  }
}
