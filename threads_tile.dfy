/**
 * Work tiles and scheduler status codes of the Tachyon thread library
 * (src/plugins/tachyon/tachyonlib/threads.c).
 */
module TaskTile {

  /** rt_tasktile_t: a half-open interval [start, end) of work units. */
  datatype Tile = Tile(start: int, end: int)

  /** The two scheduler return codes, RT_SCHED_CONTINUE and RT_SCHED_DONE. */
  datatype SchedStatus = SchedContinue | SchedDone

  /** Number of work units in a tile (zero for an empty or inverted one). */
  function Size(t: Tile): nat
  {
    if t.end <= t.start then 0 else t.end - t.start
  }

  predicate Contains(t: Tile, x: int)
  {
    t.start <= x < t.end
  }
}
