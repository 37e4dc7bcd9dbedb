/**
 * The persistent worker pool (rt_threadpool_*, threads.c): per-worker
 * descriptors, the pool-level tile request with retry of failed tiles, and
 * the job hand-over through the run barrier.
 */
module ThreadPools {
  import opened Wrappers
  import opened TaskTile
  import opened Iterators
  import opened TileStacks
  import opened Barriers

  /** A work-function pointer (rt_threadpool_launch's fctn), by identity. */
  datatype WorkFn = WorkFn(id: nat)

  /** A client parameter pointer, by identity. */
  datatype ClientParms = ClientParms(id: nat)

  /**
   * rt_threadpool_workerdata_t without its back-pointers (the iterator,
   * error stack and pool are those of the owning ThreadPool).
   */
  datatype WorkerData = WorkerData(threadId: int, threadCount: int, devId: int, devSpeed: real)

  /** The capacity the error stack is created with. */
  const ErrorStackCapacity: int := 64

  /** The device id of worker i: devlist[i], or -1 (a CPU core) without a device list. */
  function DevId(devlist: Option<seq<int>>, i: int): int
    requires devlist.Some? ==> 0 <= i < |devlist.value|
  {
    if devlist.None? then -1 else devlist.value[i]
  }

  /** The device of each worker: devlist[i], or -1 for every worker when there is no list. */
  method DeviceIds(workercount: int, devlist: Option<seq<int>>) returns (dl: array<int>)
    requires workercount >= 0
    requires devlist.Some? ==> |devlist.value| >= workercount
    ensures fresh(dl) && dl.Length == workercount
    ensures forall i :: 0 <= i < workercount ==> dl[i] == DevId(devlist, i)
  {
    dl := new int[workercount];
    if devlist.None? {
      for i := 0 to workercount
        invariant forall j :: 0 <= j < i ==> dl[j] == -1
      {
        dl[i] := -1;
      }
    } else {
      var src := devlist.value;
      dl := new int[workercount](i requires 0 <= i < workercount => src[i]);
    }
  }

  class ThreadPool {
    var workerCount: int
    var devList: array<int>
    var iter: SharedIterator
    var errorStack: TileStack
    var runBar: RunBarrier<WorkFn, ClientParms>
    var workerData: array<WorkerData>

    ghost predicate Valid()
      reads this, errorStack, runBar
    {
      && workerCount >= 0
      && devList.Length == workerCount
      && workerData.Length == workerCount
      && errorStack.Valid()
      && runBar.Valid()
      && runBar.nClients == workerCount + 1
    }

    /**
     * rt_threadpool_create (threaded build; the worker threads themselves
     * are not modelled). Worker i gets id i, the worker count, and device
     * devlist[i], or -1 when there is no device list.
     */
    constructor (workercount: int, devlist: Option<seq<int>>)
      requires workercount >= 0
      requires devlist.Some? ==> |devlist.value| >= workercount
      ensures Valid()
      ensures fresh(devList) && fresh(iter) && fresh(errorStack) && fresh(errorStack.s)
      ensures fresh(runBar) && fresh(workerData)
      ensures workerCount == workercount
      ensures forall i :: 0 <= i < workercount ==> devList[i] == DevId(devlist, i)
      ensures forall i :: 0 <= i < workercount ==>
                workerData[i] == WorkerData(i, workercount, DevId(devlist, i), 1.0)
      ensures iter.State() == IterState(0, 0, 0, false)
      ensures errorStack.Entries() == [] && errorStack.s.Length == ErrorStackCapacity
      ensures runBar.State() == RunState(workercount + 1, 0, 0, None, None, None, None)
    {
      var it := new SharedIterator();
      var st := new TileStack(ErrorStackCapacity);
      var rb := new RunBarrier<WorkFn, ClientParms>(workercount + 1);
      var dl := DeviceIds(workercount, devlist);
      var wd := new WorkerData[workercount](_ => WorkerData(0, 0, 0, 0.0));
      for i := 0 to workercount
        modifies wd
        invariant forall j :: 0 <= j < i ==> wd[j] == WorkerData(j, workercount, dl[j], 1.0)
      {
        wd[i] := WorkerData(i, workercount, dl[i], 1.0);
      }
      workerCount := workercount;
      devList := dl;
      iter := it;
      errorStack := st;
      runBar := rb;
      workerData := wd;
    }

    /**
     * rt_threadpool_next_tile: a tile from the shared iterator; when the
     * iterator reports DONE, the most recently failed tile is popped from
     * the error stack and handed out with CONTINUE instead.
     */
    method NextTile(reqsize: int, tileIn: Tile) returns (rc: SchedStatus, tile: Tile)
      requires Valid()
      modifies iter, errorStack`top
      ensures Valid()
      ensures var c := Step(old(iter.State()), reqsize, tileIn);
        && iter.State() == c.next
        && (c.status == SchedContinue ==>
              rc == SchedContinue && tile == c.tile && errorStack.Entries() == old(errorStack.Entries()))
        && (c.status == SchedDone && old(errorStack.Entries()) == [] ==>
              rc == SchedDone && tile == c.tile && errorStack.Entries() == [])
        && (c.status == SchedDone && old(errorStack.Entries()) != [] ==>
              var n := |old(errorStack.Entries())|;
              rc == SchedContinue && tile == old(errorStack.Entries())[n - 1]
              && errorStack.Entries() == old(errorStack.Entries())[..n - 1])
    {
      rc, tile := iter.NextTile(reqsize, tileIn);
      if rc == SchedDone {
        var popped, t := errorStack.Pop(tile);
        if popped != StackEmpty {
          return SchedContinue, t;
        }
      }
    }

    /** rt_threadpool_tile_failed: the tile goes onto the error stack for a retry. */
    method TileFailed(t: Tile, allocOk: bool) returns (rc: int)
      requires Valid()
      modifies errorStack, errorStack.s
      ensures Valid()
      ensures rc == 0 ==> errorStack.Entries() == old(errorStack.Entries()) + [t]
      ensures rc == -1 ==> errorStack.Entries() == old(errorStack.Entries()) && errorStack.s == old(errorStack.s)
      ensures rc == 0 || rc == -1
      ensures rc == 0 <==> |old(errorStack.Entries())| < old(errorStack.s.Length) || allocOk
    {
      rc := errorStack.Push(t, allocOk);
    }

    /** rt_threadpool_setfatalerror. */
    method SetFatalError()
      modifies iter
      ensures iter.State() == old(iter.State()).(fatalError := true)
    {
      iter.SetFatalError();
    }

    /** rt_threadpool_getfatalerror: -1 once any worker raised the flag, else 0. */
    method GetFatalError() returns (rc: int)
      ensures rc == -1 <==> iter.fatalError
      ensures rc == 0 <==> !iter.fatalError
    {
      rc := iter.GetFatalError();
    }

    /** rt_threadpool_poll: 1 exactly when every worker is back at the run barrier. */
    method Poll() returns (rc: int)
      requires Valid()
      ensures rc == 1 <==> runBar.nWaiting == workerCount
      ensures rc == 0 || rc == 1
    {
      rc := runBar.Poll();
    }
  }

  /**
   * rt_threadpool_sched_dynamic: -1 without a pool, otherwise the pool's
   * iterator is set to the tile's range.
   */
  method SchedDynamic(pool: ThreadPool?, tile: Tile) returns (rc: int)
    modifies if pool != null then {pool.iter} else {}
    ensures pool == null ==> rc == -1
    ensures pool != null ==> rc == 0 && pool.iter.State() == Started(tile)
  {
    if pool == null {
      return -1;
    }
    pool.iter.Set(tile);
    rc := 0;
  }

  /**
   * The job hand-over of the pool: each of the workercount workers parks on
   * the run barrier posting NULL (rt_threadpool_workerproc), and the master
   * posts the job (rt_threadpool_launch) or NULL (rt_threadpool_destroy).
   * Whatever the order of arrival, the phase releases everybody with the
   * master's job, so a NULL job tells the workers to exit.
   */
  lemma MasterJobReachesAll(workercount: nat, jobs: seq<Job<WorkFn, ClientParms>>, master: nat, job: Job<WorkFn, ClientParms>)
    requires |jobs| == workercount + 1 && master < |jobs|
    requires jobs[master] == job
    requires forall i :: 0 <= i < |jobs| && i != master ==> jobs[i] == Job(None, None)
    ensures var b := RunState(workercount + 1, 0, 0, None, None, None, None);
      var n := |jobs|;
      RunStep(RunArrivals(b, jobs[..n - 1]), jobs[n - 1].fctn, jobs[n - 1].parms).released == Some(job)
  {
    var b: RunState<WorkFn, ClientParms> := RunState(workercount + 1, 0, 0, None, None, None, None);
    RunPhaseCompletes(b, jobs);
    LatestOfOne(Fctns(jobs), master);
    LatestOfOne(Parms(jobs), master);
  }

  /** If at most entry i of xs is non-NULL, the latest non-NULL entry is xs[i]. */
  lemma {:induction false} LatestOfOne<T>(xs: seq<Option<T>>, i: nat)
    requires i < |xs|
    requires forall j :: 0 <= j < |xs| && j != i ==> xs[j] == None
    ensures Latest(None, xs) == xs[i]
    decreases |xs|
  {
    if i == 0 {
      LatestOfNone(xs[0], xs[1..]);
    } else {
      LatestOfOne(xs[1..], i - 1);
    }
  }

  lemma {:induction false} LatestOfNone<T>(dflt: Option<T>, xs: seq<Option<T>>)
    requires forall j :: 0 <= j < |xs| ==> xs[j] == None
    ensures Latest(dflt, xs) == dflt
    decreases |xs|
  {
    if xs != [] {
      LatestOfNone(dflt, xs[1..]);
    }
  }
}
