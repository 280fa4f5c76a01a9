/**
  What an upload worker (`uploadWorker`) does with each path it pops from the
  queue: upload it, and only after a successful upload with
  `delete_after_upload` set, try to remove the local file. A failed upload is
  dropped, never put back on the queue; a failed removal is reported but does
  not turn the upload into a failure.
 */
module Worker {
  import opened Config
  import opened Upload

  /** What happened to the local file after the upload. */
  datatype Removal = NotAttempted | Removed | RemoveFailed

  /** The worker's account of one item. */
  datatype ItemReport = ItemReport(path: string, run: UploadRun, removal: Removal) {
    predicate Uploaded() {
      run.result == Ok
    }
  }

  /**
    The conditions one item meets: what the existence check sees, the tool's
    exit status per attempt, and whether `os.Remove` would succeed.
   */
  datatype ItemEnv = ItemEnv(stat: StatResult, toolOk: nat -> bool, removeOk: bool)

  /** A queued path together with the conditions it will meet when popped. */
  datatype Pending = Pending(path: string, env: ItemEnv)

  /** Handles one popped item. */
  function ProcessItem(cfg: Config, item: Pending): (rep: ItemReport)
    ensures rep.path == item.path
    ensures rep.run == UploadFile(cfg, item.path, item.env.stat, item.env.toolOk)
    ensures rep.removal != NotAttempted <==> rep.Uploaded() && cfg.rclone.deleteAfterUpload
    ensures rep.removal == Removed <==> rep.removal != NotAttempted && item.env.removeOk
  {
    var run := UploadFile(cfg, item.path, item.env.stat, item.env.toolOk);
    if run.result != Ok then
      ItemReport(item.path, run, NotAttempted)
    else if !cfg.rclone.deleteAfterUpload then
      ItemReport(item.path, run, NotAttempted)
    else if item.env.removeOk then
      ItemReport(item.path, run, Removed)
    else
      ItemReport(item.path, run, RemoveFailed)
  }

  /** Whether removal succeeds has no effect on the upload run or on the item's success. */
  lemma RemovalOutcomeIrrelevant(cfg: Config, path: string, stat: StatResult, toolOk: nat -> bool, r1: bool, r2: bool)
    ensures ProcessItem(cfg, Pending(path, ItemEnv(stat, toolOk, r1))).run
         == ProcessItem(cfg, Pending(path, ItemEnv(stat, toolOk, r2))).run
    ensures ProcessItem(cfg, Pending(path, ItemEnv(stat, toolOk, r1))).Uploaded()
        <==> ProcessItem(cfg, Pending(path, ItemEnv(stat, toolOk, r2))).Uploaded()
  {
  }

  /** With `delete_after_upload` off, the local file is never touched. */
  lemma NoDeleteLeavesFile(cfg: Config, item: Pending)
    requires !cfg.rclone.deleteAfterUpload
    ensures ProcessItem(cfg, item).removal == NotAttempted
  {
  }

  /** A file missing at pop time is neither uploaded nor removed. */
  lemma MissingFileNotRemoved(cfg: Config, path: string, toolOk: nat -> bool, removeOk: bool)
    ensures var rep := ProcessItem(cfg, Pending(path, ItemEnv(NotExist, toolOk, removeOk)));
            !rep.Uploaded() && rep.removal == NotAttempted && Invocations(rep.run.trace) == 0
  {
  }

  /**
    A worker draining the queue: items are popped in order and each is handled
    exactly once; nothing is ever pushed back.
   */
  function Drain(cfg: Config, queue: seq<Pending>): (reports: seq<ItemReport>)
    ensures |reports| == |queue|
    ensures forall k :: 0 <= k < |queue| ==> reports[k] == ProcessItem(cfg, queue[k])
  {
    if queue == [] then [] else [ProcessItem(cfg, queue[0])] + Drain(cfg, queue[1..])
  }

  /** Number of reports whose upload succeeded. */
  function CountUploaded(reports: seq<ItemReport>): nat {
    if reports == [] then 0
    else (if reports[0].Uploaded() then 1 else 0) + CountUploaded(reports[1..])
  }

  /** Number of reports for which a removal was attempted. */
  function CountRemovalAttempts(reports: seq<ItemReport>): nat {
    if reports == [] then 0
    else (if reports[0].removal != NotAttempted then 1 else 0) + CountRemovalAttempts(reports[1..])
  }

  /** Over a drained queue, removals are attempted exactly as often as uploads succeed, when deletion is on, and never otherwise. */
  lemma {:induction false} RemovalsMatchUploads(cfg: Config, queue: seq<Pending>)
    ensures CountRemovalAttempts(Drain(cfg, queue))
         == if cfg.rclone.deleteAfterUpload then CountUploaded(Drain(cfg, queue)) else 0
  {
    if queue != [] {
      RemovalsMatchUploads(cfg, queue[1..]);
      var r := Drain(cfg, queue);
      assert r[1..] == Drain(cfg, queue[1..]);
    }
  }

  /**
    With a retry limit of zero or less the upload reports success without any
    invocation, so with deletion on the local file is removed although it was
    never handed to the tool.
   */
  lemma RemovedWithoutInvocation(cfg: Config, path: string, stat: StatResult, toolOk: nat -> bool)
    requires stat != NotExist
    requires cfg.upload.retryCount <= 0
    requires cfg.rclone.deleteAfterUpload
    ensures var rep := ProcessItem(cfg, Pending(path, ItemEnv(stat, toolOk, true)));
            rep.Uploaded() && rep.removal == Removed && Invocations(rep.run.trace) == 0
  {
  }

}
