/**
  One upload of one file (`uploadFile`): the existence check, the argument
  vector handed to the sync tool, and the bounded retry loop.

  The operating system and the tool are inputs: `stat` is what the existence
  check observed, and `toolOk(i)` is whether invocation number `i` (from 0)
  exits with status 0. The result is the trace of invocations and sleeps the
  loop performs, together with success or the error returned.
 */
module Upload {
  import opened Options
  import opened Config

  /** What `os.Stat` reported for the file. Only "does not exist" stops the upload. */
  datatype StatResult = Present | NotExist | StatError

  /** One observable action of the retry loop. */
  datatype Step = Invoke(args: seq<string>) | Sleep

  datatype UploadError =
    | FileMissing(path: string)
    | AttemptsExhausted(attempts: int)

  datatype UploadResult = Ok | Err(error: UploadError)

  datatype UploadRun = UploadRun(trace: seq<Step>, result: UploadResult)

  /** The parts of one `copy` invocation. */
  datatype CopyCommand = CopyCommand(source: string, remote: string, album: string, checksum: bool)

  const CopyVerb: string := "copy"
  const ChecksumFlag: string := "--checksum"

  /** `remote:album`, the destination argument. */
  function RemotePath(remote: string, album: string): string {
    remote + ":" + album
  }

  /** The argument vector of one invocation of the sync tool. */
  function CopyArgs(c: CopyCommand): (args: seq<string>)
    ensures |args| == if c.checksum then 4 else 3
    ensures args[0] == CopyVerb && args[1] == c.source && args[2] == RemotePath(c.remote, c.album)
    ensures c.checksum ==> args[3] == ChecksumFlag
  {
    [CopyVerb, c.source, RemotePath(c.remote, c.album)] + (if c.checksum then [ChecksumFlag] else [])
  }

  /** The command the configuration asks for when uploading `path`. */
  function CommandFor(rc: RcloneConfig, path: string): CopyCommand {
    CopyCommand(path, rc.remoteName, rc.albumName, rc.checkDuplicates)
  }

  /** Index of the first `:` in `s`, if any. */
  function FirstColon(s: string): (r: Option<nat>)
    ensures r.Some? ==> r.value < |s| && s[r.value] == ':' && forall k :: 0 <= k < r.value ==> s[k] != ':'
    ensures r.None? ==> forall k :: 0 <= k < |s| ==> s[k] != ':'
  {
    if |s| == 0 then None
    else if s[0] == ':' then Some(0)
    else match FirstColon(s[1..])
      case None => None
      case Some(i) => Some(i + 1)
  }

  /** Splits a destination at its first `:` into remote name and album. */
  function SplitRemote(s: string): Option<(string, string)> {
    match FirstColon(s)
    case None => None
    case Some(i) => Some((s[..i], s[i + 1..]))
  }

  /** Reads an argument vector back into the command it encodes. */
  function ParseCopyArgs(args: seq<string>): Option<CopyCommand> {
    if (|args| == 3 || (|args| == 4 && args[3] == ChecksumFlag)) && args[0] == CopyVerb then
      match SplitRemote(args[2])
      case None => None
      case Some(ra) => Some(CopyCommand(args[1], ra.0, ra.1, |args| == 4))
    else
      None
  }

  /** Splitting `remote:album` recovers both parts when the remote name has no colon. */
  lemma SplitRemoteRoundTrip(remote: string, album: string)
    requires forall k :: 0 <= k < |remote| ==> remote[k] != ':'
    ensures SplitRemote(RemotePath(remote, album)) == Some((remote, album))
  {
    var s := RemotePath(remote, album);
    assert s[|remote|] == ':';
    assert FirstColon(s) == Some(|remote|);
    assert s[..|remote|] == remote;
    assert s[|remote| + 1..] == album;
  }

  /** Every command whose remote name has no colon is recovered from its argument vector. */
  lemma CopyArgsRoundTrip(c: CopyCommand)
    requires forall k :: 0 <= k < |c.remote| ==> c.remote[k] != ':'
    ensures ParseCopyArgs(CopyArgs(c)) == Some(c)
  {
    SplitRemoteRoundTrip(c.remote, c.album);
  }

  /** Without that condition the destination is ambiguous: two configurations, one vector. */
  lemma RemotePathAmbiguous()
    ensures CopyArgs(CopyCommand("a.heic", "gp:x", "y", false))
         == CopyArgs(CopyCommand("a.heic", "gp", "x:y", false))
  {
    assert RemotePath("gp:x", "y") == "gp:x:y" == RemotePath("gp", "x:y");
  }

  /** Number of invocations in a trace. */
  function Invocations(t: seq<Step>): nat {
    if t == [] then 0 else (if t[0].Invoke? then 1 else 0) + Invocations(t[1..])
  }

  /** Number of sleeps in a trace. */
  function Sleeps(t: seq<Step>): nat {
    if t == [] then 0 else (if t[0].Sleep? then 1 else 0) + Sleeps(t[1..])
  }

  /** `n` invocations of `args`, with one sleep between consecutive invocations and none after the last. */
  function Schedule(args: seq<string>, n: nat): seq<Step> {
    if n == 0 then []
    else if n == 1 then [Invoke(args)]
    else [Invoke(args), Sleep] + Schedule(args, n - 1)
  }

  /** A schedule of `n` invocations holds `n` invocations, `n - 1` sleeps, and ends with an invocation. */
  lemma {:induction false} ScheduleCounts(args: seq<string>, n: nat)
    ensures Invocations(Schedule(args, n)) == n
    ensures Sleeps(Schedule(args, n)) == if n == 0 then 0 else n - 1
    ensures n > 0 ==> Schedule(args, n)[|Schedule(args, n)| - 1] == Invoke(args)
    ensures forall k :: 0 <= k < |Schedule(args, n)| && Schedule(args, n)[k].Invoke? ==> Schedule(args, n)[k].args == args
  {
    if n > 1 {
      ScheduleCounts(args, n - 1);
      var t := Schedule(args, n);
      assert t[1..] == [Sleep] + Schedule(args, n - 1);
      assert t[1..][1..] == Schedule(args, n - 1);
    }
  }

  /**
    The retry loop from iteration `i` on, for a limit of `retryCount`. Each
    iteration invokes the tool; on success the upload is done; on failure it
    sleeps and continues while iterations remain, and otherwise gives up. When
    no iteration is left on entry the loop is skipped and the upload reports success.
   */
  function RetryLoop(args: seq<string>, retryCount: int, toolOk: nat -> bool, i: nat): (run: UploadRun)
    ensures i >= retryCount ==> run == UploadRun([], Ok)
    ensures run.trace == Schedule(args, Invocations(run.trace))
    ensures i < retryCount ==> 1 <= Invocations(run.trace) <= retryCount - i
    ensures forall k :: i <= k < i + Invocations(run.trace) - 1 ==> !toolOk(k)
    ensures run.result == Ok <==> Invocations(run.trace) == 0 || toolOk(i + Invocations(run.trace) - 1)
    ensures run.result != Ok ==> run.result == Err(AttemptsExhausted(retryCount))
                                 && i + Invocations(run.trace) == retryCount
    decreases retryCount - i
  {
    if i >= retryCount then
      UploadRun([], Ok)
    else if toolOk(i) then
      UploadRun([Invoke(args)], Ok)
    else if i < retryCount - 1 then
      var rest := RetryLoop(args, retryCount, toolOk, i + 1);
      var t := [Invoke(args), Sleep] + rest.trace;
      assert t[1..][1..] == rest.trace;
      UploadRun(t, rest.result)
    else
      UploadRun([Invoke(args)], Err(AttemptsExhausted(retryCount)))
  }

  /**
    `uploadFile`: fail fast when the file does not exist, otherwise run the
    retry loop with the configured argument vector.
   */
  function UploadFile(cfg: Config, path: string, stat: StatResult, toolOk: nat -> bool): (run: UploadRun)
    ensures stat == NotExist ==> run == UploadRun([], Err(FileMissing(path)))
    ensures stat != NotExist && cfg.upload.retryCount <= 0 ==> run == UploadRun([], Ok)
    ensures forall k :: 0 <= k < |run.trace| && run.trace[k].Invoke? ==>
              run.trace[k].args == CopyArgs(CommandFor(cfg.rclone, path))
  {
    if stat == NotExist then
      UploadRun([], Err(FileMissing(path)))
    else
      var args := CopyArgs(CommandFor(cfg.rclone, path));
      var run := RetryLoop(args, cfg.upload.retryCount, toolOk, 0);
      ScheduleCounts(args, Invocations(run.trace));
      run
  }

  /** A tool that fails `K >= 1` times in a row: `K` invocations, `K - 1` sleeps, last step an invocation, an error. */
  lemma AlwaysFailingTool(cfg: Config, path: string, stat: StatResult, toolOk: nat -> bool)
    requires stat != NotExist
    requires cfg.upload.retryCount >= 1
    requires forall k :: 0 <= k < cfg.upload.retryCount ==> !toolOk(k)
    ensures var run := UploadFile(cfg, path, stat, toolOk);
            && Invocations(run.trace) == cfg.upload.retryCount
            && Sleeps(run.trace) == cfg.upload.retryCount - 1
            && run.trace[|run.trace| - 1].Invoke?
            && run.result == Err(AttemptsExhausted(cfg.upload.retryCount))
  {
    var run := UploadFile(cfg, path, stat, toolOk);
    var n := Invocations(run.trace);
    ScheduleCounts(CopyArgs(CommandFor(cfg.rclone, path)), n);
    assert n >= 1;
  }

  /** First success at attempt `j <= K`: `j` invocations, `j - 1` sleeps, success. */
  lemma FirstSuccessAt(cfg: Config, path: string, stat: StatResult, toolOk: nat -> bool, j: nat)
    requires stat != NotExist
    requires 1 <= j <= cfg.upload.retryCount
    requires toolOk(j - 1)
    requires forall k :: 0 <= k < j - 1 ==> !toolOk(k)
    ensures var run := UploadFile(cfg, path, stat, toolOk);
            && Invocations(run.trace) == j
            && Sleeps(run.trace) == j - 1
            && run.result == Ok
  {
    var run := UploadFile(cfg, path, stat, toolOk);
    var n := Invocations(run.trace);
    ScheduleCounts(CopyArgs(CommandFor(cfg.rclone, path)), n);
  }

  /** Once the file is not missing, the upload succeeds exactly when the limit is not positive or some allowed attempt succeeds. */
  lemma UploadSucceedsIff(cfg: Config, path: string, stat: StatResult, toolOk: nat -> bool)
    requires stat != NotExist
    ensures UploadFile(cfg, path, stat, toolOk).result == Ok
        <==> cfg.upload.retryCount <= 0 || exists k :: 0 <= k < cfg.upload.retryCount && toolOk(k)
  {
  }

  /** A missing file: an error and no invocation at all. */
  lemma MissingFileNeverInvokes(cfg: Config, path: string, toolOk: nat -> bool)
    ensures Invocations(UploadFile(cfg, path, NotExist, toolOk).trace) == 0
    ensures UploadFile(cfg, path, NotExist, toolOk).result == Err(FileMissing(path))
  {
  }

  /** A limit of zero or less: no invocation, no sleep, and success. */
  lemma NonPositiveRetryCountSucceeds(cfg: Config, path: string, stat: StatResult, toolOk: nat -> bool)
    requires stat != NotExist
    requires cfg.upload.retryCount <= 0
    ensures Invocations(UploadFile(cfg, path, stat, toolOk).trace) == 0
    ensures Sleeps(UploadFile(cfg, path, stat, toolOk).trace) == 0
    ensures UploadFile(cfg, path, stat, toolOk).result == Ok
  {
  }

  /** Only "does not exist" stops the upload: any other failure of the existence check is treated as present. */
  lemma StatErrorProceeds(cfg: Config, path: string, toolOk: nat -> bool)
    ensures UploadFile(cfg, path, StatError, toolOk) == UploadFile(cfg, path, Present, toolOk)
    ensures cfg.upload.retryCount >= 1 ==> Invocations(UploadFile(cfg, path, StatError, toolOk).trace) >= 1
  {
  }

}
