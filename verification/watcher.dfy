/**
  The watcher's per-event decision (`watchFiles`, `handleFileCreated`): an
  event whose operation mask contains the create bit passes on to the
  extension filter, and a supported path is queued once for that event.
  Errors from the notification mechanism are only logged.
 */
module Watcher {
  import opened Options
  import opened Config
  import opened Filter

  /** The notification mechanism's operation bitmask. */
  type Op = bv32

  const CreateOp: Op := 1
  const WriteOp: Op := 2
  const RemoveOp: Op := 4
  const RenameOp: Op := 8
  const ChmodOp: Op := 16

  /** `event.Op & Create == Create`. */
  predicate HasCreate(op: Op) {
    op & CreateOp == CreateOp
  }

  /** One item received from the watcher: an event or an error. */
  datatype WatchInput = FsEvent(name: string, op: Op) | FsError(message: string)

  /**
    Reference: the inputs that should lead to a queued path. An event whose
    mask has bit 0 set, naming a path whose extension lower-cases to some entry
    of the allow-list.
   */
  ghost predicate Qualifies(cfg: Config, input: WatchInput) {
    input.FsEvent? && input.op & CreateOp != 0 && MatchesAllowList(cfg.supportedExtensions, input.name)
  }

  /** `handleFileCreated`: a supported path is queued, any other is dropped. */
  function HandleFileCreated(cfg: Config, path: string): (queued: Option<string>)
    ensures queued.Some? <==> MatchesAllowList(cfg.supportedExtensions, path)
    ensures queued.Some? ==> queued.value == path
  {
    SupportedIffMatchesAllowList(cfg.supportedExtensions, path);
    if Supported(cfg.supportedExtensions, path) then Some(path) else None
  }

  /** One pass of the watch loop: only a create event reaches the filter. */
  function OnInput(cfg: Config, input: WatchInput): (queued: Option<string>)
    ensures queued.Some? <==> Qualifies(cfg, input)
    ensures queued.Some? ==> queued.value == input.name
  {
    match input
    case FsError(_) => None
    case FsEvent(name, op) => if HasCreate(op) then HandleFileCreated(cfg, name) else None
  }

  /** The paths the watch loop queues for a sequence of inputs, in order. */
  function Watch(cfg: Config, inputs: seq<WatchInput>): (queued: seq<string>)
    ensures |queued| <= |inputs|
    ensures forall k :: 0 <= k < |queued| ==> MatchesAllowList(cfg.supportedExtensions, queued[k])
  {
    if inputs == [] then []
    else
      (match OnInput(cfg, inputs[0]) case Some(p) => [p] case None => []) + Watch(cfg, inputs[1..])
  }

  /** Watching two stretches of inputs queues the first stretch's paths, then the second's. */
  lemma {:induction false} WatchAppend(cfg: Config, a: seq<WatchInput>, b: seq<WatchInput>)
    ensures Watch(cfg, a + b) == Watch(cfg, a) + Watch(cfg, b)
  {
    if a != [] {
      assert (a + b)[0] == a[0];
      assert (a + b)[1..] == a[1..] + b;
      WatchAppend(cfg, a[1..], b);
      var head := match OnInput(cfg, a[0]) case Some(p) => [p] case None => [];
      assert Watch(cfg, a + b) == head + Watch(cfg, a[1..] + b);
      assert Watch(cfg, a) == head + Watch(cfg, a[1..]);
    } else {
      assert a + b == b;
    }
  }

  /** A path is queued exactly when some qualifying event carries it. */
  lemma {:induction false} WatchMembership(cfg: Config, inputs: seq<WatchInput>, p: string)
    ensures p in Watch(cfg, inputs)
        <==> exists k :: 0 <= k < |inputs| && Qualifies(cfg, inputs[k]) && inputs[k].name == p
  {
    if inputs != [] {
      WatchMembership(cfg, inputs[1..], p);
      if exists k :: 0 <= k < |inputs| && Qualifies(cfg, inputs[k]) && inputs[k].name == p {
        var k :| 0 <= k < |inputs| && Qualifies(cfg, inputs[k]) && inputs[k].name == p;
        if k > 0 {
          assert inputs[1..][k - 1] == inputs[k];
        }
      }
      if p in Watch(cfg, inputs[1..]) {
        var k :| 0 <= k < |inputs[1..]| && Qualifies(cfg, inputs[1..][k]) && inputs[1..][k].name == p;
        assert inputs[k + 1] == inputs[1..][k];
      }
    }
  }

  /** Events without the create bit, and errors, never queue anything. */
  lemma {:induction false} NonCreateIgnored(cfg: Config, inputs: seq<WatchInput>)
    requires forall k :: 0 <= k < |inputs| ==> inputs[k].FsError? || inputs[k].op & CreateOp == 0
    ensures Watch(cfg, inputs) == []
  {
    if inputs != [] {
      NonCreateIgnored(cfg, inputs[1..]);
    }
  }

  /** No de-duplication: a file created twice at the same path is queued twice. */
  lemma RecreatedFileQueuedTwice(cfg: Config, name: string, op: Op)
    requires op & CreateOp != 0 && MatchesAllowList(cfg.supportedExtensions, name)
    ensures Watch(cfg, [FsEvent(name, op), FsEvent(name, op)]) == [name, name]
  {
  }

  /** The create test looks at the create bit only, whatever other bits are set. */
  lemma CreateBitOnly(op: Op)
    ensures HasCreate(op) <==> op & CreateOp != 0
    ensures HasCreate(op | CreateOp)
    ensures !HasCreate(op & !CreateOp)
    ensures !HasCreate(WriteOp | RemoveOp | RenameOp | ChmodOp)
  {
  }

}
