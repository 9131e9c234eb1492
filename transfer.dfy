/**
 * The copy loops of `download_file` and `upload_file`: read a chunk from
 * the source, stop on a zero-length read, write the chunk to the
 * destination, add its length to the running count and report it in a
 * Progress event. A cancellation, a failed read or a failed write ends the
 * loop early; after a finished loop the destination is flushed.
 *
 * File I/O is an oracle: the replies of successive reads, the iterations
 * whose write fails, the iteration at which the cancellation branch of the
 * loop's `select!` is taken, and the outcomes of the setup and flush steps.
 */
module Transfer {
  import opened Common

  datatype TransferEvent =
    | Progress(bytesTransferred: nat, totalBytes: nat, filename: string)
    | Complete(filename: string)
    | Error(filename: string, message: string)

  datatype Direction = Download | Upload

  /** Reply of one `read` on the source: a chunk of `n` bytes (0 at end of file), or a failure. */
  datatype ReadReply = Chunk(n: nat) | ReadFailed(reason: string)

  /** Outcome of an I/O step that either works or fails with a reason. */
  datatype Step = Done | Failed(reason: string)

  const Cancelled: string := "Transfer cancelled"

  function ReadPrefix(dir: Direction): string {
    match dir
    case Download => "Failed to read from remote: "
    case Upload => "Failed to read from local file: "
  }

  function WritePrefix(dir: Direction): string {
    match dir
    case Download => "Failed to write to local file: "
    case Upload => "Failed to write to remote file: "
  }

  function FlushPrefix(dir: Direction): string {
    match dir
    case Download => "Failed to flush local file: "
    case Upload => "Failed to flush remote file: "
  }

  /** The reply of read number `i`; past the given replies the source is at end of file. */
  function ReadAt(replies: seq<ReadReply>, i: nat): ReadReply {
    if i < |replies| then replies[i] else Chunk(0)
  }

  /** Iteration `i` copies a chunk and the loop goes on: not cancelled, a non-empty chunk read, its write done. */
  predicate Continues(replies: seq<ReadReply>, writeFails: map<nat, string>, cancelAt: Option<nat>, i: nat) {
    cancelAt != Some(i) && i < |replies| && replies[i].Chunk? && replies[i].n > 0 && i !in writeFails
  }

  /**
   * How an iteration that does not go on ends the loop: the cancellation
   * branch, a failed read, the zero-length read (the only Ok), or a failed
   * write.
   */
  function ExitResult(dir: Direction, replies: seq<ReadReply>, writeFails: map<nat, string>, cancelAt: Option<nat>, i: nat): Result<()>
    requires !Continues(replies, writeFails, cancelAt, i)
  {
    if cancelAt == Some(i) then Err(Cancelled)
    else match ReadAt(replies, i)
      case ReadFailed(e) => Err(ReadPrefix(dir) + e)
      case Chunk(n) => if n == 0 then Ok(()) else Err(WritePrefix(dir) + writeFails[i])
  }

  /** The first iteration from `from` on that ends the loop. */
  function StopStep(replies: seq<ReadReply>, writeFails: map<nat, string>, cancelAt: Option<nat>, from: nat): (k: nat)
    requires from <= |replies|
    ensures from <= k <= |replies|
    ensures !Continues(replies, writeFails, cancelAt, k)
    ensures forall j :: from <= j < k ==> Continues(replies, writeFails, cancelAt, j)
    decreases |replies| - from
  {
    if !Continues(replies, writeFails, cancelAt, from) then from
    else StopStep(replies, writeFails, cancelAt, from + 1)
  }

  /** How the loop ends, when started at the first read. */
  function CopyResult(dir: Direction, replies: seq<ReadReply>, writeFails: map<nat, string>, cancelAt: Option<nat>): Result<()> {
    ExitResult(dir, replies, writeFails, cancelAt, StopStep(replies, writeFails, cancelAt, 0))
  }

  /** The loop's result followed by the flush of the destination. */
  function Finish(dir: Direction, replies: seq<ReadReply>, writeFails: map<nat, string>, cancelAt: Option<nat>, flush: Step): Result<()> {
    var loop := CopyResult(dir, replies, writeFails, cancelAt);
    if loop.Err? then loop
    else if flush.Failed? then Err(FlushPrefix(dir) + flush.reason)
    else Ok(())
  }

  /** Bytes in the first `k` replies: the running count after `k` copied chunks. */
  function Copied(replies: seq<ReadReply>, k: nat): nat
    requires k <= |replies|
  {
    if k == 0 then 0
    else Copied(replies, k - 1) + (if replies[k - 1].Chunk? then replies[k - 1].n else 0)
  }

  /** The Progress events of the first `k` copied chunks. */
  function ProgressEvents(replies: seq<ReadReply>, k: nat, total: nat, name: string): seq<TransferEvent>
    requires k <= |replies|
  {
    if k == 0 then []
    else ProgressEvents(replies, k - 1, total, name) + [Progress(Copied(replies, k), total, name)]
  }

  /**
   * The copy loop. `events` are the Progress events it sends, `transferred`
   * the final count, `steps` the number of chunks copied, and
   * `removedPartial` whether it deleted the partial destination (only on
   * cancellation).
   */
  method CopyLoop(dir: Direction, replies: seq<ReadReply>, writeFails: map<nat, string>, cancelAt: Option<nat>, total: nat, name: string)
    returns (events: seq<TransferEvent>, transferred: nat, steps: nat, r: Result<()>, removedPartial: bool)
    ensures steps <= |replies|
    ensures forall j :: 0 <= j < steps ==> Continues(replies, writeFails, cancelAt, j)
    ensures !Continues(replies, writeFails, cancelAt, steps)
    ensures r == ExitResult(dir, replies, writeFails, cancelAt, steps)
    ensures events == ProgressEvents(replies, steps, total, name)
    ensures transferred == Copied(replies, steps)
    ensures removedPartial <==> cancelAt == Some(steps)
  {
    events, transferred, steps := [], 0, 0;
    removedPartial := false;
    while true
      invariant steps <= |replies|
      invariant forall j :: 0 <= j < steps ==> Continues(replies, writeFails, cancelAt, j)
      invariant events == ProgressEvents(replies, steps, total, name)
      invariant transferred == Copied(replies, steps)
      decreases |replies| - steps
    {
      if cancelAt == Some(steps) {
        removedPartial := true;
        r := Err(Cancelled);
        return;
      }
      var reply := if steps < |replies| then replies[steps] else Chunk(0);
      match reply
      case ReadFailed(e) =>
        r := Err(ReadPrefix(dir) + e);
        return;
      case Chunk(n) =>
        if n == 0 {
          r := Ok(());
          return;
        }
        if steps in writeFails {
          r := Err(WritePrefix(dir) + writeFails[steps]);
          return;
        }
        transferred := transferred + n;
        steps := steps + 1;
        events := events + [Progress(transferred, total, name)];
    }
  }

  /** An iteration that ends the loop after only continuing ones is the stopping iteration. */
  lemma StopsAt(dir: Direction, replies: seq<ReadReply>, writeFails: map<nat, string>, cancelAt: Option<nat>, k: nat)
    requires k <= |replies|
    requires !Continues(replies, writeFails, cancelAt, k)
    requires forall j :: 0 <= j < k ==> Continues(replies, writeFails, cancelAt, j)
    ensures StopStep(replies, writeFails, cancelAt, 0) == k
    ensures CopyResult(dir, replies, writeFails, cancelAt) == ExitResult(dir, replies, writeFails, cancelAt, k)
  {
  }

  /** Where the setup of a transfer failed, if it did. */
  datatype DownloadEnv = DownloadEnv(
    stat: Result<Option<nat>>,  // remote `metadata`: the size attribute, when present
    open: Step,                 // opening the remote file
    create: Step,               // creating the local file
    replies: seq<ReadReply>,
    writeFails: map<nat, string>,
    flush: Step)

  datatype UploadEnv = UploadEnv(
    stat: Result<nat>,          // local `metadata`: the file length
    open: Step,                 // opening the local file
    create: Step,               // creating the remote file
    replies: seq<ReadReply>,
    writeFails: map<nat, string>,
    flush: Step)

  /**
   * What `download_file` promises: look up the connection, stat and open the
   * remote file, create the local file (each failure returns its message
   * and sends nothing), then copy with the remote size (0 when absent) as
   * the total, then flush.
   */
  predicate DownloadSpec(connected: bool, env: DownloadEnv, cancelAt: Option<nat>, name: string,
                         events: seq<TransferEvent>, r: Result<()>, removedPartial: bool)
  {
    if !connected then r == Err(NotConnected) && events == [] && !removedPartial
    else if env.stat.Err? then
      r == Err("Failed to stat file: " + env.stat.error) && events == [] && !removedPartial
    else if env.open.Failed? then
      r == Err("Failed to open remote file: " + env.open.reason) && events == [] && !removedPartial
    else if env.create.Failed? then
      r == Err("Failed to create local file: " + env.create.reason) && events == [] && !removedPartial
    else
      var k := StopStep(env.replies, env.writeFails, cancelAt, 0);
      && events == ProgressEvents(env.replies, k, env.stat.value.GetOr(0), name)
      && r == Finish(Download, env.replies, env.writeFails, cancelAt, env.flush)
      && (removedPartial <==> cancelAt == Some(k))
  }

  /** `download_file`, with the connection lookup's outcome as `connected`. */
  method DownloadFile(connected: bool, env: DownloadEnv, cancelAt: Option<nat>, name: string)
    returns (events: seq<TransferEvent>, r: Result<()>, removedPartial: bool)
    ensures DownloadSpec(connected, env, cancelAt, name, events, r, removedPartial)
  {
    if !connected {
      return [], Err(NotConnected), false;
    }
    if env.stat.Err? {
      return [], Err("Failed to stat file: " + env.stat.error), false;
    }
    var total := env.stat.value.GetOr(0);
    if env.open.Failed? {
      return [], Err("Failed to open remote file: " + env.open.reason), false;
    }
    if env.create.Failed? {
      return [], Err("Failed to create local file: " + env.create.reason), false;
    }
    var transferred, steps;
    events, transferred, steps, r, removedPartial := CopyLoop(Download, env.replies, env.writeFails, cancelAt, total, name);
    StopsAt(Download, env.replies, env.writeFails, cancelAt, steps);
    if r.Ok? && env.flush.Failed? {
      r := Err(FlushPrefix(Download) + env.flush.reason);
    }
  }

  /**
   * What `upload_file` promises: stat and open the local file, then look up
   * the connection, then create the remote file (each failure returns its
   * message and sends nothing), then copy with the local length as the
   * total, then flush.
   */
  predicate UploadSpec(connected: bool, env: UploadEnv, cancelAt: Option<nat>, name: string,
                       events: seq<TransferEvent>, r: Result<()>, removedPartial: bool)
  {
    if env.stat.Err? then
      r == Err("Failed to get local file info: " + env.stat.error) && events == [] && !removedPartial
    else if env.open.Failed? then
      r == Err("Failed to open local file: " + env.open.reason) && events == [] && !removedPartial
    else if !connected then r == Err(NotConnected) && events == [] && !removedPartial
    else if env.create.Failed? then
      r == Err("Failed to create remote file: " + env.create.reason) && events == [] && !removedPartial
    else
      var k := StopStep(env.replies, env.writeFails, cancelAt, 0);
      && events == ProgressEvents(env.replies, k, env.stat.value, name)
      && r == Finish(Upload, env.replies, env.writeFails, cancelAt, env.flush)
      && (removedPartial <==> cancelAt == Some(k))
  }

  /** `upload_file`, with the connection lookup's outcome as `connected`. */
  method UploadFile(connected: bool, env: UploadEnv, cancelAt: Option<nat>, name: string)
    returns (events: seq<TransferEvent>, r: Result<()>, removedPartial: bool)
    ensures UploadSpec(connected, env, cancelAt, name, events, r, removedPartial)
  {
    if env.stat.Err? {
      return [], Err("Failed to get local file info: " + env.stat.error), false;
    }
    var total := env.stat.value;
    if env.open.Failed? {
      return [], Err("Failed to open local file: " + env.open.reason), false;
    }
    if !connected {
      return [], Err(NotConnected), false;
    }
    if env.create.Failed? {
      return [], Err("Failed to create remote file: " + env.create.reason), false;
    }
    var transferred, steps;
    events, transferred, steps, r, removedPartial := CopyLoop(Upload, env.replies, env.writeFails, cancelAt, total, name);
    StopsAt(Upload, env.replies, env.writeFails, cancelAt, steps);
    if r.Ok? && env.flush.Failed? {
      r := Err(FlushPrefix(Upload) + env.flush.reason);
    }
  }

  // ----- Lemmas -----

  /** Event `i` reports the count after chunk `i`, the fixed total and the name. */
  lemma {:induction false} ProgressAt(replies: seq<ReadReply>, k: nat, total: nat, name: string, i: nat)
    requires i < k <= |replies|
    ensures |ProgressEvents(replies, k, total, name)| == k
    ensures ProgressEvents(replies, k, total, name)[i] == Progress(Copied(replies, i + 1), total, name)
  {
    if i < k - 1 {
      ProgressAt(replies, k - 1, total, name, i);
    } else if k > 1 {
      ProgressAt(replies, k - 1, total, name, 0);
    }
  }

  /**
   * One Progress event per copied chunk; event `i` carries the running count
   * after chunk `i`.
   */
  lemma ProgressCumulative(replies: seq<ReadReply>, k: nat, total: nat, name: string)
    requires k <= |replies|
    ensures |ProgressEvents(replies, k, total, name)| == k
    ensures forall i :: 0 <= i < k ==>
      ProgressEvents(replies, k, total, name)[i] == Progress(Copied(replies, i + 1), total, name)
  {
    if k > 0 {
      ProgressAt(replies, k, total, name, 0);
    }
    forall i | 0 <= i < k
      ensures ProgressEvents(replies, k, total, name)[i] == Progress(Copied(replies, i + 1), total, name)
    {
      ProgressAt(replies, k, total, name, i);
    }
  }

  /** Every copied chunk is non-empty, so the reported count strictly grows from event to event. */
  lemma {:induction false} CopiedGrows(replies: seq<ReadReply>, writeFails: map<nat, string>, cancelAt: Option<nat>, i: nat, j: nat)
    requires i < j <= |replies|
    requires forall m :: 0 <= m < j ==> Continues(replies, writeFails, cancelAt, m)
    ensures Copied(replies, i) < Copied(replies, j)
  {
    assert Continues(replies, writeFails, cancelAt, j - 1);
    if i < j - 1 {
      CopiedGrows(replies, writeFails, cancelAt, i, j - 1);
    }
  }

  /** `download_file` sends only Progress events for the file; the terminal event is its caller's. */
  lemma DownloadSendsProgressOnly(connected: bool, env: DownloadEnv, cancelAt: Option<nat>, name: string,
                                  events: seq<TransferEvent>, r: Result<()>, removedPartial: bool)
    requires DownloadSpec(connected, env, cancelAt, name, events, r, removedPartial)
    ensures forall i :: 0 <= i < |events| ==> events[i].Progress? && events[i].filename == name
  {
    if connected && env.stat.Ok? && env.open.Done? && env.create.Done? {
      ProgressCumulative(env.replies, StopStep(env.replies, env.writeFails, cancelAt, 0), env.stat.value.GetOr(0), name);
    }
  }

  /** `upload_file` sends only Progress events for the file; the terminal event is its caller's. */
  lemma UploadSendsProgressOnly(connected: bool, env: UploadEnv, cancelAt: Option<nat>, name: string,
                                events: seq<TransferEvent>, r: Result<()>, removedPartial: bool)
    requires UploadSpec(connected, env, cancelAt, name, events, r, removedPartial)
    ensures forall i :: 0 <= i < |events| ==> events[i].Progress? && events[i].filename == name
  {
    if env.stat.Ok? && env.open.Done? && connected && env.create.Done? {
      ProgressCumulative(env.replies, StopStep(env.replies, env.writeFails, cancelAt, 0), env.stat.value, name);
    }
  }

  /**
   * The loop ends with "Transfer cancelled" exactly when the cancellation
   * branch is taken; it ends with Ok exactly at a zero-length read.
   */
  lemma CopyResultCases(dir: Direction, replies: seq<ReadReply>, writeFails: map<nat, string>, cancelAt: Option<nat>)
    ensures var k := StopStep(replies, writeFails, cancelAt, 0);
      && (CopyResult(dir, replies, writeFails, cancelAt) == Err(Cancelled) <==> cancelAt == Some(k))
      && (CopyResult(dir, replies, writeFails, cancelAt).Ok? <==> cancelAt != Some(k) && ReadAt(replies, k) == Chunk(0))
  {
    var k := StopStep(replies, writeFails, cancelAt, 0);
    if cancelAt != Some(k) {
      match ReadAt(replies, k)
      case ReadFailed(e) =>
        assert (ReadPrefix(dir) + e)[0] == 'F';
      case Chunk(n) =>
        if n != 0 {
          assert (WritePrefix(dir) + writeFails[k])[0] == 'F';
        }
    }
  }

  /** A finished copy's last Progress event carries every byte read before end of file. */
  lemma CopyProgressTotal(dir: Direction, replies: seq<ReadReply>, writeFails: map<nat, string>, cancelAt: Option<nat>, total: nat, name: string)
    requires CopyResult(dir, replies, writeFails, cancelAt).Ok?
    ensures var k := StopStep(replies, writeFails, cancelAt, 0);
      var evs := ProgressEvents(replies, k, total, name);
      && |evs| == k
      && ReadAt(replies, k) == Chunk(0)
      && (k > 0 ==> evs[k - 1] == Progress(Copied(replies, k), total, name))
  {
    var k := StopStep(replies, writeFails, cancelAt, 0);
    CopyResultCases(dir, replies, writeFails, cancelAt);
    ProgressCumulative(replies, k, total, name);
  }
}
