/**
 * The engine's shared state (`SftpState`): the map of live connections,
 * keyed by the device address, and the map of running transfers, keyed by
 * transfer id; and the commands that consult or change them. Every remote
 * command looks its host up first and fails with "Not connected to this
 * device" when it is absent.
 *
 * The SSH handshake, the remote server and the local disk are oracles
 * passed in as parameters.
 */
module Sftp {
  import opened Common
  import opened Paths
  import opened Listing
  import opened Transfer
  import opened Deletion

  /** A live session; the SSH handle and SFTP channel are not modelled. */
  datatype Connection = Connection(deviceIp: string, username: string)

  /** A registered transfer: its direction and whether its cancellation token was fired. */
  datatype TransferJob = TransferJob(direction: Direction, cancelled: bool)

  /** Outcome of the TCP connect, bounded by a 30-second timeout. */
  datatype Dial = Dialled | TimedOut | DialFailed(reason: string)

  /**
   * The handshake as the remote side answers it: the connect, whether the
   * SSH agent's keys or a key file are accepted, then the session channel,
   * the "sftp" subsystem and the SFTP session.
   */
  datatype Handshake = Handshake(dial: Dial, agentOk: bool, keyFileOk: bool, channel: Step, subsystem: Step, session: Step)

  const AuthFailed: string :=
    "Authentication failed: Authentication failed. Ensure SSH agent is running with your keys loaded, or that ~/.ssh/id_ed25519 or ~/.ssh/id_rsa exists."

  const DefaultMaxBytes: nat := 1024 * 1024
  const NotUtf8: string := "File contains non-UTF8 content (binary file)"

  /**
   * `establish_connection`: connect, authenticate with the agent or else a
   * key file, open a channel, request the subsystem, start the session;
   * each failure is reported with its error kind's prefix.
   */
  function Establish(h: Handshake): (r: Result<()>)
    ensures r.Ok? <==>
      h.dial.Dialled? && (h.agentOk || h.keyFileOk) && h.channel.Done? && h.subsystem.Done? && h.session.Done?
    ensures h.dial == TimedOut ==> r == Err("Timeout: SSH connection timed out")
    ensures h.dial.Dialled? && !h.agentOk && !h.keyFileOk ==> r == Err(AuthFailed)
  {
    match h.dial
    case TimedOut => Err("Timeout: SSH connection timed out")
    case DialFailed(e) => Err("Connection failed: " + e)
    case Dialled =>
      if !(h.agentOk || h.keyFileOk) then Err(AuthFailed)
      else if h.channel.Failed? then Err("Connection failed: Failed to open channel: " + h.channel.reason)
      else if h.subsystem.Failed? then Err("Connection failed: Failed to request SFTP subsystem: " + h.subsystem.reason)
      else if h.session.Failed? then Err("SFTP operation failed: Failed to create SFTP session: " + h.session.reason)
      else Ok(())
  }

  /** The user to log in as: the one given, else `$USER`, else "root". */
  function LoginUser(username: Option<string>, envUser: Option<string>): (user: string)
    ensures username.Some? ==> user == username.value
    ensures username.None? && envUser.Some? ==> user == envUser.value
    ensures username.None? && envUser.None? ==> user == "root"
  {
    username.GetOr(envUser.GetOr("root"))
  }

  /** The event that closes a transfer's stream. */
  function Terminal(name: string, r: Result<()>): (e: TransferEvent)
    ensures r.Ok? <==> e.Complete?
    ensures e.filename == name
    ensures r.Err? ==> e.Error? && e.message == r.error
  {
    if r.Ok? then Complete(name) else Error(name, r.error)
  }

  class SftpState {
    var connections: map<string, Connection>
    var transfers: map<string, TransferJob>

    /** Each connection is stored under its own device address. */
    ghost predicate Valid()
      reads this
    {
      forall h :: h in connections ==> connections[h].deviceIp == h
    }

    /** `SftpState::default`: no connections, no transfers. */
    constructor()
      ensures connections == map[] && transfers == map[]
      ensures Valid()
    {
      connections := map[];
      transfers := map[];
    }

    /**
     * `sftp_connect`: a host already connected is left as it is; otherwise
     * the handshake runs and, when it succeeds, the connection is stored.
     */
    method Connect(deviceIp: string, username: Option<string>, envUser: Option<string>, h: Handshake) returns (r: Result<()>)
      requires Valid()
      modifies this`connections
      ensures Valid()
      ensures deviceIp in old(connections) ==> r == Ok(()) && connections == old(connections)
      ensures deviceIp !in old(connections) ==> r == Establish(h)
      ensures deviceIp !in old(connections) && r.Ok? ==>
        connections == old(connections)[deviceIp := Connection(deviceIp, LoginUser(username, envUser))]
      ensures r.Err? ==> connections == old(connections)
      ensures r.Ok? ==> deviceIp in connections && connections[deviceIp].deviceIp == deviceIp
    {
      if deviceIp in connections {
        return Ok(());
      }
      var user := LoginUser(username, envUser);
      r := Establish(h);
      if r.Err? {
        return;
      }
      connections := connections[deviceIp := Connection(deviceIp, user)];
    }

    /** `sftp_disconnect`: drop the host's connection, present or not. */
    method Disconnect(deviceIp: string) returns (r: Result<()>)
      requires Valid()
      modifies this`connections
      ensures Valid()
      ensures r == Ok(())
      ensures connections == old(connections) - {deviceIp}
      ensures deviceIp !in connections
    {
      connections := connections - {deviceIp};
      r := Ok(());
    }

    /** `sftp_list_dir`: look the host up, then list the remote directory. */
    method ListDir(deviceIp: string, path: string, reply: Result<seq<RemoteEntry>>) returns (r: Result<DirectoryListing>)
      ensures deviceIp !in connections ==> r == Err(NotConnected)
      ensures deviceIp in connections ==> r == RemoteListing(path, reply)
    {
      if deviceIp !in connections {
        return Err(NotConnected);
      }
      r := ListRemote(path, reply);
    }

    /** `sftp_mkdir`. */
    method Mkdir(deviceIp: string, path: string, create: Step) returns (r: Result<()>)
      ensures deviceIp !in connections ==> r == Err(NotConnected)
      ensures deviceIp in connections ==>
        r == if create.Failed? then Err("Failed to create directory: " + create.reason) else Ok(())
    {
      if deviceIp !in connections {
        return Err(NotConnected);
      }
      if create.Failed? {
        return Err("Failed to create directory: " + create.reason);
      }
      r := Ok(());
    }

    /** `sftp_rename`. */
    method Rename(deviceIp: string, oldPath: string, newPath: string, rename: Step) returns (r: Result<()>)
      ensures deviceIp !in connections ==> r == Err(NotConnected)
      ensures deviceIp in connections ==>
        r == if rename.Failed? then Err("Failed to rename: " + rename.reason) else Ok(())
    {
      if deviceIp !in connections {
        return Err(NotConnected);
      }
      if rename.Failed? {
        return Err("Failed to rename: " + rename.reason);
      }
      r := Ok(());
    }

    /**
     * `sftp_read_file`: open the file, read once into a buffer of
     * `maxBytes` (1 MiB by default), keep what was read, decode it as UTF-8.
     * `read` is what the single read delivers; `decode` is the UTF-8
     * decoder, None on invalid input.
     */
    method ReadFile(deviceIp: string, path: string, maxBytes: Option<nat>, open: Step,
                    read: Result<seq<Byte>>, decode: seq<Byte> -> Option<string>) returns (r: Result<string>)
      ensures deviceIp !in connections ==> r == Err(NotConnected)
      ensures deviceIp in connections && open.Failed? ==> r == Err("Failed to open file: " + open.reason)
      ensures deviceIp in connections && open.Done? && read.Err? ==> r == Err("Failed to read file: " + read.error)
      ensures deviceIp in connections && open.Done? && read.Ok? ==>
        var max := maxBytes.GetOr(DefaultMaxBytes);
        var bytes := read.value[..Min(|read.value|, max)];
        && |bytes| <= max
        && (decode(bytes).Some? ==> r == Ok(decode(bytes).value))
        && (decode(bytes).None? ==> r == Err(NotUtf8))
    {
      if deviceIp !in connections {
        return Err(NotConnected);
      }
      if open.Failed? {
        return Err("Failed to open file: " + open.reason);
      }
      var max := maxBytes.GetOr(DefaultMaxBytes);
      if read.Err? {
        return Err("Failed to read file: " + read.error);
      }
      var bytes := read.value[..Min(|read.value|, max)];
      var text := decode(bytes);
      if text.None? {
        return Err(NotUtf8);
      }
      r := Ok(text.value);
    }

    /** `sftp_delete`: look the host up, then delete. */
    method Delete(deviceIp: string, path: string, target: Result<Node>, recursive: bool, refused: map<Request, string>)
      returns (out: Outcome)
      ensures deviceIp !in connections ==> out == Outcome([], Err(NotConnected))
      ensures deviceIp in connections ==> DeleteSpec(path, target, recursive, refused, out)
    {
      if deviceIp !in connections {
        return Outcome([], Err(NotConnected));
      }
      out := Deletion.Delete(path, target, recursive, refused);
    }

    /**
     * `sftp_download`: register the transfer, run `download_file`, remove
     * the registration on every outcome, then send exactly one terminal
     * event: Complete, or Error carrying the returned message.
     * `registered` is the transfer map while the copy runs.
     */
    method Download(deviceIp: string, remotePath: string, localPath: string, transferId: string,
                    env: DownloadEnv, cancelAt: Option<nat>)
      returns (events: seq<TransferEvent>, r: Result<()>, removedPartial: bool, ghost registered: map<string, TransferJob>)
      modifies this`transfers
      ensures registered == old(transfers)[transferId := TransferJob(Direction.Download, false)]
      ensures transfers == old(transfers) - {transferId}
      ensures events != [] && events[|events| - 1] == Terminal(TransferName(remotePath), r)
      ensures DownloadSpec(deviceIp in connections, env, cancelAt, TransferName(remotePath),
                           events[..|events| - 1], r, removedPartial)
      ensures forall i :: 0 <= i < |events| - 1 ==> events[i].Progress?
    {
      transfers := transfers[transferId := TransferJob(Direction.Download, false)];
      registered := transfers;
      var name := TransferName(remotePath);
      var progress;
      progress, r, removedPartial := DownloadFile(deviceIp in connections, env, cancelAt, name);
      DownloadSendsProgressOnly(deviceIp in connections, env, cancelAt, name, progress, r, removedPartial);
      transfers := transfers - {transferId};
      events := progress + [Terminal(name, r)];
      assert events[..|events| - 1] == progress;
    }

    /** `sftp_upload`: as `sftp_download`, with `upload_file`. */
    method Upload(deviceIp: string, localPath: string, remotePath: string, transferId: string,
                  env: UploadEnv, cancelAt: Option<nat>)
      returns (events: seq<TransferEvent>, r: Result<()>, removedPartial: bool, ghost registered: map<string, TransferJob>)
      modifies this`transfers
      ensures registered == old(transfers)[transferId := TransferJob(Direction.Upload, false)]
      ensures transfers == old(transfers) - {transferId}
      ensures events != [] && events[|events| - 1] == Terminal(TransferName(localPath), r)
      ensures UploadSpec(deviceIp in connections, env, cancelAt, TransferName(localPath),
                         events[..|events| - 1], r, removedPartial)
      ensures forall i :: 0 <= i < |events| - 1 ==> events[i].Progress?
    {
      transfers := transfers[transferId := TransferJob(Direction.Upload, false)];
      registered := transfers;
      var name := TransferName(localPath);
      var progress;
      progress, r, removedPartial := UploadFile(deviceIp in connections, env, cancelAt, name);
      UploadSendsProgressOnly(deviceIp in connections, env, cancelAt, name, progress, r, removedPartial);
      transfers := transfers - {transferId};
      events := progress + [Terminal(name, r)];
      assert events[..|events| - 1] == progress;
    }

    /** `sftp_cancel_transfer`: fire the token of a registered transfer; an unknown id is ignored. */
    method CancelTransfer(transferId: string) returns (r: Result<()>)
      modifies this`transfers
      ensures r == Ok(())
      ensures transferId in old(transfers) ==>
        transfers == old(transfers)[transferId := old(transfers)[transferId].(cancelled := true)]
      ensures transferId !in old(transfers) ==> transfers == old(transfers)
    {
      if transferId in transfers {
        transfers := transfers[transferId := transfers[transferId].(cancelled := true)];
      }
      r := Ok(());
    }
  }
}
