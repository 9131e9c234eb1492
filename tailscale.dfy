/**
 * `get_tailscale_status`: run `tailscale status --json`, and from the
 * parsed status build the device list — this machine first, marked as
 * self, then every peer — sorted self first, then online devices, then by
 * host name. A failure to run the command, a non-zero exit or unparsable
 * output yields a disconnected status with no devices and an error.
 *
 * Running the command and parsing its JSON are an oracle (`CommandRun`).
 * The peers arrive from a hash map in no fixed order; they are a sequence
 * here and every property holds for every order.
 */
module Tailscale {
  import opened Common
  import opened Sorting

  /** A node as the CLI reports it. */
  datatype CliPeer = CliPeer(
    hostName: string, dnsName: string, os: string, tailscaleIps: seq<string>,
    online: bool, relay: string, lastSeen: Option<string>)

  datatype CliStatus = CliStatus(backendState: string, selfNode: CliPeer, peers: seq<CliPeer>)

  datatype TailscaleDevice = TailscaleDevice(
    hostname: string, dnsName: string, os: string, ips: seq<string>,
    online: bool, isSelf: bool, relay: string, lastSeen: Option<string>)

  datatype TailscaleStatus = TailscaleStatus(connected: bool, devices: seq<TailscaleDevice>, error: Option<string>)

  /** Running the CLI: it could not be started, or it exited with its stderr and the parse of its stdout. */
  datatype CommandRun = SpawnFailed(reason: string) | Exited(success: bool, stderr: string, parsed: Result<CliStatus>)

  /** The Unicode White_Space characters, which `char::is_whitespace` accepts. */
  const Whitespace: set<char> := {
    '\U{9}', '\U{A}', '\U{B}', '\U{C}', '\U{D}', ' ', '\U{85}', '\U{A0}', '\U{1680}',
    '\U{2000}', '\U{2001}', '\U{2002}', '\U{2003}', '\U{2004}', '\U{2005}', '\U{2006}',
    '\U{2007}', '\U{2008}', '\U{2009}', '\U{200A}', '\U{2028}', '\U{2029}', '\U{202F}',
    '\U{205F}', '\U{3000}'}

  predicate IsWhitespace(c: char)
    ensures c < '\U{80}' ==> (IsWhitespace(c) <==> c == ' ' || '\U{9}' <= c <= '\U{D}')
  {
    c in Whitespace
  }

  /** `str::trim_start`: drop leading whitespace; what is dropped is all whitespace. */
  function TrimStart(s: string): (r: string)
    ensures |r| <= |s| && r == s[|s| - |r|..]
    ensures r != [] ==> !IsWhitespace(r[0])
    ensures forall i :: 0 <= i < |s| - |r| ==> IsWhitespace(s[i])
  {
    if s != [] && IsWhitespace(s[0]) then TrimStart(s[1..]) else s
  }

  /** `str::trim_end`: drop trailing whitespace; what is dropped is all whitespace. */
  function TrimEnd(s: string): (r: string)
    ensures |r| <= |s| && r == s[..|r|]
    ensures r != [] ==> !IsWhitespace(r[|r| - 1])
    ensures forall i :: |r| <= i < |s| ==> IsWhitespace(s[i])
  {
    if s != [] && IsWhitespace(s[|s| - 1]) then TrimEnd(s[..|s| - 1]) else s
  }

  /** `str::trim`: drop leading and trailing whitespace (both ends, see `TrimIsSlice`). */
  function Trim(s: string): (r: string)
    ensures r == TrimEnd(TrimStart(s))
    ensures |r| <= |s|
    ensures r != [] ==> !IsWhitespace(r[0]) && !IsWhitespace(r[|r| - 1])
  {
    TrimEnd(TrimStart(s))
  }

  /**
   * The trimmed text is the slice of `s` that starts after the leading
   * whitespace: character `i` of it is character `a + i` of `s`, where `a`
   * is the length of the leading whitespace, and everything before and after
   * the slice is whitespace.
   */
  lemma {:induction false} TrimIsSlice(s: string)
    ensures |s| - |TrimStart(s)| + |Trim(s)| <= |s|
    ensures forall i :: 0 <= i < |Trim(s)| ==> Trim(s)[i] == s[|s| - |TrimStart(s)| + i]
    ensures forall i :: 0 <= i < |s| - |TrimStart(s)| ==> IsWhitespace(s[i])
    ensures forall i :: |s| - |TrimStart(s)| + |Trim(s)| <= i < |s| ==> IsWhitespace(s[i])
  {
    var t := TrimStart(s);
    var a := |s| - |t|;
    forall i | a + |Trim(s)| <= i < |s| ensures IsWhitespace(s[i]) {
      assert s[i] == t[i - a];
    }
  }

  /** The device a CLI node becomes. */
  function Device(p: CliPeer, isSelf: bool): (d: TailscaleDevice)
    ensures d.isSelf == isSelf && d.hostname == p.hostName && d.online == p.online && d.ips == p.tailscaleIps
    ensures d.dnsName == p.dnsName && d.os == p.os && d.relay == p.relay && d.lastSeen == p.lastSeen
  {
    TailscaleDevice(p.hostName, p.dnsName, p.os, p.tailscaleIps, p.online, isSelf, p.relay, p.lastSeen)
  }

  /** The devices of the first `k` peers, in order. */
  function PeerDevices(peers: seq<CliPeer>, k: nat): (ds: seq<TailscaleDevice>)
    requires k <= |peers|
    ensures |ds| == k
    ensures forall i :: 0 <= i < k ==> ds[i] == Device(peers[i], false)
  {
    if k == 0 then [] else PeerDevices(peers, k - 1) + [Device(peers[k - 1], false)]
  }

  /**
   * The comparator as "at most": self before others, then online before
   * offline, then host names in text order.
   */
  predicate DeviceLe(a: TailscaleDevice, b: TailscaleDevice): (le: bool)
    ensures a.isSelf && !b.isSelf ==> le
    ensures !a.isSelf && b.isSelf ==> !le
    ensures a.isSelf == b.isSelf && a.online != b.online ==> (le <==> a.online)
    ensures a.isSelf == b.isSelf && a.online == b.online ==> (le <==> LexLe(a.hostname, b.hostname))
  {
    if a.isSelf != b.isSelf then a.isSelf
    else if a.online != b.online then a.online
    else LexLe(a.hostname, b.hostname)
  }

  lemma DeviceLeTotalPreorder()
    ensures TotalPreorder(DeviceLe)
  {
    forall a, b ensures DeviceLe(a, b) || DeviceLe(b, a) {
      LexLeTotal(a.hostname, b.hostname);
    }
    forall a, b, c | DeviceLe(a, b) && DeviceLe(b, c) ensures DeviceLe(a, c) {
      if a.isSelf == b.isSelf == c.isSelf && a.online == b.online == c.online {
        LexLeTransitive(a.hostname, b.hostname, c.hostname);
      }
    }
  }

  /** The failure status: disconnected, no devices, the message. */
  function Failure(message: string): (s: TailscaleStatus)
    ensures !s.connected && s.devices == [] && s.error == Some(message)
  {
    TailscaleStatus(false, [], Some(message))
  }

  /**
   * `get_tailscale_status`. On success: connected exactly when the backend
   * is "Running", no error, and the devices are the node itself and every
   * peer, each once, in the comparator's order.
   */
  method GetTailscaleStatus(run: CommandRun) returns (status: TailscaleStatus)
    ensures run.SpawnFailed? ==> status == Failure("Failed to run `tailscale status --json`: " + run.reason)
    ensures run.Exited? && !run.success ==> status == Failure("tailscale exited with error: " + Trim(run.stderr))
    ensures run.Exited? && run.success && run.parsed.Err? ==>
      status == Failure("Failed to parse tailscale output: " + run.parsed.error)
    ensures run.Exited? && run.success && run.parsed.Ok? ==>
      var st := run.parsed.value;
      && status.connected == (st.backendState == "Running")
      && status.error == None
      && multiset(status.devices) == multiset(Assembled(st))
      && SortedBy(DeviceLe, status.devices)
  {
    match run
    case SpawnFailed(e) =>
      return Failure("Failed to run `tailscale status --json`: " + e);
    case Exited(success, stderr, parsed) =>
      if !success {
        return Failure("tailscale exited with error: " + Trim(stderr));
      }
      if parsed.Err? {
        return Failure("Failed to parse tailscale output: " + parsed.error);
      }
      var st := parsed.value;
      var connected := st.backendState == "Running";
      var devices := [Device(st.selfNode, true)];
      for i := 0 to |st.peers|
        invariant devices == [Device(st.selfNode, true)] + PeerDevices(st.peers, i)
      {
        devices := devices + [Device(st.peers[i], false)];
      }
      DeviceLeTotalPreorder();
      status := TailscaleStatus(connected, SortBy(devices, DeviceLe), None);
  }

  // ----- Lemmas -----

  /** The devices of a parsed status before sorting: the node itself, then its peers. */
  function Assembled(st: CliStatus): seq<TailscaleDevice> {
    [Device(st.selfNode, true)] + PeerDevices(st.peers, |st.peers|)
  }

  /**
   * Any arrangement of the assembled devices has one device per node and
   * holds the node's own device exactly once; it is the only one marked as
   * self.
   */
  lemma SelfDeviceOnce(st: CliStatus, ds: seq<TailscaleDevice>)
    requires multiset(ds) == multiset(Assembled(st))
    ensures |ds| == 1 + |st.peers|
    ensures multiset(ds)[Device(st.selfNode, true)] == 1
    ensures forall i :: 0 <= i < |ds| && ds[i].isSelf ==> ds[i] == Device(st.selfNode, true)
  {
    var me := Device(st.selfNode, true);
    var peers := PeerDevices(st.peers, |st.peers|);
    assert |ds| == |multiset(ds)| == |Assembled(st)|;
    assert me !in multiset(peers);
    assert multiset(Assembled(st)) == multiset{me} + multiset(peers);
    forall i | 0 <= i < |ds| && ds[i].isSelf ensures ds[i] == me {
      assert ds[i] in multiset(ds);
      assert ds[i] !in peers;
    }
  }

  /**
   * The sorted device list of a status: the node itself first and no other
   * device marked as self; after it every online peer before every offline
   * one, and host names in order among peers of the same kind.
   */
  lemma SortedDevices(st: CliStatus, ds: seq<TailscaleDevice>)
    requires multiset(ds) == multiset(Assembled(st))
    requires SortedBy(DeviceLe, ds)
    ensures |ds| == 1 + |st.peers|
    ensures ds[0] == Device(st.selfNode, true)
    ensures forall i :: 0 < i < |ds| ==> !ds[i].isSelf
    ensures forall i, j :: 0 < i < j < |ds| && ds[j].online ==> ds[i].online
    ensures forall i, j :: 0 < i < j < |ds| && ds[i].online == ds[j].online ==> LexLe(ds[i].hostname, ds[j].hostname)
  {
    var me := Device(st.selfNode, true);
    SelfDeviceOnce(st, ds);
    assert me in multiset(ds);
    var k :| 0 <= k < |ds| && ds[k] == me;
    if k != 0 {
      assert DeviceLe(ds[0], ds[k]);
    }
    forall i | 0 < i < |ds| ensures !ds[i].isSelf {
      if ds[i].isSelf {
        MultisetTwo(ds, i, 0);
      }
    }
  }

  /** Two positions holding the same value count it twice. */
  lemma MultisetTwo<T>(s: seq<T>, i: nat, k: nat)
    requires i < |s| && k < |s| && i != k && s[i] == s[k]
    ensures multiset(s)[s[i]] >= 2
  {
    var lo := if i < k then i else k;
    var hi := if i < k then k else i;
    assert s == s[..lo] + [s[lo]] + s[lo + 1..hi] + [s[hi]] + s[hi + 1..];
  }
}
