# Home-lab control centre: SFTP engine, node TUI and Tailscale status

This Dafny project models three parts of the home-lab tools:

- **The SFTP engine of the control centre.** This covers:
  - the path rules: the parent of a path, the normalisation of the empty path and of `~`, dropping `.` and `..`, and joining a child path;
  - the listing order: directories first, then names compared case-insensitively;
  - the two registries in `SftpState`: live connections keyed by device address, and running transfers keyed by transfer id;
  - the chunked copy loops of downloads and uploads;
  - deleting a path, including the recursive walk of a remote directory.
- **The node TUI's `App` state machine.** It covers applying stream events, including the CPU history bounded at 120 samples, and key dispatch by panel.
- **The Tailscale status command.** It assembles the device list from the CLI's parsed status: the `connected` flag, the node's own device and every peer, and the three-key device order.

Anything outside the program is passed in as a parameter:
- the SSH handshake (`Handshake`);
- the remote server's replies, such as directory contents, the entries it refuses to remove, and read replies;
- the local disk;
- the value of `$USER` and `$HOME`;
- the point at which a transfer is cancelled;
- the UTF-8 decoder;
- the result of running the `tailscale` CLI (`CommandRun`).

Modules:

| file | module | models |
|---|---|---|
| common.dfy | Common | `Option`, `Result`, bytes, the "Not connected" message |
| paths.dfy | Paths | `get_parent_path`, entry paths, `Path::file_name`, path normalisation, as functions over '/'-separated segments |
| sorting.dfy | Sorting | `sort_by` as a sort into a total preorder; byte-wise string order; ASCII lower-casing |
| listing.dfy | Listing | the listing loops of `sftp_list_dir` and `local_list_dir` and their order |
| transfer.dfy | Transfer | the copy loops of `download_file` and `upload_file` |
| deletion.dfy | Deletion | `sftp_delete` and `delete_recursive` over a directory tree |
| sftp.dfy | Sftp | `SftpState` as a class with its two maps, and the commands |
| tui.dfy | Tui | `App` as a class, `AppEvent`, key handling |
| tailscale.dfy | Tailscale | `get_tailscale_status` |

**Paths.** A path is read as the sequence of its non-empty '/'-separated segments (`Segments`). The contracts say what each function does to that sequence:
- the parent drops the last segment;
- a child path appends the name;
- the parent of a child path is the directory, up to trailing slashes.

**Deletion.** The recursive delete is modelled as the sequence of requests it sends to the server: read a directory, remove a file, remove a directory. The server refuses the requests in a map given as a parameter. `Attempt` runs the requests until the first one that is refused.

**Transfers.** A transfer's copy loop is driven by three inputs:
- the replies of successive reads;
- the iterations whose write fails;
- the iteration at which the cancellation branch of `select!` wins.

## Model

Every source path in this table is relative to the repository root.

| member | source | states |
|---|---|---|
| Paths.TrimEndSlashes | app/control-center/src-tauri/src/sftp.rs:166 | the result is a prefix of the input that does not end in '/'; it is empty exactly when the input is all slashes |
| Paths.GetParentPath | app/control-center/src-tauri/src/sftp.rs:165-174 | None exactly when the path has no segments (empty or only slashes); "/" when one segment is left; otherwise a prefix of the path, not ending in '/', whose segments are the path's segments minus the last |
| Paths.ParentChainEndsAtRoot | app/control-center/src-tauri/src/sftp.rs:165-174 | taking the parent removes exactly one segment, and the parent of the parent is None exactly when the path had one segment, so repeated parents reach the root |
| Paths.EntryPath | app/control-center/src-tauri/src/sftp.rs:372-376 | the special case for listing "/" gives the same path as trimming the directory's trailing slashes and appending "/" and the name |
| Paths.EntryPathSegments | app/control-center/src-tauri/src/sftp.rs:372-376 | an entry path's segments are the directory's segments followed by the name, so no doubled '/' appears between them, and its file name is the entry's name |
| Paths.EntryPathParent | app/control-center/src-tauri/src/sftp.rs:372-376 | the parent of an entry path has the same segments as the directory that was listed |
| Paths.LocalJoinSegments | app/control-center/src-tauri/src/sftp.rs:922 | the local entry path (`PathBuf::join`) has the directory's segments followed by the name |
| Paths.FileName | app/control-center/src-tauri/src/sftp.rs:576-579 | `Path::file_name` is the last segment other than "." (trailing "." components are dropped), never empty and without '/'; it is absent when every segment is "." (including the root) and when that last segment is ".." |
| Paths.LastNonDot | app/control-center/src-tauri/src/sftp.rs:576-579 | the position of the last segment other than ".", every segment after it being "."; none exactly when every segment is "." |
| Paths.FileNameIgnoresDot | app/control-center/src-tauri/src/sftp.rs:576-579 | appending a "." component does not change the file name |
| Paths.FileNameParentDir | app/control-center/src-tauri/src/sftp.rs:576-579 | a path whose last component is ".." has no file name |
| Paths.FileNameOfName | app/control-center/src-tauri/src/sftp.rs:576-579 | a plain name (non-empty, no '/', not "." or "..") is its own file name |
| Paths.FileNameExamples | app/control-center/src-tauri/src/sftp.rs:576-579 | "a/." has the file name "a", and "a/.." has none |
| Paths.TransferName | app/control-center/src-tauri/src/sftp.rs:576-579 | a transfer's name is the source path's file name, or the whole path when there is none |
| Paths.JoinPath | app/control-center/src-tauri/src/sftp.rs:514 | a child path is the directory without its trailing slashes, exactly one '/', then the name: the text before the '/' is the trimmed directory, the text after it is the name, and the character before the '/' is not '/' |
| Paths.LocalJoin | app/control-center/src-tauri/src/sftp.rs:922 | `PathBuf::join` of a name: the name alone for an empty directory, the directory then the name when the directory already ends in '/', otherwise the directory, one '/', then the name |
| Paths.IsDotName | app/control-center/src-tauri/src/sftp.rs:367 | the entries skipped in a listing (and at sftp.rs:510 in a recursive delete) are exactly the names made of one or two dots |
| Paths.NormalizeRemote | app/control-center/src-tauri/src/sftp.rs:350-354 | the empty path becomes the root "/", whose parent is None; every other path is kept |
| Paths.ExpandHome | app/control-center/src-tauri/src/sftp.rs:901-908 | "" and "~" become HOME ("/" when unset), "~/rest" becomes HOME followed by "/rest", and any other path is kept |
| Paths.ExpandHomeSegments | app/control-center/src-tauri/src/sftp.rs:903-905 | the segments of an expanded "~/rest" are HOME's segments followed by those of rest |
| Sorting.SortBy | app/control-center/src-tauri/src/sftp.rs:398-402 | for a total preorder, the sorted sequence is ordered and is a permutation (same multiset) of the input |
| Sorting.Insert | app/control-center/src-tauri/src/sftp.rs:398-402 | inserting into an ordered sequence keeps it ordered and adds exactly the one element |
| Sorting.LexLe | app/control-center/src-tauri/src/sftp.rs:401 | string `cmp` as "at most": a prefix sorts no later than the string it starts, and a non-empty string sorts no later than another only if that one is non-empty with a first character no smaller |
| Sorting.LexLeTotal | app/control-center/src-tauri/src/sftp.rs:401 | string `cmp` orders any two strings |
| Sorting.LexLeTransitive | app/control-center/src-tauri/src/sftp.rs:401 | string `cmp` is transitive |
| Sorting.LexLeAntisymmetric | app/control-center/src-tauri/src/sftp.rs:401 | two strings each at most the other are equal |
| Sorting.Lower | app/control-center/src-tauri/src/sftp.rs:401 | lower-casing keeps the length and maps each character by itself: upper-case ASCII to lower case, all else unchanged |
| Sorting.LowerIdempotent | app/control-center/src-tauri/src/sftp.rs:401 | lower-casing twice is lower-casing once |
| Listing.EntryLeTotalPreorder | app/control-center/src-tauri/src/sftp.rs:398-402 | the listing comparator is a total preorder, so the sort's promises apply |
| Listing.EntryLe | app/control-center/src-tauri/src/sftp.rs:398-402 | a directory is at most a non-directory and never the reverse; within one kind the order is that of the lower-cased names |
| Listing.SortEntries | app/control-center/src-tauri/src/sftp.rs:940-944 | the sorted listing is a permutation of the collected rows; every directory comes before every non-directory; within each kind, lower-cased names are in order |
| Listing.RemoteRow | app/control-center/src-tauri/src/sftp.rs:386-394 | a remote row keeps the entry's name, kind and symlink flag; its path is the entry path; a missing size or permissions becomes 0 |
| Listing.Kept | app/control-center/src-tauri/src/sftp.rs:364-395 | the collected rows are at most as many as the reply entries, and none is named "." or ".." |
| Listing.KeptMembers | app/control-center/src-tauri/src/sftp.rs:364-395 | a row is collected exactly when it is the row of some reply entry whose name is not "." or ".." |
| Listing.KeptRows | app/control-center/src-tauri/src/sftp.rs:368-376 | no collected row is named "." or "..", each row's path is the directory joined with its name, and there are at most as many rows as reply entries |
| Listing.CollectRemote | app/control-center/src-tauri/src/sftp.rs:364-395 | the collecting loop produces exactly the kept rows, in reply order |
| Listing.RemoteListing | app/control-center/src-tauri/src/sftp.rs:350-408 | the listing is Ok exactly when the directory was read; a read failure gives "Failed to read directory: " and the reason; a listing carries the normalised path and its parent, with at most one row per entry |
| Listing.ListRemote | app/control-center/src-tauri/src/sftp.rs:350-408 | the listing method returns the listing function's result: a read failure as "Failed to read directory: " plus the reason, else the sorted rows |
| Listing.RemoteListingFacts | app/control-center/src-tauri/src/sftp.rs:350-408 | a successful remote listing has the normalised path and its parent; its rows are the kept rows as a multiset; none is "." or ".."; each path is the joined entry path; directories come first |
| Listing.LocalRow | app/control-center/src-tauri/src/sftp.rs:916-936 | an unreadable entry gives "Failed to read entry: ", a metadata failure "Failed to get metadata: "; an entry with metadata always gives a row, with the name, the joined path, the metadata's kind, length, modification time and symlink flag, and permissions 0o755 |
| Listing.LocalRows | app/control-center/src-tauri/src/sftp.rs:915-937 | a successful collection has exactly one row per entry |
| Listing.LocalRowsOk | app/control-center/src-tauri/src/sftp.rs:915-937 | when all rows are collected, every entry produced a row |
| Listing.LocalRowsValues | app/control-center/src-tauri/src/sftp.rs:915-937 | when every entry produces a row, the rows are collected one per entry, in order |
| Listing.LocalRowsFirstError | app/control-center/src-tauri/src/sftp.rs:915-919 | a failed collection reports the error of the first entry that fails, and all entries before it succeed |
| Listing.LocalErrorStays | app/control-center/src-tauri/src/sftp.rs:915-919 | after the first failing entry, the collection's result no longer depends on the remaining entries (the `?` returns early) |
| Listing.CollectLocal | app/control-center/src-tauri/src/sftp.rs:915-937 | the collecting loop returns the same result as the collection function, stopping at the first error |
| Listing.ListLocal | app/control-center/src-tauri/src/sftp.rs:900-951 | the local listing method returns the listing function's result, with the home-expanded path |
| Listing.LocalListing | app/control-center/src-tauri/src/sftp.rs:900-951 | a read failure gives "Failed to read directory: " and the reason; otherwise the listing is Ok exactly when every row is collected, and then carries the expanded path, its parent and one row per entry |
| Listing.LocalListingFacts | app/control-center/src-tauri/src/sftp.rs:900-951 | a successful local listing has the expanded path and its parent; its rows are, as a multiset, exactly the collected rows, one per entry, each with the joined path, and directories come first |
| Transfer.CopyLoop | app/control-center/src-tauri/src/sftp.rs:648-676 | the loop stops at the first iteration that does not continue; each continuing iteration sends one Progress with the running sum of the chunks read so far and the fixed total; it ends Ok at a zero-length read, "Transfer cancelled" on cancellation (and only then removes the partial destination), or the read or write error |
| Transfer.StopsAt | app/control-center/src-tauri/src/sftp.rs:648-676 | the loop's stopping iteration is the first non-continuing one, so the loop's result is the specified one |
| Transfer.DownloadFile | app/control-center/src-tauri/src/sftp.rs:612-684 | the connection lookup, stat, remote open and local create each fail with their own message and send nothing; otherwise the copy runs with the remote size (0 when absent) as total, and a flush failure on an otherwise successful copy is reported |
| Transfer.UploadFile | app/control-center/src-tauri/src/sftp.rs:744-814 | the local stat, local open, connection lookup and remote create each fail with their own message, in this order, and send nothing; otherwise the copy runs with the local length as total, then the flush |
| Transfer.ProgressAt | app/control-center/src-tauri/src/sftp.rs:667-673 | Progress event i carries the bytes of the first i+1 chunks, the total and the file name |
| Transfer.ProgressCumulative | app/control-center/src-tauri/src/sftp.rs:667-673 | there is one Progress event per copied chunk, each carrying the cumulative count |
| Transfer.CopiedGrows | app/control-center/src-tauri/src/sftp.rs:659-667 | a copied chunk is never empty, so the reported count strictly increases from one Progress event to the next |
| Transfer.CopyResultCases | app/control-center/src-tauri/src/sftp.rs:648-676 | the copy ends in "Transfer cancelled" exactly when the cancellation branch wins, and ends Ok exactly at a zero-length read |
| Transfer.CopyProgressTotal | app/control-center/src-tauri/src/sftp.rs:659-673 | after a finished copy, the last Progress event carries every byte read before end of file |
| Transfer.DownloadSendsProgressOnly | app/control-center/src-tauri/src/sftp.rs:612-684 | `download_file` itself sends only Progress events, all for the transferred file |
| Transfer.UploadSendsProgressOnly | app/control-center/src-tauri/src/sftp.rs:744-814 | `upload_file` itself sends only Progress events, all for the transferred file |
| Deletion.DeleteRecursive | app/control-center/src-tauri/src/sftp.rs:501-531 | the requests issued and the result are those of running the directory's walk and stopping at the first refusal |
| Deletion.DeleteChildren | app/control-center/src-tauri/src/sftp.rs:502-524 | reading the directory, then handling its children in order, issues the walk's opening part and stops at the first refusal |
| Deletion.DeleteChild | app/control-center/src-tauri/src/sftp.rs:508-523 | "." and ".." are skipped, a file child is removed by its joined path, and a directory child is deleted recursively |
| Deletion.Delete | app/control-center/src-tauri/src/sftp.rs:473-498 | a stat failure issues nothing; a file is removed with remove-file; a directory is walked when recursive, otherwise removed with remove-directory; each failure carries its own message |
| Deletion.AttemptAppend | app/control-center/src-tauri/src/sftp.rs:507-528 | running two request lists in turn runs the second only when the first is fully accepted |
| Deletion.OpeningFails | app/control-center/src-tauri/src/sftp.rs:507-524 | once a child fails, the remaining children change nothing |
| Deletion.AttemptPrefix | app/control-center/src-tauri/src/sftp.rs:501-531 | the issued requests are a prefix of the planned ones |
| Deletion.AttemptOk | app/control-center/src-tauri/src/sftp.rs:501-531 | the walk succeeds exactly when no request is refused, and then every request was issued |
| Deletion.AttemptErr | app/control-center/src-tauri/src/sftp.rs:501-531 | on failure, the last issued request is the refused one and carries its message, no earlier request was refused, and nothing after it is sent |
| Deletion.WalkEnds | app/control-center/src-tauri/src/sftp.rs:502-528 | a walk starts by reading the directory and ends by removing it |
| Deletion.WalkInside | app/control-center/src-tauri/src/sftp.rs:514-518 | every request of a walk is at or below the directory, and all but the first and the last are strictly below it |
| Deletion.ChildrenRemovedFirst | app/control-center/src-tauri/src/sftp.rs:507-528 | every child other than "." and ".." is removed (a file) or removed at the end of its own walk (a directory) before the directory itself is removed |
| Deletion.DescendantsRemovedFirst | app/control-center/src-tauri/src/sftp.rs:506-528 | every descendant of a directory, at any depth and reached through names other than "." and "..", has its removal request issued before the directory's own removal |
| Deletion.ChildWalkRemoves | app/control-center/src-tauri/src/sftp.rs:506-523 | handling a child issues the removal of the child and of every descendant below it |
| Deletion.Message | app/control-center/src-tauri/src/sftp.rs:503-528 | every failure message of the walk ends with the server's reason, and a refused file removal names the file |
| Sftp.Establish | app/control-center/src-tauri/src/sftp.rs:176-226 | the handshake succeeds exactly when the connect, the agent or key-file authentication, the channel, the subsystem and the session all succeed; a timeout and a failed authentication each give their message |
| Sftp.LoginUser | app/control-center/src-tauri/src/sftp.rs:316-317 | the user is the one given, else `$USER`, else "root" |
| Sftp.Terminal | app/control-center/src-tauri/src/sftp.rs:595-609 | the terminal event is Complete exactly on Ok, and Error with the same message on Err, for the same file |
| Sftp.SftpState.constructor | app/control-center/src-tauri/src/sftp.rs:145-152 | both maps start empty |
| Sftp.SftpState.Connect | app/control-center/src-tauri/src/sftp.rs:302-331 | on a host already connected it returns Ok and changes nothing; otherwise it returns the handshake's result and stores the connection, keyed by its address, only on success; after Ok the host is connected under its own address |
| Sftp.SftpState.Disconnect | app/control-center/src-tauri/src/sftp.rs:333-337 | returns Ok and removes the host, whether or not it was present |
| Sftp.SftpState.ListDir | app/control-center/src-tauri/src/sftp.rs:339-409 | an absent host gives "Not connected to this device"; otherwise the result is the remote listing |
| Sftp.SftpState.Mkdir | app/control-center/src-tauri/src/sftp.rs:411-429 | an absent host gives "Not connected to this device"; a refused create gives "Failed to create directory: " and the reason |
| Sftp.SftpState.Rename | app/control-center/src-tauri/src/sftp.rs:533-552 | an absent host gives "Not connected to this device"; a refused rename gives "Failed to rename: " and the reason |
| Sftp.SftpState.ReadFile | app/control-center/src-tauri/src/sftp.rs:431-459 | an absent host, a failed open and a failed read each give their message; otherwise at most `max_bytes` bytes (1 MiB by default) are kept and decoded, and non-UTF-8 content gives the binary-file message |
| Sftp.SftpState.Delete | app/control-center/src-tauri/src/sftp.rs:461-499 | an absent host gives "Not connected to this device" and issues nothing; otherwise the delete's specification holds |
| Sftp.SftpState.Download | app/control-center/src-tauri/src/sftp.rs:554-610 | the transfer is registered while the copy runs and is absent afterwards on every path; the events are the copy's Progress events followed by exactly one terminal event for the result |
| Sftp.SftpState.Upload | app/control-center/src-tauri/src/sftp.rs:686-742 | as for the download, with the upload's copy and the local file's name |
| Sftp.SftpState.CancelTransfer | app/control-center/src-tauri/src/sftp.rs:816-826 | returns Ok; a registered transfer's token is fired; an unknown id changes nothing |
| Tui.Window | app/node-tui/src/app.rs:54-57 | the history is the last min(n, 120) samples, so it never holds more than 120 |
| Tui.AsUnsigned | app/node-tui/src/app.rs:57 | the `as u64` of a reading: a non-negative reading is kept and a negative one becomes 0 |
| Tui.WindowPush | app/node-tui/src/app.rs:54-57 | pushing a sample drops the oldest entry exactly when the history is full, then appends the sample |
| Tui.Toggle | app/node-tui/src/app.rs:74-77 | Tab always moves to the other panel |
| Tui.TabTwice | app/node-tui/src/app.rs:73-78 | two Tabs restore the original panel |
| Tui.PopLast | app/node-tui/src/app.rs:95 | Backspace removes the last character, and does nothing on an empty input |
| Tui.TypeThenBackspace | app/node-tui/src/app.rs:94-101 | typing a character then Backspace restores the input |
| Tui.App.constructor | app/node-tui/src/app.rs:31-42 | the app starts on the CPU panel, disconnected, with no error, zero readings, an empty history, input "world" and no response |
| Tui.App.ApplyEvent | app/node-tui/src/app.rs:44-67 | a CPU update connects, clears the error, stores the reading and pushes it (negative readings as 0) onto the bounded history; a greeter reply sets only the response; a disconnect sets only the flag and the error; the panel and input never change |
| Tui.App.PushSample | app/node-tui/src/app.rs:54-57 | appends the sample after dropping the oldest when 120 are held, keeping the history the window of all samples |
| Tui.App.HandleKey | app/node-tui/src/app.rs:69-105 | Esc quits and Tab toggles on either panel; on the CPU panel 'c' reconnects, 'q' quits and other keys do nothing; on the greeter panel Enter sends the input unchanged, Backspace pops, and any character (including 'c' and 'q') is appended |
| Tailscale.IsWhitespace | app/control-center/src-tauri/src/tailscale.rs:74 | `char::is_whitespace`, the Unicode White_Space set; among ASCII characters it accepts exactly the space and tab, line feed, vertical tab, form feed and carriage return |
| Tailscale.TrimStart | app/control-center/src-tauri/src/tailscale.rs:74 | the result is a suffix starting with non-whitespace, and only whitespace was dropped |
| Tailscale.TrimEnd | app/control-center/src-tauri/src/tailscale.rs:74 | the result is a prefix ending with non-whitespace, and only whitespace was dropped |
| Tailscale.Trim | app/control-center/src-tauri/src/tailscale.rs:74 | the trimmed text is the text with its leading, then its trailing whitespace removed; it neither starts nor ends with whitespace |
| Tailscale.TrimIsSlice | app/control-center/src-tauri/src/tailscale.rs:74 | the trimmed text is the contiguous part of the input that follows the leading whitespace, and everything before and after it is whitespace |
| Tailscale.Device | app/control-center/src-tauri/src/tailscale.rs:93-114 | a node's device copies its host name, DNS name, OS, addresses, online flag, relay and last-seen time, and is marked self as given |
| Tailscale.PeerDevices | app/control-center/src-tauri/src/tailscale.rs:104-115 | one device per peer, in the given order, none marked self |
| Tailscale.DeviceLeTotalPreorder | app/control-center/src-tauri/src/tailscale.rs:117-122 | the device comparator (self first, then online, then host name) is a total preorder |
| Tailscale.DeviceLe | app/control-center/src-tauri/src/tailscale.rs:117-122 | the node itself is before every other device and never after; among devices alike in that, online is before offline; then host names in order |
| Tailscale.Failure | app/control-center/src-tauri/src/tailscale.rs:58-87 | a failure status is disconnected, with no devices and the message as its error |
| Tailscale.GetTailscaleStatus | app/control-center/src-tauri/src/tailscale.rs:57-129 | a spawn failure, a non-zero exit (with trimmed stderr) and a parse failure each give their failure status; on success it is connected exactly when the backend is "Running", has no error, and its devices are the node itself and every peer as a multiset, sorted by the comparator |
| Tailscale.SelfDeviceOnce | app/control-center/src-tauri/src/tailscale.rs:91-115 | the device list has 1 + the number of peers entries, holds the node's own device exactly once, and that is the only device marked self |
| Tailscale.SortedDevices | app/control-center/src-tauri/src/tailscale.rs:117-122 | the sorted list starts with the node's own device and has no other self device; after it, online devices precede offline ones, and host names ascend among devices of equal online state |

## Left out

- SSH transport and authentication (`try_ssh_agent_auth`, `try_key_file_auth`, `SshHandler`, the client configuration) are network handshakes. Their outcomes are the `Handshake` parameter of `Establish`; the 30-second timeout is its `TimedOut` case.
- Concurrency is not modelled. This covers the `RwLock`s, `tokio::select!` and `CancellationToken`. Cancellation is the iteration at which the cancel branch wins (`cancelAt`), and it is not tied to the `cancelled` flag that `CancelTransfer` sets. The commands run one at a time, so the race between `sftp_connect`'s check and its insert is not modelled.
- Sftp.SftpState.Download: the progress channel's send result is ignored in the source, as here; the channel itself is the returned event sequence.
- Byte I/O (`read`, `write_all`, `flush`, `File::create`, `remove_file` of the partial file) is represented by the read replies, the write failures and the setup and flush outcomes. The 64 KiB buffer size only bounds chunk lengths and is not modelled.
- Sftp.SftpState.ReadFile: the single `read` may return fewer bytes than are available. The bytes it delivers are the `read` parameter, and UTF-8 decoding is the `decode` parameter.
- The remote server's behaviour is given as parameters: directory contents, stat results and which requests it refuses. That a non-empty directory cannot be removed is the server's rule and is not checked here.
- Transfer.CopyLoop: the byte counter is `u64` in the source and is unbounded here, so wrap-around after 2^64 bytes is not modelled.
- `to_string_lossy` and `from_utf8_lossy` conversions of names and stderr are identities here, because names and text are already Dafny strings.
- Sorting.Lower: `to_lowercase` is Unicode lower-casing; the model lowers ASCII letters only.
- Sorting.SortBy: `sort_by` is stable. Stability is not stated; the sort is specified as ordered and a permutation.
- Paths.GetParentPath: `Path::parent` also normalises "." components; the parent treats every '/'-separated segment alike. (The file name does drop trailing "." components.)
- Listing.RemoteRow: the `mtime` is an `Option<u32>` widened to `u64`; here it is a natural number.
- Listing.LocalRow: the local modification time's conversion from `SystemTime` is taken as given metadata.
- The local `read_dir` never yields "." or ".."; the local listing does not filter them.
- Tui.App.ApplyEvent: `cpu_usage` is an `f32` and the history stores `total_usage as u64`. Here a reading is an integer, and negative readings become 0. Fractions, NaN and saturation above `u64::MAX` are not modelled.
- The Tailscale peers come from a `HashMap` in arbitrary order; they are a sequence here, and every property holds for every order. Running `tailscale status --json` and parsing its JSON are the `CommandRun` parameter.
- `tailscale_up` and `tailscale_down` only run the CLI and are not modelled.
- Bookmark persistence and the other `local_*` commands are file I/O and are not modelled.
- The PTY sessions in `lib.rs` are processes and threads and are not modelled.
- The ratatui rendering in `ui.rs` is not modelled.
- The gRPC client and server and the TUI's event loop are network and terminal code and are not modelled.
