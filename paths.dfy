/**
 * Path text rules of the file browser: trailing-slash trimming, the
 * segment view of a '/'-separated path, the parent of a listed directory,
 * joining an entry name onto its directory, the final segment used as a
 * transfer's file name, and the two path normalisations (remote: empty
 * means root; local: '~' expands to the home directory).
 *
 * Paths are plain text split at '/'. A path's segments are its non-empty
 * '/'-separated parts; several slashes in a row separate like one.
 */
module Paths {
  import opened Common

  /** Every character is '/' (true of the empty text). */
  predicate AllSlashes(s: string) {
    s == [] || (s[|s| - 1] == '/' && AllSlashes(s[..|s| - 1]))
  }

  /** No character is '/'. */
  predicate NoSlash(s: string) {
    s == [] || (s[|s| - 1] != '/' && NoSlash(s[..|s| - 1]))
  }

  /** `s.trim_end_matches('/')`: the longest prefix of `s` not ending in '/'. */
  function TrimEndSlashes(s: string): (r: string)
    ensures r <= s
    ensures r == [] || r[|r| - 1] != '/'
    ensures r == [] <==> AllSlashes(s)
  {
    if s != [] && s[|s| - 1] == '/' then TrimEndSlashes(s[..|s| - 1]) else s
  }

  /** Index of the last '/' in `s`, if any. */
  function LastSlash(s: string): (r: Option<nat>)
    ensures r.None? <==> NoSlash(s)
    ensures r.Some? ==> r.value < |s| && s[r.value] == '/'
  {
    if s == [] then None
    else if s[|s| - 1] == '/' then Some(|s| - 1)
    else LastSlash(s[..|s| - 1])
  }

  /** The non-empty '/'-separated parts of a path, in order. */
  function Segments(s: string): (segs: seq<string>)
    ensures segs == [] <==> AllSlashes(s)
    decreases |s|
  {
    var t := TrimEndSlashes(s);
    if t == [] then []
    else match LastSlash(t)
      case None => [t]
      case Some(k) => Segments(t[..k]) + [t[k + 1..]]
  }

  /**
   * `get_parent_path`: none for the root (a path of slashes only, or the
   * empty path); "/" when one segment is left, whether the path was
   * absolute or relative; otherwise the path cut just before its last
   * segment, with the separating slashes removed.
   */
  function GetParentPath(path: string): (r: Option<string>)
    ensures r.None? <==> Segments(path) == []
    ensures r.Some? && |Segments(path)| == 1 ==> r.value == "/"
    ensures r.Some? && |Segments(path)| > 1 ==>
      && r.value <= path
      && r.value != [] && r.value[|r.value| - 1] != '/'
      && Segments(r.value) == Segments(path)[..|Segments(path)| - 1]
  {
    var t := TrimEndSlashes(path);
    if t == [] then None
    else match LastSlash(t)
      case None => Some("/")
      case Some(k) =>
        var q := TrimEndSlashes(t[..k]);
        ParentSegments(path, k);
        if q == [] then Some("/") else Some(q)
  }

  /** The path `delete_recursive` gives a child: trimmed directory, one '/', the name. */
  function JoinPath(dir: string, name: string): (r: string)
    ensures |r| == |TrimEndSlashes(dir)| + 1 + |name|
    ensures r[|TrimEndSlashes(dir)|] == '/' && (TrimEndSlashes(dir) == [] || r[|TrimEndSlashes(dir)| - 1] != '/')
    ensures r[..|TrimEndSlashes(dir)|] == TrimEndSlashes(dir) && r[|TrimEndSlashes(dir)| + 1..] == name
  {
    TrimEndSlashes(dir) + "/" + name
  }

  /**
   * The path a remote listing gives an entry. The listing special-cases the
   * root directory "/"; the result is the same as the general join.
   */
  function EntryPath(dir: string, name: string): (r: string)
    ensures r == JoinPath(dir, name)
  {
    if dir == "/" then "/" + name else TrimEndSlashes(dir) + "/" + name
  }

  /** `PathBuf::join` of a plain name: adds a '/' unless `dir` is empty or already ends in one. */
  function LocalJoin(dir: string, name: string): (r: string)
    ensures dir == [] ==> r == name
    ensures dir != [] && dir[|dir| - 1] == '/' ==> |r| == |dir| + |name| && r[..|dir|] == dir && r[|dir|..] == name
    ensures dir != [] && dir[|dir| - 1] != '/' ==>
      |r| == |dir| + 1 + |name| && r[..|dir|] == dir && r[|dir|] == '/' && r[|dir| + 1..] == name
  {
    if dir == [] || dir[|dir| - 1] == '/' then dir + name else dir + "/" + name
  }

  /** The two entries a directory read returns that name no child: "." and "..". */
  predicate IsDotName(name: string)
    ensures IsDotName(name) <==> 1 <= |name| <= 2 && forall i :: 0 <= i < |name| ==> name[i] == '.'
  {
    name == "." || name == ".."
  }

  /**
   * Index of the last segment other than ".", if any. `Path::components`
   * drops every "." after the first component, and a leading "." is never a
   * file name, so the file name is read at this segment.
   */
  function LastNonDot(segs: seq<string>): (k: Option<nat>)
    ensures k.None? ==> forall j :: 0 <= j < |segs| ==> segs[j] == "."
    ensures k.Some? ==> k.value < |segs| && segs[k.value] != "."
    ensures k.Some? ==> forall j :: k.value < j < |segs| ==> segs[j] == "."
  {
    if segs == [] then None
    else if segs[|segs| - 1] == "." then LastNonDot(segs[..|segs| - 1])
    else Some(|segs| - 1)
  }

  /**
   * `Path::file_name`: the last segment once "." segments are dropped; absent
   * for the root, for a path of "." segments only, and when that segment is
   * "..".
   */
  function FileName(path: string): (r: Option<string>)
    ensures r.Some? ==> r.value != [] && NoSlash(r.value) && r.value != "." && r.value != ".."
    ensures r.Some? ==> exists k :: 0 <= k < |Segments(path)| && Segments(path)[k] == r.value &&
                          forall j :: k < j < |Segments(path)| ==> Segments(path)[j] == "."
    ensures r.None? ==> forall k :: 0 <= k < |Segments(path)| && Segments(path)[k] != "." ==>
                          Segments(path)[k] == ".." || exists j :: k < j < |Segments(path)| && Segments(path)[j] != "."
  {
    SegmentsWellFormed(path);
    LastName(Segments(path))
  }

  /** The file name read from a segment list. */
  function LastName(segs: seq<string>): Option<string> {
    match LastNonDot(segs)
    case None => None
    case Some(k) => if segs[k] == ".." then None else Some(segs[k])
  }

  /** Name shown in a transfer's events: the source path's file name, else the whole path. */
  function TransferName(sourcePath: string): (r: string)
    ensures FileName(sourcePath).Some? ==> r == FileName(sourcePath).value
    ensures FileName(sourcePath).None? ==> r == sourcePath
  {
    FileName(sourcePath).GetOr(sourcePath)
  }

  /** The remote listing's normalisation: the empty path means the root. */
  function NormalizeRemote(path: string): (r: string)
    ensures r != []
    ensures path != [] ==> r == path
    ensures path == [] ==> GetParentPath(r).None?
  {
    if path == [] then "/" else path
  }

  /**
   * The local listing's normalisation: "" and "~" mean the home directory
   * ("/" when HOME is unset), "~/rest" means the home directory followed by
   * "/rest"; every other path is kept.
   */
  function ExpandHome(path: string, home: Option<string>): (r: string)
    ensures path == "" || path == "~" ==> r == home.GetOr("/")
    ensures |path| >= 2 && path[..2] == "~/" ==> r == home.GetOr("/") + "/" + path[2..]
    ensures path != "" && path != "~" && !(|path| >= 2 && path[..2] == "~/") ==> r == path
  {
    var h := home.GetOr("/");
    if path == "" || path == "~" then h
    else if |path| >= 2 && path[..2] == "~/" then
      assert path[1..] == "/" + path[2..];
      h + path[1..]
    else path
  }

  // ----- Lemmas -----

  lemma {:induction false} TrimIdempotent(s: string)
    ensures TrimEndSlashes(TrimEndSlashes(s)) == TrimEndSlashes(s)
  {
  }

  /** Two paths that trim to the same text have the same segments. */
  lemma {:induction false} SegmentsSame(x: string, y: string)
    requires TrimEndSlashes(x) == TrimEndSlashes(y)
    ensures Segments(x) == Segments(y)
  {
  }

  /** A path's segments depend only on its text before trailing slashes. */
  lemma {:induction false} SegmentsOfTrimmed(s: string)
    ensures Segments(TrimEndSlashes(s)) == Segments(s)
  {
    TrimIdempotent(s);
    SegmentsSame(TrimEndSlashes(s), s);
  }

  /** `Segments` of a non-root path, given its trimmed text and last slash. */
  lemma {:induction false} SegmentsUnfold(s: string, t: string, k: nat)
    requires TrimEndSlashes(s) == t && t != [] && LastSlash(t) == Some(k)
    ensures Segments(s) == Segments(t[..k]) + [t[k + 1..]]
  {
  }

  /** `Segments` of a non-root path, split at the last slash of its trimmed text. */
  lemma {:induction false} SegmentsAt(s: string, k: nat, head: string, last: string)
    requires TrimEndSlashes(s) != [] && LastSlash(TrimEndSlashes(s)) == Some(k)
    requires TrimEndSlashes(s)[..k] == head && TrimEndSlashes(s)[k + 1..] == last
    ensures Segments(s) == Segments(head) + [last]
  {
  }

  /** The facts `GetParentPath` rests on, for a path whose trimmed text has a slash at `k`. */
  lemma {:induction false} ParentSegments(path: string, k: nat)
    requires TrimEndSlashes(path) != [] && LastSlash(TrimEndSlashes(path)) == Some(k)
    ensures var t := TrimEndSlashes(path);
      && Segments(path) == Segments(t[..k]) + [t[k + 1..]]
      && Segments(TrimEndSlashes(t[..k])) == Segments(t[..k])
  {
    SegmentsUnfold(path, TrimEndSlashes(path), k);
    SegmentsOfTrimmed(TrimEndSlashes(path)[..k]);
  }

  /** Trimming removes slashes only. */
  lemma {:induction false} TrimRemovesOnlySlashes(s: string)
    ensures AllSlashes(s[|TrimEndSlashes(s)|..])
    decreases |s|
  {
    if s != [] && s[|s| - 1] == '/' {
      var r := TrimEndSlashes(s);
      TrimRemovesOnlySlashes(s[..|s| - 1]);
      assert s[|r|..][..|s[|r|..]| - 1] == s[..|s| - 1][|r|..];
    }
  }

  /** Nothing after the last slash is a slash. */
  lemma {:induction false} AfterLastSlash(s: string)
    ensures LastSlash(s).Some? ==> NoSlash(s[LastSlash(s).value + 1..])
    decreases |s|
  {
    if s != [] && s[|s| - 1] != '/' {
      AfterLastSlash(s[..|s| - 1]);
      if LastSlash(s).Some? {
        var k := LastSlash(s).value;
        assert s[k + 1..][..|s[k + 1..]| - 1] == s[..|s| - 1][k + 1..];
      }
    }
  }

  /** Every segment is non-empty and free of '/'. */
  lemma {:induction false} SegmentsWellFormed(s: string)
    ensures forall i :: 0 <= i < |Segments(s)| ==> Segments(s)[i] != [] && NoSlash(Segments(s)[i])
    decreases |s|
  {
    var t := TrimEndSlashes(s);
    if t != [] {
      match LastSlash(t) {
        case None =>
        case Some(k) =>
          SegmentsWellFormed(t[..k]);
          AfterLastSlash(t);
          assert t[k + 1..] != [] by {
            assert t[|t| - 1] != '/';
          }
      }
    }
  }

  lemma {:induction false} AllSlashesAppend(x: string, y: string)
    ensures AllSlashes(x + y) <==> AllSlashes(x) && AllSlashes(y)
    decreases |y|
  {
    if y == [] {
      assert x + y == x;
    } else {
      assert (x + y)[..|x + y| - 1] == x + y[..|y| - 1];
      AllSlashesAppend(x, y[..|y| - 1]);
    }
  }

  /** Trimming a concatenation: trailing slashes of `y` go, and `x`'s too when `y` is all slashes. */
  lemma {:induction false} TrimAppend(x: string, y: string)
    ensures TrimEndSlashes(x + y) == if AllSlashes(y) then TrimEndSlashes(x) else x + TrimEndSlashes(y)
    decreases |y|
  {
    if y == [] {
      assert x + y == x;
    } else if y[|y| - 1] == '/' {
      var y' := y[..|y| - 1];
      assert (x + y)[..|x + y| - 1] == x + y';
      TrimAppend(x, y');
    }
  }

  /** The last '/' of a concatenation is `y`'s when it has one, else `x`'s. */
  lemma {:induction false} LastSlashAppend(x: string, y: string)
    ensures LastSlash(x + y) == match LastSlash(y) case Some(k) => Some(|x| + k) case None => LastSlash(x)
    decreases |y|
  {
    if y == [] {
      assert x + y == x;
    } else if y[|y| - 1] != '/' {
      var y' := y[..|y| - 1];
      assert (x + y)[..|x + y| - 1] == x + y';
      LastSlashAppend(x, y');
    }
  }

  /** A non-empty name without '/' is a single segment. */
  lemma {:induction false} SingleSegment(name: string)
    requires name != [] && NoSlash(name)
    ensures Segments(name) == [name]
  {
    assert TrimEndSlashes(name) == name;
  }

  /** Slicing a concatenation inside its second part. */
  lemma {:induction false} SliceOfAppend(x: string, y: string, k: nat)
    requires k < |y|
    ensures (x + y)[..|x| + k] == x + y[..k]
    ensures (x + y)[|x| + k + 1..] == y[k + 1..]
  {
  }

  /** Trimming `a + "/" + b` when `b` is not all slashes trims `b` alone. */
  lemma {:induction false} JoinTrim(a: string, b: string)
    requires !AllSlashes(b)
    ensures TrimEndSlashes(a + "/" + b) == (a + "/") + TrimEndSlashes(b)
  {
    assert a + "/" + b == (a + "/") + b;
    TrimAppend(a + "/", b);
  }

  /** Joining with one '/' concatenates the segment lists. */
  lemma {:induction false} SegmentsJoin(a: string, b: string)
    ensures Segments(a + "/" + b) == Segments(a) + Segments(b)
    decreases |b|, 1
  {
    if AllSlashes(b) {
      SegmentsJoinRoot(a, b);
    } else {
      var b' := TrimEndSlashes(b);
      match LastSlash(b') {
        case None =>
          SegmentsJoinOne(a, b);
        case Some(k) =>
          SegmentsJoinMore(a, b, k);
      }
    }
  }

  lemma {:induction false} SegmentsJoinRoot(a: string, b: string)
    requires AllSlashes(b)
    ensures Segments(a + "/" + b) == Segments(a) + Segments(b)
  {
    var s := a + "/" + b;
    assert s == (a + "/") + b;
    TrimAppend(a + "/", b);
    assert AllSlashes("/");
    TrimAppend(a, "/");
    SegmentsSame(s, a);
  }

  lemma {:induction false} SegmentsJoinOne(a: string, b: string)
    requires !AllSlashes(b) && LastSlash(TrimEndSlashes(b)).None?
    ensures Segments(a + "/" + b) == Segments(a) + Segments(b)
  {
    var b' := TrimEndSlashes(b);
    var t := (a + "/") + b';
    JoinTrim(a, b);
    LastSlashAppend(a + "/", b');
    assert LastSlash(a + "/") == Some(|a|);
    SegmentsUnfold(a + "/" + b, t, |a|);
    assert t[..|a|] == a && t[|a| + 1..] == b';
    assert Segments(b) == [b'];
  }

  lemma {:induction false} SegmentsJoinMore(a: string, b: string, k: nat)
    requires !AllSlashes(b) && LastSlash(TrimEndSlashes(b)) == Some(k)
    ensures Segments(a + "/" + b) == Segments(a) + Segments(b)
    decreases |b|, 0
  {
    var b' := TrimEndSlashes(b);
    var head, last := b'[..k], b'[k + 1..];
    SegmentsJoin(a, head);
    JoinUnfold(a + "/", b, k);
    SegmentsAt(b, k, head, last);
    AppendAssoc(Segments(a), Segments(head), last);
  }

  lemma AppendAssoc<T>(x: seq<T>, y: seq<T>, z: T)
    ensures (x + y) + [z] == x + (y + [z])
  {
  }

  /** `Segments` of `a + "/" + b` unfolded at the last slash, which lies in `b`. */
  lemma {:induction false} JoinUnfold(x: string, b: string, k: nat)
    requires !AllSlashes(b) && LastSlash(TrimEndSlashes(b)) == Some(k)
    ensures Segments(x + b)
         == Segments(x + TrimEndSlashes(b)[..k]) + [TrimEndSlashes(b)[k + 1..]]
  {
    var b' := TrimEndSlashes(b);
    var t := x + b';
    AppendLast(x, b, k);
    assert TrimEndSlashes(x + b) == t && LastSlash(t) == Some(|x| + k);
    SliceOfAppend(x, b', k);
    assert t[..|x| + k] == x + b'[..k] && t[|x| + k + 1..] == b'[k + 1..];
    SegmentsAt(x + b, |x| + k, x + b'[..k], b'[k + 1..]);
  }

  /** Trimmed text and last slash of `x + b` when the slash lies in `b`. */
  lemma {:induction false} AppendLast(x: string, b: string, k: nat)
    requires !AllSlashes(b) && LastSlash(TrimEndSlashes(b)) == Some(k)
    ensures TrimEndSlashes(x + b) == x + TrimEndSlashes(b)
    ensures LastSlash(x + TrimEndSlashes(b)) == Some(|x| + k)
  {
    TrimAppend(x, b);
    LastSlashAppend(x, TrimEndSlashes(b));
  }

  /**
   * Round trip of listing: an entry's path has the directory's segments plus
   * the entry's name, and its file name is the entry's name.
   */
  lemma {:induction false} EntryPathSegments(dir: string, name: string)
    requires name != [] && NoSlash(name)
    ensures Segments(EntryPath(dir, name)) == Segments(dir) + [name]
    ensures name != "." && name != ".." ==> FileName(EntryPath(dir, name)) == Some(name)
  {
    SegmentsJoin(TrimEndSlashes(dir), name);
    SegmentsOfTrimmed(dir);
    SingleSegment(name);
  }

  /** A trailing "." does not change the file name, as `Path::components` drops it. */
  lemma {:induction false} FileNameIgnoresDot(path: string)
    ensures FileName(path + "/" + ".") == FileName(path)
  {
    SegmentsJoin(path, ".");
    SingleSegment(".");
    var segs := Segments(path);
    assert (segs + ["."])[..|segs|] == segs;
    assert LastNonDot(segs + ["."]) == LastNonDot(segs);
    assert LastName(Segments(path + "/" + ".")) == LastName(segs);
  }

  /** A path ending in ".." has no file name. */
  lemma {:induction false} FileNameParentDir(path: string)
    ensures FileName(path + "/" + "..") == None
  {
    SegmentsJoin(path, "..");
    SingleSegment("..");
  }

  /** A plain name is its own file name. */
  lemma {:induction false} FileNameOfName(name: string)
    requires name != [] && NoSlash(name) && !IsDotName(name)
    ensures FileName(name) == Some(name)
  {
    SingleSegment(name);
  }

  /** The standard library's own examples: "a/." names "a", "a/.." names nothing. */
  lemma FileNameExamples()
    ensures FileName("a" + "/" + ".") == Some("a")
    ensures FileName("a" + "/" + "..") == None
  {
    FileNameIgnoresDot("a");
    FileNameOfName("a");
    FileNameParentDir("a");
  }

  /** The parent of a listed entry's path is the listed directory (the root for a root listing). */
  lemma {:induction false} EntryPathParent(dir: string, name: string)
    requires name != [] && NoSlash(name)
    ensures GetParentPath(EntryPath(dir, name))
         == Some(if Segments(dir) == [] then "/" else TrimEndSlashes(dir))
  {
    var t := TrimEndSlashes(dir);
    EntryShape(t, name);
    TrimIdempotent(dir);
  }

  /** Trimmed text and last slash of a directory joined with a plain name. */
  lemma {:induction false} EntryShape(t: string, name: string)
    requires name != [] && NoSlash(name)
    ensures TrimEndSlashes(t + "/" + name) == t + "/" + name
    ensures LastSlash(t + "/" + name) == Some(|t|)
    ensures (t + "/" + name)[..|t|] == t
  {
    assert TrimEndSlashes(name) == name;
    TrimAppend(t + "/", name);
    LastSlashAppend(t + "/", name);
    assert LastSlash(t + "/") == Some(|t|);
  }

  /** The local listing's join also appends exactly one segment. */
  lemma {:induction false} LocalJoinSegments(dir: string, name: string)
    requires name != [] && NoSlash(name)
    ensures Segments(LocalJoin(dir, name)) == Segments(dir) + [name]
  {
    SingleSegment(name);
    if dir == [] {
      assert LocalJoin(dir, name) == name;
    } else if dir[|dir| - 1] == '/' {
      var d := dir[..|dir| - 1];
      assert dir == d + "/";
      assert LocalJoin(dir, name) == d + "/" + name;
      SegmentsJoin(d, name);
      SegmentsSame(dir, d);
    } else {
      SegmentsJoin(dir, name);
    }
  }

  /** Tilde expansion puts the rest of the path below the home directory. */
  lemma {:induction false} ExpandHomeSegments(rest: string, home: Option<string>)
    ensures Segments(ExpandHome("~/" + rest, home)) == Segments(home.GetOr("/")) + Segments(rest)
  {
    var p := "~/" + rest;
    assert p[..2] == "~/" && p[2..] == rest;
    SegmentsJoin(home.GetOr("/"), rest);
  }

  /** Following parents from any path reaches the root, one segment at a time. */
  lemma {:induction false} ParentChainEndsAtRoot(path: string)
    requires Segments(path) != []
    ensures GetParentPath(path).Some?
    ensures |Segments(GetParentPath(path).value)| == |Segments(path)| - 1
    ensures GetParentPath(GetParentPath(path).value).None? <==> |Segments(path)| == 1
  {
    var p := GetParentPath(path).value;
    if |Segments(path)| == 1 {
      assert p == "/";
      assert AllSlashes(p);
    }
  }
}
