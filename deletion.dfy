/**
 * Deleting a remote path (`sftp_delete`) and a remote directory tree
 * (`delete_recursive`). The remote file system is an oracle: the tree that
 * successive directory reads report below the path, and the requests the
 * server refuses together with its reason. The model records the requests
 * the engine issues, in order, and the message it returns.
 */
module Deletion {
  import opened Common
  import opened Paths

  /** An entry as a directory read reports it; a directory carries what reading it returns. */
  datatype Node = File(name: string) | Dir(name: string, children: seq<Node>)

  /** A request sent to the server while deleting. */
  datatype Request = ReadDir(path: string) | RemoveFile(path: string) | RemoveDir(path: string)

  /** The requests issued, in order, and the result returned. */
  datatype Outcome = Outcome(issued: seq<Request>, result: Result<()>)

  /**
   * What `delete_recursive` reports when the server refuses `req` with `reason`:
   * a non-empty description ending in the server's reason; a refused file
   * removal names the file.
   */
  function Message(req: Request, reason: string): (m: string)
    ensures exists head :: head != [] && m == head + reason
    ensures req.RemoveFile? ==> exists tail :: m == "Failed to delete file " + req.path + tail
  {
    match req
    case ReadDir(_) => "Failed to read directory: " + reason
    case RemoveFile(p) =>
      var named := "Failed to delete file " + p;
      assert named + ": " + reason == named + (": " + reason);
      named + ": " + reason
    case RemoveDir(_) => "Failed to remove directory: " + reason
  }

  /** Issue `reqs` in order; the first refused one ends the run with its message. */
  function Attempt(reqs: seq<Request>, refused: map<Request, string>): Outcome {
    if reqs == [] then Outcome([], Ok(()))
    else if reqs[0] in refused then Outcome([reqs[0]], Err(Message(reqs[0], refused[reqs[0]])))
    else
      var rest := Attempt(reqs[1..], refused);
      Outcome([reqs[0]] + rest.issued, rest.result)
  }

  predicate NoneRefused(reqs: seq<Request>, refused: map<Request, string>) {
    forall i :: 0 <= i < |reqs| ==> reqs[i] !in refused
  }

  /**
   * The requests `delete_recursive` issues for directory `d` at `path` when
   * the server refuses none: read it, handle each child, remove it.
   */
  function Walk(path: string, d: Node): seq<Request>
    requires d.Dir?
    decreases d, 1
  {
    Opening(path, d, |d.children|) + [RemoveDir(path)]
  }

  /** The read of `path` followed by the requests for its first `k` children. */
  function Opening(path: string, d: Node, k: nat): seq<Request>
    requires d.Dir? && k <= |d.children|
    decreases d, 0, k
  {
    if k == 0 then [ReadDir(path)]
    else Opening(path, d, k - 1) + ChildWalk(path, d.children[k - 1])
  }

  /** One child: "." and ".." are skipped, a directory is walked, anything else is removed as a file. */
  function ChildWalk(path: string, c: Node): seq<Request>
    decreases c, 2
  {
    if IsDotName(c.name) then []
    else if c.File? then [RemoveFile(JoinPath(path, c.name))]
    else Walk(JoinPath(path, c.name), c)
  }

  /** The request that removes child `c` of `path`. */
  function Removal(path: string, c: Node): Request {
    if c.File? then RemoveFile(JoinPath(path, c.name)) else RemoveDir(JoinPath(path, c.name))
  }

  /** Every name in the tree is a real entry name: non-empty, without '/'. */
  predicate WellNamed(n: Node)
    decreases n
  {
    n.name != [] && NoSlash(n.name) &&
    (n.Dir? ==> forall i :: 0 <= i < |n.children| ==> WellNamed(n.children[i]))
  }

  // ----- Operations -----

  /**
   * `delete_recursive`: read the directory, delete each child in the order
   * read (recursing into directories), then remove the directory; the
   * first refused request ends the deletion with its message.
   */
  method DeleteRecursive(path: string, d: Node, refused: map<Request, string>) returns (out: Outcome)
    requires d.Dir?
    ensures out == Attempt(Walk(path, d), refused)
    decreases d, 1
  {
    AttemptAppend(Opening(path, d, |d.children|), [RemoveDir(path)], refused);
    if ReadDir(path) in refused {
      OpeningFails(path, d, 0, |d.children|, refused);
      return Outcome([ReadDir(path)], Err(Message(ReadDir(path), refused[ReadDir(path)])));
    }
    out := DeleteChildren(path, d, refused);
    if out.result.Err? {
      return;
    }
    if RemoveDir(path) in refused {
      return Outcome(out.issued + [RemoveDir(path)], Err(Message(RemoveDir(path), refused[RemoveDir(path)])));
    }
    out := Outcome(out.issued + [RemoveDir(path)], Ok(()));
  }

  /** The loop of `delete_recursive` over the children read, after a successful read. */
  method DeleteChildren(path: string, d: Node, refused: map<Request, string>) returns (out: Outcome)
    requires d.Dir? && ReadDir(path) !in refused
    ensures out == Attempt(Opening(path, d, |d.children|), refused)
    decreases d, 0
  {
    var issued := [ReadDir(path)];
    for i := 0 to |d.children|
      invariant Attempt(Opening(path, d, i), refused) == Outcome(issued, Ok(()))
    {
      var c := d.children[i];
      var step := DeleteChild(path, c, refused);
      AttemptAppend(Opening(path, d, i), ChildWalk(path, c), refused);
      if step.result.Err? {
        OpeningFails(path, d, i + 1, |d.children|, refused);
        return Outcome(issued + step.issued, step.result);
      }
      assert step.result.value == ();
      issued := issued + step.issued;
    }
    out := Outcome(issued, Ok(()));
  }

  /** One child of the loop: skip ".", "..", recurse into a directory, remove anything else. */
  method DeleteChild(path: string, c: Node, refused: map<Request, string>) returns (out: Outcome)
    ensures out == Attempt(ChildWalk(path, c), refused)
    decreases c, 2
  {
    if IsDotName(c.name) {
      return Outcome([], Ok(()));
    }
    var full := JoinPath(path, c.name);
    if c.Dir? {
      out := DeleteRecursive(full, c, refused);
    } else if RemoveFile(full) in refused {
      out := Outcome([RemoveFile(full)], Err(Message(RemoveFile(full), refused[RemoveFile(full)])));
    } else {
      out := Outcome([RemoveFile(full)], Ok(()));
    }
  }

  /**
   * What `sftp_delete` promises once the connection is found: stat the path
   * (`target` is the stat's outcome and, for a directory, the tree below
   * it); a directory is deleted recursively, or removed on its own, which
   * the server refuses when it is not empty; anything else is removed as a
   * file.
   */
  predicate DeleteSpec(path: string, target: Result<Node>, recursive: bool, refused: map<Request, string>, out: Outcome) {
    match target
    case Err(e) => out == Outcome([], Err("Failed to stat path: " + e))
    case Ok(node) =>
      if node.File? then
        && out.issued == [RemoveFile(path)]
        && (out.result.Ok? <==> RemoveFile(path) !in refused)
        && (out.result.Err? ==> out.result.error == "Failed to delete file: " + refused[RemoveFile(path)])
      else if recursive then out == Attempt(Walk(path, node), refused)
      else
        && out.issued == [RemoveDir(path)]
        && (out.result.Ok? <==> RemoveDir(path) !in refused)
        && (out.result.Err? ==>
              out.result.error == "Failed to remove directory (may not be empty): " + refused[RemoveDir(path)])
  }

  /** `sftp_delete` after the connection lookup. */
  method Delete(path: string, target: Result<Node>, recursive: bool, refused: map<Request, string>) returns (out: Outcome)
    ensures DeleteSpec(path, target, recursive, refused, out)
  {
    if target.Err? {
      return Outcome([], Err("Failed to stat path: " + target.error));
    }
    var node := target.value;
    if node.Dir? {
      if recursive {
        out := DeleteRecursive(path, node, refused);
      } else if RemoveDir(path) in refused {
        out := Outcome([RemoveDir(path)], Err("Failed to remove directory (may not be empty): " + refused[RemoveDir(path)]));
      } else {
        out := Outcome([RemoveDir(path)], Ok(()));
      }
    } else if RemoveFile(path) in refused {
      out := Outcome([RemoveFile(path)], Err("Failed to delete file: " + refused[RemoveFile(path)]));
    } else {
      out := Outcome([RemoveFile(path)], Ok(()));
    }
  }

  // ----- Lemmas -----

  /** Running `a` then `b`: `b` is reached only when all of `a` is accepted. */
  lemma {:induction false} AttemptAppend(a: seq<Request>, b: seq<Request>, refused: map<Request, string>)
    ensures Attempt(a + b, refused) ==
      if Attempt(a, refused).result.Err? then Attempt(a, refused)
      else Outcome(Attempt(a, refused).issued + Attempt(b, refused).issued, Attempt(b, refused).result)
  {
    if a != [] {
      assert (a + b)[0] == a[0];
      assert (a + b)[1..] == a[1..] + b;
      AttemptAppend(a[1..], b, refused);
    } else {
      assert a + b == b;
    }
  }

  /** Once the requests up to child `j` fail, the later children are never reached. */
  lemma {:induction false} OpeningFails(path: string, d: Node, j: nat, n: nat, refused: map<Request, string>)
    requires d.Dir? && j <= n <= |d.children|
    requires Attempt(Opening(path, d, j), refused).result.Err?
    ensures Attempt(Opening(path, d, n), refused) == Attempt(Opening(path, d, j), refused)
    decreases n
  {
    if n > j {
      OpeningFails(path, d, j, n - 1, refused);
      AttemptAppend(Opening(path, d, n - 1), ChildWalk(path, d.children[n - 1]), refused);
    }
  }

  /** A run issues a prefix of the requests. */
  lemma {:induction false} AttemptPrefix(reqs: seq<Request>, refused: map<Request, string>)
    ensures Attempt(reqs, refused).issued <= reqs
  {
    if reqs != [] && reqs[0] !in refused {
      AttemptPrefix(reqs[1..], refused);
      assert reqs == [reqs[0]] + reqs[1..];
    }
  }

  /** A run succeeds exactly when no request is refused, and then it issued all of them. */
  lemma {:induction false} AttemptOk(reqs: seq<Request>, refused: map<Request, string>)
    ensures Attempt(reqs, refused).result.Ok? <==> NoneRefused(reqs, refused)
    ensures Attempt(reqs, refused).result.Ok? ==> Attempt(reqs, refused).issued == reqs
  {
    if reqs != [] {
      var tail := reqs[1..];
      AttemptOk(tail, refused);
      assert forall i :: 0 < i < |reqs| ==> reqs[i] == tail[i - 1];
      assert reqs == [reqs[0]] + tail;
      if !NoneRefused(tail, refused) {
        var i :| 0 <= i < |tail| && tail[i] in refused;
        assert reqs[i + 1] in refused;
      }
    }
  }

  /**
   * A failed run stops at the first refused request, every earlier one
   * accepted, and reports that request's message.
   */
  lemma {:induction false} AttemptErr(reqs: seq<Request>, refused: map<Request, string>)
    requires Attempt(reqs, refused).result.Err?
    ensures var out := Attempt(reqs, refused);
      && out.issued != []
      && out.issued[|out.issued| - 1] in refused
      && NoneRefused(out.issued[..|out.issued| - 1], refused)
      && out.result.error == Message(out.issued[|out.issued| - 1], refused[out.issued[|out.issued| - 1]])
  {
    if reqs[0] !in refused {
      var rest := Attempt(reqs[1..], refused);
      AttemptErr(reqs[1..], refused);
      var out := Attempt(reqs, refused);
      assert out.issued[..|out.issued| - 1] == [reqs[0]] + rest.issued[..|rest.issued| - 1];
    }
  }

  /** A directory's walk starts by reading it and ends by removing it. */
  lemma WalkEnds(path: string, d: Node)
    requires d.Dir?
    ensures |Walk(path, d)| >= 2
    ensures Walk(path, d)[0] == ReadDir(path)
    ensures Walk(path, d)[|Walk(path, d)| - 1] == RemoveDir(path)
  {
    OpeningStart(path, d, |d.children|);
  }

  lemma {:induction false} OpeningStart(path: string, d: Node, k: nat)
    requires d.Dir? && k <= |d.children|
    ensures Opening(path, d, k) != [] && Opening(path, d, k)[0] == ReadDir(path)
    decreases k
  {
    if k > 0 {
      OpeningStart(path, d, k - 1);
    }
  }

  /**
   * Every request of a directory's walk is about that directory or a path
   * below it, and every request between its read and its removal is about a
   * path strictly below it: a directory is removed only after everything
   * inside it was handled.
   */
  lemma {:induction false} WalkInside(path: string, d: Node)
    requires d.Dir? && WellNamed(d)
    ensures forall i :: 0 <= i < |Walk(path, d)| ==> Segments(path) <= Segments(Walk(path, d)[i].path)
    ensures forall i :: 0 < i < |Walk(path, d)| - 1 ==> Segments(path) < Segments(Walk(path, d)[i].path)
    decreases d, 1
  {
    var w := Walk(path, d);
    OpeningInside(path, d, |d.children|);
    OpeningStart(path, d, |d.children|);
    forall i | 0 <= i < |w| ensures Segments(path) <= Segments(w[i].path) {
      if 0 < i < |w| - 1 {
        assert w[i] == Opening(path, d, |d.children|)[i];
      }
    }
  }

  lemma {:induction false} OpeningInside(path: string, d: Node, k: nat)
    requires d.Dir? && WellNamed(d) && k <= |d.children|
    ensures forall i :: 0 < i < |Opening(path, d, k)| ==> Segments(path) < Segments(Opening(path, d, k)[i].path)
    decreases d, 0, k
  {
    if k > 0 {
      var prev := Opening(path, d, k - 1);
      var c := d.children[k - 1];
      OpeningInside(path, d, k - 1);
      ChildInside(path, c);
      var o := Opening(path, d, k);
      forall i | 0 < i < |o| ensures Segments(path) < Segments(o[i].path) {
        if i >= |prev| {
          assert o[i] == ChildWalk(path, c)[i - |prev|];
        } else {
          assert o[i] == prev[i];
        }
      }
    }
  }

  lemma {:induction false} ChildInside(path: string, c: Node)
    requires WellNamed(c)
    ensures forall i :: 0 <= i < |ChildWalk(path, c)| ==> Segments(path) < Segments(ChildWalk(path, c)[i].path)
    decreases c, 2
  {
    if !IsDotName(c.name) {
      var full := JoinPath(path, c.name);
      EntryPathSegments(path, c.name);
      assert Segments(full) == Segments(path) + [c.name];
      if c.Dir? {
        WalkInside(full, c);
        forall i | 0 <= i < |ChildWalk(path, c)| ensures Segments(path) < Segments(ChildWalk(path, c)[i].path) {
          PrefixTrans(Segments(path), Segments(full), Segments(ChildWalk(path, c)[i].path));
        }
      }
    }
  }

  lemma PrefixTrans(a: seq<string>, b: seq<string>, c: seq<string>)
    requires a < b && b <= c
    ensures a < c
  {
    assert c[..|a|] == b[..|a|];
  }

  /**
   * Every child other than "." and ".." has its removal request in the walk
   * before the directory's own removal.
   */
  lemma ChildrenRemovedFirst(path: string, d: Node)
    requires d.Dir?
    ensures forall i :: 0 <= i < |d.children| && !IsDotName(d.children[i].name) ==>
      Removal(path, d.children[i]) in Walk(path, d)[..|Walk(path, d)| - 1]
  {
    var n := |d.children|;
    forall i | 0 <= i < n && !IsDotName(d.children[i].name)
      ensures Removal(path, d.children[i]) in Walk(path, d)[..|Walk(path, d)| - 1]
    {
      OpeningHasRemoval(path, d, i, n);
      assert Walk(path, d)[..|Walk(path, d)| - 1] == Opening(path, d, n);
    }
  }

  /**
   * `req` removes `n` (at `path`) or one of its descendants reached through
   * names other than "." and "..".
   */
  predicate Removes(path: string, n: Node, req: Request)
    decreases n
  {
    || req == (if n.File? then RemoveFile(path) else RemoveDir(path))
    || (n.Dir? &&
        exists i :: 0 <= i < |n.children| && !IsDotName(n.children[i].name) &&
                    Removes(JoinPath(path, n.children[i].name), n.children[i], req))
  }

  /**
   * Every descendant of a directory, file or subdirectory, at any depth, is
   * removed before the directory itself: its removal request lies in the
   * walk before the final removal of the directory.
   */
  lemma {:induction false} DescendantsRemovedFirst(path: string, d: Node, i: nat, req: Request)
    requires d.Dir? && i < |d.children| && !IsDotName(d.children[i].name)
    requires Removes(JoinPath(path, d.children[i].name), d.children[i], req)
    ensures req in Walk(path, d)[..|Walk(path, d)| - 1]
    decreases d, 0
  {
    var n := |d.children|;
    ChildWalkRemoves(path, d.children[i], req);
    OpeningHasChildWalk(path, d, i, n, req);
    assert Walk(path, d)[..|Walk(path, d)| - 1] == Opening(path, d, n);
  }

  /** The walk of a child issues every removal below and of that child. */
  lemma {:induction false} ChildWalkRemoves(path: string, c: Node, req: Request)
    requires !IsDotName(c.name) && Removes(JoinPath(path, c.name), c, req)
    ensures req in ChildWalk(path, c)
    decreases c, 1
  {
    var p := JoinPath(path, c.name);
    if c.Dir? {
      var w := Walk(p, c);
      if req == RemoveDir(p) {
        WalkEnds(p, c);
        assert w[|w| - 1] == req;
      } else {
        var j :| 0 <= j < |c.children| && !IsDotName(c.children[j].name) &&
                 Removes(JoinPath(p, c.children[j].name), c.children[j], req);
        DescendantsRemovedFirst(p, c, j, req);
        assert w[..|w| - 1] <= w;
      }
    }
  }

  /** What the walk of child `j` issues is issued by the opening part up to any later child. */
  lemma {:induction false} OpeningHasChildWalk(path: string, d: Node, j: nat, k: nat, req: Request)
    requires d.Dir? && j < k <= |d.children| && req in ChildWalk(path, d.children[j])
    ensures req in Opening(path, d, k)
    decreases k
  {
    if j < k - 1 {
      OpeningHasChildWalk(path, d, j, k - 1, req);
    }
  }

  lemma {:induction false} OpeningHasRemoval(path: string, d: Node, j: nat, k: nat)
    requires d.Dir? && j < k <= |d.children| && !IsDotName(d.children[j].name)
    ensures Removal(path, d.children[j]) in Opening(path, d, k)
    decreases k
  {
    var c := d.children[k - 1];
    if j < k - 1 {
      OpeningHasRemoval(path, d, j, k - 1);
    } else {
      var cw := ChildWalk(path, c);
      if c.Dir? {
        WalkEnds(JoinPath(path, c.name), c);
      }
      assert cw[|cw| - 1] == Removal(path, c);
      assert Opening(path, d, k)[|Opening(path, d, k)| - 1] == cw[|cw| - 1];
    }
  }
}
