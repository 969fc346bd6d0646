/** Plot files to write, cut into hashing tasks by a per-drive cursor. */
module Tasks {

  datatype Option<+T> = None | Some(value: T)

  /** The nonces [sn, sn + n) of one plot file. */
  datatype Range = Range(sn: nat, n: nat)

  /** The state of one plot file: how much is still to hand out, and how much has been written. */
  datatype FileTask = FileTask(initSn: nat, initN: nat, left: nat, sn: nat, prev: nat, submitted: nat)

  /** A piece of a plot file on its way through the pipeline, with the memory block that holds it. */
  datatype HashTask = HashTask(writer: nat, file: nat, sn: nat, n: nat, block: nat)

  function Fresh(r: Range): FileTask {
    FileTask(r.sn, r.n, r.n, r.sn, r.sn, 0)
  }

  function Smaller(x: nat, y: nat): (m: nat)
    ensures m <= x && m <= y && (m == x || m == y)
  {
    if x < y then x else y
  }

  /** next: the size of the next piece, and the task after handing it out; -1 when none is left. */
  function Next(t: FileTask, gws: nat): (r: (FileTask, int)) {
    if t.left == 0 then (t, -1)
    else
      var n: int := Smaller(gws, t.left);
      (t.(left := t.left - n, sn := t.prev, prev := t.prev + n), n)
  }

  /** submit_nonces: adds what was written, and tells whether the file is complete. */
  function Submit(t: FileTask, n: nat): (r: (FileTask, bool)) {
    var u := t.(submitted := t.submitted + n);
    (u, u.submitted == u.initN)
  }

  /** What next_hasher_task does: the files and cursor afterwards, and the piece, if any. */
  datatype Cut = Cut(files: seq<FileTask>, cursor: nat, piece: Option<(nat, nat, nat)>)

  function NextPiece(files: seq<FileTask>, cursor: nat, gws: nat): (c: Cut)
    decreases |files| - cursor
  {
    if cursor >= |files| then Cut(files, cursor, None)
    else
      var r := Next(files[cursor], gws);
      if r.1 == -1 then NextPiece(files, cursor + 1, gws)
      else Cut(files[cursor := r.0], cursor, Some((cursor, r.0.sn, r.1)))
  }

  /** The cursor passes exactly the files with nothing left, and the piece comes from the next one. */
  lemma {:induction false} NextPieceIs(files: seq<FileTask>, cursor: nat, gws: nat)
    requires cursor <= |files|
    ensures var c := NextPiece(files, cursor, gws);
            && cursor <= c.cursor <= |files|
            && (forall f | cursor <= f < c.cursor :: files[f].left == 0)
            && (c.piece.None? <==> c.cursor == |files|)
            && (c.piece.None? ==> c.files == files)
            && (c.piece.Some? ==>
                  && files[c.cursor].left > 0
                  && c.piece.value == (c.cursor, files[c.cursor].prev, Smaller(gws, files[c.cursor].left))
                  && c.files == files[c.cursor := Next(files[c.cursor], gws).0])
    decreases |files| - cursor
  {
    if cursor < |files| && files[cursor].left == 0 {
      NextPieceIs(files, cursor + 1, gws);
    }
  }

  class WriterTask {
    const initSn: nat
    const initNonces: nat
    var sn: nat
    var nonces: nat
    var prev: nat
    var submitted: nat

    function Abs(): FileTask
      reads this
    {
      FileTask(initSn, initNonces, nonces, sn, prev, submitted)
    }

    constructor (sn0: nat, nonces0: nat)
      ensures Abs() == Fresh(Range(sn0, nonces0))
    {
      initSn, initNonces := sn0, nonces0;
      sn, nonces, prev, submitted := sn0, nonces0, sn0, 0;
    }

    method NextPart(gws: nat) returns (n: int)
      modifies this
      ensures (Abs(), n) == Next(old(Abs()), gws)
    {
      if nonces == 0 {
        return -1;
      }
      n := if gws < nonces then gws else nonces;
      nonces := nonces - n;
      sn := prev;
      prev := prev + n;
    }

    method SubmitNonces(n: nat) returns (complete: bool)
      modifies this
      ensures (Abs(), complete) == Submit(old(Abs()), n)
    {
      submitted := submitted + n;
      complete := submitted == initNonces;
    }
  }

  function AbsAll(tasks: seq<WriterTask>): (s: seq<FileTask>)
    reads tasks
    ensures |s| == |tasks|
  {
    seq(|tasks|, i requires 0 <= i < |tasks| reads tasks => tasks[i].Abs())
  }

  /** The task cursor of one writer. */
  class TaskCursor {
    var tasks: seq<WriterTask>
    var cursor: nat

    ghost predicate Valid()
      reads this
    {
      forall i, j | 0 <= i < j < |tasks| :: tasks[i] != tasks[j]
    }

    constructor ()
      ensures Valid() && tasks == [] && cursor == 0
    {
      tasks, cursor := [], 0;
    }

    /** push_task: one more file for this drive. */
    method PushTask(t: WriterTask)
      requires Valid() && t !in tasks
      modifies this
      ensures Valid() && tasks == old(tasks) + [t] && cursor == old(cursor)
    {
      tasks := tasks + [t];
    }

    /** next_hasher_task: moves past exhausted files and cuts the next piece off the first other one. */
    method NextHasherTask(writer: nat, gws: nat, block: nat) returns (task: Option<HashTask>)
      requires Valid()
      modifies this, tasks
      ensures Valid() && tasks == old(tasks)
      ensures var c := NextPiece(old(AbsAll(tasks)), old(cursor), gws);
              && AbsAll(tasks) == c.files
              && cursor == c.cursor
              && task == match c.piece
                         case None => None
                         case Some(p) => Some(HashTask(writer, p.0, p.1, p.2, block))
    {
      ghost var was := AbsAll(tasks);
      while cursor < |tasks|
        invariant Valid() && tasks == old(tasks)
        invariant AbsAll(tasks) == was
        invariant NextPiece(was, cursor, gws) == NextPiece(was, old(cursor), gws)
        decreases |tasks| - cursor
      {
        var t := tasks[cursor];
        assert t.Abs() == was[cursor];
        var n := t.NextPart(gws);
        assert forall i | 0 <= i < |tasks| && i != cursor :: tasks[i].Abs() == was[i];
        if n == -1 {
          cursor := cursor + 1;
          continue;
        }
        return Some(HashTask(writer, cursor, t.sn, n, block));
      }
      return None;
    }
  }
}
