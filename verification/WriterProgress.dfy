/** One writer's files: how far they have been handed out and written, as one line of nonces. */
module WriterProgress {
  import opened Words
  import opened Tasks
  import opened Pipeline

  /** Where file f starts when the files of a writer are laid end to end. */
  function Base(plan: seq<Range>, f: nat): nat
    requires f <= |plan|
  {
    if f == 0 then 0 else Base(plan, f - 1) + plan[f - 1].n
  }

  /** How much of file f lies before position p. */
  function Covered(plan: seq<Range>, f: nat, p: nat): (m: nat)
    requires f < |plan|
    ensures m <= plan[f].n
  {
    if p <= Base(plan, f) then 0
    else if p >= Base(plan, f) + plan[f].n then plan[f].n
    else p - Base(plan, f)
  }

  lemma {:induction false} BaseRises(plan: seq<Range>, f: nat, g: nat)
    requires f < g <= |plan|
    ensures Base(plan, f) + plan[f].n <= Base(plan, g)
  {
    if f + 1 < g {
      BaseRises(plan, f, g - 1);
    }
  }

  lemma {:induction false} BaseIsSum(plan: seq<Range>)
    ensures Base(plan, |plan|) == SumOf(plan)
  {
    if plan != [] {
      BaseIsSum(plan[1..]);
      BaseOfTail(plan, |plan|);
    }
  }

  lemma {:induction false} BaseOfTail(plan: seq<Range>, f: nat)
    requires 0 < f <= |plan|
    ensures Base(plan, f) == plan[0].n + Base(plan[1..], f - 1)
  {
    if f == 1 {
      assert Base(plan, 1) == Base(plan, 0) + plan[0].n;
    } else {
      BaseOfTail(plan, f - 1);
    }
  }

  /** The task is a nonempty piece of one file. */
  ghost predicate PieceOf(plan: seq<Range>, t: HashTask) {
    && t.file < |plan|
    && 0 < t.n
    && plan[t.file].sn <= t.sn
    && t.sn + t.n <= plan[t.file].sn + plan[t.file].n
  }

  /** Where the task starts on the line. */
  function Position(plan: seq<Range>, t: HashTask): nat
    requires t.file < |plan| && plan[t.file].sn <= t.sn
  {
    Base(plan, t.file) + (t.sn - plan[t.file].sn)
  }

  /** The tasks are pieces that lie end to end and cover the line from one position to another. */
  ghost predicate Contiguous(plan: seq<Range>, ts: seq<HashTask>, from: nat, to: nat) {
    if ts == [] then from == to
    else PieceOf(plan, ts[0]) && Position(plan, ts[0]) == from && Contiguous(plan, ts[1..], from + ts[0].n, to)
  }

  lemma {:induction false} ContiguousAppend(plan: seq<Range>, ts: seq<HashTask>, from: nat, to: nat, t: HashTask)
    requires Contiguous(plan, ts, from, to) && PieceOf(plan, t) && Position(plan, t) == to
    ensures Contiguous(plan, ts + [t], from, to + t.n)
  {
    if ts == [] {
      assert [t][1..] == [];
    } else {
      ContiguousAppend(plan, ts[1..], from + ts[0].n, to, t);
      assert (ts + [t])[1..] == ts[1..] + [t];
    }
  }

  lemma {:induction false} ContiguousBounds(plan: seq<Range>, ts: seq<HashTask>, from: nat, to: nat)
    requires Contiguous(plan, ts, from, to)
    ensures from <= to && (ts == [] <==> from == to)
  {
    if ts != [] {
      ContiguousBounds(plan, ts[1..], from + ts[0].n, to);
    }
  }

  /** Pending tasks come in non-decreasing file order, and ascending within a file. */
  lemma {:induction false} ContiguousAscends(plan: seq<Range>, ts: seq<HashTask>, from: nat, to: nat, i: nat)
    requires Contiguous(plan, ts, from, to) && i < |ts|
    ensures PieceOf(plan, ts[i])
    ensures from <= Position(plan, ts[i]) && Position(plan, ts[i]) + ts[i].n <= to
    ensures forall j | 0 <= j < i :: PieceOf(plan, ts[j]) && Position(plan, ts[j]) + ts[j].n <= Position(plan, ts[i])
  {
    hide Position;
    ContiguousBounds(plan, ts[1..], from + ts[0].n, to);
    if i > 0 {
      ContiguousAscends(plan, ts[1..], from + ts[0].n, to, i - 1);
      forall j | 0 <= j < i ensures PieceOf(plan, ts[j]) && Position(plan, ts[j]) + ts[j].n <= Position(plan, ts[i]) {
        if j > 0 {
          assert ts[j] == ts[1..][j - 1];
        }
      }
    }
  }

  lemma LaterIsLaterFile(plan: seq<Range>, t: HashTask, u: HashTask)
    requires PieceOf(plan, t) && PieceOf(plan, u) && Position(plan, t) + t.n <= Position(plan, u)
    ensures t.file < u.file || (t.file == u.file && t.sn + t.n <= u.sn)
  {
    if u.file < t.file {
      BaseRises(plan, u.file, t.file);
    }
  }

  // ---- the files of one writer ----------------------------------------------------------

  /** What the positions reached say about one file. */
  ghost predicate FileIs(plan: seq<Range>, wr: Writer, f: nat)
    requires f < |plan| && HasFile(wr, f)
  {
    && wr.files[f].initSn == plan[f].sn
    && wr.files[f].initN == plan[f].n
    && wr.files[f].left == plan[f].n - Covered(plan, f, wr.handed)
    && wr.files[f].prev == plan[f].sn + Covered(plan, f, wr.handed)
    && wr.files[f].submitted == Covered(plan, f, wr.written)
    && wr.renames[f] == (if Covered(plan, f, wr.written) == plan[f].n then 1 else 0)
  }

  ghost predicate FilesOk(plan: seq<Range>, wr: Writer) {
    && |wr.files| == |wr.disk| == |wr.renames| == |plan|
    && wr.cursor <= |plan|
    && (forall f | 0 <= f < |plan| :: plan[f].n > 0)
    && wr.handed <= Base(plan, |plan|)
    && (forall f | 0 <= f < wr.cursor :: wr.files[f].left == 0)
    && forall f | 0 <= f < |plan| :: FileIs(plan, wr, f)
  }

  /** Moving the position forward by a piece of file f covers that much more of f, and of f only. */
  lemma CoveredAdvance(plan: seq<Range>, f: nat, p: nat, n: nat, g: nat)
    requires f < |plan| && g < |plan| && Base(plan, f) <= p && p + n <= Base(plan, f) + plan[f].n
    ensures Covered(plan, g, p + n) == Covered(plan, g, p) + if g == f then n else 0
    ensures Covered(plan, f, p) == p - Base(plan, f)
  {
    if g < f {
      BaseRises(plan, g, f);
    } else if f < g {
      BaseRises(plan, f, g);
    }
  }

  /** If a file is not handed out completely, and the ones before it are, the position is inside it. */
  lemma HandedIsIn(plan: seq<Range>, f: nat, p: nat)
    requires f < |plan| && Covered(plan, f, p) < plan[f].n
    requires forall g | 0 <= g < f :: Covered(plan, g, p) == plan[g].n && plan[g].n > 0
    ensures Base(plan, f) <= p < Base(plan, f) + plan[f].n && Covered(plan, f, p) == p - Base(plan, f)
  {
  }

  /** Cutting the next piece: it starts where the last one ended. */
  lemma HandOutKeeps(plan: seq<Range>, wr: Writer, w: nat, gws: nat, block: nat)
    requires FilesOk(plan, wr) && gws > 0
    ensures var cut := NextPiece(wr.files, wr.cursor, gws);
            && FilesOk(plan, HandOut(wr, cut))
            && (cut.piece.None? ==> wr.handed == Base(plan, |plan|))
            && (cut.piece.Some? ==>
                  var t := HashTask(w, cut.piece.value.0, cut.piece.value.1, cut.piece.value.2, block);
                  && PieceOf(plan, t) && t.n <= gws
                  && Position(plan, t) == wr.handed)
  {
    hide NextPiece, Covered, Base;
    var cut := NextPiece(wr.files, wr.cursor, gws);
    var after := HandOut(wr, cut);
    NextPieceIs(wr.files, wr.cursor, gws);
    forall g | 0 <= g < cut.cursor
      ensures wr.files[g].left == 0 && Covered(plan, g, wr.handed) == plan[g].n && plan[g].n > 0
    {
      assert FileIs(plan, wr, g);
    }
    if cut.piece.Some? {
      var f, n := cut.cursor, cut.piece.value.2;
      assert FileIs(plan, wr, f);
      HandedIsIn(plan, f, wr.handed);
      CoveredAdvance(plan, f, wr.handed, n, f);
      EndsWithin(plan, f, wr.handed + n);
      forall g | 0 <= g < |plan| ensures FileIs(plan, after, g) {
        assert FileIs(plan, wr, g);
        CoveredAdvance(plan, f, wr.handed, n, g);
      }
      assert forall g | 0 <= g < f :: after.files[g] == wr.files[g];
    } else {
      AllCovered(plan, wr.handed);
      assert forall g | 0 <= g < |plan| :: FileIs(plan, wr, g) ==> FileIs(plan, after, g);
    }
  }

  lemma EndsWithin(plan: seq<Range>, f: nat, p: nat)
    requires f < |plan| && p <= Base(plan, f) + plan[f].n
    ensures p <= Base(plan, |plan|)
  {
    BaseRises(plan, f, |plan|);
  }

  /** If every file is covered, the position is the end of the line. */
  lemma AllCovered(plan: seq<Range>, p: nat)
    requires p <= Base(plan, |plan|)
    requires forall g | 0 <= g < |plan| :: Covered(plan, g, p) == plan[g].n && plan[g].n > 0
    ensures p == Base(plan, |plan|)
  {
  }

  lemma CoveredAtEnd(plan: seq<Range>, f: nat)
    requires f < |plan|
    ensures Covered(plan, f, Base(plan, |plan|)) == plan[f].n
  {
    BaseRises(plan, f, |plan|);
  }

  /** What the tasks of some files have not handed out yet. */
  function LeftIn(files: seq<FileTask>): nat {
    if files == [] then 0 else LeftIn(files[..|files| - 1]) + files[|files| - 1].left
  }

  /** A writer's files together have left what its handed position has not reached. */
  lemma LeftIsRest(plan: seq<Range>, wr: Writer)
    requires FilesOk(plan, wr)
    ensures wr.handed + LeftIn(wr.files) == SumOf(plan)
  {
    hide FileIs, Base;
    LeftUpTo(plan, wr, |plan|);
    BaseIsSum(plan);
    assert wr.files[..|plan|] == wr.files;
  }

  lemma {:induction false} LeftUpTo(plan: seq<Range>, wr: Writer, k: nat)
    requires FilesOk(plan, wr) && k <= |plan|
    ensures Smaller(wr.handed, Base(plan, k)) + LeftIn(wr.files[..k]) == Base(plan, k)
  {
    if k > 0 {
      LeftUpTo(plan, wr, k - 1);
      assert FileIs(plan, wr, k - 1);
      assert wr.files[..k][..k - 1] == wr.files[..k - 1];
    }
  }

  /** Booking the piece at the written position. */
  lemma CommitKeeps(plan: seq<Range>, wr: Writer, t: HashTask, bytes: seq<byte>)
    requires FilesOk(plan, wr) && PieceOf(plan, t) && Position(plan, t) == wr.written
    ensures FilesOk(plan, Commit(wr, t, bytes))
    ensures wr.files[t.file].submitted == t.sn - plan[t.file].sn
    ensures Commit(wr, t, bytes).files[t.file].submitted == t.sn - plan[t.file].sn + t.n
  {
    hide Covered, Base;
    var f := t.file;
    var after := Commit(wr, t, bytes);
    CoveredAdvance(plan, f, wr.written, t.n, f);
    assert FileIs(plan, wr, f);
    forall g | 0 <= g < |plan| ensures FileIs(plan, after, g) {
      assert FileIs(plan, wr, g);
      CoveredAdvance(plan, f, wr.written, t.n, g);
    }
    forall g | 0 <= g < after.cursor ensures after.files[g].left == 0 {
      assert wr.files[g].left == 0;
    }
  }

  /** A writer that is at work on a file has finished all files before it. */
  lemma EarlierFilesDone(plan: seq<Range>, wr: Writer, t: HashTask, g: nat)
    requires FilesOk(plan, wr) && PieceOf(plan, t) && Position(plan, t) == wr.written && g < t.file
    ensures wr.files[g].submitted == wr.files[g].initN && wr.renames[g] == 1
  {
    assert FileIs(plan, wr, g);
    BaseRises(plan, g, t.file);
  }
}
