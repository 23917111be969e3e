/**
  What the report of moved lines says: internal/redact/redact.go:193-210 and the promise that
  internal/restore/restore.go:146-162 makes to the operator from it.
 */
module RedactionReport {
  import opened ConfigText
  import opened Redact

  predicate MovedFrom(l: Line, stanza: string, opt: Options, scan: Scanners) {
    l.stanza == stanza && !Decide(l, opt, scan).Keep?
  }

  function MovedLines(lines: seq<Line>, stanza: string, opt: Options, scan: Scanners): nat {
    if lines == [] then 0
    else
      var l := lines[|lines| - 1];
      MovedLines(lines[..|lines| - 1], stanza, opt, scan) + if MovedFrom(l, stanza, opt, scan) then 1 else 0
  }

  function MovedComments(lines: seq<Line>, stanza: string, opt: Options, scan: Scanners): nat {
    if lines == [] then 0
    else
      var l := lines[|lines| - 1];
      MovedComments(lines[..|lines| - 1], stanza, opt, scan) +
      if MovedFrom(l, stanza, opt, scan) && CommentOnly(l, Decide(l, opt, scan)) then 1 else 0
  }

  ghost predicate OneEach(moves: seq<Move>) {
    forall i, j | 0 <= i < j < |moves| :: moves[i].stanza != moves[j].stanza
  }

  // The entry of a stanza, with no counts when it has none.
  function EntryOf(moves: seq<Move>, stanza: string): (nat, nat) {
    var i := FindMove(moves, stanza);
    if i < |moves| then (moves[i].lines, moves[i].comments) else (0, 0)
  }

  lemma {:induction false} FindMoveOf(moves: seq<Move>, i: nat)
    requires OneEach(moves) && i < |moves|
    ensures FindMove(moves, moves[i].stanza) == i
  {
    var j := FindMove(moves, moves[i].stanza);
  }

  lemma RecordedEntry(moves: seq<Move>, l: Line, d: Decision, stanza: string)
    requires OneEach(moves)
    ensures OneEach(Recorded(moves, l, d))
    ensures var before := EntryOf(moves, stanza);
            EntryOf(Recorded(moves, l, d), stanza) ==
            if d.Keep? || l.stanza != stanza then before
            else (before.0 + 1, before.1 + if CommentOnly(l, d) then 1 else 0)
  {
    if !d.Keep? {
      var after := Recorded(moves, l, d);
      var i := FindMove(moves, l.stanza);
      assert after[i].stanza == l.stanza;
      FindMoveOf(after, i);
      var j := FindMove(moves, stanza);
      if stanza != l.stanza && j < |moves| {
        assert after[j] == moves[j];
        FindMoveOf(after, j);
      }
    }
  }

  /** The counts of the report are exact for every stanza, and it has one entry each. */
  lemma {:induction false} ReportIsExact(lines: seq<Line>, opt: Options, scan: Scanners, stanza: string)
    ensures var moves := MovesOf(lines, opt, scan);
            && OneEach(moves)
            && EntryOf(moves, stanza) == (MovedLines(lines, stanza, opt, scan), MovedComments(lines, stanza, opt, scan))
  {
    if lines == [] {
      NothingCounted(opt, scan, stanza);
    } else {
      hide *;
      var front, last := lines[..|lines| - 1], lines[|lines| - 1];
      ReportIsExact(front, opt, scan, stanza);
      RecordedEntry(MovesOf(front, opt, scan), last, Decide(last, opt, scan), stanza);
      CountedNext(lines, opt, scan, stanza);
    }
  }

  lemma NothingCounted(opt: Options, scan: Scanners, stanza: string)
    ensures MovesOf([], opt, scan) == [] && OneEach([]) && EntryOf([], stanza) == (0, 0)
    ensures MovedLines([], stanza, opt, scan) == MovedComments([], stanza, opt, scan) == 0
  {
    hide Decide;
  }

  lemma CountedNext(lines: seq<Line>, opt: Options, scan: Scanners, stanza: string)
    requires lines != []
    ensures var front, last := lines[..|lines| - 1], lines[|lines| - 1];
            var d := Decide(last, opt, scan);
            var lost := !d.Keep? && last.stanza == stanza;
            && MovesOf(lines, opt, scan) == Recorded(MovesOf(front, opt, scan), last, d)
            && MovedLines(lines, stanza, opt, scan) == MovedLines(front, stanza, opt, scan) + (if lost then 1 else 0)
            && MovedComments(lines, stanza, opt, scan) ==
               MovedComments(front, stanza, opt, scan) + if lost && CommentOnly(last, d) then 1 else 0
  {
    hide Decide, Recorded, CommentOnly;
  }

  // Line j is the last that the stanza lost.
  ghost predicate LastMoved(lines: seq<Line>, stanza: string, opt: Options, scan: Scanners, j: nat) {
    && j < |lines| && MovedFrom(lines[j], stanza, opt, scan)
    && forall i | j < i < |lines| :: !MovedFrom(lines[i], stanza, opt, scan)
  }

  ghost predicate ReasonOf(lines: seq<Line>, m: Move, opt: Options, scan: Scanners) {
    exists j: nat :: LastMoved(lines, m.stanza, opt, scan, j) && Gives(Decide(lines[j], opt, scan), m.reason)
  }

  predicate Gives(d: Decision, reason: string) {
    !d.Keep? && d.reason == reason
  }

  lemma ReasonStays(lines: seq<Line>, l: Line, m: Move, opt: Options, scan: Scanners)
    requires ReasonOf(lines, m, opt, scan) && !MovedFrom(l, m.stanza, opt, scan)
    ensures ReasonOf(lines + [l], m, opt, scan)
  {
    hide Decide, MovedFrom;
    var j: nat :| LastMoved(lines, m.stanza, opt, scan, j) && Gives(Decide(lines[j], opt, scan), m.reason);
    assert LastMoved(lines + [l], m.stanza, opt, scan, j) && (lines + [l])[j] == lines[j];
  }

  lemma ReasonIsNew(lines: seq<Line>, l: Line, m: Move, opt: Options, scan: Scanners)
    requires MovedFrom(l, m.stanza, opt, scan) && Gives(Decide(l, opt, scan), m.reason)
    ensures ReasonOf(lines + [l], m, opt, scan)
  {
    hide Decide;
    assert LastMoved(lines + [l], m.stanza, opt, scan, |lines|);
  }

  /** Each entry gives the reason of the last line that its stanza lost. */
  lemma {:induction false} ReasonIsTheLast(lines: seq<Line>, opt: Options, scan: Scanners, k: nat)
    requires k < |MovesOf(lines, opt, scan)|
    ensures ReasonOf(lines, MovesOf(lines, opt, scan)[k], opt, scan)
  {
    var front, last := lines[..|lines| - 1], lines[|lines| - 1];
    var before, d := MovesOf(front, opt, scan), Decide(last, opt, scan);
    CountedNext(lines, opt, scan, "");
    assert lines == front + [last];
    hide *;
    if !d.Keep? && k == FindMove(before, last.stanza) {
      RecordedAt(before, last, d);
      LastIsMoved(last, opt, scan);
      ReasonIsNew(front, last, Recorded(before, last, d)[k], opt, scan);
    } else {
      RecordedElsewhere(before, last, d, k);
      ReasonIsTheLast(front, opt, scan, k);
      ReportIsExact(front, opt, scan, last.stanza);
      NotMovedFrom(before, last, k, opt, scan);
      ReasonStays(front, last, before[k], opt, scan);
    }
  }

  lemma RecordedAt(before: seq<Move>, l: Line, d: Decision)
    requires !d.Keep?
    ensures var i, after := FindMove(before, l.stanza), Recorded(before, l, d);
            i < |after| && after[i].stanza == l.stanza && Gives(d, after[i].reason)
  {
  }

  lemma LastIsMoved(l: Line, opt: Options, scan: Scanners)
    ensures MovedFrom(l, l.stanza, opt, scan) <==> !Decide(l, opt, scan).Keep?
  {
    hide Decide;
  }

  lemma RecordedElsewhere(before: seq<Move>, l: Line, d: Decision, k: nat)
    requires k < |Recorded(before, l, d)| && (d.Keep? || k != FindMove(before, l.stanza))
    ensures k < |before| && Recorded(before, l, d)[k] == before[k]
  {
  }

  lemma NotMovedFrom(before: seq<Move>, l: Line, k: nat, opt: Options, scan: Scanners)
    requires OneEach(before) && k < |before| && (Decide(l, opt, scan).Keep? || k != FindMove(before, l.stanza))
    ensures !MovedFrom(l, before[k].stanza, opt, scan)
  {
    FindMoveOf(before, k);
    hide Decide, FindMove;
  }

  lemma {:induction false} CommentsAreMoved(lines: seq<Line>, stanza: string, opt: Options, scan: Scanners)
    ensures MovedComments(lines, stanza, opt, scan) <= MovedLines(lines, stanza, opt, scan)
    ensures MovedComments(lines, stanza, opt, scan) == MovedLines(lines, stanza, opt, scan) <==>
            forall i | 0 <= i < |lines| && MovedFrom(lines[i], stanza, opt, scan) :: CommentOnly(lines[i], Decide(lines[i], opt, scan))
  {
    hide MovedFrom, CommentOnly, Decide;
    if lines != [] {
      var front := lines[..|lines| - 1];
      CommentsAreMoved(front, stanza, opt, scan);
      assert forall i | 0 <= i < |front| :: front[i] == lines[i];
    }
  }

  /**
    An entry counts nothing but comments exactly when no setting of its stanza was moved. Then what the
    operator is told is true: every setting there is present.
   */
  lemma CommentOnlyMeansEverySettingIsPresent(lines: seq<Line>, opt: Options, scan: Scanners, k: nat)
    requires k < |MovesOf(lines, opt, scan)|
    ensures var m := MovesOf(lines, opt, scan)[k];
            m.comments >= m.lines <==>
            forall i | 0 <= i < |lines| && lines[i].stanza == m.stanza && lines[i].kind == Value :: !Decide(lines[i], opt, scan).MoveLine?
  {
    var moves := MovesOf(lines, opt, scan);
    var m := moves[k];
    ReportIsExact(lines, opt, scan, m.stanza);
    FindMoveOf(moves, k);
    CommentsAreMoved(lines, m.stanza, opt, scan);
    assert EntryOf(moves, m.stanza) == (m.lines, m.comments);
    hide MovesOf, MovedLines, MovedComments, EntryOf, OneEach, FindMove;
    forall i | 0 <= i < |lines| && lines[i].stanza == m.stanza
      ensures (MovedFrom(lines[i], m.stanza, opt, scan) ==> CommentOnly(lines[i], Decide(lines[i], opt, scan)))
         <==> (lines[i].kind == Value ==> !Decide(lines[i], opt, scan).MoveLine?)
    {
    }
  }
}
