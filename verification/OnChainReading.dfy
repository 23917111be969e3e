/**
  What the on-chain half means on its own: how cfg.Parse reads it (internal/cfg/cfg.go:149-202),
  compared with the operator's file.
 */
module OnChainReading {
  import opened Common
  import opened ConfigText
  import opened Redact
  import opened RoundTrip

  // ----- the parser's reading -----

  // What parsing the on-chain text records for a line that parsed to l and was decided as d.
  ghost predicate ReadsAs(g: Line, l: Line, d: Decision) {
    && g.stanza == l.stanza && g.no == l.no && g.end == l.end
    && match d
       case Keep => g == l
       case MoveLine(_) => g.kind == Value && g.raw == MOVED_MARKER == g.value && g.comment == ""
       case MoveComment(_) => g.kind == Value && g.value == l.value && g.comment == COMMENT_MARKER
  }

  lemma OnChainTextIsRecut(text: string, opt: Options, scan: Scanners)
    requires FileRefusal(Parsed(text), scan) == None
    ensures Cut(OnChainText(text, opt, scan)) == Pieces(OnChainLines(Parsed(text).lines, opt, scan))
    ensures |Parsed(OnChainText(text, opt, scan)).lines| == |Parsed(text).lines|
    ensures Accepted(Parsed(text).lines, scan)
  {
    var lines := Parsed(text).lines;
    AcceptedText(text, scan);
    OnChainIsWellCut(lines, opt, scan);
    CutOfJoined(Pieces(OnChainLines(lines, opt, scan)));
  }

  lemma LineReadAgain(l: Line, before: string, no: nat, opt: Options, scan: Scanners)
    requires l == ParsedLine(Piece(l.raw, l.end), before, no) && WellRead(l)
    ensures var d := Decide(l, opt, scan);
            ReadsAs(ParsedLine(Piece(OnChainLine(l, d).raw, l.end), before, no), l, d)
  {
    MovedFacts(l, opt, scan);
    StanzaOfSetting(l, before, no);
    hide Classify, Decide;
    match Decide(l, opt, scan) {
      case Keep =>
      case MoveLine(_) => MovedMarkerRead(before);
      case MoveComment(_) =>
        var line, spaces := CommentShape(l);
        CommentMarkerRead(l.value, before);
    }
  }

  lemma StanzaOfSetting(l: Line, before: string, no: nat)
    requires l == ParsedLine(Piece(l.raw, l.end), before, no)
    ensures l.kind != Header ==> l.stanza == before
  {}

  lemma {:induction false} LinesReadAs(ps: seq<Piece>, qs: seq<Piece>, opt: Options, scan: Scanners, i: nat)
    requires i < |ps| == |qs|
    requires forall k | 0 <= k < |ps| :: WellRead(ParsedLines(ps, "", 1)[k])
    requires forall k | 0 <= k < |ps| :: IsOnChainPiece(qs[k], ps[k], ParsedLines(ps, "", 1)[k], opt, scan)
    ensures ReadsAs(ParsedLines(qs, "", 1)[i], ParsedLines(ps, "", 1)[i], Decide(ParsedLines(ps, "", 1)[i], opt, scan))
  {
    hide ParsedLine, ParsedLines, Decide, WellRead;
    var f, g := ParsedLines(ps, "", 1), ParsedLines(qs, "", 1);
    ParsedLinesAt(ps, "", 1, i);
    ParsedLinesAt(qs, "", 1, i);
    if i > 0 {
      LinesReadAs(ps, qs, opt, scan, i - 1);
    }
    assert WellRead(f[i]) && IsOnChainPiece(qs[i], ps[i], f[i], opt, scan);
    LineReadAgain(f[i], if i == 0 then "" else f[i - 1].stanza, 1 + i, opt, scan);
  }

  // The piece q stands on-chain for the line l, cut as p.
  ghost predicate IsOnChainPiece(q: Piece, p: Piece, l: Line, opt: Options, scan: Scanners) {
    p == Piece(l.raw, l.end) && q == Piece(OnChainLine(l, Decide(l, opt, scan)).raw, l.end)
  }

  lemma OnChainPieces(text: string, opt: Options, scan: Scanners)
    requires FileRefusal(Parsed(text), scan) == None
    ensures |Cut(OnChainText(text, opt, scan))| == |Cut(text)|
    ensures forall k | 0 <= k < |Cut(text)| ::
              WellRead(Parsed(text).lines[k]) &&
              IsOnChainPiece(Cut(OnChainText(text, opt, scan))[k], Cut(text)[k], Parsed(text).lines[k], opt, scan)
  {
    OnChainTextIsRecut(text, opt, scan);
    ParsedPieces(Cut(text), "", 1);
    hide OnChainText, FileRefusal, WellRead, LineRefusal, IsOnChainPiece, ParsedLines, Gathered, Decide, OnChainLine;
    forall k | 0 <= k < |Cut(text)|
      ensures WellRead(Parsed(text).lines[k]) &&
              IsOnChainPiece(Cut(OnChainText(text, opt, scan))[k], Cut(text)[k], Parsed(text).lines[k], opt, scan)
    {
      var f := Parsed(text).lines;
      assert WellRead(f[k]) && LineRefusal(f[k], scan) == None;
      OnChainPieceAt(f, Cut(text), Cut(OnChainText(text, opt, scan)), opt, scan, k);
    }
  }

  lemma OnChainPieceAt(f: seq<Line>, ps: seq<Piece>, qs: seq<Piece>, opt: Options, scan: Scanners, k: nat)
    requires k < |f| && ps == Pieces(f) && qs == Pieces(OnChainLines(f, opt, scan))
    ensures IsOnChainPiece(qs[k], ps[k], f[k], opt, scan)
  {
    hide Decide;
  }

  /** Every line of the on-chain text is read in the stanza it was in, with the setting it had. */
  lemma OnChainReadsAs(text: string, opt: Options, scan: Scanners, i: nat)
    requires FileRefusal(Parsed(text), scan) == None && i < |Parsed(text).lines|
    ensures |Parsed(OnChainText(text, opt, scan)).lines| == |Parsed(text).lines|
    ensures ReadsAs(Parsed(OnChainText(text, opt, scan)).lines[i], Parsed(text).lines[i],
                    Decide(Parsed(text).lines[i], opt, scan))
  {
    OnChainPieces(text, opt, scan);
    hide OnChainText, FileRefusal, WellRead, IsOnChainPiece, Decide, Cut, ParsedLines, ReadsAs, Gathered;
    LinesReadAs(Cut(text), Cut(OnChainText(text, opt, scan)), opt, scan, i);
  }

  /** Redaction is complete in one pass: no unmarked line of the on-chain text would be moved again. */
  lemma OnChainIsClean(text: string, opt: Options, scan: Scanners, i: nat)
    requires FileRefusal(Parsed(text), scan) == None && i < |Parsed(text).lines|
    ensures |Parsed(OnChainText(text, opt, scan)).lines| == |Parsed(text).lines|
    ensures var g := Parsed(OnChainText(text, opt, scan)).lines[i];
            && (!IsMarker(g.raw) ==> Decide(g, opt, scan).Keep?)
            && (g.kind == Value && g.raw != MOVED_MARKER ==> ValueReasonOpt(g.stanza, g.value, opt, scan) == "")
  {
    OnChainPieces(text, opt, scan);
    OnChainReadsAs(text, opt, scan, i);
    var on := OnChainText(text, opt, scan);
    ParsedPieces(Cut(on), "", 1);
    var f, g := Parsed(text).lines[i], Parsed(on).lines[i];
    assert Pieces(Parsed(on).lines)[i] == Cut(on)[i];
    assert WellRead(f) && g.raw == OnChainLine(f, Decide(f, opt, scan)).raw;
    hide OnChainText, FileRefusal, Parsed, Cut;
    CleanLine(f, g, opt, scan);
  }

  lemma CleanLine(f: Line, g: Line, opt: Options, scan: Scanners)
    requires WellRead(f) && ReadsAs(g, f, Decide(f, opt, scan)) && g.raw == OnChainLine(f, Decide(f, opt, scan)).raw
    ensures !IsMarker(g.raw) ==> Decide(g, opt, scan).Keep?
    ensures g.kind == Value && g.raw != MOVED_MARKER ==> ValueReasonOpt(g.stanza, g.value, opt, scan) == ""
  {
    hide IsMarker, WellRead, ValueReasonOpt;
    if !Decide(f, opt, scan).Keep? {
      MovedIsMarker(f, opt, scan);
    }
  }

  /** The headers of the on-chain text are the headers of the file. */
  lemma OnChainHeaders(text: string, opt: Options, scan: Scanners, i: nat)
    requires FileRefusal(Parsed(text), scan) == None && i < |Parsed(text).lines|
    ensures |Parsed(OnChainText(text, opt, scan)).lines| == |Parsed(text).lines|
    ensures Parsed(text).lines[i].kind == Header <==> Parsed(OnChainText(text, opt, scan)).lines[i].kind == Header
    ensures Parsed(text).lines[i].kind == Header ==>
              Parsed(OnChainText(text, opt, scan)).lines[i] == Parsed(text).lines[i]
  {
    OnChainReadsAs(text, opt, scan, i);
    MovedFacts(Parsed(text).lines[i], opt, scan);
    hide Decide, OnChainText, FileRefusal;
  }
}
