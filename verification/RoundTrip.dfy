/**
  Merging the two halves of a split config gives the operator's bytes back, through text and
  whatever the scanners decide.
 */
module RoundTrip {
  import opened Common
  import opened ConfigText
  import opened Redact

  // ----- the markers as text -----

  lemma MarkersAsText()
    ensures OneLine(MOVED_MARKER) && OneLine(COMMENT_MARKER)
    ensures MARKER_PREFIX <= MOVED_MARKER && MARKER_PREFIX <= COMMENT_MARKER
    ensures MOVED_MARKER[|MOVED_MARKER| - 1] == 'e' && COMMENT_MARKER[|COMMENT_MARKER| - 1] == 'e'
    ensures MOVED_MARKER[0] == '#' && COMMENT_MARKER[0] == '#'
  {
    MovedMarkerIsOneLine();
    CommentMarkerIsOneLine();
  }

  lemma MovedMarkerIsOneLine()
    ensures OneLine(MOVED_MARKER)
  {
    assert MOVED_MARKER == "# xrplbak: " + "content " + "moved to " + "the off-" + "chain bundle";
    MarkerIsOneLine("# xrplbak: ", "content ", "moved to ", "the off-", "chain bundle");
  }

  lemma CommentMarkerIsOneLine()
    ensures OneLine(COMMENT_MARKER)
  {
    assert COMMENT_MARKER == "# xrplbak: " + "comment " + "moved to " + "the off-" + "chain bundle";
    MarkerIsOneLine("# xrplbak: ", "comment ", "moved to ", "the off-", "chain bundle");
  }

  lemma MarkerIsOneLine(a: string, b: string, d: string, e: string, f: string)
    requires a == "# xrplbak: " && (b == "content " || b == "comment ")
    requires d == "moved to " && e == "the off-" && f == "chain bundle"
    ensures OneLine(a + b + d + e + f)
  {
    assert OneLine(a) && OneLine(b) && OneLine(d) && OneLine(e) && OneLine(f);
    OneLineTail(d, e, f);
    OneLineTail(a, b, d + e + f);
    assert a + b + (d + e + f) == a + b + d + e + f;
  }

  lemma OneLineTail(a: string, b: string, c: string)
    requires OneLine(a) && OneLine(b) && OneLine(c)
    ensures OneLine(a + b + c)
  {}

  lemma {:induction false} ContainsAt(s: string, part: string, i: nat)
    requires i + |part| <= |s| && s[i..i + |part|] == part
    ensures Contains(s, part)
  {
    if i == 0 {
      assert part <= s;
    } else {
      assert s[1..][i - 1..i - 1 + |part|] == part;
      ContainsAt(s[1..], part, i - 1);
    }
  }

  // ----- strings.TrimSpace -----

  lemma {:induction false} SpaceTrimLeftOf(spaces: string, s: string)
    requires AllSpaces(spaces)
    ensures SpaceTrimLeft(spaces + s) == SpaceTrimLeft(s)
  {
    if spaces == "" {
      assert spaces + s == s;
    } else {
      assert SpaceAt(spaces + s) == 1;
      assert (spaces + s)[1..] == spaces[1..] + s;
      SpaceTrimLeftOf(spaces[1..], s);
    }
  }

  lemma {:induction false} SpaceTrimRightOf(s: string, spaces: string)
    requires AllSpaces(spaces)
    ensures SpaceTrimRight(s + spaces) == SpaceTrimRight(s)
  {
    if spaces == "" {
      assert s + spaces == s;
    } else {
      assert SpaceBefore(s + spaces) == 1;
      assert (s + spaces)[..|s + spaces| - 1] == s + spaces[..|spaces| - 1];
      SpaceTrimRightOf(s, spaces[..|spaces| - 1]);
    }
  }

  // Trimming on the left never goes past a "#".
  lemma {:induction false} SpaceTrimLeftStops(a: string, b: string) returns (a': string)
    requires b != "" && b[0] == '#'
    ensures SpaceTrimLeft(a + b) == a' + b
    decreases |a|
  {
    var n := SpaceAt(a + b);
    assert (a + b)[|a|] == '#';
    if n == 0 {
      a' := a;
    } else {
      assert (a + b)[n..] == a[n..] + b;
      a' := SpaceTrimLeftStops(a[n..], b);
    }
  }

  lemma TrimSpaceIsPart(s: string) returns (from: nat)
    ensures from + |TrimSpace(s)| <= |s| && s[from..from + |TrimSpace(s)|] == TrimSpace(s)
  {
    from := |s| - |SpaceTrimLeft(s)|;
  }

  // ----- which lines are markers -----

  lemma MarkerContainsPrefix(raw: string)
    requires IsMarker(raw)
    ensures Contains(raw, MARKER_PREFIX)
  {
    MarkersAsText();
    hide TrimSpace, Contains;
    var t := TrimSpace(raw);
    var from := TrimSpaceIsPart(raw);
    if t == MOVED_MARKER {
      PrefixOfPart(raw, from, t, 0, MOVED_MARKER);
    } else {
      PrefixOfPart(raw, from, t, |t| - |COMMENT_MARKER|, COMMENT_MARKER);
    }
  }

  lemma PrefixOfPart(raw: string, from: nat, t: string, at: nat, marker: string)
    requires from + |t| <= |raw| && raw[from..from + |t|] == t
    requires at <= |t| && t[at..] == marker && MARKER_PREFIX <= marker
    ensures Contains(raw, MARKER_PREFIX)
  {
    hide Contains;
    var n := |MARKER_PREFIX|;
    forall k | 0 <= k < n
      ensures raw[from + at + k] == MARKER_PREFIX[k]
    {
      assert raw[from + at + k] == t[at + k] == t[at..][k];
    }
    assert raw[from + at..from + at + n] == MARKER_PREFIX;
    ContainsAt(raw, MARKER_PREFIX, from + at);
  }

  lemma BlankIsNoMarker(raw: string)
    requires Trim(raw) == ""
    ensures !IsMarker(raw)
  {
    var left, right := TrimSplits(raw);
    assert raw == (left + right) + "";
    SpaceTrimLeftOf(left + right, "");
  }

  lemma HeaderIsNoMarker(raw: string)
    requires LooksLikeHeader(Trim(raw))
    ensures !IsMarker(raw)
  {
    var left, right := TrimSplits(raw);
    TrimSpaceOfHeader(left, Trim(raw), right);
    hide Trim, TrimSpace, SpaceTrimLeft, SpaceTrimRight;
    HeaderTextIsNoMarker(Trim(raw));
  }

  lemma TrimSpaceOfHeader(left: string, t: string, right: string)
    requires AllSpaces(left) && AllSpaces(right) && LooksLikeHeader(t)
    ensures TrimSpace(left + t + right) == t
  {
    assert left + t + right == left + (t + right);
    SpaceTrimLeftOf(left, t + right);
    BracketStopsTrim(t, right);
    SpaceTrimRightOf(t, right);
    BracketStopsTrim(t, "");
    assert t + "" == t;
  }

  lemma HeaderTextIsNoMarker(t: string)
    requires LooksLikeHeader(t)
    ensures t != MOVED_MARKER && !HasSuffix(t, COMMENT_MARKER)
  {
    MarkersAsText();
    if HasSuffix(t, COMMENT_MARKER) {
      assert false;
    }
  }

  lemma BracketStopsTrim(t: string, more: string)
    requires LooksLikeHeader(t)
    ensures SpaceTrimLeft(t + more) == t + more && SpaceTrimRight(t) == t
  {
    assert (t + more)[0] == '[';
  }

  lemma MovedMarkerIsMarker()
    ensures IsMarker(MOVED_MARKER)
  {
    MarkersAsText();
  }

  lemma CommentMarkerIsMarker(v: string)
    ensures IsMarker(v + " " + COMMENT_MARKER)
  {
    MarkersAsText();
    var raw := v + " " + COMMENT_MARKER;
    var rest := SpaceTrimLeftStops(v + " ", COMMENT_MARKER);
    var t := rest + COMMENT_MARKER;
    assert t[|t| - 1] == 'e';
    assert TrimSpace(raw) == t;
  }

  // ----- what the parser knows of a line -----

  // Reading the line again in its own stanza gives what the line records.
  ghost predicate WellRead(l: Line) {
    Classify(l.raw, l.stanza) == Reading(l.kind, l.stanza, l.value, l.comment)
  }

  lemma ParsedIsWellRead(text: string, i: nat)
    requires i < |Parsed(text).lines|
    ensures WellRead(Parsed(text).lines[i])
  {
    hide ParsedLine, Classify;
    ParsedLinesAt(Cut(text), "", 1, i);
    var lines := Parsed(text).lines;
    ParsedLineWellRead(Cut(text)[i], if i == 0 then "" else lines[i - 1].stanza, 1 + i);
  }

  lemma ParsedLineWellRead(p: Piece, stanza: string, no: nat)
    ensures WellRead(ParsedLine(p, stanza, no))
  {
    var r := Classify(p.raw, stanza);
    HeaderInAnyStanza(p.raw, stanza, r.stanza);
    hide Classify;
  }

  lemma HeaderInAnyStanza(raw: string, stanza: string, other: string)
    requires Classify(raw, stanza).kind == Header || stanza == other
    ensures Classify(raw, other) == Classify(raw, stanza)
  {}

  /** A line whose inline comment was taken off: its setting, spaces, then the comment. */
  lemma CommentShape(l: Line) returns (line: string, spaces: string)
    requires WellRead(l) && l.comment != ""
    ensures l.kind == Value && line == Trim(l.raw) && line == l.value + spaces + l.comment && AllSpaces(spaces)
    ensures l.value != "" && Trimmed(l.value) && l.value[0] != '#' && !LooksLikeHeader(l.value)
    ensures forall k | 0 <= k < |l.value| :: !StartsComment(l.value, k)
    ensures l.comment[0] == '#' && (spaces == "" ==> l.value[|l.value| - 1] != '\\')
    ensures OneLine(l.raw) ==> OneLine(l.value)
  {
    hide *;
    var c := CommentReading(l);
    line := Trim(l.raw);
    var left, right := TrimSplits(l.raw);
    spaces := TrimmedPrefix(line, c);
    SettingFacts(line, c, l.value, spaces, l.comment);
    PartIsOneLine(left, line, right, l.value, l.raw);
  }

  lemma CommentReading(l: Line) returns (c: nat)
    requires WellRead(l) && l.comment != ""
    ensures l.kind == Value && 0 < c < |Trim(l.raw)|
    ensures l.value == Trim(Trim(l.raw)[..c]) && l.comment == Trim(l.raw)[c..] && !LooksLikeHeader(l.value)
    ensures StartsComment(Trim(l.raw), c) && Trim(l.raw)[c] == '#' && Trimmed(Trim(l.raw))
    ensures forall k | 0 <= k < c :: !StartsComment(Trim(l.raw), k)
  {
    var left, right := TrimSplits(l.raw);
    hide Trim;
    c := CommentFrom(Trim(l.raw), 0);
  }

  lemma PartIsOneLine(left: string, line: string, right: string, value: string, raw: string)
    requires raw == left + line + right && value <= line
    ensures OneLine(raw) ==> OneLine(value)
  {
    assert forall k | 0 <= k < |value| :: raw[|left| + k] == line[k] == value[k];
  }

  lemma SettingFacts(line: string, c: nat, v: string, spaces: string, comment: string)
    requires c < |line| && line[..c] == v + spaces && v != "" && StartsComment(line, c) && comment == line[c..]
    requires forall k | 0 <= k < c :: !StartsComment(line, k)
    ensures v <= line && line == v + spaces + comment && comment[0] == '#'
    ensures v[0] == line[0] && v[0] != '#'
    ensures forall k | 0 <= k < |v| :: !StartsComment(v, k)
    ensures spaces == "" ==> v[|v| - 1] != '\\'
  {
    assert line == line[..c] + line[c..];
    forall k | 0 <= k < |v|
      ensures !StartsComment(v, k) && line[k] == v[k]
    {
      assert line[..c][k] == v[k];
      assert k > 0 ==> line[..c][k - 1] == v[k - 1];
      assert !StartsComment(line, k);
    }
    assert spaces == "" ==> line[..c][c - 1] == v[|v| - 1];
    assert !StartsComment(line, 0);
  }

  // Trimming a prefix of a trimmed text takes spaces off its end only.
  lemma TrimmedPrefix(line: string, c: nat) returns (spaces: string)
    requires 0 < c <= |line| && Trimmed(line)
    ensures line[..c] == Trim(line[..c]) + spaces && AllSpaces(spaces)
    ensures Trim(line[..c]) != "" && Trimmed(Trim(line[..c])) && Trim(line[..c])[0] == line[0]
  {
    var left, right := TrimSplits(line[..c]);
    hide Trim;
    var v := Trim(line[..c]);
    FirstCharacter(line[..c], left, v, right);
    spaces := right;
    assert left + v + right == v + right;
  }

  lemma FirstCharacter(s: string, left: string, v: string, right: string)
    requires s == left + v + right && s != "" && !IsAsciiSpace(s[0]) && AllSpaces(left) && AllSpaces(right)
    ensures left == "" && v != "" && v[0] == s[0]
  {
    if left != "" {
      assert false;
    }
    if v == "" {
      assert false;
    }
  }

  // ----- the on-chain document read again -----

  /** A line left with the comment marker keeps its setting, and has the marker as its comment. */
  lemma CommentMarkerRead(v: string, stanza: string)
    requires v != "" && Trimmed(v) && v[0] != '#' && !LooksLikeHeader(v)
    requires forall k | 0 <= k < |v| :: !StartsComment(v, k)
    ensures Classify(v + " " + COMMENT_MARKER, stanza) == Reading(Value, stanza, v, COMMENT_MARKER)
  {
    MarkersAsText();
    var raw := v + " " + COMMENT_MARKER;
    assert raw[0] == v[0] && raw[|raw| - 1] == 'e';
    TrimOfTrimmed(raw);
    var c := |v| + 1;
    assert raw[c] == '#' && raw[c - 1] == ' ';
    assert StartsComment(raw, c);
    forall k | 0 <= k < c
      ensures !StartsComment(raw, k)
    {
      if k < |v| {
        assert raw[k] == v[k] && (k > 0 ==> raw[k - 1] == v[k - 1]);
        assert !StartsComment(v, k);
      }
    }
    assert CommentFrom(raw, 0) == c;
    assert raw[..c] == "" + v + " ";
    TrimOf("", v, " ");
    assert raw[c..] == COMMENT_MARKER;
  }

  lemma MovedMarkerRead(stanza: string)
    ensures Classify(MOVED_MARKER, stanza) == Reading(Value, stanza, MOVED_MARKER, "")
  {
    MarkersAsText();
    assert Trimmed(MOVED_MARKER) && MARKER_PREFIX <= MOVED_MARKER && !LooksLikeHeader(MOVED_MARKER);
    TrimOfTrimmed(MOVED_MARKER);
    assert StartsComment(MOVED_MARKER, 0);
    assert CommentFrom(MOVED_MARKER, 0) == 0;
    hide Trim, CommentFrom, LooksLikeHeader;
  }

  // ----- both halves through text -----

  // The lines of a text that Split accepts.
  ghost predicate Accepted(lines: seq<Line>, scan: Scanners) {
    forall i | 0 <= i < |lines| :: WellRead(lines[i]) && LineRefusal(lines[i], scan) == None
  }

  lemma {:induction false} NoLineRefused(lines: seq<Line>, scan: Scanners, i: nat)
    requires LinesRefusal(lines, scan) == None && i < |lines|
    ensures LineRefusal(lines[i], scan) == None
  {
    if i > 0 {
      NoLineRefused(lines[1..], scan, i - 1);
    }
  }

  lemma AcceptedText(text: string, scan: Scanners)
    requires FileRefusal(Parsed(text), scan) == None
    ensures Accepted(Parsed(text).lines, scan) && WellCut(Pieces(Parsed(text).lines))
  {
    var lines := Parsed(text).lines;
    CutIsExact(text);
    ParsedPieces(Cut(text), "", 1);
    forall i | 0 <= i < |lines|
      ensures WellRead(lines[i]) && LineRefusal(lines[i], scan) == None
    {
      ParsedIsWellRead(text, i);
      NoLineRefused(lines, scan, i);
    }
  }

  lemma KindFacts(l: Line)
    requires WellRead(l)
    ensures l.kind == Blank ==> Trim(l.raw) == ""
    ensures l.kind == Header ==> LooksLikeHeader(Trim(l.raw))
    ensures l.kind == Comment || l.kind == Value ==> Trim(l.raw) != ""
  {
    hide Trim;
  }

  lemma MovedFacts(l: Line, opt: Options, scan: Scanners)
    ensures !Decide(l, opt, scan).Keep? ==> l.kind == Comment || l.kind == Value
    ensures Decide(l, opt, scan).MoveComment? ==> l.kind == Value && l.comment != ""
  {
    hide ValueReasonOpt;
  }

  lemma UnrefusedHasNoMarker(l: Line, scan: Scanners)
    requires LineRefusal(l, scan) == None && (l.kind == Comment || l.kind == Value)
    ensures !Contains(l.raw, MARKER_PREFIX)
  {}

  lemma KeptIsNoMarker(l: Line, opt: Options, scan: Scanners)
    requires WellRead(l) && LineRefusal(l, scan) == None && Decide(l, opt, scan).Keep?
    ensures !IsMarker(l.raw)
  {
    KindFacts(l);
    hide *;
    match l.kind {
      case Blank => BlankIsNoMarker(l.raw);
      case Header => HeaderIsNoMarker(l.raw);
      case _ =>
        UnrefusedHasNoMarker(l, scan);
        if IsMarker(l.raw) {
          MarkerContainsPrefix(l.raw);
          assert false;
        }
    }
  }

  lemma TrimOfEmpty()
    ensures Trim("") == ""
  {}

  lemma MovedIsMarker(l: Line, opt: Options, scan: Scanners)
    requires WellRead(l) && !Decide(l, opt, scan).Keep?
    ensures l.raw != "" && IsMarker(OnChainLine(l, Decide(l, opt, scan)).raw)
    ensures OnChainLine(l, Decide(l, opt, scan)).raw != ""
    ensures OneLine(l.raw) ==> OneLine(OnChainLine(l, Decide(l, opt, scan)).raw)
  {
    hide Decide, IsMarker, WellRead, Trim, OneLine;
    MarkersAsText();
    MovedFacts(l, opt, scan);
    KindFacts(l);
    TrimOfEmpty();
    if Decide(l, opt, scan).MoveLine? {
      MovedMarkerIsMarker();
    } else {
      var line, spaces := CommentShape(l);
      CommentMarkerIsMarker(l.value);
      CommentMarkedIsOneLine(l.value);
    }
  }

  lemma CommentMarkedIsOneLine(v: string)
    ensures OneLine(v) ==> OneLine(v + " " + COMMENT_MARKER)
  {
    MarkersAsText();
  }

  lemma KeptAsItIs()
    ensures forall l, d: Decision | d.Keep? :: OnChainLine(l, d) == l
    ensures forall l, d :: OnChainLine(l, d).end == l.end
  {
  }

  lemma OnChainIsWellCut(lines: seq<Line>, opt: Options, scan: Scanners)
    requires Accepted(lines, scan) && WellCut(Pieces(lines))
    ensures WellCut(Pieces(OnChainLines(lines, opt, scan)))
  {
    hide Decide, LineRefusal, WellRead, OneLine, OnChainLine;
    var on := OnChainLines(lines, opt, scan);
    var ps, qs := Pieces(lines), Pieces(on);
    KeptAsItIs();
    forall i | 0 <= i < |lines|
      ensures OneLine(qs[i].raw) && qs[i].end == ps[i].end && (qs[i].raw == "" ==> ps[i].raw == "")
    {
      assert OneLine(ps[i].raw) && WellRead(lines[i]);
      if !Decide(lines[i], opt, scan).Keep? {
        MovedIsMarker(lines[i], opt, scan);
      }
    }
  }

  // A line that may stand at that place in a rendered bundle.
  ghost predicate BundlePiece(l: Line, isLast: bool) {
    l.raw != "" && OneLine(l.raw) && (IsEnd(l.end) || (isLast && l.end == ""))
  }

  lemma {:induction false} BundleShape(lines: seq<Line>, opt: Options, scan: Scanners, i: nat)
    requires Accepted(lines, scan)
    requires forall k | 0 <= k < |lines| :: OneLine(lines[k].raw)
    requires forall k | 0 <= k < |lines| :: IsEnd(lines[k].end) || (k == |lines| - 1 && lines[k].end == "")
    requires i < |BundleLines(lines, opt, scan)|
    ensures BundlePiece(BundleLines(lines, opt, scan)[i], i == |BundleLines(lines, opt, scan)| - 1)
  {
    hide Decide, WellRead, LineRefusal, OneLine, IsEnd;
    var l, rest := lines[0], BundleLines(lines[1..], opt, scan);
    if Decide(l, opt, scan).Keep? {
      assert BundleLines(lines, opt, scan) == rest;
      BundleShape(lines[1..], opt, scan, i);
    } else {
      assert BundleLines(lines, opt, scan) == [l] + rest;
      if i > 0 {
        BundleShape(lines[1..], opt, scan, i - 1);
      } else {
        assert WellRead(l);
        MovedIsMarker(l, opt, scan);
        assert |lines| == 1 ==> rest == [];
      }
    }
  }

  // What ends the text of a bundle: the empty segment after the last terminator, if there is one.
  ghost predicate IsTail(tail: seq<Piece>) {
    tail == [] || tail == [Piece("", "")]
  }

  lemma BundleRecut(lines: seq<Line>, opt: Options, scan: Scanners) returns (tail: seq<Piece>)
    requires Accepted(lines, scan) && WellCut(Pieces(lines))
    ensures IsTail(tail)
    ensures Cut(Joined(Pieces(BundleLines(lines, opt, scan)))) == Pieces(BundleLines(lines, opt, scan)) + tail
  {
    var b := BundleLines(lines, opt, scan);
    hide Cut, BundleLines, Accepted, Joined;
    forall k | 0 <= k < |lines|
      ensures OneLine(lines[k].raw) && (IsEnd(lines[k].end) || (k == |lines| - 1 && lines[k].end == ""))
    {
      assert Pieces(lines)[k] == Piece(lines[k].raw, lines[k].end);
    }
    forall i | 0 <= i < |b|
      ensures BundlePiece(b[i], i == |b| - 1)
    {
      BundleShape(lines, opt, scan, i);
    }
    tail := if b != [] && b[|b| - 1].end == "" then [] else [Piece("", "")];
    BundleIsWellCut(b, tail);
    CutOfJoined(Pieces(b) + tail);
    JoinedTail(Pieces(b));
    assert Pieces(b) + [] == Pieces(b);
  }

  lemma BundleIsWellCut(b: seq<Line>, tail: seq<Piece>)
    requires forall i | 0 <= i < |b| :: BundlePiece(b[i], i == |b| - 1)
    requires tail == if b != [] && b[|b| - 1].end == "" then [] else [Piece("", "")]
    ensures WellCut(Pieces(b) + tail)
  {
    var ps := Pieces(b) + tail;
    forall i | 0 <= i < |ps|
      ensures OneLine(ps[i].raw) && (i < |ps| - 1 ==> IsEnd(ps[i].end)) && (i == |ps| - 1 ==> ps[i].end == "")
      ensures ps[i].raw != "" || ps[i].end == ""
    {
      if i < |b| {
        assert BundlePiece(b[i], i == |b| - 1);
      }
    }
  }

  lemma {:induction false} JoinedTail(ps: seq<Piece>)
    ensures Joined(ps + [Piece("", "")]) == Joined(ps)
  {
    if ps == [] {
      assert ps + [Piece("", "")] == [Piece("", "")];
    } else {
      assert (ps + [Piece("", "")])[1..] == ps[1..] + [Piece("", "")];
      JoinedTail(ps[1..]);
    }
  }

  /** Merging any reading of the on-chain lines with any reading of the bundle lines restores the lines. */
  lemma {:induction false} MergeRestores(lines: seq<Line>, on: seq<Line>, bundle: seq<Line>, tail: seq<Piece>,
                                         opt: Options, scan: Scanners)
    requires Accepted(lines, scan) && IsTail(tail)
    requires Pieces(on) == Pieces(OnChainLines(lines, opt, scan))
    requires Pieces(bundle) == Pieces(BundleLines(lines, opt, scan)) + tail
    ensures Pieces(MergedLines(on, bundle)) == Pieces(lines)
  {
    hide Decide, WellRead, LineRefusal, IsMarker, OnChainLines, BundleLines, OnChainLine, MergedLines;
    if lines == [] {
      MergeOfNothing(on, bundle, tail, opt, scan);
    } else {
      var l, rest := lines[0], lines[1..];
      assert WellRead(l) && LineRefusal(l, scan) == None;
      OnChainRest(lines, on, opt, scan);
      assert lines == [l] + rest;
      PiecesCons(l, rest);
      if Decide(l, opt, scan).Keep? {
        KeptIsNoMarker(l, opt, scan);
        KeptInBundle(lines, opt, scan);
        MergeRestores(rest, on[1..], bundle, tail, opt, scan);
        MergeKeeps(on, bundle);
      } else {
        MovedIsMarker(l, opt, scan);
        BundleRest(lines, bundle, tail, opt, scan);
        MergeRestores(rest, on[1..], bundle[1..], tail, opt, scan);
        MergeTakes(on, bundle);
      }
    }
  }

  lemma MergeOfNothing(on: seq<Line>, bundle: seq<Line>, tail: seq<Piece>, opt: Options, scan: Scanners)
    requires IsTail(tail) && Pieces(on) == Pieces(OnChainLines([], opt, scan))
    requires Pieces(bundle) == Pieces(BundleLines([], opt, scan)) + tail
    ensures MergedLines(on, bundle) == []
  {
    assert |on| == 0;
    assert Pieces(bundle) == tail;
    assert |bundle| == |tail|;
    assert bundle != [] ==> Pieces(bundle)[0] == Piece("", "");
  }

  lemma KeptInBundle(lines: seq<Line>, opt: Options, scan: Scanners)
    requires lines != [] && Decide(lines[0], opt, scan).Keep?
    ensures BundleLines(lines, opt, scan) == BundleLines(lines[1..], opt, scan)
  {
    hide Decide;
    assert [] + BundleLines(lines[1..], opt, scan) == BundleLines(lines[1..], opt, scan);
  }

  lemma MergeKeeps(on: seq<Line>, bundle: seq<Line>)
    requires on != [] && !IsMarker(on[0].raw)
    ensures Pieces(MergedLines(on, bundle)) == [Piece(on[0].raw, on[0].end)] + Pieces(MergedLines(on[1..], bundle))
  {
    hide IsMarker;
    PiecesCons(on[0], MergedLines(on[1..], bundle));
  }

  lemma MergeTakes(on: seq<Line>, bundle: seq<Line>)
    requires on != [] && IsMarker(on[0].raw) && bundle != [] && bundle[0].raw != ""
    ensures Pieces(MergedLines(on, bundle))
         == [Piece(bundle[0].raw, on[0].end)] + Pieces(MergedLines(on[1..], bundle[1..]))
  {
    hide IsMarker;
    assert Take(bundle) == (Some(bundle[0]), bundle[1..]);
    PiecesCons(bundle[0].(end := on[0].end), MergedLines(on[1..], bundle[1..]));
  }

  lemma OnChainRest(lines: seq<Line>, on: seq<Line>, opt: Options, scan: Scanners)
    requires lines != [] && Pieces(on) == Pieces(OnChainLines(lines, opt, scan))
    ensures on != [] && Pieces(on[1..]) == Pieces(OnChainLines(lines[1..], opt, scan))
    ensures on[0].end == lines[0].end && on[0].raw == OnChainLine(lines[0], Decide(lines[0], opt, scan)).raw
    ensures Decide(lines[0], opt, scan).Keep? ==> on[0].raw == lines[0].raw
  {
    hide Decide;
    assert |on| == |lines|;
    assert Pieces(on)[0] == Pieces(OnChainLines(lines, opt, scan))[0];
    assert OnChainLines(lines, opt, scan)[1..] == OnChainLines(lines[1..], opt, scan);
    assert Pieces(on)[1..] == Pieces(on[1..]);
    assert Pieces(OnChainLines(lines, opt, scan))[1..] == Pieces(OnChainLines(lines, opt, scan)[1..]);
  }

  lemma BundleRest(lines: seq<Line>, bundle: seq<Line>, tail: seq<Piece>, opt: Options, scan: Scanners)
    requires lines != [] && !Decide(lines[0], opt, scan).Keep?
    requires Pieces(bundle) == Pieces(BundleLines(lines, opt, scan)) + tail
    ensures bundle != [] && bundle[0].raw == lines[0].raw && bundle[0].end == lines[0].end
    ensures Pieces(bundle[1..]) == Pieces(BundleLines(lines[1..], opt, scan)) + tail
  {
    hide Decide;
    var rest := BundleLines(lines[1..], opt, scan);
    assert BundleLines(lines, opt, scan) == [lines[0]] + rest;
    PiecesCons(lines[0], rest);
    assert Pieces(bundle) == [Piece(lines[0].raw, lines[0].end)] + (Pieces(rest) + tail);
    assert |bundle| > 0 && Pieces(bundle)[0] == Piece(lines[0].raw, lines[0].end);
    assert Pieces(bundle[1..]) == Pieces(bundle)[1..];
  }

  // What restoring from the two texts gives.
  function MergedText(onChain: string, bundle: string): string {
    Joined(Pieces(MergedLines(Parsed(onChain).lines, Parsed(bundle).lines)))
  }

  // The same without a bundle.
  function BareText(onChain: string): string {
    Joined(Pieces(MergedLines(Parsed(onChain).lines, [])))
  }

  /** Splitting, rendering, parsing and merging is the identity on every text that is not refused. */
  lemma SplitThenMerge(text: string, opt: Options, scan: Scanners)
    requires FileRefusal(Parsed(text), scan) == None
    ensures MergedText(OnChainText(text, opt, scan), BundleText(text, opt, scan)) == text
  {
    var lines := Parsed(text).lines;
    AcceptedText(text, scan);
    OnChainIsWellCut(lines, opt, scan);
    var onText, bundleText := OnChainText(text, opt, scan), BundleText(text, opt, scan);
    CutOfJoined(Pieces(OnChainLines(lines, opt, scan)));
    ParsedPieces(Cut(onText), "", 1);
    var tail := BundleRecut(lines, opt, scan);
    ParsedPieces(Cut(bundleText), "", 1);
    MergeRestores(lines, Parsed(onText).lines, Parsed(bundleText).lines, tail, opt, scan);
    RenderInvertsParse(text);
  }

  /** A file that loses no line needs no bundle. */
  lemma NothingMovedNeedsNoBundle(text: string, opt: Options, scan: Scanners)
    requires FileRefusal(Parsed(text), scan) == None && BundleLines(Parsed(text).lines, opt, scan) == []
    ensures BareText(OnChainText(text, opt, scan)) == text
  {
    hide Cut, OnChainLines, MergedLines, Accepted;
    var lines := Parsed(text).lines;
    AcceptedText(text, scan);
    OnChainIsWellCut(lines, opt, scan);
    var onText := OnChainText(text, opt, scan);
    CutOfJoined(Pieces(OnChainLines(lines, opt, scan)));
    ParsedPieces(Cut(onText), "", 1);
    assert Pieces([]) + [] == Pieces(BundleLines(lines, opt, scan)) + [];
    MergeRestores(lines, Parsed(onText).lines, [], [], opt, scan);
    RenderInvertsParse(text);
  }

  /** Without its bundle an on-chain document is restored as it is, markers included. */
  lemma BareMergeIsIdentity(onChain: string)
    ensures BareText(onChain) == onChain
  {
    NoBundleKeepsLines(Parsed(onChain).lines);
    RenderInvertsParse(onChain);
  }

  lemma {:induction false} NoBundleKeepsLines(on: seq<Line>)
    ensures MergedLines(on, []) == on
  {
    if on != [] {
      NoBundleKeepsLines(on[1..]);
    }
  }
}
