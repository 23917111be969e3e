/**
  rippled's own reading of a config, after internal/cfg/rippled_model_test.go, and what it makes of
  the on-chain half.
 */
module RippledReading {
  import opened Common
  import opened ConfigText
  import opened Redact
  import opened RoundTrip
  import opened OnChainReading

  // ----- rippled's reader -----

  function ReplaceCrLf(text: string): string {
    if text == "" then ""
    else if |text| >= 2 && text[0] == '\r' && text[1] == '\n' then "\n" + ReplaceCrLf(text[2..])
    else [text[0]] + ReplaceCrLf(text[1..])
  }

  function ReplaceCr(text: string): string {
    if text == "" then "" else [if text[0] == '\r' then '\n' else text[0]] + ReplaceCr(text[1..])
  }

  function SplitAtNewlines(text: string): (lines: seq<string>)
    ensures lines != []
  {
    if text == "" then [""]
    else if text[0] == '\n' then [""] + SplitAtNewlines(text[1..])
    else
      var rest := SplitAtNewlines(text[1..]);
      [[text[0]] + rest[0]] + rest[1..]
  }

  function RippledLines(text: string): seq<string> {
    SplitAtNewlines(ReplaceCr(ReplaceCrLf(text)))
  }

  function IndexOfHash(s: string, i: nat): (c: int)
    requires i <= |s|
    ensures -1 <= c < |s| && (c >= 0 ==> i <= c && s[c] == '#')
    ensures forall k | i <= k < (if c < 0 then |s| else c) :: s[k] != '#'
    decreases |s| - i
  {
    if i == |s| then -1 else if s[i] == '#' then i else IndexOfHash(s, i + 1)
  }

  // removeComment's loop, with the "#" it looks at in position c.
  function RemoveCommentAt(val: string, c: nat): string
    requires c < |val|
    decreases |val| - c
  {
    if c == 0 then ""
    else if val[c - 1] == '\\' then
      var shorter := val[..c - 1] + val[c..];
      if c >= |shorter| then shorter
      else
        var k := IndexOfHash(shorter, c);
        if k < 0 then shorter else RemoveCommentAt(shorter, k)
    else Trim(val[..c])
  }

  function RemoveComment(val: string): string {
    var c := IndexOfHash(val, 0);
    if c < 0 then val else RemoveCommentAt(val, c)
  }

  // One value that rippled keeps, with the section it keeps it in.
  datatype Entry = Entry(section: string, value: string)

  // What one line of a section gives.
  function LineEntries(raw: string, section: string): seq<Entry> {
    var line := Trim(raw);
    if line == "" || line[0] == '#' || LooksLikeHeader(line) then []
    else if RemoveComment(line) == "" then []
    else [Entry(section, RemoveComment(line))]
  }

  // The section that is open after a line.
  function SectionAfter(raw: string, section: string): string {
    var line := Trim(raw);
    if line != "" && line[0] != '#' && LooksLikeHeader(line) then line[1..|line| - 1] else section
  }

  function Entries(raws: seq<string>, section: string): seq<Entry> {
    if raws == [] then []
    else LineEntries(raws[0], section) + Entries(raws[1..], SectionAfter(raws[0], section))
  }

  /** Every value rippled reads from a config text, in order, with its section. */
  function Reading(text: string): seq<Entry> {
    Entries(RippledLines(text), "")
  }

  // ----- rippled's lines are the parser's lines -----

  function Raws(ps: seq<Piece>): (raws: seq<string>)
    ensures |raws| == |ps|
  {
    seq(|ps|, i requires 0 <= i < |ps| => ps[i].raw)
  }

  lemma {:induction false} SplitFirst(raw: string, tail: string)
    requires OneLine(raw)
    ensures SplitAtNewlines(raw + "\n" + tail) == [raw] + SplitAtNewlines(tail)
  {
    var text := raw + "\n" + tail;
    if raw == "" {
      assert text[1..] == tail;
    } else {
      assert text[1..] == raw[1..] + "\n" + tail;
      SplitFirst(raw[1..], tail);
      assert !IsTerminator(text[0]);
      assert [text[0]] + raw[1..] == raw;
    }
  }

  lemma {:induction false} SplitLast(raw: string)
    requires OneLine(raw)
    ensures SplitAtNewlines(raw) == [raw]
  {
    if raw != "" {
      SplitLast(raw[1..]);
      assert !IsTerminator(raw[0]);
      assert [raw[1..]][1..] == [];
      assert [raw[0]] + raw[1..] == raw;
    }
  }

  lemma {:induction false} CrLfFirst(raw: string, end: string, tail: string)
    requires OneLine(raw) && IsEnd(end) && (end == "\r" ==> !StartsWithNewline(tail))
    ensures ReplaceCrLf(raw + end + tail) == raw + (if end == "\r" then "\r" else "\n") + ReplaceCrLf(tail)
  {
    var text, brk := raw + end + tail, if end == "\r" then "\r" else "\n";
    if raw == "" {
      assert text == end + tail;
      CrLfEnd(end, tail);
      assert "" + brk == brk;
    } else {
      assert text[0] == raw[0] && !IsTerminator(raw[0]);
      assert text[1..] == raw[1..] + end + tail;
      CrLfStep(text);
      hide ReplaceCrLf, IsTerminator;
      CrLfFirst(raw[1..], end, tail);
      RawJoins(raw, brk, ReplaceCrLf(tail));
    }
  }

  lemma CrLfStep(text: string)
    requires text != "" && !IsTerminator(text[0])
    ensures ReplaceCrLf(text) == [text[0]] + ReplaceCrLf(text[1..])
  {
  }

  lemma RawJoins(raw: string, end: string, tail: string)
    requires raw != ""
    ensures [raw[0]] + (raw[1..] + end + tail) == raw + end + tail
  {
  }

  lemma CrLfEnd(end: string, tail: string)
    requires IsEnd(end) && (end == "\r" ==> !StartsWithNewline(tail))
    ensures ReplaceCrLf(end + tail) == (if end == "\r" then "\r" else "\n") + ReplaceCrLf(tail)
  {
    assert (end + tail)[|end|..] == tail;
  }

  lemma {:induction false} CrFirst(raw: string, end: string, tail: string)
    requires OneLine(raw) && (end == "\r" || end == "\n")
    ensures ReplaceCr(raw + end + tail) == raw + "\n" + ReplaceCr(tail)
  {
    var text := raw + end + tail;
    if raw == "" {
      assert text[1..] == tail;
    } else {
      assert !IsTerminator(raw[0]);
      assert text[1..] == raw[1..] + end + tail;
      CrFirst(raw[1..], end, tail);
      assert raw == [raw[0]] + raw[1..];
    }
  }

  lemma NormalizeFirst(raw: string, end: string, tail: string)
    requires OneLine(raw) && IsEnd(end) && (end == "\r" ==> !StartsWithNewline(tail))
    ensures ReplaceCr(ReplaceCrLf(raw + end + tail)) == raw + "\n" + ReplaceCr(ReplaceCrLf(tail))
  {
    CrLfFirst(raw, end, tail);
    CrFirst(raw, if end == "\r" then "\r" else "\n", ReplaceCrLf(tail));
  }

  lemma {:induction false} NormalizeLast(raw: string)
    requires OneLine(raw)
    ensures ReplaceCr(ReplaceCrLf(raw)) == raw
  {
    if raw != "" {
      assert !IsTerminator(raw[0]);
      NormalizeLast(raw[1..]);
      assert ReplaceCrLf(raw)[1..] == ReplaceCrLf(raw[1..]);
    }
  }

  /** Cutting at "\n", "\r\n" and lone "\r" is what rippled's two replacements and split amount to. */
  lemma {:induction false} RippledLinesAreCut(text: string)
    ensures RippledLines(text) == Raws(Cut(text))
    decreases |text|
  {
    if LineLength(text) == |text| {
      NormalizeLast(text);
      SplitLast(text);
    } else {
      var raw, end, tail := CutShape(text);
      hide Cut, ReplaceCr, ReplaceCrLf, SplitAtNewlines, OneLine;
      NormalizeFirst(raw, end, tail);
      SplitFirst(raw, ReplaceCr(ReplaceCrLf(tail)));
      RippledLinesAreCut(tail);
      RawsCons(Piece(raw, end), Cut(tail));
    }
  }

  lemma RawsCons(p: Piece, ps: seq<Piece>)
    ensures Raws([p] + ps) == [p.raw] + Raws(ps)
  {}

  // ----- removing comments -----

  // A text with the backslash of every escaped "#" taken out.
  function Unescaped(s: string): string {
    if s == "" then ""
    else if |s| >= 2 && s[0] == '\\' && s[1] == '#' then "#" + Unescaped(s[2..])
    else [s[0]] + Unescaped(s[1..])
  }

  ghost predicate NoComment(s: string) {
    forall k | 0 <= k < |s| :: !StartsComment(s, k)
  }

  ghost predicate NoHash(s: string) {
    forall k | 0 <= k < |s| :: s[k] != '#'
  }

  lemma {:induction false} UnescapedPlain(x: string, y: string)
    requires NoHash(x)
    ensures Unescaped(x + "\\#" + y) == x + "#" + Unescaped(y)
  {
    var s := x + "\\#" + y;
    if x == "" {
      assert s[2..] == y;
    } else {
      assert s[1..] == x[1..] + "\\#" + y;
      assert s[1] != '#';
      UnescapedPlain(x[1..], y);
      assert x == [x[0]] + x[1..];
    }
  }

  lemma {:induction false} UnescapedNoHash(y: string)
    requires NoHash(y)
    ensures Unescaped(y) == y
  {
    if y != "" {
      assert |y| >= 2 ==> y[1] != '#';
      UnescapedNoHash(y[1..]);
      assert [y[0]] + y[1..] == y;
    }
  }

  lemma {:induction false} UnescapedTail(x: string, y: string)
    requires NoHash(y)
    ensures Unescaped(x + y) == Unescaped(x) + y
    decreases |x|
  {
    if x == "" {
      assert x + y == y;
      UnescapedNoHash(y);
    } else {
      hide Unescaped;
      UnescapedTail(x[EscapeLength(x)..], y);
      UnescapedStep(x, y);
    }
  }

  function EscapeLength(s: string): (n: nat)
    requires s != ""
    ensures 1 <= n <= |s|
  {
    if |s| >= 2 && s[0] == '\\' && s[1] == '#' then 2 else 1
  }

  lemma UnescapedUnfold(s: string)
    requires s != ""
    ensures Unescaped(s) == [if EscapeLength(s) == 2 then '#' else s[0]] + Unescaped(s[EscapeLength(s)..])
  {}

  lemma UnescapedStep(x: string, y: string)
    requires x != "" && NoHash(y)
    requires Unescaped(x[EscapeLength(x)..] + y) == Unescaped(x[EscapeLength(x)..]) + y
    ensures Unescaped(x + y) == Unescaped(x) + y
  {
    hide *;
    UnescapedUnfold(x);
    UnescapedUnfold(x + y);
    EscapeInside(x, y);
    var n := EscapeLength(x);
    assert (x + y)[n..] == x[n..] + y;
    HeadStays([if n == 2 then '#' else x[0]], Unescaped(x[n..]), y);
  }

  lemma HeadStays(head: string, s: string, y: string)
    ensures head + (s + y) == head + s + y
  {
  }

  lemma EscapeInside(x: string, y: string)
    requires x != "" && NoHash(y)
    ensures EscapeLength(x + y) == EscapeLength(x) && (x + y)[0] == x[0]
  {}

  // Where the next escaped "#" of v is, seen from the loop: a is done, w starts the comment.
  lemma NextHash(a: string, v: string, w: string) returns (p: int)
    requires NoComment(v) && w != "" && w[0] == '#'
    ensures -1 <= p < |v|
    ensures p < 0 ==> NoHash(v) && IndexOfHash(a + v + w, |a|) == |a| + |v|
    ensures p >= 0 ==> p >= 1 && v[p] == '#' && v[p - 1] == '\\' && NoHash(v[..p - 1])
    ensures p >= 0 ==> IndexOfHash(a + v + w, |a|) == |a| + p
  {
    var s := a + v + w;
    var c := IndexOfHash(s, |a|);
    assert s[|a| + |v|] == w[0];
    assert forall k | 0 <= k < |v| :: s[|a| + k] == v[k];
    p := if c == |a| + |v| then -1 else c - |a|;
    if p >= 0 {
      assert !StartsComment(v, p);
    }
  }

  /** The loop stops at the comment, with everything before it unescaped and trimmed. */
  lemma {:induction false} RemoveCommentFrom(a: string, v: string, w: string)
    requires NoComment(v) && w != "" && w[0] == '#'
    requires a + v != "" && (a != "" ==> a[|a| - 1] == '#') && (v != "" ==> v[|v| - 1] != '\\')
    ensures IndexOfHash(a + v + w, |a|) >= 0
    ensures RemoveCommentAt(a + v + w, IndexOfHash(a + v + w, |a|)) == Trim(a + Unescaped(v))
    decreases |v|
  {
    hide Trim, IndexOfHash, NoComment, RemoveCommentAt, Unescaped;
    var p := NextHash(a, v, w);
    if p < 0 {
      StopsHere(a, v, w);
    } else {
      var a', v' := a + v[..p - 1] + "#", v[p + 1..];
      RestHasNoComment(v, p);
      RemoveCommentFrom(a', v', w);
      StepsOver(a, v, w, p);
      assert v == v[..p - 1] + "\\#" + v';
      UnescapedPlain(v[..p - 1], v');
      assert a' + Unescaped(v') == a + (v[..p - 1] + "#" + Unescaped(v'));
    }
  }

  lemma StopsHere(a: string, v: string, w: string)
    requires NoHash(v) && w != "" && a + v != ""
    requires (a != "" ==> a[|a| - 1] == '#') && (v != "" ==> v[|v| - 1] != '\\')
    ensures RemoveCommentAt(a + v + w, |a| + |v|) == Trim(a + Unescaped(v))
  {
    hide Trim;
    var s := a + v + w;
    UnescapedTail("", v);
    assert "" + v == v;
    assert s[..|a| + |v|] == a + v;
    assert s[|a| + |v| - 1] == if v != "" then v[|v| - 1] else a[|a| - 1];
  }

  lemma StepsOver(a: string, v: string, w: string, p: nat)
    requires 1 <= p < |v| && v[p] == '#' && v[p - 1] == '\\' && w != ""
    ensures var k := IndexOfHash((a + v[..p - 1] + "#") + v[p + 1..] + w, |a| + p);
            k >= 0 ==>
              RemoveCommentAt(a + v + w, |a| + p) == RemoveCommentAt((a + v[..p - 1] + "#") + v[p + 1..] + w, k)
  {
    hide *;
    var x, y := a + v[..p - 1], v[p + 1..] + w;
    EscapeSplits(v, p);
    Regroup(a, v[..p - 1], "\\#", v[p + 1..], w);
    Regroup(a, v[..p - 1], "#", v[p + 1..], w);
    assert a + (v[..p - 1] + "#" + v[p + 1..]) + w == (a + v[..p - 1] + "#") + v[p + 1..] + w;
    EscapeDropped(x, y);
  }

  lemma EscapeSplits(v: string, p: nat)
    requires 1 <= p < |v| && v[p] == '#' && v[p - 1] == '\\'
    ensures v == v[..p - 1] + "\\#" + v[p + 1..]
  {}

  lemma Regroup(a: string, b: string, c: string, d: string, e: string)
    ensures a + (b + c + d) + e == (a + b) + c + (d + e)
  {}

  lemma EscapeDropped(x: string, y: string)
    requires y != ""
    ensures var k := IndexOfHash(x + "#" + y, |x| + 1);
            k >= 0 ==> RemoveCommentAt(x + "\\#" + y, |x| + 1) == RemoveCommentAt(x + "#" + y, k)
  {
    var s := x + "\\#" + y;
    assert s[..|x|] == x && s[|x| + 1..] == "#" + y;
    assert s[..|x|] + s[|x| + 1..] == x + "#" + y;
  }

  lemma RestHasNoComment(v: string, p: nat)
    requires NoComment(v) && p < |v| && v[p] == '#'
    ensures NoComment(v[p + 1..])
    ensures v[p + 1..] != "" ==> v[p + 1..][|v| - p - 2] == v[|v| - 1]
  {
    var rest := v[p + 1..];
    forall k | 0 <= k < |rest|
      ensures !StartsComment(rest, k)
    {
      assert !StartsComment(v, p + 1 + k);
    }
  }

  /** A setting, spaces and a comment: rippled keeps the unescaped setting. */
  lemma SettingIsKept(v: string, spaces: string, comment: string)
    requires v != "" && NoComment(v) && AllSpaces(spaces) && comment != "" && comment[0] == '#'
    requires spaces == "" ==> v[|v| - 1] != '\\'
    ensures RemoveComment(v + spaces + comment) == Trim(Unescaped(v))
  {
    hide Trim, NoComment, RemoveCommentAt, Unescaped, IndexOfHash;
    var s := v + spaces;
    assert "" + s + comment == v + spaces + comment;
    SpacesKeepNoComment(v, spaces);
    RemoveCommentFrom("", s, comment);
    UnescapedTail(v, spaces);
    assert "" + Unescaped(s) == Unescaped(v) + spaces;
    TrimDropsSpaces(Unescaped(v), spaces);
  }

  lemma SpacesKeepNoComment(v: string, spaces: string)
    requires NoComment(v) && AllSpaces(spaces)
    ensures NoComment(v + spaces) && NoHash(spaces)
    ensures spaces != "" ==> (v + spaces)[|v + spaces| - 1] != '\\'
  {
    var s := v + spaces;
    forall k | 0 <= k < |s|
      ensures !StartsComment(s, k)
    {
      if k < |v| {
        assert !StartsComment(v, k);
      }
    }
  }

  lemma TrimDropsSpaces(s: string, spaces: string)
    requires AllSpaces(spaces)
    ensures Trim(s + spaces) == Trim(s)
  {
    var left, right := TrimSplits(s);
    assert s + spaces == left + Trim(s) + (right + spaces);
    TrimOf(left, Trim(s), right + spaces);
  }

  // ----- rippled's reading of the two texts -----

  // The values of parsed lines, each in the stanza the parser put it in.
  function ReadingOf(lines: seq<Line>): seq<Entry> {
    if lines == [] then [] else LineEntries(lines[0].raw, lines[0].stanza) + ReadingOf(lines[1..])
  }

  lemma StanzaIsSection(p: Piece, stanza: string, no: nat)
    ensures var l := ParsedLine(p, stanza, no);
            SectionAfter(p.raw, stanza) == l.stanza && LineEntries(p.raw, stanza) == LineEntries(l.raw, l.stanza)
  {
    hide Trim, RemoveComment;
  }

  lemma {:induction false} ParserReadsAsRippled(ps: seq<Piece>, stanza: string, no: nat)
    ensures Entries(Raws(ps), stanza) == ReadingOf(ParsedLines(ps, stanza, no))
  {
    if ps != [] {
      hide Classify, LineEntries, SectionAfter;
      var l := ParsedLine(ps[0], stanza, no);
      StanzaIsSection(ps[0], stanza, no);
      assert Raws(ps)[1..] == Raws(ps[1..]);
      ParserReadsAsRippled(ps[1..], l.stanza, no + 1);
      hide ParsedLine;
      assert ParsedLines(ps, stanza, no) == [l] + ParsedLines(ps[1..], l.stanza, no + 1);
    }
  }

  /** The parser puts every value in the section rippled reads it in, in the same order. */
  lemma ReadingIsByLine(text: string)
    ensures Reading(text) == ReadingOf(Parsed(text).lines)
  {
    RippledLinesAreCut(text);
    ParserReadsAsRippled(Cut(text), "", 1);
  }

  // The same, without the lines that Split moves whole.
  function KeptReading(lines: seq<Line>, opt: Options, scan: Scanners): seq<Entry> {
    if lines == [] then []
    else
      (if Decide(lines[0], opt, scan).MoveLine? then [] else LineEntries(lines[0].raw, lines[0].stanza))
        + KeptReading(lines[1..], opt, scan)
  }

  // The line on-chain where f was: its text, and the stanza the parser reads it in.
  ghost predicate StandsFor(g: Line, f: Line, opt: Options, scan: Scanners) {
    WellRead(f) && g.raw == OnChainLine(f, Decide(f, opt, scan)).raw && g.stanza == f.stanza
  }

  lemma MovedMarkerEntries(section: string)
    ensures LineEntries(MOVED_MARKER, section) == []
  {
    MarkersAsText();
    TrimOfTrimmed(MOVED_MARKER);
  }

  lemma CommentMarkerEntries(f: Line, section: string)
    requires WellRead(f) && f.comment != ""
    ensures LineEntries(f.value + " " + COMMENT_MARKER, section) == LineEntries(f.raw, section)
  {
    var line, spaces := CommentShape(f);
    SettingIsNoHeader(f);
    hide *;
    var v := f.value;
    FirstIs(v, spaces, f.comment);
    SettingIsKept'(v, spaces, f.comment);
    MarkedSettingIsKept(v);
    MarkedSettingShape(v);
    SameEntries(f.raw, v + " " + COMMENT_MARKER, section);
  }

  lemma FirstIs(v: string, spaces: string, comment: string)
    requires v != ""
    ensures v + spaces + comment != "" && (v + spaces + comment)[0] == v[0]
  {}

  lemma MarkedSettingIsKept(v: string)
    requires v != "" && forall k | 0 <= k < |v| :: !StartsComment(v, k)
    ensures RemoveComment(v + " " + COMMENT_MARKER) == Trim(Unescaped(v))
  {
    MarkersAsText();
    hide RemoveComment, Trim, Unescaped;
    SettingIsKept'(v, " ", COMMENT_MARKER);
  }

  lemma SettingIsKept'(v: string, spaces: string, comment: string)
    requires v != "" && AllSpaces(spaces) && comment != "" && comment[0] == '#'
    requires forall k | 0 <= k < |v| :: !StartsComment(v, k)
    requires spaces == "" ==> v[|v| - 1] != '\\'
    ensures RemoveComment(v + spaces + comment) == Trim(Unescaped(v))
  {
    SettingIsKept(v, spaces, comment);
  }

  lemma SameEntries(a: string, b: string, section: string)
    requires Trim(a) != "" && Trim(a)[0] != '#' && !LooksLikeHeader(Trim(a))
    requires Trim(b) != "" && Trim(b)[0] != '#' && !LooksLikeHeader(Trim(b))
    requires RemoveComment(Trim(a)) == RemoveComment(Trim(b))
    ensures LineEntries(a, section) == LineEntries(b, section)
  {
    hide Trim, RemoveComment;
  }

  lemma SettingIsNoHeader(f: Line)
    requires WellRead(f) && f.kind == Value
    ensures !LooksLikeHeader(Trim(f.raw))
  {
    hide Trim;
  }

  lemma MarkedSettingShape(v: string)
    requires v != "" && Trimmed(v)
    ensures var raw := v + " " + COMMENT_MARKER;
            Trim(raw) == raw && raw[0] == v[0] && !LooksLikeHeader(raw)
  {
    MarkersAsText();
    var raw := v + " " + COMMENT_MARKER;
    assert raw[0] == v[0] && raw[|raw| - 1] == 'e';
    TrimOfTrimmed(raw);
  }

  lemma StandInReading(g: Line, f: Line, opt: Options, scan: Scanners)
    requires StandsFor(g, f, opt, scan)
    ensures LineEntries(g.raw, g.stanza) ==
            if Decide(f, opt, scan).MoveLine? then [] else LineEntries(f.raw, f.stanza)
  {
    MovedFacts(f, opt, scan);
    hide Decide, LineEntries, WellRead;
    match Decide(f, opt, scan) {
      case Keep =>
      case MoveLine(_) => MovedMarkerEntries(g.stanza);
      case MoveComment(_) => CommentMarkerEntries(f, g.stanza);
    }
  }

  lemma {:induction false} StandInReadings(gs: seq<Line>, fs: seq<Line>, opt: Options, scan: Scanners)
    requires |gs| == |fs| && forall i | 0 <= i < |fs| :: StandsFor(gs[i], fs[i], opt, scan)
    ensures ReadingOf(gs) == KeptReading(fs, opt, scan)
  {
    hide Decide, LineEntries, StandsFor;
    if fs != [] {
      assert StandsFor(gs[0], fs[0], opt, scan);
      StandInReading(gs[0], fs[0], opt, scan);
      StandInReadings(gs[1..], fs[1..], opt, scan);
    }
  }

  /** rippled reads the on-chain text as it reads the operator's file, minus the lines moved whole. */
  lemma RippledReadsOnChain(text: string, opt: Options, scan: Scanners)
    requires FileRefusal(Parsed(text), scan) == None
    ensures Reading(OnChainText(text, opt, scan)) == KeptReading(Parsed(text).lines, opt, scan)
  {
    var on := OnChainText(text, opt, scan);
    var fs, gs := Parsed(text).lines, Parsed(on).lines;
    ReadingIsByLine(on);
    OnChainPieces(text, opt, scan);
    ParsedPieces(Cut(on), "", 1);
    hide OnChainText, FileRefusal, WellRead, Decide, Cut, ParsedLines, Gathered, KeptReading, ReadingOf;
    forall i | 0 <= i < |fs|
      ensures StandsFor(gs[i], fs[i], opt, scan)
    {
      OnChainReadsAs(text, opt, scan, i);
      assert Pieces(gs)[i] == Cut(on)[i];
      assert IsOnChainPiece(Cut(on)[i], Cut(text)[i], fs[i], opt, scan);
    }
    StandInReadings(gs, fs, opt, scan);
  }

  /** With nothing moved whole, rippled reads the on-chain text exactly as the operator's file. */
  lemma {:induction false} KeptReadingIsReading(lines: seq<Line>, opt: Options, scan: Scanners)
    requires forall i | 0 <= i < |lines| :: !Decide(lines[i], opt, scan).MoveLine?
    ensures KeptReading(lines, opt, scan) == ReadingOf(lines)
  {
    hide Decide, LineEntries;
    if lines != [] {
      KeptReadingIsReading(lines[1..], opt, scan);
    }
  }
}
