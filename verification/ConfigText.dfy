/**
  Reading a config into lines and stanzas: internal/cfg/cfg.go. A text is a string whose
  characters are its bytes.
 */
module ConfigText {

  datatype Kind = Blank | Comment | Header | Value

  datatype Line = Line(kind: Kind, raw: string, end: string, stanza: string, no: nat, value: string, comment: string)

  datatype Stanza = Stanza(name: string, lines: seq<string>, lineNo: nat)

  datatype File = File(lines: seq<Line>, stanzas: seq<Stanza>)

  const MARKER_PREFIX := "# xrplbak:"

  // ----- characters -----

  predicate IsAsciiSpace(c: char) {
    c == ' ' || c == '\t' || c == '\n' || c as int == 0x0B || c as int == 0x0C || c == '\r'
  }

  function TrimLeft(s: string): (t: string)
    ensures t != "" ==> !IsAsciiSpace(t[0])
    ensures |t| <= |s| && t == s[|s| - |t|..]
  {
    if s != "" && IsAsciiSpace(s[0]) then TrimLeft(s[1..]) else s
  }

  function TrimRight(s: string): (t: string)
    ensures t != "" ==> !IsAsciiSpace(t[|t| - 1])
    ensures |t| <= |s| && t == s[..|t|]
  {
    if s != "" && IsAsciiSpace(s[|s| - 1]) then TrimRight(s[..|s| - 1]) else s
  }

  // strings.Trim(s, asciiSpace)
  function Trim(s: string): (t: string) {
    TrimRight(TrimLeft(s))
  }

  ghost predicate AllSpaces(s: string) {
    forall i | 0 <= i < |s| :: IsAsciiSpace(s[i])
  }

  ghost predicate Trimmed(s: string) {
    s != "" ==> !IsAsciiSpace(s[0]) && !IsAsciiSpace(s[|s| - 1])
  }

  lemma {:induction false} TrimLeftOf(a: string, b: string)
    requires AllSpaces(a) && (b != "" ==> !IsAsciiSpace(b[0]))
    ensures TrimLeft(a + b) == b
  {
    if a == "" {
      assert a + b == b;
    } else {
      assert (a + b)[1..] == a[1..] + b;
      TrimLeftOf(a[1..], b);
    }
  }

  lemma {:induction false} TrimRightOf(a: string, b: string)
    requires AllSpaces(b) && (a != "" ==> !IsAsciiSpace(a[|a| - 1]))
    ensures TrimRight(a + b) == a
  {
    if b == "" {
      assert a + b == a;
    } else {
      assert (a + b)[..|a + b| - 1] == a + b[..|b| - 1];
      TrimRightOf(a, b[..|b| - 1]);
    }
  }

  lemma {:induction false} TrimLeftSplits(s: string)
    ensures AllSpaces(s[..|s| - |TrimLeft(s)|])
  {
    if s != "" && IsAsciiSpace(s[0]) {
      TrimLeftSplits(s[1..]);
      var n := |s| - |TrimLeft(s)|;
      assert forall i | 0 < i < n :: s[..n][i] == s[1..][..n - 1][i - 1];
    }
  }

  lemma {:induction false} TrimRightSplits(s: string)
    ensures AllSpaces(s[|TrimRight(s)|..])
  {
    if s != "" && IsAsciiSpace(s[|s| - 1]) {
      TrimRightSplits(s[..|s| - 1]);
      var t := TrimRight(s);
      forall i | |t| <= i < |s|
        ensures IsAsciiSpace(s[i])
      {
        if i < |s| - 1 {
          assert s[i] == s[..|s| - 1][|t|..][i - |t|];
        }
      }
    }
  }

  // A text is spaces around its trimmed form.
  lemma TrimSplits(s: string) returns (left: string, right: string)
    ensures s == left + Trim(s) + right && AllSpaces(left) && AllSpaces(right) && Trimmed(Trim(s))
  {
    hide TrimLeft, TrimRight;
    var l := TrimLeft(s);
    TrimLeftSplits(s);
    TrimRightSplits(l);
    left, right := s[..|s| - |l|], l[|Trim(s)|..];
    assert l == Trim(s) + right;
    assert s == left + l;
    assert s == left + Trim(s) + right;
    assert Trim(s) != "" ==> Trim(s)[0] == l[0];
  }

  lemma TrimOf(left: string, t: string, right: string)
    requires AllSpaces(left) && AllSpaces(right) && Trimmed(t)
    ensures Trim(left + t + right) == t
  {
    if t == "" {
      assert left + t + right == (left + right) + "";
      TrimLeftOf(left + right, "");
    } else {
      assert left + t + right == left + (t + right);
      TrimLeftOf(left, t + right);
      TrimRightOf(t, right);
    }
  }

  lemma TrimOfTrimmed(t: string)
    requires Trimmed(t)
    ensures Trim(t) == t
  {
    TrimOf("", t, "");
    assert "" + t + "" == t;
  }

  // ----- lines -----

  // A line's text and its terminator.
  datatype Piece = Piece(raw: string, end: string)

  function Pieces(lines: seq<Line>): (ps: seq<Piece>)
    ensures |ps| == |lines|
    ensures forall i | 0 <= i < |lines| :: ps[i] == Piece(lines[i].raw, lines[i].end)
  {
    seq(|lines|, i requires 0 <= i < |lines| => Piece(lines[i].raw, lines[i].end))
  }

  // The text that a list of pieces spells.
  function Joined(ps: seq<Piece>): string {
    if ps == [] then "" else ps[0].raw + ps[0].end + Joined(ps[1..])
  }

  predicate IsTerminator(c: char) {
    c == '\n' || c == '\r'
  }

  function LineLength(text: string): (n: nat)
    ensures n <= |text| && (n < |text| ==> IsTerminator(text[n]))
    ensures forall i | 0 <= i < n :: !IsTerminator(text[i])
  {
    if text == "" || IsTerminator(text[0]) then 0 else 1 + LineLength(text[1..])
  }

  // The terminator at the start of a text that has one there.
  function Terminator(text: string): (e: string)
    requires text != "" && IsTerminator(text[0])
    ensures 1 <= |e| <= |text| && e == text[..|e|]
    ensures e == "\n" || e == "\r" || e == "\r\n"
  {
    if text[0] == '\r' && |text| > 1 && text[1] == '\n' then "\r\n" else [text[0]]
  }

  // The lines of a text, cut at "\n", "\r\n" or a lone "\r"; the last one has no terminator.
  function Cut(text: string): (ps: seq<Piece>)
    ensures |ps| > 0
  {
    var n := LineLength(text);
    if n == |text| then [Piece(text, "")]
    else
      var e := Terminator(text[n..]);
      [Piece(text[..n], e)] + Cut(text[n + |e|..])
  }

  // Pieces that stay as they are when their text is cut again.
  ghost predicate WellCut(ps: seq<Piece>) {
    && ps != []
    && (forall i | 0 <= i < |ps| :: OneLine(ps[i].raw))
    && (forall i | 0 <= i < |ps| - 1 :: ps[i].end == "\n" || ps[i].end == "\r" || ps[i].end == "\r\n")
    && ps[|ps| - 1].end == ""
    && (forall i | 0 <= i < |ps| - 1 :: ps[i].end == "\r" ==> ps[i + 1].raw != "" || ps[i + 1].end != "\n")
  }

  ghost predicate OneLine(s: string) {
    forall i | 0 <= i < |s| :: !IsTerminator(s[i])
  }

  predicate IsEnd(end: string) {
    end == "\n" || end == "\r" || end == "\r\n"
  }

  predicate StartsWithNewline(text: string) {
    text != "" && text[0] == '\n'
  }

  lemma {:induction false} LineLengthOf(raw: string, rest: string)
    requires OneLine(raw) && (rest != "" ==> IsTerminator(rest[0]))
    ensures LineLength(raw + rest) == |raw|
  {
    if raw == "" {
      assert raw + rest == rest;
    } else {
      assert (raw + rest)[1..] == raw[1..] + rest;
      LineLengthOf(raw[1..], rest);
    }
  }

  lemma CutOfLast(raw: string)
    requires OneLine(raw)
    ensures Cut(raw) == [Piece(raw, "")]
  {
    LineLengthOf(raw, "");
    assert raw + "" == raw;
  }

  lemma CutOfFirst(raw: string, end: string, tail: string)
    requires OneLine(raw) && IsEnd(end) && (end == "\r" ==> !StartsWithNewline(tail))
    ensures Cut(raw + end + tail) == [Piece(raw, end)] + Cut(tail)
  {
    var text := raw + end + tail;
    assert text == raw + (end + tail);
    LineLengthOf(raw, end + tail);
    assert text[|raw|..] == end + tail;
    assert Terminator(end + tail) == end;
    assert text[|raw| + |end|..] == tail;
    assert text[..|raw|] == raw;
  }

  // How Cut takes the first line off a text that has a terminator.
  lemma CutShape(text: string) returns (raw: string, end: string, tail: string)
    requires LineLength(text) < |text|
    ensures text == raw + end + tail && OneLine(raw) && IsEnd(end)
    ensures end == "\r" ==> !StartsWithNewline(tail)
    ensures Cut(text) == [Piece(raw, end)] + Cut(tail)
  {
    var n := LineLength(text);
    raw, end := text[..n], Terminator(text[n..]);
    tail := text[n + |end|..];
    if end == "\r" && tail != "" {
      assert text[n..][1] == tail[0];
    }
  }

  lemma {:induction false} CutIsExact(text: string)
    ensures Joined(Cut(text)) == text && WellCut(Cut(text))
    decreases |text|
  {
    if LineLength(text) == |text| {
      assert Cut(text)[1..] == [];
    } else {
      var raw, end, tail := CutShape(text);
      CutIsExact(tail);
      assert Cut(text)[1..] == Cut(tail);
      WellCutCons(Piece(raw, end), Cut(tail));
    }
  }

  // The text of well cut pieces starts with a newline only when the first piece is an empty line.
  lemma FirstNewline(ps: seq<Piece>)
    requires WellCut(ps)
    ensures StartsWithNewline(Joined(ps)) <==> ps[0].raw == "" && ps[0].end == "\n"
  {
    var text := ps[0].raw + ps[0].end + Joined(ps[1..]);
    assert Joined(ps) == text;
    if ps[0].raw != "" {
      assert text[0] == ps[0].raw[0];
    } else if |ps| > 1 {
      assert text[0] == ps[0].end[0];
    }
  }

  lemma WellCutCons(p: Piece, ps: seq<Piece>)
    requires WellCut(ps) && OneLine(p.raw) && IsEnd(p.end)
    requires p.end == "\r" ==> !StartsWithNewline(Joined(ps))
    ensures WellCut([p] + ps)
  {
    FirstNewline(ps);
  }

  lemma {:induction false} CutOfJoined(ps: seq<Piece>)
    requires WellCut(ps)
    ensures Cut(Joined(ps)) == ps
  {
    if |ps| == 1 {
      assert Joined(ps) == ps[0].raw;
      CutOfLast(ps[0].raw);
    } else {
      assert WellCut(ps[1..]);
      CutOfJoined(ps[1..]);
      FirstNewline(ps[1..]);
      CutOfFirst(ps[0].raw, ps[0].end, Joined(ps[1..]));
    }
  }

  /** cfg.go's splitLines. */
  method SplitLines(text: string) returns (out: seq<Line>)
    ensures Pieces(out) == Cut(text)
    ensures Numbered(out)
  {
    out := [];
    var i := 0;
    assert text[0..] == text && Pieces(out) + Cut(text) == Cut(text);
    while true
      invariant 0 <= i <= |text|
      invariant Pieces(out) + Cut(text[i..]) == Cut(text)
      invariant Numbered(out)
      decreases |text| - i
    {
      var l, j := SplitLine(text, i, |out| + 1);
      SameCut(Pieces(out), Piece(l.raw, l.end), Cut(text[j..]));
      PiecesOfMore(out, l);
      out := out + [l];
      if l.end == "" {
        return;
      }
      i := j;
    }
  }

  // The body of splitLines' loop: the line that starts at i, and where the next one starts.
  method SplitLine(text: string, i: nat, n: nat) returns (l: Line, j: nat)
    requires i <= |text|
    ensures l == Unparsed(Piece(l.raw, l.end), n) && i <= j <= |text|
    ensures l.end == "" ==> Cut(text[i..]) == [Piece(l.raw, l.end)]
    ensures l.end != "" ==> i < j && Cut(text[i..]) == [Piece(l.raw, l.end)] + Cut(text[j..])
  {
    j := i;
    while j < |text| && text[j] != '\n' && text[j] != '\r'
      invariant i <= j <= |text|
      invariant forall k | i <= k < j :: !IsTerminator(text[k])
    {
      j := j + 1;
    }
    l := Unparsed(Piece(text[i..j], ""), n);
    ghost var cut := j;
    assert OneLine(text[i..cut]);
    if j < |text| {
      if text[j] == '\r' && j + 1 < |text| && text[j + 1] == '\n' {
        l := l.(end := "\r\n");
        j := j + 2;
      } else {
        l := l.(end := text[j..j + 1]);
        j := j + 1;
      }
    }
    NextLine(text, i, cut, l.end, j);
  }

  ghost predicate Numbered(lines: seq<Line>) {
    forall k | 0 <= k < |lines| :: lines[k] == Unparsed(Piece(lines[k].raw, lines[k].end), k + 1)
  }

  lemma PiecesOfMore(lines: seq<Line>, l: Line)
    ensures Pieces(lines + [l]) == Pieces(lines) + [Piece(l.raw, l.end)]
  {}

  // One round of SplitLines: the line from i to cut, its terminator, the next line from j.
  lemma NextLine(text: string, i: nat, cut: nat, end: string, j: nat)
    requires i <= cut <= j <= |text| && OneLine(text[i..cut]) && end == text[cut..j]
    requires if cut == |text| then end == "" else IsEnd(end)
    requires end == "\r" && j < |text| ==> text[j] != '\n'
    ensures end == "" ==> Cut(text[i..]) == [Piece(text[i..cut], end)]
    ensures end != "" ==> Cut(text[i..]) == [Piece(text[i..cut], end)] + Cut(text[j..])
  {
    if end == "" {
      assert text[i..] == text[i..cut];
      CutOfLast(text[i..]);
    } else {
      assert text[i..] == text[i..cut] + end + text[j..];
      CutOfFirst(text[i..cut], end, text[j..]);
    }
  }

  lemma SameCut(done: seq<Piece>, p: Piece, rest: seq<Piece>)
    ensures done + ([p] + rest) == (done + [p]) + rest
  {}

  function Unparsed(p: Piece, no: nat): Line {
    Line(Blank, p.raw, p.end, "", no, "", "")
  }

  // ----- what a line is -----

  // A "#" at k that no backslash escapes.
  predicate StartsComment(line: string, k: nat)
    requires k < |line|
  {
    line[k] == '#' && !(k > 0 && line[k - 1] == '\\')
  }

  // The first such "#" at or after i, or -1.
  function CommentFrom(line: string, i: nat): (c: int)
    requires i <= |line|
    ensures -1 <= c < |line|
    ensures c >= 0 ==> i <= c && StartsComment(line, c) && forall k | i <= k < c :: !StartsComment(line, k)
    ensures c < 0 ==> forall k | i <= k < |line| :: !StartsComment(line, k)
    decreases |line| - i
  {
    if i == |line| then -1 else if StartsComment(line, i) then i else CommentFrom(line, i + 1)
  }

  /** cfg.go's inlineComment. */
  method InlineComment(line: string) returns (c: int)
    ensures c == CommentFrom(line, 0)
  {
    for i := 0 to |line|
      invariant CommentFrom(line, 0) == CommentFrom(line, i)
    {
      if line[i] != '#' {
        continue;
      }
      if i > 0 && line[i - 1] == '\\' {
        continue;
      }
      return i;
    }
    return -1;
  }

  predicate LooksLikeHeader(line: string) {
    |line| >= 2 && line[0] == '[' && line[|line| - 1] == ']'
  }

  datatype Reading = Reading(kind: Kind, stanza: string, value: string, comment: string)

  // What a line is, given the stanza it is in.
  function Classify(raw: string, stanza: string): (r: Reading)
    ensures r.kind != Header ==> r.stanza == stanza
  {
    var line := Trim(raw);
    if line == "" then Reading(Blank, stanza, "", "")
    else if line[0] == '#' && !(MARKER_PREFIX <= line) then Reading(Comment, stanza, "", "")
    else if LooksLikeHeader(line) then Reading(Header, line[1..|line| - 1], "", "")
    else
      var c := CommentFrom(line, 0);
      if c > 0 && !LooksLikeHeader(Trim(line[..c])) then Reading(Value, stanza, Trim(line[..c]), line[c..])
      else Reading(Value, stanza, line, "")
  }

  function ParsedLine(p: Piece, stanza: string, no: nat): Line {
    var r := Classify(p.raw, stanza);
    Line(r.kind, p.raw, p.end, r.stanza, no, r.value, r.comment)
  }

  function ParsedLines(ps: seq<Piece>, stanza: string, no: nat): (lines: seq<Line>)
    ensures |lines| == |ps|
  {
    if ps == [] then []
    else
      var l := ParsedLine(ps[0], stanza, no);
      [l] + ParsedLines(ps[1..], l.stanza, no + 1)
  }

  // The position of the stanza of that name, or the number of stanzas.
  function Find(stanzas: seq<Stanza>, name: string): (i: nat)
    ensures i <= |stanzas| && (i < |stanzas| ==> stanzas[i].name == name)
    ensures forall k | 0 <= k < i :: stanzas[k].name != name
  {
    if stanzas == [] || stanzas[0].name == name then 0 else 1 + Find(stanzas[1..], name)
  }

  function Opened(stanzas: seq<Stanza>, name: string, no: nat): (r: seq<Stanza>)
    ensures Find(stanzas, name) < |r| && r[Find(stanzas, name)].name == name
  {
    if Find(stanzas, name) < |stanzas| then stanzas else stanzas + [Stanza(name, [], no)]
  }

  function Extended(stanzas: seq<Stanza>, l: Line): seq<Stanza> {
    match l.kind
    case Header => Opened(stanzas, l.stanza, l.no)
    case Value =>
      if l.value == "" then stanzas
      else
        var at := Find(stanzas, l.stanza);
        var open := Opened(stanzas, l.stanza, l.no);
        open[at := open[at].(lines := open[at].lines + [l.value])]
    case _ => stanzas
  }

  // The classification view: values grouped by stanza, repeated stanza names merged.
  function Gathered(lines: seq<Line>): seq<Stanza> {
    if lines == [] then [] else Extended(Gathered(lines[..|lines| - 1]), lines[|lines| - 1])
  }

  lemma GatheredNone()
    ensures Gathered([]) == []
  {}

  lemma GatheredMore(lines: seq<Line>, l: Line)
    ensures Gathered(lines + [l]) == Extended(Gathered(lines), l)
  {
    assert (lines + [l])[..|lines + [l]| - 1] == lines;
  }

  function Parsed(text: string): File {
    var lines := ParsedLines(Cut(text), "", 1);
    File(lines, Gathered(lines))
  }

  /** cfg.go's File.Get: the position of the stanza stands for it. */
  method Get(stanzas: seq<Stanza>, name: string) returns (i: nat)
    ensures i == Find(stanzas, name)
  {
    i := 0;
    while i < |stanzas|
      invariant i <= |stanzas|
      invariant forall k | 0 <= k < i :: stanzas[k].name != name
    {
      if stanzas[i].name == name {
        return;
      }
      i := i + 1;
    }
  }

  // The stanza a line list ends in, when it starts in the nameless one.
  function StanzaAfter(lines: seq<Line>): string {
    if lines == [] then "" else lines[|lines| - 1].stanza
  }

  lemma {:induction false} ParsedLinesAt(ps: seq<Piece>, stanza: string, no: nat, k: nat)
    requires k < |ps|
    ensures ParsedLines(ps, stanza, no)[k]
         == ParsedLine(ps[k], if k == 0 then stanza else ParsedLines(ps, stanza, no)[k - 1].stanza, no + k)
  {
    hide ParsedLine;
    if k > 0 {
      var l := ParsedLine(ps[0], stanza, no);
      var rest := ParsedLines(ps[1..], l.stanza, no + 1);
      ParsedLinesAt(ps[1..], l.stanza, no + 1, k - 1);
      assert ParsedLines(ps, stanza, no) == [l] + rest;
      assert k > 1 ==> ([l] + rest)[k - 1] == rest[k - 2];
    }
  }

  // The part of Parse's loop body that reads one line.
  method ReadLine(raw: string, stanza: string) returns (r: Reading)
    ensures r == Classify(raw, stanza)
  {
    var line := Trim(raw);
    if line == "" {
      return Reading(Blank, stanza, "", "");
    }
    if line[0] == '#' && !(MARKER_PREFIX <= line) {
      return Reading(Comment, stanza, "", "");
    }
    if LooksLikeHeader(line) {
      return Reading(Header, line[1..|line| - 1], "", "");
    }
    // Drop the inline comment, unless that would leave something a later parse reads as a header.
    var comment := "";
    var c := InlineComment(line);
    if c > 0 {
      var v := Trim(line[..c]);
      if !LooksLikeHeader(v) {
        comment, line := line[c..], v;
      }
    }
    r := Reading(Value, stanza, line, comment);
  }

  /** cfg.go's Parse: kinds, stanzas and values are written into the lines in place. */
  method Parse(text: string) returns (f: File)
    ensures f == Parsed(text)
  {
    hide ParsedLines, Cut, Find, Classify, Gathered, Extended;
    var lines := SplitLines(text);
    var stanzas: seq<Stanza> := [];
    GatheredNone();
    ghost var ps := Cut(text);
    ghost var want := ParsedLines(ps, "", 1);
    // -1 stands for the nil stanza pointer.
    var cur: int := -1;
    var stanza := "";
    for li := 0 to |lines|
      invariant |lines| == |ps| && lines[..li] == want[..li]
      invariant forall k | li <= k < |lines| :: lines[k] == Unparsed(ps[k], k + 1)
      invariant stanza == StanzaAfter(want[..li]) && stanzas == Gathered(want[..li])
      invariant if cur == -1 then stanzas == [] && stanza == "" else cur == Find(stanzas, stanza) < |stanzas|
    {
      ParsedLinesAt(ps, "", 1, li);
      assert want[..li + 1] == want[..li] + [want[li]];
      GatheredMore(want[..li], want[li]);
      var r := ReadLine(lines[li].raw, stanza);
      var no := lines[li].no;
      lines := lines[li := lines[li].(kind := r.kind, stanza := r.stanza, value := r.value, comment := r.comment)];
      assert lines[li] == want[li];
      assert lines[..li + 1] == lines[..li] + [lines[li]];
      cur, stanzas := Extend(stanzas, lines[li], stanza, cur);
      stanza := r.stanza;
    }
    assert lines[..|lines|] == lines && want[..|lines|] == want;
    f := File(lines, stanzas);
  }

  // The part of Parse's loop body that grows the stanzas.
  method Extend(before: seq<Stanza>, l: Line, stanza: string, at: int) returns (cur: int, stanzas: seq<Stanza>)
    requires l.kind != Header ==> l.stanza == stanza
    requires if at == -1 then before == [] && stanza == "" else at == Find(before, stanza) < |before|
    ensures stanzas == Extended(before, l)
    ensures if cur == -1 then stanzas == [] && l.stanza == "" else cur == Find(stanzas, l.stanza) < |stanzas|
  {
    cur, stanzas := at, before;
    if l.kind == Header {
      cur := Get(stanzas, l.stanza);
      if cur == |stanzas| {
        stanzas := stanzas + [Stanza(l.stanza, [], l.no)];
        FindAppended(before, l.stanza, l.no);
      }
      return;
    }
    if l.kind != Value || l.value == "" {
      return;
    }
    if cur == -1 {
      cur := |stanzas|;
      stanzas := stanzas + [Stanza("", [], l.no)];
    }
    ghost var open := stanzas;
    stanzas := stanzas[cur := stanzas[cur].(lines := stanzas[cur].lines + [l.value])];
    SameNamesSameFind(open, stanzas, l.stanza);
  }

  lemma {:induction false} FindAppended(stanzas: seq<Stanza>, name: string, no: nat)
    requires Find(stanzas, name) == |stanzas|
    ensures Find(stanzas + [Stanza(name, [], no)], name) == |stanzas|
  {
    var more := stanzas + [Stanza(name, [], no)];
    assert forall k | 0 <= k < |stanzas| :: more[k] == stanzas[k];
    assert more[|stanzas|].name == name;
  }

  lemma {:induction false} SameNamesSameFind(a: seq<Stanza>, b: seq<Stanza>, name: string)
    requires |a| == |b| && forall k | 0 <= k < |a| :: a[k].name == b[k].name
    ensures Find(a, name) == Find(b, name)
  {
    if a != [] {
      SameNamesSameFind(a[1..], b[1..], name);
    }
  }

  /** cfg.go's Render: Parse and Render are exact inverses. */
  method Render(f: File) returns (b: string)
    ensures b == Joined(Pieces(f.lines))
  {
    b := "";
    for i := 0 to |f.lines|
      invariant b + Joined(Pieces(f.lines)[i..]) == Joined(Pieces(f.lines))
    {
      b := b + f.lines[i].raw + f.lines[i].end;
    }
  }

  lemma {:induction false} ParsedPieces(ps: seq<Piece>, stanza: string, no: nat)
    ensures Pieces(ParsedLines(ps, stanza, no)) == ps
  {
    if ps != [] {
      var l := ParsedLine(ps[0], stanza, no);
      assert l.raw == ps[0].raw && l.end == ps[0].end;
      hide ParsedLine;
      var rest := ParsedLines(ps[1..], l.stanza, no + 1);
      ParsedPieces(ps[1..], l.stanza, no + 1);
      PiecesCons(l, rest);
      assert ps == [ps[0]] + ps[1..];
    }
  }

  lemma PiecesCons(l: Line, rest: seq<Line>)
    ensures Pieces([l] + rest) == [Piece(l.raw, l.end)] + Pieces(rest)
  {}

  /** Rendering a parsed text gives the text back, byte for byte. */
  lemma RenderInvertsParse(text: string)
    ensures Joined(Pieces(Parsed(text).lines)) == text
  {
    ParsedPieces(Cut(text), "", 1);
    CutIsExact(text);
  }
}
