/**
  The canonical form of a config: internal/cfg/cfg.go:214-242. It is a fixed point of parsing and
  rendering, and rippled reads it as it reads the original.
 */
module Canonical {
  import opened ConfigText
  import opened RoundTrip
  import opened Sorting

  // A stanza without its line number.
  datatype Section = Section(name: string, lines: seq<string>)

  function View(stanzas: seq<Stanza>): (s: seq<Section>)
    ensures |s| == |stanzas|
  {
    seq(|stanzas|, i requires 0 <= i < |stanzas| => Section(stanzas[i].name, stanzas[i].lines))
  }

  // A nameless stanza with no lines would render nothing.
  predicate Shown(s: Section) {
    s.name != "" || s.lines != []
  }

  function ShownOf(s: seq<Section>): seq<Section> {
    if s == [] then [] else ShownOf(s[..|s| - 1]) + if Shown(s[|s| - 1]) then [s[|s| - 1]] else []
  }

  // Go's order on their names.
  predicate ByName(a: Section, b: Section) {
    Before(Codes(a.name), Codes(b.name))
  }

  function LinePieces(lines: seq<string>): (ps: seq<Piece>)
    ensures |ps| == |lines|
  {
    seq(|lines|, i requires 0 <= i < |lines| => Piece(lines[i], "\n"))
  }

  function HeaderPieces(s: Section): seq<Piece> {
    if s.name != "" then [Piece("[" + s.name + "]", "\n")] else []
  }

  // One blank line between sections.
  function SectionPieces(s: Section, first: bool): seq<Piece> {
    HeadPieces(s, first) + LinePieces(s.lines)
  }

  function CanonicalPieces(s: seq<Section>): seq<Piece> {
    if s == [] then [] else CanonicalPieces(s[..|s| - 1]) + SectionPieces(s[|s| - 1], |s| == 1)
  }

  function CanonicalSections(stanzas: seq<Stanza>): seq<Section> {
    Sort(ByName, ShownOf(View(stanzas)))
  }

  function CanonicalText(stanzas: seq<Stanza>): string {
    Joined(CanonicalPieces(CanonicalSections(stanzas)))
  }

  lemma {:induction false} JoinedMore(a: seq<Piece>, b: seq<Piece>)
    ensures Joined(a + b) == Joined(a) + Joined(b)
  {
    if a == [] {
      assert a + b == b;
    } else {
      assert (a + b)[1..] == a[1..] + b;
      JoinedMore(a[1..], b);
    }
  }

  lemma JoinedOne(p: Piece)
    ensures Joined([p]) == p.raw + p.end
  {
    assert [p][1..] == [];
    assert Joined([]) == "";
  }

  /** Canonical writes the shown sections, sorted by name. */
  method Canonical(f: File) returns (b: string)
    ensures b == CanonicalText(f.stanzas)
  {
    hide Insert, SectionPieces;
    var shown: seq<Section> := [];
    for i := 0 to |f.stanzas|
      invariant shown == ShownOf(View(f.stanzas)[..i])
    {
      var view := View(f.stanzas);
      assert view[..i + 1][..i] == view[..i] && view[..i + 1][i] == view[i];
      assert shown + [] == shown;
      var s := f.stanzas[i];
      if s.name == "" && |s.lines| == 0 {
        continue;
      }
      shown := shown + [Section(s.name, s.lines)];
    }
    assert View(f.stanzas)[..|f.stanzas|] == View(f.stanzas);
    var sorted := Sort(ByName, shown);
    b := "";
    for i := 0 to |sorted|
      invariant b == Joined(CanonicalPieces(sorted[..i]))
    {
      assert sorted[..i + 1][..i] == sorted[..i];
      b := WriteSection(b, sorted[i], i == 0);
      JoinedMore(CanonicalPieces(sorted[..i]), SectionPieces(sorted[i], i == 0));
    }
    assert sorted[..|sorted|] == sorted;
  }

  method WriteSection(b: string, s: Section, first: bool) returns (r: string)
    ensures r == b + Joined(SectionPieces(s, first))
  {
    hide Joined, LinePieces;
    HeadText(s, first);
    ghost var head := HeadPieces(s, first);
    r := b;
    if !first {
      r := r + "\n";
    }
    if s.name != "" {
      r := r + "[" + s.name + "]\n";
    }
    assert r == b + Joined(head) && head + LinePieces(s.lines)[..0] == head;
    for i := 0 to |s.lines|
      invariant r == b + Joined(head + LinePieces(s.lines)[..i])
    {
      NextLineText(head, s.lines, i);
      r := r + s.lines[i] + "\n";
    }
    assert LinePieces(s.lines)[..|s.lines|] == LinePieces(s.lines);
  }

  // The separator and the header.
  function HeadPieces(s: Section, first: bool): seq<Piece> {
    (if first then [] else [Piece("", "\n")]) + HeaderPieces(s)
  }

  lemma NextLineText(head: seq<Piece>, lines: seq<string>, i: nat)
    requires i < |lines|
    ensures Joined(head + LinePieces(lines)[..i + 1]) == Joined(head + LinePieces(lines)[..i]) + lines[i] + "\n"
  {
    var ps := LinePieces(lines);
    assert head + ps[..i + 1] == (head + ps[..i]) + [ps[i]];
    JoinedMore(head + ps[..i], [ps[i]]);
    JoinedOne(ps[i]);
    hide Joined;
  }

  lemma HeadText(s: Section, first: bool)
    ensures Joined(HeadPieces(s, first)) == (if first then "" else "\n") + (if s.name != "" then "[" + s.name + "]\n" else "")
  {
    var sep: seq<Piece> := if first then [] else [Piece("", "\n")];
    JoinedMore(sep, HeaderPieces(s));
    JoinedOne(Piece("", "\n"));
    JoinedOne(Piece("[" + s.name + "]", "\n"));
    assert "" + "\n" == "\n";
  }

  // ----- order -----

  lemma NamesAreOrdered()
    ensures IsOrder(ByName)
  {
    hide Before, Codes;
    forall a, b | ByName(a, b)
      ensures !ByName(b, a)
    {
      BeforeIsTotal(Codes(a.name), Codes(b.name));
    }
    forall a, b, c | ByName(a, b) && !ByName(c, b)
      ensures ByName(a, c)
    {
      BeforeSteps(Codes(a.name), Codes(b.name), Codes(c.name));
    }
  }

  ghost predicate DistinctNames(s: seq<Section>) {
    forall i, j | 0 <= i < j < |s| :: s[i].name != s[j].name
  }

  lemma SortKeepsDistinct(s: seq<Section>)
    requires DistinctNames(s)
    ensures InOrder(ByName, Sort(ByName, s)) && DistinctNames(Sort(ByName, s))
  {
    var t := Sort(ByName, s);
    NamesAreOrdered();
    SortOrders(ByName, s);
    hide IsOrder, Sort, InOrder;
    forall i, j | 0 <= i < j < |t|
      ensures t[i].name != t[j].name
    {
      SortHolds(ByName, s, t[i]);
      SortHolds(ByName, s, t[j]);
      if t[i] == t[j] {
        CountsTwice(t, i, j);
        var k, l := Twice(s, t[i]);
        assert false;
      }
    }
  }

  lemma {:induction false} ShownStays(s: seq<Section>)
    requires forall i | 0 <= i < |s| :: Shown(s[i])
    ensures ShownOf(s) == s
  {
    if s != [] {
      ShownStays(s[..|s| - 1]);
      assert s == s[..|s| - 1] + [s[|s| - 1]];
    }
  }

  lemma {:induction false} ShownHolds(s: seq<Section>, y: Section)
    ensures y in ShownOf(s) <==> y in s && Shown(y)
  {
    if s != [] {
      ShownHolds(s[..|s| - 1], y);
      assert s == s[..|s| - 1] + [s[|s| - 1]];
    }
  }

  lemma {:induction false} ShownDistinct(s: seq<Section>)
    requires DistinctNames(s)
    ensures DistinctNames(ShownOf(s))
  {
    if s != [] {
      var front, last := s[..|s| - 1], s[|s| - 1];
      ShownDistinct(front);
      var t := ShownOf(front);
      forall i | 0 <= i < |t|
        ensures t[i].name != last.name
      {
        ShownHolds(front, t[i]);
        assert t[i] in front;
      }
    }
  }

  // ----- what the parser gathers -----

  ghost predicate DistinctStanzas(stanzas: seq<Stanza>) {
    forall i, j | 0 <= i < j < |stanzas| :: stanzas[i].name != stanzas[j].name
  }

  // A value that a line was read to is read to itself again.
  ghost predicate Settles(v: string) {
    v != "" && OneLine(v) && forall stanza :: Classify(v, stanza) == Reading(Value, stanza, v, "")
  }

  ghost predicate Clean(s: Section) {
    OneLine(s.name) && forall i | 0 <= i < |s.lines| :: Settles(s.lines[i])
  }

  ghost predicate AllClean(stanzas: seq<Stanza>) {
    forall i | 0 <= i < |stanzas| :: Clean(Section(stanzas[i].name, stanzas[i].lines))
  }

  lemma ValueSettles(l: Line)
    requires WellRead(l) && l.kind == Value && OneLine(l.raw)
    ensures Settles(l.value)
  {
    if l.comment != "" {
      var line, spaces := CommentShape(l);
      hide Classify, OneLine, Trimmed, LooksLikeHeader;
      forall stanza
        ensures Classify(l.value, stanza) == Reading(Value, stanza, l.value, "")
      {
        PlainValue(l.value, stanza);
      }
    } else {
      WholeLine(l);
      TrimIsOneLine(l.raw);
      var wellRead := Classify(l.raw, l.stanza);
      hide Classify, OneLine;
      forall stanza
        ensures Classify(l.value, stanza) == Reading(Value, stanza, l.value, "")
      {
        SameReading(l.raw, l.stanza, stanza);
      }
    }
  }

  lemma TrimIsOneLine(raw: string)
    requires OneLine(raw)
    ensures OneLine(Trim(raw))
  {
    var left, right := TrimSplits(raw);
    hide Trim;
    assert forall k | 0 <= k < |Trim(raw)| :: Trim(raw)[k] == raw[|left| + k];
  }

  lemma PlainValue(v: string, stanza: string)
    requires v != "" && Trimmed(v) && v[0] != '#' && !LooksLikeHeader(v)
    requires forall k | 0 <= k < |v| :: !StartsComment(v, k)
    ensures Classify(v, stanza) == Reading(Value, stanza, v, "")
  {
    TrimOfTrimmed(v);
    hide Trim;
    var c := CommentFrom(v, 0);
  }

  // A value line that kept its comment is its whole trimmed text.
  lemma WholeLine(l: Line)
    requires WellRead(l) && l.kind == Value && l.comment == ""
    ensures l.value == Trim(l.raw) && l.value != ""
  {
    hide Trim;
    var line := Trim(l.raw);
    var c := CommentFrom(line, 0);
  }

  lemma SameReading(raw: string, stanza: string, other: string)
    requires Classify(raw, stanza) == Reading(Value, stanza, Trim(raw), "")
    ensures Classify(Trim(raw), other) == Reading(Value, other, Trim(raw), "")
  {
    TrimTwice(raw);
    hide Trim, CommentFrom, StartsComment, LooksLikeHeader;
  }

  lemma TrimTwice(raw: string)
    ensures Trim(Trim(raw)) == Trim(raw)
  {
    var left, right := TrimSplits(raw);
    hide Trim;
    TrimOfTrimmed(Trim(raw));
  }

  lemma HeaderName(l: Line)
    requires WellRead(l) && l.kind == Header && OneLine(l.raw)
    ensures OneLine(l.stanza)
  {
    TrimIsOneLine(l.raw);
    var line := Trim(l.raw);
    hide Trim;
    assert l.stanza == line[1..|line| - 1];
  }

  lemma BracketedShape(name: string)
    ensures var line := "[" + name + "]";
            line[0] == '[' && line[|line| - 1] == ']' && line[1..|line| - 1] == name && |line| >= 2 && line != ""
  {
  }

  lemma HeaderRead(name: string, stanza: string)
    ensures Classify("[" + name + "]", stanza) == Reading(Header, name, "", "")
  {
    var line := "[" + name + "]";
    BracketedShape(name);
    TrimOfTrimmed(line);
    hide Trim, CommentFrom, StartsComment;
  }

  lemma BlankRead(stanza: string)
    ensures Classify("", stanza) == Reading(Blank, stanza, "", "")
  {
  }

  // What one line does to the sections.
  lemma ExtendedView(stanzas: seq<Stanza>, l: Line)
    requires DistinctStanzas(stanzas)
    ensures DistinctStanzas(Extended(stanzas, l))
  {
    var at := Find(stanzas, l.stanza);
  }

  lemma ExtendedClean(stanzas: seq<Stanza>, l: Line)
    requires DistinctStanzas(stanzas) && AllClean(stanzas) && WellRead(l) && OneLine(l.raw) && OneLine(l.stanza)
    ensures AllClean(Extended(stanzas, l))
  {
    if l.kind == Value {
      ValueSettles(l);
    }
    hide Settles, OneLine, Classify;
  }

  lemma {:induction false} GatheredClean(lines: seq<Line>)
    requires forall i | 0 <= i < |lines| :: WellRead(lines[i]) && OneLine(lines[i].raw) && OneLine(lines[i].stanza)
    ensures DistinctStanzas(Gathered(lines)) && AllClean(Gathered(lines))
  {
    if lines != [] {
      hide WellRead, OneLine, Extended, DistinctStanzas, AllClean;
      GatheredClean(lines[..|lines| - 1]);
      ExtendedView(Gathered(lines[..|lines| - 1]), lines[|lines| - 1]);
      ExtendedClean(Gathered(lines[..|lines| - 1]), lines[|lines| - 1]);
    } else {
      assert Gathered(lines) == [];
    }
  }

  // ----- canonical text read again -----

  function EndStanza(lines: seq<Line>, stanza: string): string {
    if lines == [] then stanza else lines[|lines| - 1].stanza
  }

  lemma {:induction false} ParsedMore(ps: seq<Piece>, p: Piece, stanza: string, no: nat)
    ensures var lines := ParsedLines(ps, stanza, no);
            ParsedLines(ps + [p], stanza, no) == lines + [ParsedLine(p, EndStanza(lines, stanza), no + |ps|)]
  {
    hide ParsedLine;
    if ps == [] {
      assert ps + [p] == [p];
      assert [p][1..] == [];
    } else {
      var l := ParsedLine(ps[0], stanza, no);
      assert (ps + [p])[1..] == ps[1..] + [p];
      ParsedMore(ps[1..], p, l.stanza, no + 1);
    }
  }

  // Parsing the pieces gives the sections, and leaves the stanza open.
  ghost predicate After(ps: seq<Piece>, s: seq<Section>, stanza: string) {
    var lines := ParsedLines(ps, "", 1);
    View(Gathered(lines)) == s && EndStanza(lines, "") == stanza
  }

  lemma FindInView(stanzas: seq<Stanza>, name: string, k: nat)
    requires DistinctNames(View(stanzas)) && k < |stanzas| && stanzas[k].name == name
    ensures Find(stanzas, name) == k
  {
    forall i | 0 <= i < k
      ensures stanzas[i].name != name
    {
      assert View(stanzas)[i].name != View(stanzas)[k].name;
    }
  }

  lemma FindNone(stanzas: seq<Stanza>, name: string)
    requires forall i | 0 <= i < |View(stanzas)| :: View(stanzas)[i].name != name
    ensures Find(stanzas, name) == |stanzas|
  {
    forall i | 0 <= i < |stanzas|
      ensures stanzas[i].name != name
    {
      assert View(stanzas)[i].name != name;
    }
  }

  // One more line, read as r.
  lemma AfterLine(ps: seq<Piece>, p: Piece, s: seq<Section>, stanza: string, r: Reading) returns (before: seq<Stanza>, l: Line)
    requires After(ps, s, stanza) && Classify(p.raw, stanza) == r
    ensures View(before) == s && l.kind == r.kind && l.stanza == r.stanza && l.value == r.value
    ensures After(ps + [p], View(Extended(before, l)), r.stanza)
  {
    hide Classify, Extended;
    var lines := ParsedLines(ps, "", 1);
    ParsedMore(ps, p, "", 1);
    l := ParsedLine(p, stanza, 1 + |ps|);
    GatheredMore(lines, l);
    before := Gathered(lines);
  }

  lemma AfterBlank(ps: seq<Piece>, end: string, s: seq<Section>, stanza: string)
    requires After(ps, s, stanza)
    ensures After(ps + [Piece("", end)], s, stanza)
  {
    BlankRead(stanza);
    hide After, Classify;
    var before, l := AfterLine(ps, Piece("", end), s, stanza, Reading(Blank, stanza, "", ""));
  }

  lemma AfterHeader(ps: seq<Piece>, s: seq<Section>, stanza: string, name: string)
    requires After(ps, s, stanza) && forall i | 0 <= i < |s| :: s[i].name != name
    ensures After(ps + [Piece("[" + name + "]", "\n")], s + [Section(name, [])], name)
  {
    HeaderRead(name, stanza);
    hide After, Classify;
    var before, l := AfterLine(ps, Piece("[" + name + "]", "\n"), s, stanza, Reading(Header, name, "", ""));
    FindNone(before, name);
    assert View(before + [Stanza(name, [], l.no)]) == View(before) + [Section(name, [])];
  }

  lemma AfterFirstValue(ps: seq<Piece>, v: string)
    requires After(ps, [], "") && Settles(v)
    ensures After(ps + [Piece(v, "\n")], [Section("", [v])], "")
  {
    assert Classify(v, "") == Reading(Value, "", v, "");
    hide After, Classify, Extended;
    var before, l := AfterLine(ps, Piece(v, "\n"), [], "", Reading(Value, "", v, ""));
    assert before == [];
    FirstValueOpens(l);
  }

  lemma FirstValueOpens(l: Line)
    requires l.kind == Value && l.value != "" && l.stanza == ""
    ensures View(Extended([], l)) == [Section("", [l.value])]
  {
    var empty: seq<string> := [];
    assert Extended([], l) == [Stanza("", empty + [l.value], l.no)];
    assert empty + [l.value] == [l.value];
  }

  lemma AfterValue(ps: seq<Piece>, front: seq<Section>, name: string, done: seq<string>, v: string)
    requires After(ps, front + [Section(name, done)], name) && DistinctNames(front + [Section(name, done)]) && Settles(v)
    ensures After(ps + [Piece(v, "\n")], front + [Section(name, done + [v])], name)
  {
    var s := front + [Section(name, done)];
    assert Classify(v, name) == Reading(Value, name, v, "");
    hide After, Classify, DistinctNames, Extended;
    var before, l := AfterLine(ps, Piece(v, "\n"), s, name, Reading(Value, name, v, ""));
    NextValueJoins(before, l, front, name, done);
  }

  lemma NextValueJoins(before: seq<Stanza>, l: Line, front: seq<Section>, name: string, done: seq<string>)
    requires View(before) == front + [Section(name, done)] && DistinctNames(View(before))
    requires l.kind == Value && l.value != "" && l.stanza == name
    ensures View(Extended(before, l)) == front + [Section(name, done + [l.value])]
  {
    var k := |front|;
    var s := front + [Section(name, done)];
    assert |before| == k + 1 && View(before)[k] == s[k];
    FindInView(before, name, k);
    hide DistinctNames;
    var after := before[k := before[k].(lines := before[k].lines + [l.value])];
    assert Extended(before, l) == after;
    forall i | 0 <= i < |after|
      ensures View(after)[i] == (front + [Section(name, done + [l.value])])[i]
    {
      assert View(before)[i] == s[i];
    }
  }

  lemma OneNameStill(front: seq<Section>, name: string, a: seq<string>, b: seq<string>)
    requires DistinctNames(front + [Section(name, a)])
    ensures DistinctNames(front + [Section(name, b)])
  {
    var s, t := front + [Section(name, a)], front + [Section(name, b)];
    forall i, j | 0 <= i < j < |t|
      ensures t[i].name != t[j].name
    {
      assert s[i].name != s[j].name;
    }
  }

  lemma {:induction false} AfterValues(ps: seq<Piece>, front: seq<Section>, name: string, done: seq<string>, more: seq<string>)
    requires After(ps, front + [Section(name, done)], name) && DistinctNames(front + [Section(name, done)])
    requires forall i | 0 <= i < |more| :: Settles(more[i])
    ensures After(ps + LinePieces(more), front + [Section(name, done + more)], name)
    decreases |more|
  {
    hide After, DistinctNames, Settles;
    if more == [] {
      assert ps + LinePieces(more) == ps && done + more == done;
    } else {
      AfterValue(ps, front, name, done, more[0]);
      OneNameStill(front, name, done, done + [more[0]]);
      AfterValues(ps + [Piece(more[0], "\n")], front, name, done + [more[0]], more[1..]);
      assert ps + [Piece(more[0], "\n")] + LinePieces(more[1..]) == ps + LinePieces(more);
      assert done + [more[0]] + more[1..] == done + more;
    }
  }

  lemma AfterSection(ps: seq<Piece>, front: seq<Section>, stanza: string, s: Section)
    requires After(ps, front, stanza) && DistinctNames(front + [s]) && Clean(s) && Shown(s)
    requires s.name == "" ==> front == [] && stanza == ""
    ensures After(ps + SectionPieces(s, front == []), front + [s], s.name)
  {
    hide After, Settles;
    var ps1 := if front == [] then ps else ps + [Piece("", "\n")];
    if front != [] {
      AfterBlank(ps, "\n", front, stanza);
    }
    if s.name == "" {
      var v := s.lines[0];
      AfterFirstValue(ps1, v);
      assert [] + [Section("", [v])] == [Section("", [v])];
      AfterValues(ps1 + [Piece(v, "\n")], [], "", [v], s.lines[1..]);
      assert ps1 + [Piece(v, "\n")] + LinePieces(s.lines[1..]) == ps + SectionPieces(s, true);
      assert [v] + s.lines[1..] == s.lines;
      assert [] + [Section("", s.lines)] == front + [s];
    } else {
      forall i | 0 <= i < |front|
        ensures front[i].name != s.name
      {
        assert (front + [s])[i].name != (front + [s])[|front|].name;
      }
      AfterHeader(ps1, front, stanza, s.name);
      assert s == Section(s.name, s.lines);
      OneNameStill(front, s.name, s.lines, []);
      AfterValues(ps1 + [Piece("[" + s.name + "]", "\n")], front, s.name, [], s.lines);
      assert ps1 + [Piece("[" + s.name + "]", "\n")] + LinePieces(s.lines) == ps + SectionPieces(s, front == []);
      assert [] + s.lines == s.lines;
    }
  }

  // Sections that canonical text can hold: sorted, named apart, and settled.
  ghost predicate Settled(s: seq<Section>) {
    && InOrder(ByName, s) && DistinctNames(s)
    && forall i | 0 <= i < |s| :: Clean(s[i]) && Shown(s[i])
  }

  lemma EmptyIsLeast(x: string)
    ensures x != "" ==> Before(Codes(""), Codes(x))
  {
  }

  lemma OnlyFirstIsNameless(s: seq<Section>, i: nat)
    requires InOrder(ByName, s) && DistinctNames(s) && 0 < i < |s|
    ensures s[i].name != ""
  {
    EmptyIsLeast(s[0].name);
    hide Before, Codes;
    assert !ByName(s[i], s[0]) && s[0].name != s[i].name;
  }

  lemma {:induction false} AfterAll(s: seq<Section>)
    requires Settled(s)
    ensures After(CanonicalPieces(s), s, if s == [] then "" else s[|s| - 1].name)
  {
    if s != [] {
      var front, last := s[..|s| - 1], s[|s| - 1];
      assert s == front + [last];
      assert Settled(front);
      AfterAll(front);
      if |s| > 1 {
        OnlyFirstIsNameless(s, |s| - 1);
      }
      hide After, Settled, InOrder, Clean;
      AfterSection(CanonicalPieces(front), front, if front == [] then "" else front[|front| - 1].name, last);
    } else {
      assert ParsedLines([], "", 1) == [];
      assert View([]) == [];
    }
  }

  ghost predicate EachLine(ps: seq<Piece>) {
    forall i | 0 <= i < |ps| :: OneLine(ps[i].raw) && ps[i].end == "\n"
  }

  lemma SectionIsLines(s: Section, first: bool)
    requires Clean(s)
    ensures EachLine(SectionPieces(s, first))
  {
    assert OneLine("[" + s.name + "]");
    hide OneLine;
    assert OneLine("") by {
      EmptyIsOneLine();
    }
  }

  lemma EmptyIsOneLine()
    ensures OneLine("")
  {
  }

  lemma {:induction false} CanonicalIsLines(s: seq<Section>)
    requires forall i | 0 <= i < |s| :: Clean(s[i])
    ensures EachLine(CanonicalPieces(s))
  {
    hide Clean, OneLine;
    if s != [] {
      CanonicalIsLines(s[..|s| - 1]);
      SectionIsLines(s[|s| - 1], |s| == 1);
    }
  }

  // The text is cut into the pieces it was joined from, and an empty last line.
  lemma CanonicalCut(ps: seq<Piece>)
    requires EachLine(ps)
    ensures Cut(Joined(ps)) == ps + [Piece("", "")]
  {
    EmptyIsOneLine();
    hide OneLine;
    var all := ps + [Piece("", "")];
    assert WellCut(all);
    CutOfJoined(all);
    JoinedMore(ps, [Piece("", "")]);
    JoinedOne(Piece("", ""));
    assert Joined(ps) + "" == Joined(ps);
  }

  /** Parsing canonical text gathers the sections it was written from. */
  lemma ParsedCanonical(s: seq<Section>)
    requires Settled(s)
    ensures View(Parsed(Joined(CanonicalPieces(s))).stanzas) == s
  {
    var ps := CanonicalPieces(s);
    var stanza := if s == [] then "" else s[|s| - 1].name;
    AfterAll(s);
    CanonicalIsLines(s);
    hide Settled, Clean, CanonicalPieces, EachLine, Cut, Joined;
    CanonicalCut(ps);
    AfterBlank(ps, "", s, stanza);
  }

  lemma ParsedIsClean(text: string)
    ensures var stanzas := Parsed(text).stanzas; DistinctStanzas(stanzas) && AllClean(stanzas)
  {
    var lines := Parsed(text).lines;
    CutIsExact(text);
    forall i | 0 <= i < |lines|
      ensures WellRead(lines[i]) && OneLine(lines[i].raw) && OneLine(lines[i].stanza)
    {
      ParsedIsWellRead(text, i);
      RawIsOneLine(text, i);
      StanzaIsOneLine(text, i);
    }
    hide WellRead, OneLine, Cut;
    GatheredClean(lines);
  }

  lemma RawIsOneLine(text: string, i: nat)
    requires i < |Parsed(text).lines|
    ensures OneLine(Parsed(text).lines[i].raw)
  {
    hide Classify, OneLine, Cut;
    CutIsExact(text);
    ParsedLinesAt(Cut(text), "", 1, i);
  }

  lemma {:induction false} StanzaIsOneLine(text: string, i: nat)
    requires i < |Parsed(text).lines|
    ensures OneLine(Parsed(text).lines[i].stanza)
  {
    hide OneLine, Cut, ParsedLine, Classify, Parsed, WellRead;
    var l := Parsed(text).lines[i];
    EmptyIsOneLine();
    ParsedIsWellRead(text, i);
    RawIsOneLine(text, i);
    if i > 0 {
      StanzaIsOneLine(text, i - 1);
    }
    if l.kind == Header {
      HeaderName(l);
    } else {
      StanzaCarriesOn(text, i);
    }
  }

  lemma StanzaCarriesOn(text: string, i: nat)
    requires i < |Parsed(text).lines| && Parsed(text).lines[i].kind != Header
    ensures Parsed(text).lines[i].stanza == if i == 0 then "" else Parsed(text).lines[i - 1].stanza
  {
    hide Cut, ParsedLine;
    ParsedLinesAt(Cut(text), "", 1, i);
    KeepsStanza(Cut(text)[i], if i == 0 then "" else Parsed(text).lines[i - 1].stanza, 1 + i);
  }

  lemma KeepsStanza(p: Piece, stanza: string, no: nat)
    ensures ParsedLine(p, stanza, no).kind != Header ==> ParsedLine(p, stanza, no).stanza == stanza
  {
  }

  lemma SectionsAreSettled(stanzas: seq<Stanza>)
    requires DistinctStanzas(stanzas) && AllClean(stanzas)
    ensures Settled(CanonicalSections(stanzas))
  {
    var v := View(stanzas);
    var shown := ShownOf(v);
    assert DistinctNames(v);
    ShownDistinct(v);
    SortKeepsDistinct(shown);
    NamesAreOrdered();
    var s := Sort(ByName, shown);
    hide Clean, IsOrder, DistinctNames, Sort, ShownOf;
    forall i | 0 <= i < |s|
      ensures Clean(s[i]) && Shown(s[i])
    {
      SortHolds(ByName, shown, s[i]);
      ShownHolds(v, s[i]);
      var k :| 0 <= k < |v| && v[k] == s[i];
    }
  }

  lemma SettledStays(stanzas: seq<Stanza>, s: seq<Section>)
    requires Settled(s) && View(stanzas) == s
    ensures CanonicalSections(stanzas) == s
  {
    hide Clean;
    ShownStays(s);
    SortedStays(ByName, s);
  }

  /** Canonical form is a fixed point: parsing it and rendering it again changes nothing. */
  lemma CanonicalIsAFixedPoint(text: string)
    ensures var once := CanonicalText(Parsed(text).stanzas);
            CanonicalText(Parsed(once).stanzas) == once
  {
    hide Parsed, Settled, View, Sort, ShownOf, CanonicalPieces, Joined, CanonicalSections, DistinctStanzas, AllClean;
    var s := CanonicalSections(Parsed(text).stanzas);
    ParsedIsClean(text);
    SectionsAreSettled(Parsed(text).stanzas);
    ParsedCanonical(s);
    SettledStays(Parsed(Joined(CanonicalPieces(s))).stanzas, s);
  }

  lemma CodesTell(a: string, b: string)
    requires Codes(a) == Codes(b)
    ensures a == b
  {
    forall i | 0 <= i < |a|
      ensures a[i] == b[i]
    {
      assert Codes(a)[i] == Codes(b)[i];
    }
  }

  /**
    The canonical form has every stanza of the file once, but a nameless one without lines, and in the order of their
    names: of two names the first has the smaller code where they first differ, or ends there.
   */
  lemma SectionsInOrder(text: string)
    ensures var stanzas, s := Parsed(text).stanzas, CanonicalSections(Parsed(text).stanzas);
            && (forall y :: y in s <==> y in View(stanzas) && (y.name != "" || y.lines != []))
            && forall i, j | 0 <= i < j < |s| :: ComesFirst(Codes(s[i].name), Codes(s[j].name))
  {
    hide *;
    ParsedIsClean(text);
    SortedSections(Parsed(text).stanzas);
  }

  lemma SortedSections(stanzas: seq<Stanza>)
    requires DistinctStanzas(stanzas)
    ensures var s := CanonicalSections(stanzas);
            && (forall y :: y in s <==> y in View(stanzas) && (y.name != "" || y.lines != []))
            && forall i, j | 0 <= i < j < |s| :: ComesFirst(Codes(s[i].name), Codes(s[j].name))
  {
    var v, s := View(stanzas), CanonicalSections(stanzas);
    assert DistinctNames(v);
    ShownDistinct(v);
    SortKeepsDistinct(ShownOf(v));
    NamesAreOrdered();
    hide View, IsOrder, Sort, ShownOf, Codes, ComesFirst;
    forall y
      ensures y in s <==> y in v && (y.name != "" || y.lines != [])
    {
      SortHolds(ByName, ShownOf(v), y);
      ShownHolds(v, y);
    }
    forall i, j | 0 <= i < j < |s|
      ensures ComesFirst(Codes(s[i].name), Codes(s[j].name))
    {
      assert !ByName(s[j], s[i]);
      FirstComesFirst(s[i].name, s[j].name);
    }
  }

  lemma FirstComesFirst(a: string, b: string)
    requires a != b && !Before(Codes(b), Codes(a))
    ensures ComesFirst(Codes(a), Codes(b))
  {
    hide Before, Codes, ComesFirst;
    BeforeIsTotal(Codes(a), Codes(b));
    BeforeExactly(Codes(a), Codes(b));
    if Codes(a) == Codes(b) {
      CodesTell(a, b);
      assert false;
    }
  }
}
