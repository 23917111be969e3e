/** rippled's reading of a config's canonical form: internal/cfg/rippled_model_test.go:42-134. */
module RippledCanonical {
  import opened ConfigText
  import opened RoundTrip
  import opened RippledReading
  import opened Canonical
  import opened Sorting

  // ----- a value without a comment -----

  // removeComment's loop from a place it has reached.
  function LoopFrom(s: string, i: nat): string
    requires i <= |s|
  {
    var c := IndexOfHash(s, i);
    if c < 0 then s else RemoveCommentAt(s, c)
  }

  lemma LoopStops(a: string, v: string)
    requires NoHash(v)
    ensures LoopFrom(a + v, |a|) == a + v
  {
    assert forall k | 0 <= k < |v| :: (a + v)[|a| + k] == v[k];
  }

  lemma EscapeAt(t: string, y: string)
    ensures var s := t + "\\#" + y;
            && |s| == |t| + 2 + |y| && s[|t|] == '\\' && s[|t| + 1] == '#'
            && s[..|t|] == t && s[|t|] != '#' && s[..|t|] + s[|t| + 1..] == t + "#" + y
  {
    var s := t + "\\#" + y;
    assert s[|t| + 1..] == "#" + y;
  }

  // The next escaped "#" loses its backslash.
  lemma LoopSteps(t: string, lo: nat, y: string)
    requires lo <= |t| && forall k | lo <= k < |t| :: t[k] != '#'
    ensures LoopFrom(t + "\\#" + y, lo) == LoopFrom(t + "#" + y, |t| + 1)
  {
    var s := t + "\\#" + y;
    EscapeAt(t, y);
    assert forall k | 0 <= k < |t| :: s[k] == t[k];
    assert IndexOfHash(s, lo) == |t| + 1;
  }

  lemma FirstHash(v: string) returns (p: int)
    ensures p == -1 ==> NoHash(v)
    ensures p >= 0 ==> p < |v| && v[p] == '#' && NoHash(v[..p])
    ensures p >= -1
  {
    p := IndexOfHash(v, 0);
  }

  /** With no comment to stop at, only the escapes are taken out. */
  lemma {:induction false} RemoveNothingFrom(a: string, v: string)
    requires NoComment(v)
    ensures LoopFrom(a + v, |a|) == a + Unescaped(v)
    decreases |v|
  {
    var p := FirstHash(v);
    if p < 0 {
      LoopStops(a, v);
      UnescapedNoHash(v);
    } else {
      assert !StartsComment(v, p);
      EscapeSplits(v, p);
      RestHasNoComment(v, p);
      RemoveNothingStep(a, v[..p - 1], v[p + 1..]);
      RemoveNothingFrom(a + v[..p - 1] + "#", v[p + 1..]);
    }
  }

  lemma RemoveNothingStep(a: string, x: string, y: string)
    requires NoHash(x)
    ensures LoopFrom(a + (x + "\\#" + y), |a|) == LoopFrom(a + x + "#" + y, |a + x + "#"|)
    ensures a + Unescaped(x + "\\#" + y) == a + x + "#" + Unescaped(y)
  {
    var t := a + x;
    hide *;
    UnescapedPlain(x, y);
    GroupLeft(a, x, "\\#", y);
    GroupLeft(a, x, "#", Unescaped(y));
    NoHashBehind(a, x);
    LoopSteps(t, |a|, y);
  }

  lemma GroupLeft(a: string, b: string, c: string, d: string)
    ensures a + (b + c + d) == a + b + c + d
  {
  }

  lemma NoHashBehind(a: string, x: string)
    requires NoHash(x)
    ensures forall k | |a| <= k < |a + x| :: (a + x)[k] != '#'
  {
    assert forall k | |a| <= k < |a + x| :: (a + x)[k] == x[k - |a|];
  }

  lemma RemoveNothing(v: string)
    requires NoComment(v)
    ensures RemoveComment(v) == Unescaped(v)
  {
    RemoveNothingFrom("", v);
    assert "" + v == v && "" + Unescaped(v) == Unescaped(v);
  }

  lemma {:induction false} UnescapedEnds(v: string)
    requires v != ""
    ensures Unescaped(v) != "" && Unescaped(v)[|Unescaped(v)| - 1] == v[|v| - 1]
    ensures Unescaped(v)[0] == v[0] || Unescaped(v)[0] == '#'
    decreases |v|
  {
    UnescapedUnfold(v);
    var n := EscapeLength(v);
    if n < |v| {
      UnescapedEnds(v[n..]);
    } else {
      assert v[n..] == "";
    }
  }

  // ----- one line -----

  lemma SettingReads(v: string, spaces: string, comment: string)
    requires v != "" && Trimmed(v) && AllSpaces(spaces) && comment != "" && comment[0] == '#'
    requires forall k | 0 <= k < |v| :: !StartsComment(v, k)
    requires spaces == "" ==> v[|v| - 1] != '\\'
    ensures RemoveComment(v + spaces + comment) == RemoveComment(v)
  {
    hide Trim, RemoveComment, Unescaped;
    SettingIsKept'(v, spaces, comment);
    RemoveNothing(v);
    UnescapedEnds(v);
    TrimOfTrimmed(Unescaped(v));
  }

  lemma ValueEntries(l: Line, section: string)
    requires WellRead(l) && l.kind == Value
    ensures LineEntries(l.raw, section) == LineEntries(l.value, section)
  {
    if l.comment == "" {
      WholeEntries(l, section);
    } else {
      SettingEntries(l, section);
    }
  }

  lemma WholeEntries(l: Line, section: string)
    requires WellRead(l) && l.kind == Value && l.comment == ""
    ensures LineEntries(l.raw, section) == LineEntries(l.value, section)
  {
    WholeLine(l);
    TrimTwice(l.raw);
    hide Trim, RemoveComment, LooksLikeHeader, WellRead;
  }

  lemma SettingEntries(l: Line, section: string)
    requires WellRead(l) && l.comment != ""
    ensures LineEntries(l.raw, section) == LineEntries(l.value, section)
  {
    hide *;
    var line, spaces := CommentShape(l);
    SettingIsNoHeader(l);
    TrimOfTrimmed(l.value);
    FirstIs(l.value, spaces, l.comment);
    SettingReads(l.value, spaces, l.comment);
    SameEntries(l.raw, l.value, section);
  }

  lemma OtherEntries(l: Line, section: string)
    requires WellRead(l) && l.kind != Value
    ensures LineEntries(l.raw, section) == []
  {
    hide Trim, RemoveComment, CommentFrom;
  }

  // ----- all lines -----

  // The values rippled holds for one section, in order.
  function ValuesOf(entries: seq<Entry>, section: string): seq<string> {
    if entries == [] then []
    else
      var last := entries[|entries| - 1];
      ValuesOf(entries[..|entries| - 1], section) + if last.section == section then [last.value] else []
  }

  lemma {:induction false} ValuesJoin(a: seq<Entry>, b: seq<Entry>, section: string)
    ensures ValuesOf(a + b, section) == ValuesOf(a, section) + ValuesOf(b, section)
  {
    if b == [] {
      assert a + b == a;
    } else {
      var front := b[..|b| - 1];
      assert (a + b)[..|a + b| - 1] == a + front;
      ValuesJoin(a, front, section);
    }
  }

  lemma {:induction false} ReadingJoins(a: seq<Line>, b: seq<Line>)
    ensures ReadingOf(a + b) == ReadingOf(a) + ReadingOf(b)
  {
    hide LineEntries;
    if a == [] {
      assert a + b == b;
    } else {
      assert (a + b)[1..] == a[1..] + b;
      ReadingJoins(a[1..], b);
    }
  }

  lemma ReadingOfOne(l: Line)
    ensures ReadingOf([l]) == LineEntries(l.raw, l.stanza)
  {
    hide LineEntries;
    assert [l][1..] == [];
    assert ReadingOf([]) == [];
  }

  // What rippled holds of a stanza's values.
  function Held(values: seq<string>, section: string): seq<string> {
    if values == [] then []
    else Held(values[..|values| - 1], section) + ValuesOf(LineEntries(values[|values| - 1], section), section)
  }

  // The values that the parser gathered for a stanza.
  function LinesOf(stanzas: seq<Stanza>, name: string): seq<string> {
    var i := Find(stanzas, name);
    if i < |stanzas| then stanzas[i].lines else []
  }

  lemma ExtendedLines(stanzas: seq<Stanza>, l: Line, name: string)
    ensures LinesOf(Extended(stanzas, l), name) ==
            LinesOf(stanzas, name) + if l.kind == Value && l.value != "" && l.stanza == name then [l.value] else []
  {
    var opens := Opened(stanzas, l.stanza, l.no);
    OpenedLines(stanzas, l.stanza, l.no, name);
    assert LinesOf(stanzas, name) + [] == LinesOf(stanzas, name);
    if l.kind == Value && l.value != "" {
      var at := Find(stanzas, l.stanza);
      OpenedFind(stanzas, l.stanza, l.no);
      var after := Extended(stanzas, l);
      SameNamesSameFind(opens, after, name);
      SameNamesSameFind(opens, after, l.stanza);
    }
  }

  lemma OpenedFind(stanzas: seq<Stanza>, name: string, no: nat)
    ensures Find(Opened(stanzas, name, no), name) == Find(stanzas, name)
  {
    if Find(stanzas, name) == |stanzas| {
      FindAppended(stanzas, name, no);
    }
  }

  lemma OpenedLines(stanzas: seq<Stanza>, name: string, no: nat, other: string)
    ensures LinesOf(Opened(stanzas, name, no), other) == LinesOf(stanzas, other)
  {
    var i := Find(stanzas, other);
    if Find(stanzas, name) == |stanzas| {
      FindInMore(stanzas, Stanza(name, [], no), other);
    }
  }

  lemma {:induction false} FindInMore(stanzas: seq<Stanza>, s: Stanza, name: string)
    ensures Find(stanzas + [s], name) == if Find(stanzas, name) < |stanzas| || s.name == name then Find(stanzas, name) else |stanzas| + 1
  {
    if stanzas == [] {
      assert stanzas + [s] == [s] && [s][1..] == [];
    } else {
      assert (stanzas + [s])[1..] == stanzas[1..] + [s];
      FindInMore(stanzas[1..], s, name);
    }
  }

  lemma OneLineHeld(l: Line, section: string)
    requires WellRead(l) && (l.kind == Value ==> l.value != "")
    ensures ValuesOf(LineEntries(l.raw, l.stanza), section) ==
            if l.kind == Value && l.stanza == section then ValuesOf(LineEntries(l.value, section), section) else []
  {
    if l.kind == Value {
      ValueEntries(l, l.stanza);
      EntriesOfSection(l.value, l.stanza, section);
    } else {
      OtherEntries(l, l.stanza);
    }
  }

  lemma EntriesOfSection(raw: string, section: string, other: string)
    ensures section != other ==> ValuesOf(LineEntries(raw, section), other) == []
  {
    hide Trim, RemoveComment, LooksLikeHeader;
    var es := LineEntries(raw, section);
    if es != [] {
      assert es[..0] == [] && |es| == 1;
    }
  }

  /** rippled holds, for each section, its reading of the values that the parser gathered for it. */
  lemma {:induction false} ReadingIsHeld(lines: seq<Line>, section: string)
    requires forall i | 0 <= i < |lines| :: WellRead(lines[i]) && (lines[i].kind == Value ==> lines[i].value != "")
    ensures ValuesOf(ReadingOf(lines), section) == Held(LinesOf(Gathered(lines), section), section)
  {
    hide LineEntries, WellRead, Extended, LinesOf;
    if lines == [] {
      NothingHeld(section);
    } else {
      var front, l := lines[..|lines| - 1], lines[|lines| - 1];
      assert lines == front + [l];
      ReadingIsHeld(front, section);
      ReadingJoins(front, [l]);
      ReadingOfOne(l);
      ValuesJoin(ReadingOf(front), LineEntries(l.raw, l.stanza), section);
      OneLineHeld(l, section);
      ExtendedLines(Gathered(front), l, section);
      HeldMore(LinesOf(Gathered(front), section), l.value, section);
    }
  }

  lemma NothingHeld(section: string)
    ensures ReadingOf([]) == [] && ValuesOf([], section) == [] && Held(LinesOf(Gathered([]), section), section) == []
  {
  }

  lemma HeldMore(values: seq<string>, v: string, section: string)
    ensures Held(values + [v], section) == Held(values, section) + ValuesOf(LineEntries(v, section), section)
    ensures values + [] == values && Held(values, section) + [] == Held(values, section)
  {
    hide LineEntries;
    assert (values + [v])[..|values|] == values;
  }

  lemma ParsedLinesAreRead(text: string, i: nat)
    requires i < |Parsed(text).lines|
    ensures var l := Parsed(text).lines[i]; WellRead(l) && (l.kind == Value ==> l.value != "")
  {
    hide Parsed, Classify;
    ParsedIsWellRead(text, i);
    var l := Parsed(text).lines[i];
    if l.kind == Value {
      if l.comment == "" {
        WholeLine(l);
      } else {
        var line, spaces := CommentShape(l);
      }
    }
  }

  lemma TextIsHeld(text: string, section: string)
    ensures ValuesOf(RippledReading.Reading(text), section) == Held(LinesOf(Parsed(text).stanzas, section), section)
  {
    hide WellRead, ParsedLines, Cut, Entries, RippledLines;
    ReadingIsByLine(text);
    forall i | 0 <= i < |Parsed(text).lines|
      ensures WellRead(Parsed(text).lines[i]) && (Parsed(text).lines[i].kind == Value ==> Parsed(text).lines[i].value != "")
    {
      ParsedLinesAreRead(text, i);
    }
    ReadingIsHeld(Parsed(text).lines, section);
  }

  // ----- the sections of the canonical form -----

  lemma LinesInView(stanzas: seq<Stanza>, name: string)
    requires DistinctStanzas(stanzas)
    ensures LinesOf(stanzas, name) != [] ==> Section(name, LinesOf(stanzas, name)) in View(stanzas)
    ensures forall s | s in View(stanzas) && s.name == name :: LinesOf(stanzas, name) == s.lines
  {
    var i := Find(stanzas, name);
    if i < |stanzas| {
      assert View(stanzas)[i] == Section(name, stanzas[i].lines);
    }
    forall s | s in View(stanzas) && s.name == name
      ensures LinesOf(stanzas, name) == s.lines
    {
      var k :| 0 <= k < |stanzas| && View(stanzas)[k] == s;
      assert stanzas[k].name == name;
    }
  }

  lemma SameLines(stanzas: seq<Stanza>, canonical: seq<Stanza>, name: string)
    requires DistinctStanzas(stanzas) && DistinctStanzas(canonical) && View(canonical) == CanonicalSections(stanzas)
    ensures LinesOf(canonical, name) == LinesOf(stanzas, name)
  {
    var lines, lines' := LinesOf(stanzas, name), LinesOf(canonical, name);
    LinesInView(stanzas, name);
    LinesInView(canonical, name);
    NamesAreOrdered();
    hide LinesOf, View, Sort, ShownOf, IsOrder;
    var s, s' := Section(name, lines), Section(name, lines');
    SortHolds(ByName, ShownOf(View(stanzas)), s);
    ShownHolds(View(stanzas), s);
    SortHolds(ByName, ShownOf(View(stanzas)), s');
    ShownHolds(View(stanzas), s');
  }

  /** For every section rippled holds the same values, in the same order, from the canonical form. */
  lemma RippledReadsCanonical(text: string, section: string)
    ensures var canonical := CanonicalText(Parsed(text).stanzas);
            ValuesOf(RippledReading.Reading(canonical), section) == ValuesOf(RippledReading.Reading(text), section)
  {
    hide Parsed, Settled, View, Sort, ShownOf, CanonicalPieces, Joined, CanonicalSections, DistinctStanzas, AllClean;
    hide LinesOf, Held, ValuesOf, RippledReading.Reading;
    var stanzas := Parsed(text).stanzas;
    var canonical := CanonicalText(stanzas);
    ParsedIsClean(text);
    ParsedIsClean(canonical);
    SectionsAreSettled(stanzas);
    ParsedCanonical(CanonicalSections(stanzas));
    SameLines(stanzas, Parsed(canonical).stanzas, section);
    TextIsHeld(text, section);
    TextIsHeld(canonical, section);
  }
}
