/**
  Splitting a config into its on-chain and bundle halves and merging them again:
  internal/redact/redact.go. The regular expressions and the address and hostname rules are an
  argument, so every result holds whatever they decide.
 */
module Redact {
  import opened Common
  import opened ConfigText

  const MOVED_MARKER := "# xrplbak: content moved to the off-chain bundle"
  const COMMENT_MARKER := "# xrplbak: comment moved to the off-chain bundle"

  datatype Mode = CommentsToBundle | CommentsOnChain

  datatype Options = Options(comments: Mode, peersOnChain: bool)

  // lineReason ("" keeps the line), the two seed expressions, the PEM test, and what is key material of an
  // included file's path and text.
  datatype Scanners = Scanners(
    reason: (string, string) -> string,
    seedLike: string -> bool,
    pemLike: string -> bool,
    keyMaterial: (string, string) -> bool)

  const NEVER_STANZAS: set<string> := {"validation_seed", "node_seed", "ssl_key"}

  const BUNDLE_STANZAS: set<string> := {
    "validator_token", "validator_key_revocation", "ips_fixed", "cluster_nodes", "rpc_startup",
    "ssl_cert", "peer_private"}

  // The allowlist, by what the stanzas are about.
  const STORE_STANZAS: set<string> := {
    "node_db", "database_path", "ledger_history", "fetch_depth", "debug_logfile", "ledger_tx_tables",
    "import_db", "ledger_replay", "sqlite", "load", "node_size"}

  const PATH_STANZAS: set<string> := {
    "path_search", "path_search_fast", "path_search_max", "path_search_old", "workers", "io_workers",
    "prefetch_workers", "max_transactions", "transaction_queue", "perf", "insight", "signing_support"}

  const TRUST_STANZAS: set<string> := {
    "voting", "amendments", "veto_amendments", "ssl_verify", "ssl_verify_file", "ssl_verify_dir",
    "validators_file", "validator_list_sites", "validator_list_keys", "validator_list_threshold",
    "validators", "vl", "relay_validations", "relay_proposals"}

  const NETWORK_STANZAS: set<string> := {
    "server", "sntp_servers", "ips", "peers_max", "peers_in_max", "peers_out_max", "reduce_relay",
    "compression", "overlay", "network_id", "beta_rpc_api", "crawl", "rpc_ip", "rpc_port"}

  const ON_CHAIN_STANZAS: set<string> := STORE_STANZAS + PATH_STANZAS + TRUST_STANZAS + NETWORK_STANZAS

  const BLOB_STANZAS: set<string> := {"validator_token", "validator_key_revocation"}

  const PEER_STANZAS: set<string> := {"ips_fixed"}

  // ----- classification -----

  function ValueReason(stanza: string, value: string, scan: Scanners): string {
    if stanza in BUNDLE_STANZAS then "bundle-only stanza"
    else if stanza !in ON_CHAIN_STANZAS && !("port_" <= stanza) && stanza != "" then
      "stanza not on the on-chain allowlist"
    else if stanza == "" then "line sits outside any stanza"
    else scan.reason(stanza, value)
  }

  function ValueReasonOpt(stanza: string, value: string, opt: Options, scan: Scanners): string {
    if opt.peersOnChain && stanza in PEER_STANZAS then scan.reason(stanza, value)
    else ValueReason(stanza, value, scan)
  }

  datatype Decision = Keep | MoveLine(reason: string) | MoveComment(reason: string)

  // Where Split puts a line.
  function Decide(l: Line, opt: Options, scan: Scanners): Decision {
    match l.kind
    case Blank => Keep
    case Header => Keep
    case Comment =>
      if opt.comments == CommentsToBundle then MoveLine("operator comment")
      else if scan.reason(l.stanza, l.raw) != "" then MoveLine(scan.reason(l.stanza, l.raw))
      else Keep
    case Value =>
      var why := ValueReasonOpt(l.stanza, l.value, opt, scan);
      if why != "" then MoveLine(why)
      else if l.comment == "" then Keep
      else if opt.comments == CommentsToBundle then MoveComment("operator comment")
      else if scan.reason(l.stanza, l.comment) != "" then MoveComment(scan.reason(l.stanza, l.comment))
      else Keep
  }

  datatype RefusalReason = NeverStanza | SeedOrSecret | PemMaterial | RestoreMarker

  datatype Refusal = Refusal(stanza: string, lineNo: nat, reason: RefusalReason)

  predicate Contains(text: string, part: string) {
    part <= text || (text != "" && Contains(text[1..], part))
  }

  function LineRefusal(l: Line, scan: Scanners): Option<Refusal> {
    if l.kind == Blank || l.kind == Header then None
    else if l.stanza !in BLOB_STANZAS && scan.seedLike(l.raw) then Some(Refusal(l.stanza, l.no, SeedOrSecret))
    else if scan.pemLike(l.raw) then Some(Refusal(l.stanza, l.no, PemMaterial))
    else if Contains(l.raw, MARKER_PREFIX) then Some(Refusal(l.stanza, l.no, RestoreMarker))
    else None
  }

  function StanzasRefusal(stanzas: seq<Stanza>): Option<Refusal> {
    if stanzas == [] then None
    else if stanzas[0].name in NEVER_STANZAS then Some(Refusal(stanzas[0].name, stanzas[0].lineNo, NeverStanza))
    else StanzasRefusal(stanzas[1..])
  }

  function LinesRefusal(lines: seq<Line>, scan: Scanners): Option<Refusal> {
    if lines == [] then None
    else if LineRefusal(lines[0], scan).Some? then LineRefusal(lines[0], scan)
    else LinesRefusal(lines[1..], scan)
  }

  // The first reason to refuse a file, if any.
  function FileRefusal(f: File, scan: Scanners): Option<Refusal> {
    if StanzasRefusal(f.stanzas).Some? then StanzasRefusal(f.stanzas) else LinesRefusal(f.lines, scan)
  }

  /** redact.go's refuse. */
  method Refuse(f: File, scan: Scanners) returns (r: Option<Refusal>)
    ensures r == FileRefusal(f, scan)
  {
    for i := 0 to |f.stanzas|
      invariant StanzasRefusal(f.stanzas) == StanzasRefusal(f.stanzas[i..])
    {
      var s := f.stanzas[i];
      if s.name in NEVER_STANZAS {
        return Some(Refusal(s.name, s.lineNo, NeverStanza));
      }
    }
    for i := 0 to |f.lines|
      invariant LinesRefusal(f.lines, scan) == LinesRefusal(f.lines[i..], scan)
    {
      var l := f.lines[i];
      if l.kind == Blank || l.kind == Header {
        continue;
      }
      if l.stanza !in BLOB_STANZAS && scan.seedLike(l.raw) {
        return Some(Refusal(l.stanza, l.no, SeedOrSecret));
      }
      if scan.pemLike(l.raw) {
        return Some(Refusal(l.stanza, l.no, PemMaterial));
      }
      if Contains(l.raw, MARKER_PREFIX) {
        return Some(Refusal(l.stanza, l.no, RestoreMarker));
      }
    }
    return None;
  }

  // ----- splitting -----

  function OnChainLine(l: Line, d: Decision): Line {
    match d
    case Keep => l
    case MoveLine(_) => l.(raw := MOVED_MARKER)
    case MoveComment(_) => l.(raw := l.value + " " + COMMENT_MARKER)
  }

  function OnChainLines(lines: seq<Line>, opt: Options, scan: Scanners): (on: seq<Line>)
    ensures |on| == |lines|
    ensures forall i | 0 <= i < |lines| :: on[i] == OnChainLine(lines[i], Decide(lines[i], opt, scan))
  {
    seq(|lines|, i requires 0 <= i < |lines| => OnChainLine(lines[i], Decide(lines[i], opt, scan)))
  }

  function BundleLines(lines: seq<Line>, opt: Options, scan: Scanners): seq<Line> {
    if lines == [] then []
    else (if Decide(lines[0], opt, scan).Keep? then [] else [lines[0]]) + BundleLines(lines[1..], opt, scan)
  }

  // One report entry per stanza that lost a line.
  datatype Move = Move(stanza: string, lines: nat, comments: nat, reason: string)

  function FindMove(moves: seq<Move>, stanza: string): (i: nat)
    ensures i <= |moves| && (i < |moves| ==> moves[i].stanza == stanza)
    ensures forall k | 0 <= k < i :: moves[k].stanza != stanza
  {
    if moves == [] || moves[0].stanza == stanza then 0 else 1 + FindMove(moves[1..], stanza)
  }

  predicate CommentOnly(l: Line, d: Decision) {
    l.kind == Comment || d.MoveComment?
  }

  function Recorded(moves: seq<Move>, l: Line, d: Decision): seq<Move> {
    if d.Keep? then moves
    else
      var i := FindMove(moves, l.stanza);
      var m := if i < |moves| then moves[i] else Move(l.stanza, 0, 0, "");
      var m' := Move(l.stanza, m.lines + 1, m.comments + (if CommentOnly(l, d) then 1 else 0), d.reason);
      if i < |moves| then moves[i := m'] else moves + [m']
  }

  function MovesOf(lines: seq<Line>, opt: Options, scan: Scanners): seq<Move> {
    if lines == [] then []
    else
      var last := lines[|lines| - 1];
      Recorded(MovesOf(lines[..|lines| - 1], opt, scan), last, Decide(last, opt, scan))
  }

  datatype SplitResult = SplitResult(onChain: File, bundle: File, moves: seq<Move>, isValidator: bool)

  function OnChainText(text: string, opt: Options, scan: Scanners): string {
    Joined(Pieces(OnChainLines(Parsed(text).lines, opt, scan)))
  }

  function BundleText(text: string, opt: Options, scan: Scanners): string {
    Joined(Pieces(BundleLines(Parsed(text).lines, opt, scan)))
  }

  ghost predicate HasToken(stanzas: seq<Stanza>) {
    exists i | 0 <= i < |stanzas| :: stanzas[i].name == "validator_token" && stanzas[i].lines != []
  }

  /** redact.go's Split: appends every line to the on-chain document and the moved ones to the bundle. */
  method Split(f: File, opt: Options, scan: Scanners) returns (r: Result<SplitResult, Refusal>)
    ensures FileRefusal(f, scan).Some? ==> r == Err(FileRefusal(f, scan).value)
    ensures FileRefusal(f, scan).None? ==>
      && r.Ok?
      && r.value.onChain.lines == OnChainLines(f.lines, opt, scan)
      && r.value.onChain.stanzas == Parsed(Joined(Pieces(r.value.onChain.lines))).stanzas
      && r.value.bundle.lines == BundleLines(f.lines, opt, scan)
      && r.value.bundle.stanzas == Parsed(Joined(Pieces(r.value.bundle.lines))).stanzas
      && r.value.moves == MovesOf(f.lines, opt, scan)
      && r.value.isValidator == HasToken(f.stanzas)
  {
    hide FileRefusal, Decide, Parsed, Joined, Pieces, MovesOf, BundleLines;
    var refusal := Refuse(f, scan);
    if refusal.Some? {
      return Err(refusal.value);
    }
    var isValidator := false;
    for i := 0 to |f.stanzas|
      invariant isValidator <==> exists k | 0 <= k < i :: f.stanzas[k].name == "validator_token" && f.stanzas[k].lines != []
    {
      if f.stanzas[i].name == "validator_token" && |f.stanzas[i].lines| > 0 {
        isValidator := true;
      }
    }
    var onChain: seq<Line> := [];
    var bundle: seq<Line> := [];
    var moves: seq<Move> := [];
    var at: map<string, nat> := map[];
    NothingSplit(f.lines, opt, scan);
    for i := 0 to |f.lines|
      invariant onChain == OnChainLines(f.lines[..i], opt, scan)
      invariant bundle + BundleLines(f.lines[i..], opt, scan) == BundleLines(f.lines, opt, scan)
      invariant moves == MovesOf(f.lines[..i], opt, scan)
      invariant Indexes(at, moves)
    {
      var l := f.lines[i];
      assert f.lines[..i + 1] == f.lines[..i] + [l];
      var d := ClassifyLine(l, opt, scan);
      MovesOfMore(f.lines[..i], l, opt, scan);
      BundleLinesStep(f.lines, i, bundle, opt, scan);
      if d.Keep? {
        onChain := onChain + [l];
        continue;
      }
      var out := l.(raw := if d.MoveComment? then l.value + " " + COMMENT_MARKER else MOVED_MARKER);
      onChain := onChain + [out];
      bundle := bundle + [l];
      moves, at := RecordMove(moves, at, l, d);
    }
    assert f.lines[..|f.lines|] == f.lines;
    assert f.lines[|f.lines|..] == [];
    BundleLinesNone(bundle, opt, scan);
    var onFile := Parse(Joined(Pieces(onChain)));
    var bundleFile := Parse(Joined(Pieces(bundle)));
    r := Ok(SplitResult(File(onChain, onFile.stanzas), File(bundle, bundleFile.stanzas), moves, isValidator));
  }

  lemma NothingSplit(lines: seq<Line>, opt: Options, scan: Scanners)
    ensures MovesOf(lines[..0], opt, scan) == [] && Indexes(map[], [])
    ensures [] + BundleLines(lines[0..], opt, scan) == BundleLines(lines, opt, scan)
  {
    assert lines[0..] == lines;
  }

  lemma MovesOfMore(lines: seq<Line>, l: Line, opt: Options, scan: Scanners)
    ensures MovesOf(lines + [l], opt, scan) == Recorded(MovesOf(lines, opt, scan), l, Decide(l, opt, scan))
  {
    assert (lines + [l])[..|lines + [l]| - 1] == lines;
  }

  lemma BundleLinesStep(lines: seq<Line>, i: nat, done: seq<Line>, opt: Options, scan: Scanners)
    requires i < |lines|
    ensures done + BundleLines(lines[i..], opt, scan) ==
            (if Decide(lines[i], opt, scan).Keep? then done else done + [lines[i]]) + BundleLines(lines[i + 1..], opt, scan)
  {
    hide Decide;
    assert lines[i..][1..] == lines[i + 1..];
  }

  lemma BundleLinesNone(done: seq<Line>, opt: Options, scan: Scanners)
    ensures done + BundleLines([], opt, scan) == done
  {
    hide Decide;
  }

  // Split's switch over one line.
  method ClassifyLine(l: Line, opt: Options, scan: Scanners) returns (d: Decision)
    ensures d == Decide(l, opt, scan)
  {
    match l.kind {
      case Blank => return Keep;
      case Header => return Keep;
      case Comment =>
        if opt.comments == CommentsToBundle {
          return MoveLine("operator comment");
        }
        var why := scan.reason(l.stanza, l.raw);
        if why != "" {
          return MoveLine(why);
        }
        return Keep;
      case Value =>
        var why := ValueReasonOpt(l.stanza, l.value, opt, scan);
        if why != "" {
          return MoveLine(why);
        }
        if l.comment == "" {
          return Keep;
        }
        // The setting may stay; its comment is judged on its own.
        if opt.comments == CommentsToBundle {
          return MoveComment("operator comment");
        }
        why := scan.reason(l.stanza, l.comment);
        if why != "" {
          return MoveComment(why);
        }
        return Keep;
    }
  }

  // Where the entry of each stanza is.
  ghost predicate Indexes(at: map<string, nat>, moves: seq<Move>) {
    forall s :: FindMove(moves, s) == (if s in at then at[s] else |moves|) && (s in at ==> at[s] < |moves|)
  }

  // The part of Split's move closure that counts.
  method RecordMove(before: seq<Move>, index: map<string, nat>, l: Line, d: Decision)
    returns (moves: seq<Move>, at: map<string, nat>)
    requires !d.Keep? && Indexes(index, before)
    ensures moves == Recorded(before, l, d) && Indexes(at, moves)
  {
    hide FindMove;
    moves, at := before, index;
    ghost var found := FindMove(before, l.stanza);
    assert found == if l.stanza in at then at[l.stanza] else |moves|;
    var i: nat;
    if l.stanza in at {
      i := at[l.stanza];
    } else {
      i := |moves|;
      at := at[l.stanza := i];
      moves := moves + [Move(l.stanza, 0, 0, "")];
    }
    moves := moves[i := moves[i].(lines := moves[i].lines + 1)];
    if l.kind == Comment || d.MoveComment? {
      moves := moves[i := moves[i].(comments := moves[i].comments + 1)];
    }
    moves := moves[i := moves[i].(reason := d.reason)];
    IndexesAfter(before, index, moves, at, l.stanza, i);
  }

  lemma IndexesAfter(before: seq<Move>, index: map<string, nat>, after: seq<Move>, at: map<string, nat>,
                     stanza: string, i: nat)
    requires Indexes(index, before) && i == FindMove(before, stanza)
    requires |after| == (if i < |before| then |before| else |before| + 1)
    requires after[i].stanza == stanza && forall k | 0 <= k < |before| && k != i :: after[k] == before[k]
    requires at == index[stanza := i]
    ensures Indexes(at, after)
  {
    forall s
      ensures FindMove(after, s) == (if s in at then at[s] else |after|) && (s in at ==> at[s] < |after|)
    {
      assert FindMove(before, s) == (if s in index then index[s] else |before|) && (s in index ==> index[s] < |before|);
      FindMoveAfter(before, after, stanza, i, s);
    }
  }

  lemma FindMoveAfter(before: seq<Move>, after: seq<Move>, stanza: string, i: nat, s: string)
    requires i == FindMove(before, stanza) && |after| == (if i < |before| then |before| else |before| + 1)
    requires after[i].stanza == stanza && forall k | 0 <= k < |before| && k != i :: after[k] == before[k]
    ensures FindMove(after, s) ==
            if FindMove(before, s) < |before| then FindMove(before, s) else if s == stanza then i else |after|
  {
    var j, b := FindMove(after, s), FindMove(before, s);
    assert after[i].stanza == stanza;
  }

  // ----- merging -----

  // The length of the UTF-8 encoding of a Unicode space at the start of s, 0 if there is none.
  function SpaceAt(s: string): (n: nat)
    ensures n <= |s|
    ensures forall i | 0 <= i < n :: s[i] != '#' && s[i] != '[' && s[i] != ']'
  {
    if s == "" then 0
    else if IsAsciiSpace(s[0]) then 1
    else if |s| >= 2 && IsSpace2(s[0] as int, s[1] as int) then 2
    else if |s| >= 3 && IsSpace3(s[0] as int, s[1] as int, s[2] as int) then 3
    else 0
  }

  // The same at the end of s.
  function SpaceBefore(s: string): (n: nat)
    ensures n <= |s|
    ensures n > 0 ==> s[|s| - 1] != ']' && s[|s| - 1] != 'e'
  {
    var n := |s|;
    if n == 0 then 0
    else if IsAsciiSpace(s[n - 1]) then 1
    else if n >= 2 && IsSpace2(s[n - 2] as int, s[n - 1] as int) then 2
    else if n >= 3 && IsSpace3(s[n - 3] as int, s[n - 2] as int, s[n - 1] as int) then 3
    else 0
  }

  // U+0085 and U+00A0.
  predicate IsSpace2(a: int, b: int) {
    a == 0xC2 && (b == 0x85 || b == 0xA0)
  }

  // U+1680, U+2000 to U+200A, U+2028, U+2029, U+202F, U+205F and U+3000.
  predicate IsSpace3(a: int, b: int, c: int) {
    || (a == 0xE1 && b == 0x9A && c == 0x80)
    || (a == 0xE2 && b == 0x80 && (0x80 <= c <= 0x8A || c == 0xA8 || c == 0xA9 || c == 0xAF))
    || (a == 0xE2 && b == 0x81 && c == 0x9F)
    || (a == 0xE3 && b == 0x80 && c == 0x80)
  }

  function SpaceTrimLeft(s: string): (t: string)
    ensures |t| <= |s| && t == s[|s| - |t|..]
  {
    if SpaceAt(s) == 0 then s else SpaceTrimLeft(s[SpaceAt(s)..])
  }

  function SpaceTrimRight(s: string): (t: string)
    ensures |t| <= |s| && t == s[..|t|]
  {
    if SpaceBefore(s) == 0 then s else SpaceTrimRight(s[..|s| - SpaceBefore(s)])
  }

  // strings.TrimSpace
  function TrimSpace(s: string): string {
    SpaceTrimRight(SpaceTrimLeft(s))
  }

  predicate HasSuffix(s: string, suffix: string) {
    |suffix| <= |s| && s[|s| - |suffix|..] == suffix
  }

  /** redact.go's isMarker, on the line's text. */
  predicate IsMarker(raw: string) {
    var t := TrimSpace(raw);
    t == MOVED_MARKER || HasSuffix(t, COMMENT_MARKER)
  }

  // The first moved line in rest, past the empty segment that ends a rendered text.
  function Take(rest: seq<Line>): (r: (Option<Line>, seq<Line>))
    ensures |r.1| <= |rest| && (r.0.Some? ==> |r.1| < |rest|)
  {
    if rest == [] then (None, [])
    else if rest[0].raw == "" && rest[0].end == "" then Take(rest[1..])
    else (Some(rest[0]), rest[1..])
  }

  function Leftover(rest: seq<Line>): seq<Line>
    decreases |rest|
  {
    var (l, rest') := Take(rest);
    if l.None? then [] else [l.value] + Leftover(rest')
  }

  function MergedLines(on: seq<Line>, rest: seq<Line>): seq<Line> {
    if on == [] then Leftover(rest)
    else if !IsMarker(on[0].raw) then [on[0]] + MergedLines(on[1..], rest)
    else
      var (l, rest') := Take(rest);
      [if l.None? then on[0] else l.value.(end := on[0].end)] + MergedLines(on[1..], rest')
  }

  method TakeLine(rest: seq<Line>) returns (l: Option<Line>, rest': seq<Line>)
    ensures (l, rest') == Take(rest)
  {
    rest' := rest;
    while |rest'| > 0
      invariant Take(rest) == Take(rest')
    {
      var first := rest'[0];
      rest' := rest'[1..];
      if first.raw == "" && first.end == "" {
        continue;
      }
      return Some(first), rest';
    }
    l := None;
  }

  /** redact.go's Merge: each marker takes the next line from the bundle. */
  method Merge(onChain: File, bundle: File) returns (out: File)
    ensures out.lines == MergedLines(onChain.lines, bundle.lines)
    ensures out.stanzas == Parsed(Joined(Pieces(out.lines))).stanzas
  {
    hide IsMarker, Parsed, Joined, Pieces, Take, MergedLines, Leftover;
    var lines: seq<Line> := [];
    var rest := bundle.lines;
    assert onChain.lines[0..] == onChain.lines;
    ghost var want := MergedLines(onChain.lines, bundle.lines);
    for i := 0 to |onChain.lines|
      invariant lines + MergedLines(onChain.lines[i..], rest) == want
    {
      var l := onChain.lines[i];
      MergeStep(onChain.lines, i, rest, lines);
      if !IsMarker(l.raw) {
        lines := lines + [l];
        continue;
      }
      var b;
      b, rest := TakeLine(rest);
      lines := lines + [if b.None? then l else b.value.(end := l.end)];
    }
    MergeDone(rest);
    while true
      invariant lines + Leftover(rest) == want
      decreases |rest|
    {
      var b;
      LeftoverStep(rest, lines);
      b, rest := TakeLine(rest);
      if b.None? {
        break;
      }
      lines := lines + [b.value];
    }
    var parsed := Parse(Joined(Pieces(lines)));
    out := File(lines, parsed.stanzas);
  }

  lemma MergeStep(on: seq<Line>, i: nat, rest: seq<Line>, done: seq<Line>)
    requires i < |on|
    ensures done + MergedLines(on[i..], rest) ==
            if !IsMarker(on[i].raw) then (done + [on[i]]) + MergedLines(on[i + 1..], rest)
            else
              var (l, rest') := Take(rest);
              (done + [if l.None? then on[i] else l.value.(end := on[i].end)]) + MergedLines(on[i + 1..], rest')
  {
    hide IsMarker, Take, MergedLines;
    assert on[i..][0] == on[i] && on[i..][1..] == on[i + 1..];
    MergeNext(on[i..], rest);
    var (l, rest') := Take(rest);
    MoreDone(done, on[i], MergedLines(on[i + 1..], rest));
    MoreDone(done, if l.None? then on[i] else l.value.(end := on[i].end), MergedLines(on[i + 1..], rest'));
  }

  lemma MoreDone(done: seq<Line>, l: Line, more: seq<Line>)
    ensures done + ([l] + more) == (done + [l]) + more
  {
  }

  lemma MergeNext(on: seq<Line>, rest: seq<Line>)
    requires on != []
    ensures MergedLines(on, rest) ==
            if !IsMarker(on[0].raw) then [on[0]] + MergedLines(on[1..], rest)
            else
              var (l, rest') := Take(rest);
              [if l.None? then on[0] else l.value.(end := on[0].end)] + MergedLines(on[1..], rest')
  {
    hide IsMarker, Take, Leftover;
  }

  lemma MergeDone(rest: seq<Line>)
    ensures forall on: seq<Line> :: MergedLines(on[|on|..], rest) == Leftover(rest)
  {}

  lemma LeftoverStep(rest: seq<Line>, done: seq<Line>)
    ensures var (l, rest') := Take(rest);
            done + Leftover(rest) == if l.None? then done else (done + [l.value]) + Leftover(rest')
    ensures Take(rest).0.Some? ==> |Take(rest).1| < |rest|
  {}

  // ----- what merging puts where -----

  // The moved lines, without the empty segments that end rendered texts.
  function Moved(rest: seq<Line>): seq<Line> {
    if rest == [] then []
    else (if rest[0].raw == "" && rest[0].end == "" then [] else [rest[0]]) + Moved(rest[1..])
  }

  // How many of the first n lines are markers.
  function Markers(on: seq<Line>, n: nat): (k: nat)
    requires n <= |on|
    ensures k <= n
  {
    if n == 0 then 0 else Markers(on, n - 1) + if IsMarker(on[n - 1].raw) then 1 else 0
  }

  lemma {:induction false} TakeIsFirst(rest: seq<Line>)
    ensures var (l, rest') := Take(rest);
            if Moved(rest) == [] then l == None && Moved(rest') == []
            else l == Some(Moved(rest)[0]) && Moved(rest') == Moved(rest)[1..]
  {
    if rest != [] {
      MovedSplits(rest);
      hide Moved;
      if rest[0].raw == "" && rest[0].end == "" {
        TakeIsFirst(rest[1..]);
      }
    } else {
      assert Moved(rest) == [];
    }
  }

  lemma MovedSplits(rest: seq<Line>)
    requires rest != []
    ensures Moved(rest) == if rest[0].raw == "" && rest[0].end == "" then Moved(rest[1..]) else [rest[0]] + Moved(rest[1..])
  {
    assert [] + Moved(rest[1..]) == Moved(rest[1..]);
  }

  lemma {:induction false} LeftoverIsMoved(rest: seq<Line>)
    ensures Leftover(rest) == Moved(rest)
    decreases |rest|
  {
    TakeIsFirst(rest);
    var (l, rest') := Take(rest);
    if l.Some? {
      LeftoverIsMoved(rest');
      assert Moved(rest) == [Moved(rest)[0]] + Moved(rest)[1..];
    }
  }

  lemma {:induction false} MarkersSplit(on: seq<Line>, n: nat)
    requires 0 < n <= |on|
    ensures Markers(on, n) == (if IsMarker(on[0].raw) then 1 else 0) + Markers(on[1..], n - 1)
  {
    hide IsMarker;
    if n > 1 {
      MarkersSplit(on, n - 1);
      assert on[1..][n - 2] == on[n - 1];
    }
  }

  // Line i of a merged document: the document's own line, or the moved line whose marker it was.
  ghost predicate MergedAt(on: seq<Line>, moved: seq<Line>, out: seq<Line>, i: nat)
    requires i < |on| <= |out|
  {
    out[i] == if IsMarker(on[i].raw) && Markers(on, i) < |moved| then moved[Markers(on, i)].(end := on[i].end) else on[i]
  }

  lemma MergedOn(on: seq<Line>, moved: seq<Line>, out: seq<Line>, i: nat)
    requires on != [] && out != [] && i < |on[1..]| <= |out[1..]|
    requires var first := IsMarker(on[0].raw);
             MergedAt(on[1..], if first && moved != [] then moved[1..] else moved, out[1..], i)
    ensures MergedAt(on, moved, out, i + 1)
  {
    hide IsMarker;
    MarkersSplit(on, i + 1);
    assert on[1..][i] == on[i + 1] && out[1..][i] == out[i + 1];
  }

  // The bundle's lines that are left behind the first line of a document.
  function Behind(on: seq<Line>, rest: seq<Line>): seq<Line>
    requires on != []
  {
    if IsMarker(on[0].raw) then Take(rest).1 else rest
  }

  lemma MergedHead(on: seq<Line>, rest: seq<Line>)
    requires on != []
    ensures MergedLines(on, rest) != [] && MergedLines(on, rest)[1..] == MergedLines(on[1..], Behind(on, rest))
    ensures |on| > |MergedLines(on, rest)| || MergedAt(on, Moved(rest), MergedLines(on, rest), 0)
    ensures Moved(Behind(on, rest)) == if IsMarker(on[0].raw) && Moved(rest) != [] then Moved(rest)[1..] else Moved(rest)
  {
    TakeIsFirst(rest);
    hide IsMarker, Moved, Take;
  }

  ghost predicate AllMerged(on: seq<Line>, moved: seq<Line>, out: seq<Line>) {
    && |out| >= |on|
    && (forall i: nat | i < |on| :: MergedAt(on, moved, out, i))
    && out[|on|..] == if Markers(on, |on|) < |moved| then moved[Markers(on, |on|)..] else []
  }

  lemma AllMergedOn(on: seq<Line>, moved: seq<Line>, out: seq<Line>)
    requires on != [] && out != [] && (|on| > |out| || MergedAt(on, moved, out, 0))
    requires AllMerged(on[1..], if IsMarker(on[0].raw) && moved != [] then moved[1..] else moved, out[1..])
    ensures AllMerged(on, moved, out)
  {
    hide IsMarker, MergedAt;
    MarkersSplit(on, |on|);
    assert out[|on|..] == out[1..][|on| - 1..];
    forall i: nat | i < |on|
      ensures MergedAt(on, moved, out, i)
    {
      if i > 0 {
        assert MergedAt(on[1..], if IsMarker(on[0].raw) && moved != [] then moved[1..] else moved, out[1..], i - 1);
        MergedOn(on, moved, out, i - 1);
      }
    }
    hide Markers;
    if IsMarker(on[0].raw) && moved != [] {
      assert forall k | 0 <= k < |moved| :: moved[1..][k..] == moved[k + 1..];
    }
  }

  /**
    What Merge gives: each marker is the next moved line, with the marker's own line end, as long as there is one;
    every other line stays; and the moved lines that no marker takes follow in order. None is lost.
   */
  lemma {:induction false} MergedExactly(on: seq<Line>, rest: seq<Line>)
    ensures AllMerged(on, Moved(rest), MergedLines(on, rest))
    decreases |on|
  {
    hide IsMarker, Leftover, Moved, Take;
    if on == [] {
      LeftoverIsMoved(rest);
    } else {
      hide AllMerged, MergedLines, MergedAt, Behind;
      MergedHead(on, rest);
      MergedExactly(on[1..], Behind(on, rest));
      AllMergedOn(on, Moved(rest), MergedLines(on, rest));
    }
  }
}
