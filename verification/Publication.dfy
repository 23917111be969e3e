/**
  Which lines of a config may become public, and which files are refused: internal/redact/redact.go:60-106, 199-255
  and 260-305. The on-chain half is read again by the parser, so what is said here holds of what a reader of
  the ledger would see.
 */
module Publication {
  import opened Common
  import opened ConfigText
  import opened Redact
  import opened RoundTrip
  import opened OnChainReading

  // A stanza whose settings may be published, subject to the scanners.
  predicate MayBePublic(stanza: string, opt: Options) {
    stanza in ON_CHAIN_STANZAS || "port_" <= stanza || (opt.peersOnChain && stanza == "ips_fixed")
  }

  // The stanzas that hold the operator's identity, peers and keys, and the lines outside any.
  predicate IsPrivate(stanza: string, opt: Options) {
    || stanza == "" || stanza == "validator_token" || stanza == "validator_key_revocation" || stanza == "cluster_nodes"
    || stanza == "rpc_startup" || stanza == "ssl_cert" || stanza == "peer_private"
    || (stanza == "ips_fixed" && !opt.peersOnChain)
  }

  // Unlike every private name in its length or in a letter.
  predicate IsNoPrivateName(x: string) {
    && x != "" && (|x| != 15 || x[9] != '_') && (|x| != 24 || x[10] != 'k') && (|x| != 13 || x[0] != 'c')
    && (|x| != 11 || x[0] != 'r') && (|x| != 8 || x[0] != 's') && (|x| != 12 || x[0] != 'p' || x[4] != '_')
    && (|x| != 9 || x[0] != 'i' || x[1] != 'p')
  }

  lemma StoreNames(x: string)
    requires x in STORE_STANZAS
    ensures IsNoPrivateName(x)
  {
  }

  lemma PathNames(x: string)
    requires x in PATH_STANZAS
    ensures IsNoPrivateName(x)
  {
  }

  lemma TrustNames(x: string)
    requires x in TRUST_STANZAS
    ensures IsNoPrivateName(x)
  {
  }

  lemma NetworkNames(x: string)
    requires x in NETWORK_STANZAS
    ensures IsNoPrivateName(x)
  {
  }

  lemma ListedName(x: string)
    requires x in ON_CHAIN_STANZAS
    ensures IsNoPrivateName(x)
  {
    hide STORE_STANZAS, PATH_STANZAS, TRUST_STANZAS, NETWORK_STANZAS, IsNoPrivateName;
    if x in STORE_STANZAS {
      StoreNames(x);
    } else if x in PATH_STANZAS {
      PathNames(x);
    } else if x in TRUST_STANZAS {
      TrustNames(x);
    } else {
      NetworkNames(x);
    }
  }

  lemma PortName(x: string, opt: Options)
    requires "port_" <= x
    ensures !IsPrivate(x, opt)
  {
    assert x[0] == 'p' && x[1] == 'o';
  }

  lemma PublicName(x: string, opt: Options)
    requires IsNoPrivateName(x)
    ensures !IsPrivate(x, opt)
  {
  }

  lemma PublicIsNotPrivate(stanza: string, opt: Options)
    ensures MayBePublic(stanza, opt) ==> !IsPrivate(stanza, opt)
  {
    hide ON_CHAIN_STANZAS, IsNoPrivateName;
    if stanza in ON_CHAIN_STANZAS {
      ListedName(stanza);
      PublicName(stanza, opt);
    } else if "port_" <= stanza {
      PortName(stanza, opt);
    }
  }

  lemma BundledArePrivate(stanza: string, opt: Options)
    ensures stanza in BUNDLE_STANZAS ==> stanza == "ips_fixed" || IsPrivate(stanza, opt)
    ensures stanza in PEER_STANZAS <==> stanza == "ips_fixed"
    ensures "ips_fixed" in BUNDLE_STANZAS && "ips_fixed" !in ON_CHAIN_STANZAS
  {
    if "ips_fixed" in ON_CHAIN_STANZAS {
      ListedName("ips_fixed");
      assert false;
    }
    hide ON_CHAIN_STANZAS;
  }

  // A setting stays exactly when its stanza may be public and the scanner passes it.
  lemma StaysExactly(stanza: string, value: string, opt: Options, scan: Scanners)
    ensures ValueReasonOpt(stanza, value, opt, scan) == "" <==> MayBePublic(stanza, opt) && scan.reason(stanza, value) == ""
  {
    PublicIsNotPrivate(stanza, opt);
    BundledArePrivate(stanza, opt);
    hide ON_CHAIN_STANZAS, BUNDLE_STANZAS, PEER_STANZAS;
  }

  // What is said of line g of the on-chain text, which stands for line f of the file.
  ghost predicate Published(f: Line, g: Line, opt: Options, scan: Scanners) {
    // A setting that is readable is of a stanza that may be public, the scanner passed it, and it is the operator's.
    && (g.kind == Value && g.raw != MOVED_MARKER ==>
          && MayBePublic(g.stanza, opt) && !IsPrivate(g.stanza, opt) && scan.reason(g.stanza, g.value) == ""
          && f.kind == Value && g.stanza == f.stanza && g.value == f.value)
    // Every setting that may be public is readable.
    && (f.kind == Value && MayBePublic(f.stanza, opt) && scan.reason(f.stanza, f.value) == "" ==>
          g.kind == Value && g.raw != MOVED_MARKER && g.stanza == f.stanza && g.value == f.value)
    // No comment is readable unless the operator asked for it and the scanner passed it.
    && (g.kind == Comment ==> opt.comments == CommentsOnChain && scan.reason(g.stanza, g.raw) == "" && g == f)
    && (g.kind == Value && g.comment != "" && g.comment != COMMENT_MARKER ==>
          opt.comments == CommentsOnChain && scan.reason(g.stanza, g.comment) == "" && g == f)
    // Every comment that may be public stays.
    && (f.kind == Comment && opt.comments == CommentsOnChain && scan.reason(f.stanza, f.raw) == "" ==> g == f)
    && (f.kind == Value && g.raw != MOVED_MARKER && opt.comments == CommentsOnChain && scan.reason(f.stanza, f.comment) == "" ==>
          g == f)
    // Nothing else stands there than the line, its setting, or a marker.
    && (g == f || g.raw == MOVED_MARKER || (f.kind == Value && g.raw == f.value + " " + COMMENT_MARKER))
    // Blank lines, headers and settings without a comment stay as they are.
    && (f.kind == Blank || f.kind == Header ==> g == f)
    && (f.kind == Value && f.comment == "" && g.raw != MOVED_MARKER ==> g == f)
  }

  /** What is public of a file that is not refused, line by line. */
  lemma OnlyTheAllowedIsPublic(text: string, opt: Options, scan: Scanners, i: nat)
    requires FileRefusal(Parsed(text), scan) == None && i < |Parsed(text).lines|
    ensures |Parsed(OnChainText(text, opt, scan)).lines| == |Parsed(text).lines|
    ensures Published(Parsed(text).lines[i], Parsed(OnChainText(text, opt, scan)).lines[i], opt, scan)
  {
    OnChainPieces(text, opt, scan);
    OnChainReadsAs(text, opt, scan, i);
    AcceptedText(text, scan);
    var on := OnChainText(text, opt, scan);
    ParsedPieces(Cut(on), "", 1);
    var f, g := Parsed(text).lines[i], Parsed(on).lines[i];
    assert Pieces(Parsed(on).lines)[i] == Cut(on)[i];
    assert g.raw == OnChainLine(f, Decide(f, opt, scan)).raw;
    assert WellRead(f) && LineRefusal(f, scan) == None;
    hide OnChainText, FileRefusal, Parsed, Cut;
    PublishedLine(f, g, opt, scan);
  }

  lemma PublishedLine(f: Line, g: Line, opt: Options, scan: Scanners)
    requires WellRead(f) && LineRefusal(f, scan) == None
    requires ReadsAs(g, f, Decide(f, opt, scan)) && g.raw == OnChainLine(f, Decide(f, opt, scan)).raw
    ensures Published(f, g, opt, scan)
  {
    PublicIsNotPrivate(f.stanza, opt);
    StaysExactly(f.stanza, f.value, opt, scan);
    hide ValueReasonOpt, MayBePublic, IsPrivate, WellRead, Contains;
    match f.kind {
      case Blank =>
      case Header =>
      case Comment =>
        assert MARKER_PREFIX <= MOVED_MARKER;
        NotTheMarker(f, scan);
      case Value =>
        NotTheMarker(f, scan);
        assert g.raw != MOVED_MARKER ==> !Decide(f, opt, scan).MoveLine?;
        assert Decide(f, opt, scan).MoveComment? ==> g.raw != MOVED_MARKER;
    }
  }

  lemma NotTheMarker(f: Line, scan: Scanners)
    requires LineRefusal(f, scan) == None && (f.kind == Comment || f.kind == Value)
    ensures f.raw != MOVED_MARKER
  {
    assert MARKER_PREFIX <= MOVED_MARKER;
  }

  // ----- what is refused -----

  /** A text holds a part exactly when the part is somewhere in it. */
  lemma {:induction false} ContainsExactly(text: string, part: string)
    ensures Contains(text, part) <==> exists i :: Occurs(text, part, i)
  {
    if Contains(text, part) {
      if part <= text {
        assert Occurs(text, part, 0);
      } else {
        ContainsExactly(text[1..], part);
        var i :| Occurs(text[1..], part, i);
        OccursOneOn(text, part, i);
      }
    }
    if i :| Occurs(text, part, i) {
      if i == 0 || text == "" {
        assert part <= text;
      } else {
        OccursOneOn(text, part, i);
        ContainsExactly(text[1..], part);
      }
    }
  }

  ghost predicate Occurs(text: string, part: string, i: nat) {
    i + |part| <= |text| && text[i..i + |part|] == part
  }

  lemma OccursOneOn(text: string, part: string, i: nat)
    requires text != ""
    ensures Occurs(text[1..], part, i) ==> Occurs(text, part, i + 1)
    ensures i > 0 && Occurs(text, part, i) ==> Occurs(text[1..], part, i - 1)
  {
    if i + 1 + |part| <= |text| {
      assert text[1..][i..i + |part|] == text[i + 1..i + 1 + |part|];
    }
    if 0 < i && i + |part| <= |text| {
      assert text[1..][i - 1..i - 1 + |part|] == text[i..i + |part|];
    }
  }

  // A line that stops the run.
  ghost predicate Unacceptable(l: Line, scan: Scanners) {
    && (l.kind == Comment || l.kind == Value)
    && (|| (l.stanza != "validator_token" && l.stanza != "validator_key_revocation" && scan.seedLike(l.raw))
        || scan.pemLike(l.raw)
        || exists i :: Occurs(l.raw, MARKER_PREFIX, i))
  }

  lemma RefusedLine(l: Line, scan: Scanners)
    ensures LineRefusal(l, scan).Some? <==> Unacceptable(l, scan)
  {
    ContainsExactly(l.raw, MARKER_PREFIX);
    hide Occurs, Contains;
  }

  lemma {:induction false} RefusedLines(lines: seq<Line>, scan: Scanners)
    ensures LinesRefusal(lines, scan).Some? <==> exists i :: 0 <= i < |lines| && Unacceptable(lines[i], scan)
  {
    if lines != [] {
      RefusedLine(lines[0], scan);
      RefusedLines(lines[1..], scan);
      hide LineRefusal, Unacceptable;
      assert forall i | 0 < i < |lines| :: lines[i] == lines[1..][i - 1];
      assert forall i | 0 <= i < |lines| - 1 :: lines[1..][i] == lines[i + 1];
    }
  }

  // The stanzas of node secrets.
  predicate IsNodeSecret(name: string) {
    name == "validation_seed" || name == "node_seed" || name == "ssl_key"
  }

  lemma {:induction false} RefusedStanzas(stanzas: seq<Stanza>)
    ensures StanzasRefusal(stanzas).Some? <==> exists i :: 0 <= i < |stanzas| && IsNodeSecret(stanzas[i].name)
  {
    if stanzas != [] {
      RefusedStanzas(stanzas[1..]);
      assert stanzas[0].name in NEVER_STANZAS <==> IsNodeSecret(stanzas[0].name);
      hide NEVER_STANZAS, IsNodeSecret;
      assert forall i | 0 < i < |stanzas| :: stanzas[i] == stanzas[1..][i - 1];
      assert forall i | 0 <= i < |stanzas| - 1 :: stanzas[1..][i] == stanzas[i + 1];
    }
  }

  /**
    A file is refused exactly when it names a stanza of node secrets, or a line of it, comments included, looks like
    a seed or a private key, or holds a restore marker.
   */
  lemma RefusedExactly(text: string, scan: Scanners)
    ensures FileRefusal(Parsed(text), scan).Some? <==>
              || (exists i :: 0 <= i < |Parsed(text).stanzas| && IsNodeSecret(Parsed(text).stanzas[i].name))
              || exists i :: 0 <= i < |Parsed(text).lines| && Unacceptable(Parsed(text).lines[i], scan)
  {
    RefusedStanzas(Parsed(text).stanzas);
    RefusedLines(Parsed(text).lines, scan);
    hide Parsed, Unacceptable, IsNodeSecret, StanzasRefusal, LinesRefusal;
  }

  // What a line is refused for: a seed before a private key before a marker.
  function Fault(l: Line, scan: Scanners): RefusalReason {
    if l.stanza != "validator_token" && l.stanza != "validator_key_revocation" && scan.seedLike(l.raw) then SeedOrSecret
    else if scan.pemLike(l.raw) then PemMaterial
    else RestoreMarker
  }

  ghost predicate FirstSecret(stanzas: seq<Stanza>, i: nat) {
    i < |stanzas| && IsNodeSecret(stanzas[i].name) && forall j | 0 <= j < i :: !IsNodeSecret(stanzas[j].name)
  }

  ghost predicate FirstUnacceptable(lines: seq<Line>, scan: Scanners, i: nat) {
    i < |lines| && Unacceptable(lines[i], scan) && forall j | 0 <= j < i :: !Unacceptable(lines[j], scan)
  }

  lemma {:induction false} SecretIsNamed(stanzas: seq<Stanza>, i: nat)
    requires FirstSecret(stanzas, i)
    ensures StanzasRefusal(stanzas) == Some(Refusal(stanzas[i].name, stanzas[i].lineNo, NeverStanza))
  {
    assert IsNodeSecret(stanzas[0].name) <==> stanzas[0].name in NEVER_STANZAS;
    hide NEVER_STANZAS, IsNodeSecret;
    if i > 0 {
      SecretIsNamed(stanzas[1..], i - 1);
    }
  }

  lemma FaultIsGiven(l: Line, scan: Scanners)
    requires Unacceptable(l, scan)
    ensures LineRefusal(l, scan) == Some(Refusal(l.stanza, l.no, Fault(l, scan)))
  {
    RefusedLine(l, scan);
    hide Contains, Occurs;
  }

  lemma {:induction false} LineIsNamed(lines: seq<Line>, scan: Scanners, i: nat)
    requires FirstUnacceptable(lines, scan, i)
    ensures LinesRefusal(lines, scan) == Some(Refusal(lines[i].stanza, lines[i].no, Fault(lines[i], scan)))
  {
    RefusedLine(lines[0], scan);
    if i > 0 {
      hide LineRefusal, Unacceptable;
      LineIsNamed(lines[1..], scan, i - 1);
    } else {
      FaultIsGiven(lines[0], scan);
    }
  }

  /** The refusal names the first stanza of node secrets or, when there is none, the first line at fault and its fault. */
  lemma RefusalNamesTheFirst(text: string, scan: Scanners, i: nat)
    ensures var f := Parsed(text);
            && (FirstSecret(f.stanzas, i) ==> FileRefusal(f, scan) == Some(Refusal(f.stanzas[i].name, f.stanzas[i].lineNo, NeverStanza)))
            && (FirstUnacceptable(f.lines, scan, i) && (forall j | 0 <= j < |f.stanzas| :: !IsNodeSecret(f.stanzas[j].name)) ==>
                  FileRefusal(f, scan) == Some(Refusal(f.lines[i].stanza, f.lines[i].no, Fault(f.lines[i], scan))))
  {
    var f := Parsed(text);
    hide Parsed, Unacceptable, IsNodeSecret, StanzasRefusal, LinesRefusal, FirstSecret, FirstUnacceptable;
    if FirstSecret(f.stanzas, i) {
      SecretIsNamed(f.stanzas, i);
    }
    if FirstUnacceptable(f.lines, scan, i) {
      LineIsNamed(f.lines, scan, i);
      RefusedStanzas(f.stanzas);
    }
  }
}
