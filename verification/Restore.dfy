/**
  Putting the files back together from the on-chain container and the bundle:
  internal/restore/restore.go:25-152, against what internal/backup/backup.go:93-147 stores.
 */
module Restore {
  import opened Common
  import opened ConfigText
  import opened Redact
  import opened RoundTrip

  datatype Entry = Entry(path: string, mode: nat, data: string)

  // A file the manifest lists, with the hash of the operator's own bytes.
  datatype Listed = Listed(path: string, sha: string)

  // A restored file. proven: its bytes were compared with the manifest's hash and matched.
  datatype Restored = Restored(path: string, mode: nat, data: string, proven: bool)

  datatype BuildError = UnsafePath | ListedTwice | NotListed

  // ----- specification -----

  // The last entry of each path.
  function ByPath(entries: seq<Entry>): map<string, Entry> {
    if entries == [] then map[] else ByPath(entries[..|entries| - 1])[entries[|entries| - 1].path := entries[|entries| - 1]]
  }

  // The files rebuilt so far, and the bundle entries not yet used.
  datatype State = State(files: map<string, Restored>, left: map<string, Entry>)

  function OnStep(s: State, e: Entry): State {
    if e.path in s.left then
      State(s.files[e.path := Restored(e.path, e.mode, MergedText(e.data, s.left[e.path].data), false)], s.left - {e.path})
    else s.(files := s.files[e.path := Restored(e.path, e.mode, BareText(e.data), false)])
  }

  function AfterOn(onChain: seq<Entry>, left: map<string, Entry>): State {
    if onChain == [] then State(map[], left) else OnStep(AfterOn(onChain[..|onChain| - 1], left), onChain[|onChain| - 1])
  }

  function FromBundle(e: Entry): Restored {
    Restored(e.path, e.mode, e.data, false)
  }

  function Rebuilt(onChain: seq<Entry>, bundle: seq<Entry>): map<string, Restored> {
    var s := AfterOn(onChain, ByPath(bundle));
    s.files + map p | p in s.left :: FromBundle(s.left[p])
  }

  predicate IsListed(listed: seq<Listed>, path: string) {
    exists i :: 0 <= i < |listed| && listed[i].path == path
  }

  ghost predicate Refused(listed: seq<Listed>, entries: seq<Entry>, clean: string -> bool) {
    || (exists i :: 0 <= i < |listed| && !clean(listed[i].path))
    || (exists i, j :: 0 <= i < j < |listed| && listed[i].path == listed[j].path)
    || (exists i :: 0 <= i < |entries| && (!clean(entries[i].path) || !IsListed(listed, entries[i].path)))
  }

  // ----- Build -----

  method CheckListed(listed: seq<Listed>, clean: string -> bool) returns (err: Option<BuildError>, paths: set<string>)
    ensures err.None? <==> (forall i | 0 <= i < |listed| :: clean(listed[i].path))
                           && forall i, j | 0 <= i < j < |listed| :: listed[i].path != listed[j].path
    ensures err.None? ==> forall p :: p in paths <==> IsListed(listed, p)
  {
    err, paths := None, {};
    for i := 0 to |listed|
      invariant forall k | 0 <= k < i :: clean(listed[k].path) && listed[k].path in paths
      invariant forall k, j | 0 <= k < j < i :: listed[k].path != listed[j].path
      invariant forall p | p in paths :: exists k :: 0 <= k < i && listed[k].path == p
    {
      if !clean(listed[i].path) {
        return Some(UnsafePath), paths;
      }
      if listed[i].path in paths {
        return Some(ListedTwice), paths;
      }
      paths := paths + {listed[i].path};
    }
  }

  method CheckEntries(entries: seq<Entry>, paths: set<string>, clean: string -> bool) returns (err: Option<BuildError>)
    ensures err.None? <==> forall i | 0 <= i < |entries| :: clean(entries[i].path) && entries[i].path in paths
  {
    for i := 0 to |entries|
      invariant forall k | 0 <= k < i :: clean(entries[k].path) && entries[k].path in paths
    {
      if !clean(entries[i].path) {
        return Some(UnsafePath);
      }
      if entries[i].path !in paths {
        return Some(NotListed);
      }
    }
    return None;
  }

  method MergeEntries(onChain: seq<Entry>, bundle: seq<Entry>) returns (files: map<string, Restored>)
    ensures files == Rebuilt(onChain, bundle)
  {
    hide Parsed, MergedLines, Joined, Pieces;
    var left: map<string, Entry> := map[];
    for i := 0 to |bundle|
      invariant left == ByPath(bundle[..i])
    {
      assert bundle[..i + 1][..i] == bundle[..i];
      left := left[bundle[i].path := bundle[i]];
    }
    assert bundle[..|bundle|] == bundle;
    files := map[];
    for i := 0 to |onChain|
      invariant State(files, left) == AfterOn(onChain[..i], ByPath(bundle))
    {
      assert onChain[..i + 1][..i] == onChain[..i];
      var e := onChain[i];
      var on := Parse(e.data);
      var rest := File([], []);
      if e.path in left {
        rest := Parse(left[e.path].data);
        left := left - {e.path};
      }
      var merged := Merge(on, rest);
      var data := Render(merged);
      files := files[e.path := Restored(e.path, e.mode, data, false)];
    }
    assert onChain[..|onChain|] == onChain;
    files := files + map p | p in left :: FromBundle(left[p]);
  }

  predicate Unlike(listed: seq<Listed>) {
    forall i, j | 0 <= i < j < |listed| :: listed[i].path != listed[j].path
  }

  // A file whose proof says whether its bytes have the listed hash.
  ghost predicate Compared(f: Restored, built: Restored, l: Listed, hash: string -> string) {
    f == built.(proven := hash(built.data) == l.sha)
  }

  // Compares every listed file with its hash; what was not carried is left to the operator.
  method Compare(listed: seq<Listed>, built: map<string, Restored>, hash: string -> string)
    returns (files: map<string, Restored>, todo: seq<string>)
    requires Unlike(listed)
    ensures files.Keys == built.Keys
    ensures forall i | 0 <= i < |listed| && listed[i].path in built :: Compared(files[listed[i].path], built[listed[i].path], listed[i], hash)
    ensures forall p :: p in todo <==> IsListed(listed, p) && p !in built
  {
    files, todo := built, [];
    for i := 0 to |listed|
      invariant files.Keys == built.Keys
      invariant forall k | 0 <= k < i && listed[k].path in built :: Compared(files[listed[k].path], built[listed[k].path], listed[k], hash)
      invariant forall k | i <= k < |listed| && listed[k].path in built :: files[listed[k].path] == built[listed[k].path]
      invariant forall p :: p in todo <==> exists k :: 0 <= k < i && listed[k].path == p && p !in built
    {
      var l := listed[i];
      if l.path !in files {
        todo := todo + [l.path];
        continue;
      }
      var f := files[l.path];
      files := files[l.path := f.(proven := hash(f.data) == l.sha)];
    }
  }

  /**
    Build: refuses exactly the lists it should, restores every carried file, proves it complete exactly
    when its bytes have the manifest's hash, and reports every listed file that was not carried.
   */
  method Build(listed: seq<Listed>, onChain: seq<Entry>, bundle: seq<Entry>, clean: string -> bool, hash: string -> string)
    returns (r: Result<map<string, Restored>, BuildError>, todo: seq<string>)
    ensures r.Err? <==> Refused(listed, onChain + bundle, clean)
    ensures r.Ok? ==> r.value.Keys == Rebuilt(onChain, bundle).Keys
    ensures r.Ok? ==> forall i | 0 <= i < |listed| && listed[i].path in r.value ::
                        Compared(r.value[listed[i].path], Rebuilt(onChain, bundle)[listed[i].path], listed[i], hash)
    ensures r.Ok? ==> forall p | p in r.value :: IsListed(listed, p)
    ensures r.Ok? ==> forall p :: p in todo <==> IsListed(listed, p) && p !in r.value
  {
    hide Rebuilt, Compared, IsListed;
    todo := [];
    var err, paths := CheckListed(listed, clean);
    if err.Some? {
      return Err(err.value), [];
    }
    err := CheckEntries(onChain + bundle, paths, clean);
    if err.Some? {
      return Err(err.value), [];
    }
    var built := MergeEntries(onChain, bundle);
    OnlyCarried(onChain, bundle);
    var files;
    files, todo := Compare(listed, built, hash);
    r := Ok(files);
    forall p | p in files
      ensures IsListed(listed, p)
    {
      assert p in built;
      var i :| 0 <= i < |onChain + bundle| && (onChain + bundle)[i].path == p;
    }
  }

  lemma {:induction false} ByPathKeys(entries: seq<Entry>, p: string)
    ensures p in ByPath(entries) <==> exists i :: 0 <= i < |entries| && entries[i].path == p
    ensures p in ByPath(entries) ==> ByPath(entries)[p].path == p && ByPath(entries)[p] in entries
  {
    if entries != [] {
      var last := |entries| - 1;
      ByPathKeys(entries[..last], p);
      if exists i :: 0 <= i < last && entries[..last][i].path == p {
        var i :| 0 <= i < last && entries[..last][i].path == p;
        assert entries[i].path == p;
      }
    }
  }

  lemma {:induction false} AfterOnKeys(onChain: seq<Entry>, left: map<string, Entry>, p: string)
    ensures p in AfterOn(onChain, left).files <==> exists i :: 0 <= i < |onChain| && onChain[i].path == p
    ensures p in AfterOn(onChain, left).left <==> p in left && forall i | 0 <= i < |onChain| :: onChain[i].path != p
    ensures p in AfterOn(onChain, left).left ==> AfterOn(onChain, left).left[p] == left[p]
  {
    hide MergedText, BareText;
    if onChain != [] {
      var last := |onChain| - 1;
      AfterOnKeys(onChain[..last], left, p);
      if exists i :: 0 <= i < last && onChain[..last][i].path == p {
        var i :| 0 <= i < last && onChain[..last][i].path == p;
        assert onChain[i].path == p;
      }
    }
  }

  // Every rebuilt file was carried by an entry.
  lemma OnlyCarried(onChain: seq<Entry>, bundle: seq<Entry>)
    ensures forall p | p in Rebuilt(onChain, bundle) :: exists i :: 0 <= i < |onChain + bundle| && (onChain + bundle)[i].path == p
  {
    forall p | p in Rebuilt(onChain, bundle)
      ensures exists i :: 0 <= i < |onChain + bundle| && (onChain + bundle)[i].path == p
    {
      AfterOnKeys(onChain, ByPath(bundle), p);
      ByPathKeys(bundle, p);
      if exists i :: 0 <= i < |onChain| && onChain[i].path == p {
        var i :| 0 <= i < |onChain| && onChain[i].path == p;
        assert (onChain + bundle)[i].path == p;
      } else {
        var i :| 0 <= i < |bundle| && bundle[i].path == p;
        assert (onChain + bundle)[|onChain| + i].path == p;
      }
    }
  }

  // ----- what backup stores -----

  // A config file, which is split, or an included one, which goes to the bundle whole.
  datatype Source = Configured(path: string, mode: nat, text: string) | Included(path: string, mode: nat, text: string)

  predicate LosesLines(s: Source, opt: Options, scan: Scanners) {
    s.Configured? && BundleLines(Parsed(s.text).lines, opt, scan) != []
  }

  function OnChainEntry(s: Source, opt: Options, scan: Scanners): Entry {
    Entry(s.path, s.mode, OnChainText(s.text, opt, scan))
  }

  function BundleEntry(s: Source, opt: Options, scan: Scanners): Entry {
    Entry(s.path, s.mode, if s.Configured? then BundleText(s.text, opt, scan) else s.text)
  }

  function OnChainOf(sources: seq<Source>, opt: Options, scan: Scanners): seq<Entry> {
    if sources == [] then []
    else
      var s := sources[|sources| - 1];
      OnChainOf(sources[..|sources| - 1], opt, scan) + if s.Configured? then [OnChainEntry(s, opt, scan)] else []
  }

  function BundleOf(sources: seq<Source>, opt: Options, scan: Scanners): seq<Entry> {
    if sources == [] then []
    else
      var s := sources[|sources| - 1];
      BundleOf(sources[..|sources| - 1], opt, scan) +
      if s.Included? || LosesLines(s, opt, scan) then [BundleEntry(s, opt, scan)] else []
  }

  function ListingOf(sources: seq<Source>, hash: string -> string): (listed: seq<Listed>)
    ensures |listed| == |sources|
  {
    seq(|sources|, i requires 0 <= i < |sources| => Listed(sources[i].path, hash(sources[i].text)))
  }

  ghost predicate Unrefused(s: Source, scan: Scanners) {
    if s.Configured? then FileRefusal(Parsed(s.text), scan) == None else !scan.keyMaterial(s.path, s.text)
  }

  ghost predicate Distinct(sources: seq<Source>) {
    forall i, j | 0 <= i < j < |sources| :: sources[i].path != sources[j].path
  }

  // addSplit: a config file's two entries. The bundle gets one only when a line moved.
  method AddSplit(s: Source, opt: Options, scan: Scanners) returns (ok: bool, on: Entry, moved: Option<Entry>)
    requires s.Configured?
    ensures ok <==> Unrefused(s, scan)
    ensures ok ==> on == OnChainEntry(s, opt, scan)
    ensures ok ==> moved == if LosesLines(s, opt, scan) then Some(BundleEntry(s, opt, scan)) else None
  {
    hide Parsed, FileRefusal, BundleLines, OnChainLines, Joined, Pieces, MovesOf;
    on, moved := Entry(s.path, s.mode, ""), None;
    var f := Parse(s.text);
    var split := Split(f, opt, scan);
    if split.Err? {
      return false, on, moved;
    }
    var onText := Render(split.value.onChain);
    on := Entry(s.path, s.mode, onText);
    if |split.value.bundle.lines| > 0 {
      var bundleText := Render(split.value.bundle);
      moved := Some(Entry(s.path, s.mode, bundleText));
    }
    ok := true;
  }

  /** The files of a backup as its two containers hold them, or a refusal of one of them. */
  method Store(sources: seq<Source>, opt: Options, scan: Scanners, hash: string -> string)
    returns (ok: bool, onChain: seq<Entry>, bundle: seq<Entry>, listed: seq<Listed>)
    ensures ok <==> forall i | 0 <= i < |sources| :: Unrefused(sources[i], scan)
    ensures ok ==> onChain == OnChainOf(sources, opt, scan) && bundle == BundleOf(sources, opt, scan)
    ensures ok ==> listed == ListingOf(sources, hash)
  {
    IncludedEntries(opt, scan);
    hide LosesLines, Unrefused, OnChainEntry, BundleEntry, OnChainOf, BundleOf;
    NothingStored(opt, scan);
    ok, onChain, bundle, listed := true, [], [], [];
    for i := 0 to |sources|
      invariant ok && forall k | 0 <= k < i :: Unrefused(sources[k], scan)
      invariant onChain == OnChainOf(sources[..i], opt, scan) && bundle == BundleOf(sources[..i], opt, scan)
      invariant listed == ListingOf(sources, hash)[..i]
    {
      StoredNext(sources, i, opt, scan);
      assert onChain + [] == onChain && bundle + [] == bundle;
      var s := sources[i];
      listed := listed + [Listed(s.path, hash(s.text))];
      if s.Included? {
        IncludedIsUnrefused(s, scan);
        if scan.keyMaterial(s.path, s.text) {
          return false, [], [], [];
        }
        bundle := bundle + [Entry(s.path, s.mode, s.text)];
        continue;
      }
      var fine, on, moved := AddSplit(s, opt, scan);
      if !fine {
        return false, [], [], [];
      }
      onChain := onChain + [on];
      if moved.Some? {
        bundle := bundle + [moved.value];
      }
    }
    assert sources[..|sources|] == sources;
  }

  lemma NothingStored(opt: Options, scan: Scanners)
    ensures OnChainOf([], opt, scan) == [] && BundleOf([], opt, scan) == []
  {
  }

  lemma IncludedEntries(opt: Options, scan: Scanners)
    ensures forall s: Source | s.Included? :: BundleEntry(s, opt, scan) == Entry(s.path, s.mode, s.text)
  {
  }

  lemma StoredNext(sources: seq<Source>, i: nat, opt: Options, scan: Scanners)
    requires i < |sources|
    ensures sources[..0] == []
    ensures OnChainOf(sources[..i + 1], opt, scan) ==
            OnChainOf(sources[..i], opt, scan) + if sources[i].Configured? then [OnChainEntry(sources[i], opt, scan)] else []
    ensures BundleOf(sources[..i + 1], opt, scan) ==
            BundleOf(sources[..i], opt, scan) +
            if sources[i].Included? || LosesLines(sources[i], opt, scan) then [BundleEntry(sources[i], opt, scan)] else []
  {
    hide LosesLines, OnChainEntry, BundleEntry;
    assert sources[..i + 1][..i] == sources[..i];
  }

  lemma IncludedIsUnrefused(s: Source, scan: Scanners)
    requires s.Included?
    ensures Unrefused(s, scan) <==> !scan.keyMaterial(s.path, s.text)
  {
  }

  // ----- the entries of one source -----

  lemma {:induction false} OnChainHas(sources: seq<Source>, opt: Options, scan: Scanners, e: Entry)
    ensures e in OnChainOf(sources, opt, scan) <==>
            exists i :: 0 <= i < |sources| && sources[i].Configured? && e == OnChainEntry(sources[i], opt, scan)
  {
    hide OnChainEntry;
    if sources != [] {
      var last := |sources| - 1;
      OnChainHas(sources[..last], opt, scan, e);
      forall i | 0 <= i < last
        ensures sources[..last][i] == sources[i]
      {
      }
    }
  }

  lemma {:induction false} BundleHas(sources: seq<Source>, opt: Options, scan: Scanners, e: Entry)
    ensures e in BundleOf(sources, opt, scan) <==>
            exists i :: 0 <= i < |sources| && (sources[i].Included? || LosesLines(sources[i], opt, scan))
                        && e == BundleEntry(sources[i], opt, scan)
  {
    hide BundleEntry, LosesLines;
    if sources != [] {
      var last := |sources| - 1;
      BundleHas(sources[..last], opt, scan, e);
      forall i | 0 <= i < last
        ensures sources[..last][i] == sources[i]
      {
      }
    }
  }

  ghost predicate OnePath(entries: seq<Entry>) {
    forall i, j | 0 <= i < j < |entries| :: entries[i].path != entries[j].path
  }

  lemma {:induction false} OnChainOnce(sources: seq<Source>, opt: Options, scan: Scanners)
    requires Distinct(sources)
    ensures OnePath(OnChainOf(sources, opt, scan))
  {
    hide OnChainText;
    if sources != [] {
      var last := |sources| - 1;
      OnChainOnce(sources[..last], opt, scan);
      forall e | e in OnChainOf(sources[..last], opt, scan)
        ensures e.path != sources[last].path
      {
        OnChainHas(sources[..last], opt, scan, e);
      }
    }
  }

  lemma {:induction false} BundleOnce(sources: seq<Source>, opt: Options, scan: Scanners)
    requires Distinct(sources)
    ensures OnePath(BundleOf(sources, opt, scan))
  {
    hide BundleText, LosesLines;
    if sources != [] {
      var last := |sources| - 1;
      BundleOnce(sources[..last], opt, scan);
      forall e | e in BundleOf(sources[..last], opt, scan)
        ensures e.path != sources[last].path
      {
        BundleHas(sources[..last], opt, scan, e);
      }
    }
  }

  lemma StoredOnce(sources: seq<Source>, opt: Options, scan: Scanners)
    requires Distinct(sources)
    ensures OnePath(OnChainOf(sources, opt, scan)) && OnePath(BundleOf(sources, opt, scan))
  {
    OnChainOnce(sources, opt, scan);
    BundleOnce(sources, opt, scan);
  }

  lemma {:induction false} ByPathHas(entries: seq<Entry>, e: Entry)
    requires OnePath(entries) && e in entries
    ensures e.path in ByPath(entries) && ByPath(entries)[e.path] == e
  {
    var last := |entries| - 1;
    if e != entries[last] {
      assert e in entries[..last];
      ByPathHas(entries[..last], e);
      var i :| 0 <= i < last && entries[i] == e;
    }
  }

  lemma {:induction false} AfterOnHas(onChain: seq<Entry>, left: map<string, Entry>, e: Entry)
    requires OnePath(onChain) && e in onChain
    ensures e.path in AfterOn(onChain, left).files
    ensures AfterOn(onChain, left).files[e.path] ==
            Restored(e.path, e.mode, if e.path in left then MergedText(e.data, left[e.path].data) else BareText(e.data), false)
  {
    hide MergedText, BareText;
    var last := |onChain| - 1;
    if e == onChain[last] {
      AfterOnKeys(onChain[..last], left, e.path);
    } else {
      assert e in onChain[..last];
      AfterOnHas(onChain[..last], left, e);
      var i :| 0 <= i < last && onChain[i] == e;
    }
  }

  lemma OnlyOwnPath(sources: seq<Source>, opt: Options, scan: Scanners, s: Source)
    requires Distinct(sources) && s in sources
    ensures s.Configured? && !LosesLines(s, opt, scan) ==> s.path !in ByPath(BundleOf(sources, opt, scan))
    ensures s.Included? ==> forall e | e in OnChainOf(sources, opt, scan) :: e.path != s.path
  {
    hide LosesLines;
    var bundle := BundleOf(sources, opt, scan);
    ByPathKeys(bundle, s.path);
    forall e | e in bundle && e.path == s.path
      ensures s.Included? || LosesLines(s, opt, scan)
    {
      BundleHas(sources, opt, scan, e);
    }
    forall e | e in OnChainOf(sources, opt, scan) && e.path == s.path
      ensures s.Configured?
    {
      OnChainHas(sources, opt, scan, e);
    }
  }

  lemma RebuiltAt(onChain: seq<Entry>, bundle: seq<Entry>, p: string)
    ensures var after := AfterOn(onChain, ByPath(bundle));
            && (p in Rebuilt(onChain, bundle) <==> p in after.files || p in after.left)
            && (p in after.left ==> Rebuilt(onChain, bundle)[p] == FromBundle(after.left[p]))
            && (p in after.files && p !in after.left ==> Rebuilt(onChain, bundle)[p] == after.files[p])
  {
    hide AfterOn, ByPath;
  }

  // What the two texts of a config file give back.
  lemma ConfiguredBack(s: Source, opt: Options, scan: Scanners)
    requires s.Configured? && Unrefused(s, scan)
    ensures LosesLines(s, opt, scan) ==> MergedText(OnChainEntry(s, opt, scan).data, BundleEntry(s, opt, scan).data) == s.text
    ensures !LosesLines(s, opt, scan) ==> BareText(OnChainEntry(s, opt, scan).data) == s.text
  {
    if LosesLines(s, opt, scan) {
      SplitThenMerge(s.text, opt, scan);
    } else {
      NothingMovedNeedsNoBundle(s.text, opt, scan);
    }
    hide MergedText, BareText, OnChainText, BundleText, BundleLines, FileRefusal, Parsed;
  }

  lemma EntryPaths(s: Source, opt: Options, scan: Scanners)
    ensures OnChainEntry(s, opt, scan).path == BundleEntry(s, opt, scan).path == s.path
    ensures OnChainEntry(s, opt, scan).mode == BundleEntry(s, opt, scan).mode == s.mode
    ensures s.Included? ==> BundleEntry(s, opt, scan).data == s.text
  {
    hide OnChainText, BundleText;
  }

  lemma StoredInBundle(sources: seq<Source>, opt: Options, scan: Scanners, s: Source)
    requires Distinct(sources) && s in sources
    ensures var left := ByPath(BundleOf(sources, opt, scan));
            if s.Included? || LosesLines(s, opt, scan) then s.path in left && left[s.path] == BundleEntry(s, opt, scan)
            else s.path !in left
  {
    var bundle, b := BundleOf(sources, opt, scan), BundleEntry(s, opt, scan);
    EntryPaths(s, opt, scan);
    hide LosesLines, BundleEntry, BundleOf, ByPath;
    StoredOnce(sources, opt, scan);
    if s.Included? || LosesLines(s, opt, scan) {
      BundleHas(sources, opt, scan, b);
      ByPathHas(bundle, b);
    } else {
      OnlyOwnPath(sources, opt, scan, s);
    }
  }

  lemma RestoredConfigured(sources: seq<Source>, opt: Options, scan: Scanners, s: Source)
    requires Distinct(sources) && s in sources && Unrefused(s, scan) && s.Configured?
    ensures var files := Rebuilt(OnChainOf(sources, opt, scan), BundleOf(sources, opt, scan));
            s.path in files && files[s.path] == Restored(s.path, s.mode, s.text, false)
  {
    var onChain, bundle, e := OnChainOf(sources, opt, scan), BundleOf(sources, opt, scan), OnChainEntry(s, opt, scan);
    hide LosesLines, BundleEntry, OnChainEntry, BundleOf, OnChainOf, ByPath, AfterOn, Rebuilt, Distinct, Unrefused, MergedText, BareText, OnePath;
    EntryPaths(s, opt, scan);
    StoredInBundle(sources, opt, scan, s);
    StoredOnce(sources, opt, scan);
    OnChainHas(sources, opt, scan, e);
    AfterOnHas(onChain, ByPath(bundle), e);
    AfterOnKeys(onChain, ByPath(bundle), s.path);
    RebuiltAt(onChain, bundle, s.path);
    ConfiguredBack(s, opt, scan);
  }

  lemma RestoredIncluded(sources: seq<Source>, opt: Options, scan: Scanners, s: Source)
    requires Distinct(sources) && s in sources && s.Included?
    ensures var files := Rebuilt(OnChainOf(sources, opt, scan), BundleOf(sources, opt, scan));
            s.path in files && files[s.path] == Restored(s.path, s.mode, s.text, false)
  {
    var onChain, bundle := OnChainOf(sources, opt, scan), BundleOf(sources, opt, scan);
    hide LosesLines, BundleEntry, BundleOf, OnChainOf, ByPath, AfterOn, Rebuilt, Distinct, MergedText, BareText;
    EntryPaths(s, opt, scan);
    StoredInBundle(sources, opt, scan, s);
    OnlyOwnPath(sources, opt, scan, s);
    AfterOnKeys(onChain, ByPath(bundle), s.path);
    RebuiltAt(onChain, bundle, s.path);
    assert s.path in ByPath(bundle) && ByPath(bundle)[s.path] == BundleEntry(s, opt, scan);
    forall i | 0 <= i < |onChain|
      ensures onChain[i].path != s.path
    {
      assert onChain[i] in onChain;
    }
    assert s.path in AfterOn(onChain, ByPath(bundle)).left;
  }

  /** Both halves give every stored file its original bytes and mode. */
  lemma RestoredIsOriginal(sources: seq<Source>, opt: Options, scan: Scanners, s: Source)
    requires Distinct(sources) && s in sources && Unrefused(s, scan)
    ensures var files := Rebuilt(OnChainOf(sources, opt, scan), BundleOf(sources, opt, scan));
            s.path in files && files[s.path] == Restored(s.path, s.mode, s.text, false)
  {
    if s.Configured? {
      RestoredConfigured(sources, opt, scan, s);
    } else {
      RestoredIncluded(sources, opt, scan, s);
    }
  }

  /** Without the bundle a config file is its on-chain text, and an included file is not there. */
  lemma RestoredWithoutBundle(sources: seq<Source>, opt: Options, scan: Scanners, s: Source)
    requires Distinct(sources) && s in sources
    ensures var files := Rebuilt(OnChainOf(sources, opt, scan), []);
            if s.Configured? then s.path in files && files[s.path] == Restored(s.path, s.mode, OnChainText(s.text, opt, scan), false)
            else s.path !in files
  {
    var onChain, e := OnChainOf(sources, opt, scan), OnChainEntry(s, opt, scan);
    assert ByPath([]) == map[];
    assert s.Configured? ==> e.data == OnChainText(s.text, opt, scan);
    hide OnChainEntry, OnChainOf, ByPath, AfterOn, Rebuilt, Distinct, MergedText, BareText, OnChainText, OnePath;
    EntryPaths(s, opt, scan);
    StoredOnce(sources, opt, scan);
    OnlyOwnPath(sources, opt, scan, s);
    OnChainHas(sources, opt, scan, e);
    AfterOnKeys(onChain, ByPath([]), s.path);
    RebuiltAt(onChain, [], s.path);
    if s.Configured? {
      AfterOnHas(onChain, ByPath([]), e);
      BareMergeIsIdentity(e.data);
    }
  }

  /**
    Storing files and restoring them: every file comes back byte for byte with its mode, proven
    complete, and nothing is left to do by hand.
   */
  method StoreThenRestore(sources: seq<Source>, opt: Options, scan: Scanners, clean: string -> bool, hash: string -> string)
    returns (files: map<string, Restored>, todo: seq<string>)
    requires Distinct(sources) && forall i | 0 <= i < |sources| :: Unrefused(sources[i], scan) && clean(sources[i].path)
    ensures forall s | s in sources :: s.path in files && files[s.path] == Restored(s.path, s.mode, s.text, true)
    ensures forall p | p in files :: exists s :: s in sources && s.path == p
    ensures forall p :: p !in todo
  {
    hide Rebuilt, OnChainOf, BundleOf, Unrefused;
    var ok, onChain, bundle, listed := Store(sources, opt, scan, hash);
    NeverRefused(sources, opt, scan, clean, hash);
    var r;
    r, todo := Build(listed, onChain, bundle, clean, hash);
    files := r.value;
    forall s | s in sources
      ensures s.path in files && files[s.path] == Restored(s.path, s.mode, s.text, true)
    {
      RestoredIsOriginal(sources, opt, scan, s);
      var i :| 0 <= i < |sources| && sources[i] == s;
      assert listed[i] == Listed(s.path, hash(s.text));
    }
    forall p | p in files
      ensures exists s :: s in sources && s.path == p
    {
      var i :| 0 <= i < |listed| && listed[i].path == p;
      assert sources[i] in sources;
    }
    forall p | IsListed(listed, p)
      ensures p in files
    {
      var i :| 0 <= i < |listed| && listed[i].path == p;
      assert sources[i] in sources;
    }
  }

  lemma NeverRefused(sources: seq<Source>, opt: Options, scan: Scanners, clean: string -> bool, hash: string -> string)
    requires Distinct(sources) && forall i | 0 <= i < |sources| :: clean(sources[i].path)
    ensures !Refused(ListingOf(sources, hash), OnChainOf(sources, opt, scan) + BundleOf(sources, opt, scan), clean)
  {
    var listed, entries := ListingOf(sources, hash), OnChainOf(sources, opt, scan) + BundleOf(sources, opt, scan);
    forall e | e in entries
      ensures clean(e.path) && IsListed(listed, e.path)
    {
      OnChainHas(sources, opt, scan, e);
      BundleHas(sources, opt, scan, e);
      hide LosesLines, OnChainOf, BundleOf;
      var i :| 0 <= i < |sources| && sources[i].path == e.path;
      assert listed[i].path == e.path;
    }
  }
}
