/** `initFs`: the anchor directory is cut from the resolved data-directory
    path, two candidate icon directories are built under it, and the first
    accessible one becomes the icon base path. The filesystem is the oracle
    `accessible`, true of a path when the read/write access check succeeds. */
module Assets {
  import opened JsStrings

  const PluginId := "signalk-flags"
  const AnchorDir := ".signalk"

  /** The parts of a path that `path.join` keeps: it skips empty arguments. */
  function NonEmpty(parts: seq<string>): (r: seq<string>)
    ensures |r| <= |parts|
    ensures forall i :: 0 <= i < |r| ==> r[i] != ""
    ensures forall x :: x in r <==> x in parts && x != ""
    ensures (forall i :: 0 <= i < |parts| ==> parts[i] != "") ==> r == parts
  {
    if |parts| == 0 then []
    else if parts[0] == "" then NonEmpty(parts[1..])
    else [parts[0]] + NonEmpty(parts[1..])
  }

  /** `path.join` on arguments that are already normalised: the non-empty
      arguments joined with `/`. */
  function PathJoin(parts: seq<string>): string
  {
    Join(NonEmpty(parts), '/')
  }

  /** The anchor: the `/`-separated segments of the resolved data directory
      up to and including the first `.signalk` segment, joined again; when
      there is none, `indexOf` gives -1 and nothing is kept. */
  function Anchor(resolved: string): (a: string)
    ensures AnchorDir !in Split(resolved, '/') ==> a == ""
    ensures a <= resolved
  {
    var p := Split(resolved, '/');
    var k := IndexOf(p, AnchorDir);
    JoinSplit(resolved, '/');
    JoinPrefix(p, '/', k + 1);
    Join(p[..k + 1], '/')
  }

  /** A found anchor is exactly the segments up to the first `.signalk`:
      it ends in that segment and holds no earlier one. */
  lemma AnchorSegments(resolved: string)
    requires AnchorDir in Split(resolved, '/')
    ensures var p := Split(resolved, '/');
      var k := IndexOf(p, AnchorDir);
      var q := Split(Anchor(resolved), '/');
      && q == p[..k + 1]
      && q[|q| - 1] == AnchorDir
      && AnchorDir !in q[..|q| - 1]
  {
    var p := Split(resolved, '/');
    var k := IndexOf(p, AnchorDir);
    SplitPartsAreSeparatorFree(resolved, '/');
    SplitJoin(p[..k + 1], '/');
    assert p[..k + 1][..k] == p[..k];
    assert forall j :: 0 <= j < k ==> p[..k][j] == p[j];
  }

  /** Joining a head onto at least one more part puts one separator between. */
  lemma JoinCons(head: string, parts: seq<string>, sep: char)
    requires |parts| >= 1
    ensures Join([head] + parts, sep) == head + [sep] + Join(parts, sep)
  {
    assert ([head] + parts)[1..] == parts;
  }

  /** Where the installed package keeps its icons. */
  function ProductionPath(anchor: string): string
  {
    PathJoin([anchor, "node_modules", "flag-icons", "flags"])
  }

  /** Where a development checkout of the plugin keeps its icons. */
  function DevelopmentPath(anchor: string): string
  {
    PathJoin([anchor, "node_modules", PluginId, "node_modules", "flag-icons", "flags"])
  }

  const ProductionSuffix := "node_modules/flag-icons/flags"
  /** `node_modules/signalk-flags/node_modules/flag-icons/flags` */
  const DevelopmentSuffix := "node_modules/" + PluginId + "/" + ProductionSuffix

  lemma ProductionSuffixJoin()
    ensures Join(["node_modules", "flag-icons", "flags"], '/') == ProductionSuffix
  {
    assert Join(["flags"], '/') == "flags";
    assert ["flag-icons", "flags"][1..] == ["flags"];
    assert Join(["flag-icons", "flags"], '/') == "flag-icons/flags";
    assert ["node_modules", "flag-icons", "flags"][1..] == ["flag-icons", "flags"];
  }

  lemma DevelopmentSuffixJoin()
    ensures Join(["node_modules", PluginId, "node_modules", "flag-icons", "flags"], '/') == DevelopmentSuffix
  {
    var tail := ["node_modules", "flag-icons", "flags"];
    ProductionSuffixJoin();
    JoinCons(PluginId, tail, '/');
    assert [PluginId] + tail == [PluginId, "node_modules", "flag-icons", "flags"];
    assert Join([PluginId, "node_modules", "flag-icons", "flags"], '/') == PluginId + "/" + ProductionSuffix;
    JoinCons("node_modules", [PluginId, "node_modules", "flag-icons", "flags"], '/');
    assert ["node_modules"] + [PluginId, "node_modules", "flag-icons", "flags"] == ["node_modules", PluginId, "node_modules", "flag-icons", "flags"];
  }

  /** Under a found anchor the production candidate is the fixed suffix
      appended; with no anchor it is the bare suffix, a relative path. */
  lemma ProductionCandidate(anchor: string)
    ensures ProductionPath(anchor) == if anchor == "" then ProductionSuffix else anchor + "/" + ProductionSuffix
  {
    var tail := ["node_modules", "flag-icons", "flags"];
    ProductionSuffixJoin();
    NonEmptyLiteral(tail);
    NonEmptyCons(anchor, tail);
    assert [anchor] + tail == [anchor, "node_modules", "flag-icons", "flags"];
    if anchor != "" {
      JoinCons(anchor, tail, '/');
    }
  }

  /** The same for the development candidate. */
  lemma DevelopmentCandidate(anchor: string)
    ensures DevelopmentPath(anchor) == if anchor == "" then DevelopmentSuffix else anchor + "/" + DevelopmentSuffix
  {
    var dtail := ["node_modules", PluginId, "node_modules", "flag-icons", "flags"];
    DevelopmentSuffixJoin();
    NonEmptyLiteral(dtail);
    NonEmptyCons(anchor, dtail);
    assert [anchor] + dtail == [anchor, "node_modules", PluginId, "node_modules", "flag-icons", "flags"];
    if anchor != "" {
      JoinCons(anchor, dtail, '/');
    }
  }

  lemma NonEmptyLiteral(parts: seq<string>)
    requires forall i :: 0 <= i < |parts| ==> parts[i] != ""
    ensures NonEmpty(parts) == parts
  {
    if |parts| > 0 {
      NonEmptyLiteral(parts[1..]);
    }
  }

  lemma NonEmptyCons(head: string, parts: seq<string>)
    ensures NonEmpty([head] + parts) == if head == "" then NonEmpty(parts) else [head] + NonEmpty(parts)
  {
    assert ([head] + parts)[1..] == parts;
  }

  /** The base-path choice: production first, development second, and the
      current value kept when neither is accessible. */
  function ChooseBase(current: string, production: string, development: string, accessible: string -> bool): (r: string)
    ensures accessible(production) ==> r == production
    ensures !accessible(production) && accessible(development) ==> r == development
    ensures !accessible(production) && !accessible(development) ==> r == current
  {
    if accessible(production) then production
    else if accessible(development) then development
    else current
  }

  /** `initFs` from the resolved data directory. */
  function InitFs(current: string, resolvedDataDir: string, accessible: string -> bool): (r: string)
    ensures r == current || accessible(r)
    ensures r != current ==> r == ProductionPath(Anchor(resolvedDataDir)) || r == DevelopmentPath(Anchor(resolvedDataDir))
  {
    var anchor := Anchor(resolvedDataDir);
    ChooseBase(current, ProductionPath(anchor), DevelopmentPath(anchor), accessible)
  }

  /** Production is preferred: whenever it is accessible it is chosen,
      whatever the development candidate and the current value are. */
  lemma ProductionPreferred(current: string, resolvedDataDir: string, accessible: string -> bool)
    requires accessible(ProductionPath(Anchor(resolvedDataDir)))
    ensures InitFs(current, resolvedDataDir, accessible) == ProductionPath(Anchor(resolvedDataDir))
  {
  }

  /** The two candidates never coincide, so the choice between them is real. */
  lemma CandidatesDiffer(anchor: string)
    ensures ProductionPath(anchor) != DevelopmentPath(anchor)
  {
    ProductionCandidate(anchor);
    DevelopmentCandidate(anchor);
    assert |ProductionSuffix| < |DevelopmentSuffix|;
  }
}
