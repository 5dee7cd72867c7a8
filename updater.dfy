/**
 * The auto-updater: comparing dotted version numbers, deciding from the
 * latest release's assets which updates to take, and the shared status
 * record the download steps update. The network, the file system, the
 * clock and the background thread are parameters or left out: a fetch is
 * given as its outcome, the exe download as the sizes of the chunks read.
 */
module Updater {
  import opened Text
  import opened Wrappers
  import opened PyInt

  // ---------------------------------------------------------------------
  // Version comparison
  // ---------------------------------------------------------------------

  predicate IsV(c: char) {
    c == 'v'
  }

  /** The dot-separated pieces of a version after strip() and lstrip("v"). */
  function Components(v: Str): (parts: seq<Str>)
    ensures |parts| >= 1
  {
    var t := Trim(v, IsPySpace);
    SplitOn(t[LeadingRun(t, IsV)..], '.')
  }

  /** Slicing [:3]. */
  function FirstThree(parts: seq<Str>): (r: seq<Str>)
    ensures |r| == if |parts| < 3 then |parts| else 3
    ensures r == parts[..|r|]
  {
    if |parts| <= 3 then parts else parts[..3]
  }

  /** int() of every piece; None when any of them raises. */
  function ParseAll(parts: seq<Str>): (r: Option<seq<int>>)
    ensures r.Some? <==> forall i :: 0 <= i < |parts| ==> Parse(parts[i]).Some?
    ensures r.Some? ==> |r.value| == |parts| && forall i :: 0 <= i < |parts| ==> Parse(parts[i]) == Some(r.value[i])
  {
    if parts == [] then Some([])
    else
      match Parse(parts[0])
      case None => None
      case Some(n) =>
        match ParseAll(parts[1..])
        case None => None
        case Some(ns) => Some([n] + ns)
  }

  /** The tuple a version parses to: one to three integers, or None when a piece is not an integer. */
  function ParseVersion(v: Str): (r: Option<seq<int>>)
    ensures r.Some? ==> 1 <= |r.value| <= 3
  {
    ParseAll(FirstThree(Components(v)))
  }

  /** Python's tuple a < b: the first differing place decides, and a proper prefix is smaller. */
  predicate TupleLess(a: seq<int>, b: seq<int>) {
    if b == [] then false
    else if a == [] then true
    else a[0] < b[0] || (a[0] == b[0] && TupleLess(a[1..], b[1..]))
  }

  /** _version_gt: v1 > v2 as tuples; False when either does not parse. */
  function VersionGt(v1: Str, v2: Str): bool {
    var a := ParseVersion(v1);
    var b := ParseVersion(v2);
    a.Some? && b.Some? && TupleLess(b.value, a.value)
  }

  lemma {:induction false} TupleLessIrreflexive(a: seq<int>)
    ensures !TupleLess(a, a)
  {
    if a != [] {
      TupleLessIrreflexive(a[1..]);
    }
  }

  lemma {:induction false} TupleLessTransitive(a: seq<int>, b: seq<int>, c: seq<int>)
    requires TupleLess(a, b) && TupleLess(b, c)
    ensures TupleLess(a, c)
  {
    if a != [] && a[0] == b[0] && b[0] == c[0] {
      TupleLessTransitive(a[1..], b[1..], c[1..]);
    }
  }

  lemma {:induction false} TupleLessTotal(a: seq<int>, b: seq<int>)
    ensures a == b || TupleLess(a, b) || TupleLess(b, a)
  {
    if a != [] && b != [] && a[0] == b[0] {
      TupleLessTotal(a[1..], b[1..]);
      if a[1..] == b[1..] {
        assert a == [a[0]] + a[1..] && b == [b[0]] + b[1..];
      }
    }
  }

  /** A proper prefix compares smaller: (1, 2) < (1, 2, 0). */
  lemma {:induction false} PrefixIsLess(a: seq<int>, b: seq<int>)
    requires b != []
    ensures TupleLess(a, a + b)
  {
    if a != [] {
      assert (a + b)[1..] == a[1..] + b;
      PrefixIsLess(a[1..], b);
    }
  }

  /** No version is newer than itself, so an equal remote version triggers nothing. */
  lemma VersionGtIrreflexive(v: Str)
    ensures !VersionGt(v, v)
  {
    if ParseVersion(v).Some? {
      TupleLessIrreflexive(ParseVersion(v).value);
    }
  }

  /** Newer-than is a strict order: never both ways, and transitive. */
  lemma VersionGtStrictOrder(v1: Str, v2: Str, v3: Str)
    ensures VersionGt(v1, v2) ==> !VersionGt(v2, v1)
    ensures VersionGt(v1, v2) && VersionGt(v2, v3) ==> VersionGt(v1, v3)
  {
    if VersionGt(v1, v2) && VersionGt(v2, v1) {
      var a := ParseVersion(v1).value;
      var b := ParseVersion(v2).value;
      TupleLessTransitive(a, b, a);
      TupleLessIrreflexive(a);
    }
    if VersionGt(v1, v2) && VersionGt(v2, v3) {
      TupleLessTransitive(ParseVersion(v3).value, ParseVersion(v2).value, ParseVersion(v1).value);
    }
  }

  /** Two versions that both parse are either equal as tuples or one is newer. */
  lemma VersionGtTotal(v1: Str, v2: Str)
    requires ParseVersion(v1).Some? && ParseVersion(v2).Some?
    ensures ParseVersion(v1) == ParseVersion(v2) || VersionGt(v1, v2) || VersionGt(v2, v1)
  {
    TupleLessTotal(ParseVersion(v1).value, ParseVersion(v2).value);
  }

  /** Only the first three pieces count: versions that agree on them compare alike against any other. */
  lemma ExtraComponentsIgnored(v1: Str, v2: Str, other: Str)
    requires |Components(v1)| >= 3 && |Components(v2)| >= 3
    requires Components(v1)[..3] == Components(v2)[..3]
    ensures VersionGt(v1, other) == VersionGt(v2, other)
    ensures VersionGt(other, v1) == VersionGt(other, v2)
  {
    assert ParseVersion(v1) == ParseVersion(v2);
  }

  /** The decimal pieces of a version. */
  function Decimals(ns: seq<nat>): (ds: seq<Str>)
    ensures |ds| == |ns|
    ensures forall i :: 0 <= i < |ns| ==> ds[i] == Decimal(ns[i])
  {
    if ns == [] then [] else [Decimal(ns[0])] + Decimals(ns[1..])
  }

  /** A version written out as str(a) + "." + str(b) + "." + str(c) (or with fewer pieces). */
  function Render(ns: seq<nat>): Str {
    Join(Decimals(ns), ".")
  }

  /** A join of non-empty pieces starts with the first piece's first character and ends with the last piece's last one. */
  lemma {:induction false} JoinEnds(ws: seq<Str>, sep: Str)
    requires |ws| >= 1 && forall i :: 0 <= i < |ws| ==> ws[i] != []
    ensures var j := Join(ws, sep);
      j != [] && j[0] == ws[0][0] && j[|j| - 1] == ws[|ws| - 1][|ws[|ws| - 1]| - 1]
  {
    if |ws| > 1 {
      JoinEnds(ws[1..], sep);
    }
  }

  lemma ParseDecimals(ns: seq<nat>)
    ensures ParseAll(Decimals(ns)) == Some(ns)
  {
    var ds := Decimals(ns);
    forall i | 0 <= i < |ns| ensures Parse(ds[i]) == Some(ns[i] as int) {
      ParseSignedDigits(false, Decimal(ns[i]));
      assert SignOf(false) + Decimal(ns[i]) == ds[i];
    }
    assert ParseAll(ds).value == ns;
  }

  /** A written-out version reads back as its numbers, with or without a leading "v". */
  lemma RenderRoundTrip(ns: seq<nat>)
    requires 1 <= |ns| <= 3
    ensures ParseVersion(Render(ns)) == Some(ns)
    ensures ParseVersion("v" + Render(ns)) == Some(ns)
  {
    RenderComponents(ns);
    ParseDecimals(ns);
  }

  lemma RenderComponents(ns: seq<nat>)
    requires 1 <= |ns|
    ensures Components(Render(ns)) == Decimals(ns)
    ensures Components("v" + Render(ns)) == Decimals(ns)
  {
    RenderEnds(ns);
    DecimalsNoDot(ns);
    SplitOnJoin(Decimals(ns), '.');
    ComponentsOfDigitEnds(Render(ns));
  }

  /** Text that begins and ends with a digit loses nothing to strip() and lstrip("v"), and a leading "v" is dropped. */
  lemma ComponentsOfDigitEnds(r: Str)
    requires r != [] && IsDigit(r[0]) && IsDigit(r[|r| - 1])
    ensures Components(r) == SplitOn(r, '.')
    ensures Components("v" + r) == SplitOn(r, '.')
  {
    DigitNotSpace(r[0]);
    DigitNotSpace(r[|r| - 1]);
    TrimUntouched(r, IsPySpace);
    assert LeadingRun(r, IsV) == 0;
    assert r[0..] == r;
    var vr := "v" + r;
    assert vr[0] == 'v' && vr[|vr| - 1] == r[|r| - 1];
    TrimUntouched(vr, IsPySpace);
    assert vr[1..] == r;
    assert LeadingRun(vr, IsV) == 1 + LeadingRun(r, IsV);
  }

  lemma DecimalsNoDot(ns: seq<nat>)
    ensures forall i :: 0 <= i < |ns| ==> '.' !in Decimals(ns)[i]
  {
    forall i | 0 <= i < |ns| ensures '.' !in Decimals(ns)[i] {
      assert AllDigits(Decimal(ns[i]));
    }
  }

  lemma DigitNotSpace(c: char)
    requires IsDigit(c)
    ensures !IsPySpace(c) && !IsV(c)
  {
  }

  /** A written-out version begins and ends with a digit. */
  lemma RenderEnds(ns: seq<nat>)
    requires 1 <= |ns|
    ensures var r := Render(ns);
      r != [] && IsDigit(r[0]) && IsDigit(r[|r| - 1])
  {
    var ds := Decimals(ns);
    JoinEnds(ds, ".");
    assert AllDigits(ds[0]) && AllDigits(ds[|ds| - 1]);
    assert ds[0][0] in ds[0];
    assert ds[|ds| - 1][|ds[|ds| - 1]| - 1] in ds[|ds| - 1];
  }

  /** Written-out versions compare as their number tuples. */
  lemma RenderedOrder(a: seq<nat>, b: seq<nat>)
    requires 1 <= |a| <= 3 && 1 <= |b| <= 3
    ensures VersionGt(Render(a), Render(b)) <==> TupleLess(b, a)
  {
    RenderRoundTrip(a);
    RenderRoundTrip(b);
  }

  /** "1.2" is older than "1.2.0": a missing trailing piece is not read as zero. */
  lemma ShorterIsOlder(ns: seq<nat>)
    requires 1 <= |ns| <= 2
    ensures VersionGt(Render(ns + [0]), Render(ns)) && !VersionGt(Render(ns), Render(ns + [0]))
  {
    RenderedOrder(ns + [0], ns);
    RenderedOrder(ns, ns + [0]);
    PrefixIsLess(ns, [0]);
    if TupleLess(ns + [0], ns) {
      TupleLessTransitive(ns, ns + [0], ns);
      TupleLessIrreflexive(ns);
    }
  }

  /** A version that fails to parse is never newer nor older than anything. */
  lemma UnparsableNeverNewer(v1: Str, v2: Str)
    requires exists i :: 0 <= i < |FirstThree(Components(v1))| && Parse(FirstThree(Components(v1))[i]).None?
    ensures !VersionGt(v1, v2) && !VersionGt(v2, v1)
  {
  }

  // ---------------------------------------------------------------------
  // Update decisions and the status record
  // ---------------------------------------------------------------------

  /** The outcome of a request: the decoded body, or the message of the exception it raised. */
  datatype Fetch<T> = Fetched(value: T) | FetchFailed(message: Str)

  /** The remote version.json; a missing key reads as "0.0.0". */
  datatype Manifest = Manifest(frontendVersion: Option<Str>, exeVersion: Option<Str>)

  function RemoteVersion(v: Option<Str>): Str {
    v.GetOr("0.0.0")
  }

  /** Which updates a check takes. */
  datatype Plan = Plan(updateFrontend: bool, startExe: bool)

  const NoAction := Plan(false, false)

  /**
   * check_for_updates' decisions, from the configured repo, the latest
   * release's asset names, the remote manifest and the local versions.
   */
  function PlanOf(repo: Str, release: Fetch<set<Str>>, manifest: Fetch<Manifest>, localExe: Str, localFrontend: Str): (p: Plan)
    ensures repo == [] || release.FetchFailed? ==> p == NoAction
    ensures release.Fetched? && "version.json" !in release.value ==> p == NoAction
    ensures manifest.FetchFailed? ==> p == NoAction
    ensures p.updateFrontend ==> release.Fetched? && "frontend.zip" in release.value
    ensures p.startExe ==> release.Fetched? && "QuranBuildingPro.exe" in release.value
  {
    if repo == [] then NoAction
    else match release
      case FetchFailed(_) => NoAction
      case Fetched(assets) =>
        if "version.json" !in assets then NoAction
        else match manifest
          case FetchFailed(_) => NoAction
          case Fetched(m) =>
            Plan(VersionGt(RemoteVersion(m.frontendVersion), localFrontend) && "frontend.zip" in assets,
                 VersionGt(RemoteVersion(m.exeVersion), localExe) && "QuranBuildingPro.exe" in assets)
  }

  /** An update is taken only to a strictly newer version: never to the same one, never a downgrade. */
  lemma PlanNeverDowngrades(repo: Str, assets: set<Str>, m: Manifest, localExe: Str, localFrontend: Str)
    ensures var p := PlanOf(repo, Fetched(assets), Fetched(m), localExe, localFrontend);
      && (p.updateFrontend ==> RemoteVersion(m.frontendVersion) != localFrontend && !VersionGt(localFrontend, RemoteVersion(m.frontendVersion)))
      && (p.startExe ==> RemoteVersion(m.exeVersion) != localExe && !VersionGt(localExe, RemoteVersion(m.exeVersion)))
  {
    VersionGtIrreflexive(localFrontend);
    VersionGtIrreflexive(localExe);
    VersionGtStrictOrder(RemoteVersion(m.frontendVersion), localFrontend, localFrontend);
    VersionGtStrictOrder(RemoteVersion(m.exeVersion), localExe, localExe);
  }

  /**
   * With a configured repo and a release that carries version.json, each
   * update is taken exactly when its remote version is newer and its own
   * asset is in the release, whatever the other asset.
   */
  lemma PlanWhenNewer(repo: Str, assets: set<Str>, m: Manifest, localExe: Str, localFrontend: Str)
    requires repo != []
    requires "version.json" in assets
    ensures var p := PlanOf(repo, Fetched(assets), Fetched(m), localExe, localFrontend);
      && (p.updateFrontend <==> VersionGt(RemoteVersion(m.frontendVersion), localFrontend) && "frontend.zip" in assets)
      && (p.startExe <==> VersionGt(RemoteVersion(m.exeVersion), localExe) && "QuranBuildingPro.exe" in assets)
  {
  }

  /** int(downloaded * 100 / total) for non-negative operands. */
  function Percent(downloaded: nat, total: int): nat
    requires total > 0
  {
    downloaded * 100 / total
  }

  function Sum(chunks: seq<nat>): nat {
    if chunks == [] then 0 else Sum(chunks[..|chunks| - 1]) + chunks[|chunks| - 1]
  }

  /** exe_progress after the given chunks were read (0 before the first one, or when the length is unknown). */
  function ProgressAfter(chunks: seq<nat>, total: int): nat {
    if total > 0 && chunks != [] then Percent(Sum(chunks), total) else 0
  }

  lemma {:induction false} SumMonotone(chunks: seq<nat>, i: nat, j: nat)
    requires i <= j <= |chunks|
    ensures Sum(chunks[..i]) <= Sum(chunks[..j])
    decreases j - i
  {
    if i < j {
      SumMonotone(chunks, i, j - 1);
      assert chunks[..j][..j - 1] == chunks[..j - 1];
    }
  }

  /** The progress shown never goes back while the download runs. */
  lemma ProgressMonotone(chunks: seq<nat>, total: int, i: nat, j: nat)
    requires i <= j <= |chunks|
    ensures ProgressAfter(chunks[..i], total) <= ProgressAfter(chunks[..j], total)
  {
    if total > 0 && i > 0 {
      SumMonotone(chunks, i, j);
      var a := Sum(chunks[..i]);
      var b := Sum(chunks[..j]);
      DivMonotone(a * 100, b * 100, total);
    }
  }

  lemma DivMonotone(a: nat, b: nat, d: int)
    requires a <= b && d > 0
    ensures a / d <= b / d
  {
    if a / d > b / d {
      MulMonotone(d, b / d + 1, a / d);
    }
  }

  lemma DivAtMost(a: nat, d: int, k: nat)
    requires d > 0 && a <= d * k
    ensures a / d <= k
  {
    if a / d > k {
      MulMonotone(d, k + 1, a / d);
    }
  }

  lemma MulMonotone(d: nat, x: int, y: int)
    requires x <= y
    ensures d * x <= d * y
  {
  }

  /** While no more than the announced length has arrived, the progress stays within 0..100. */
  lemma ProgressAtMost100(chunks: seq<nat>, total: int)
    requires total > 0 ==> Sum(chunks) <= total
    ensures ProgressAfter(chunks, total) <= 100
  {
    if total > 0 && chunks != [] {
      var s := Sum(chunks);
      MulMonotone(100, s, total);
      DivAtMost(s * 100, total, 100);
    }
  }

  /** The module-level status record shared with the status endpoint. */
  class UpdaterState {
    var frontendUpdated: bool
    var exeDownloading: bool
    var exeProgress: nat
    var exeReady: bool
    var lastCheck: Option<real>
    var error: Option<Str>

    constructor ()
      ensures !frontendUpdated && !exeDownloading && exeProgress == 0 && !exeReady
      ensures lastCheck == None && error == None
    {
      frontendUpdated := false;
      exeDownloading := false;
      exeProgress := 0;
      exeReady := false;
      lastCheck := None;
      error := None;
    }

    /** download_frontend_update: a success marks the frontend updated, a failure records its message. */
    method DownloadFrontendUpdate(failure: Option<Str>)
      modifies this
      ensures failure.None? ==> frontendUpdated && error == old(error)
      ensures failure.Some? ==> frontendUpdated == old(frontendUpdated) && error == failure
      ensures exeDownloading == old(exeDownloading) && exeProgress == old(exeProgress)
      ensures exeReady == old(exeReady) && lastCheck == old(lastCheck)
    {
      match failure
      case None => frontendUpdated := true;
      case Some(message) => error := Some(message);
    }

    /**
     * check_for_updates: records the time, then follows PlanOf; a failed
     * request records its message. The frontend update runs in place (its
     * outcome is frontendFailure); the exe download is only started, which
     * the result reports.
     */
    method CheckForUpdates(now: real, repo: Str, release: Fetch<set<Str>>, manifest: Fetch<Manifest>,
                           localExe: Str, localFrontend: Str, frontendFailure: Option<Str>)
      returns (startExe: bool)
      modifies this
      ensures var p := PlanOf(repo, release, manifest, localExe, localFrontend);
        && startExe == p.startExe
        && frontendUpdated == (old(frontendUpdated) || (p.updateFrontend && frontendFailure.None?))
        && error == (if repo != [] && release.FetchFailed? then Some(release.message)
                     else if repo != [] && release.Fetched? && "version.json" in release.value && manifest.FetchFailed? then Some(manifest.message)
                     else if p.updateFrontend && frontendFailure.Some? then frontendFailure
                     else old(error))
      ensures lastCheck == Some(now)
      ensures exeDownloading == old(exeDownloading) && exeProgress == old(exeProgress) && exeReady == old(exeReady)
    {
      lastCheck := Some(now);
      startExe := false;
      if repo == [] {
        return;
      }
      match release {
        case FetchFailed(message) =>
          error := Some(message);
        case Fetched(assets) =>
          if "version.json" !in assets {
            return;
          }
          match manifest {
            case FetchFailed(message) =>
              error := Some(message);
            case Fetched(m) =>
              var remoteFrontend := RemoteVersion(m.frontendVersion);
              var remoteExe := RemoteVersion(m.exeVersion);
              if VersionGt(remoteFrontend, localFrontend) && "frontend.zip" in assets {
                DownloadFrontendUpdate(frontendFailure);
              }
              startExe := VersionGt(remoteExe, localExe) && "QuranBuildingPro.exe" in assets;
          }
      }
    }

    /**
     * download_exe_update: the flags go to downloading; the read loop
     * publishes the percentage after every chunk when the length is known;
     * then either everything succeeded (ready at 100%) or failure names the
     * exception, which stops the download without making it ready.
     */
    method DownloadExeUpdate(chunks: seq<nat>, total: int, failure: Option<Str>)
      modifies this
      ensures !exeDownloading
      ensures failure.None? ==> exeProgress == 100 && exeReady && error == old(error)
      ensures failure.Some? ==> exeProgress == ProgressAfter(chunks, total) && !exeReady && error == failure
      ensures frontendUpdated == old(frontendUpdated) && lastCheck == old(lastCheck)
    {
      exeDownloading := true;
      exeProgress := 0;
      exeReady := false;
      var downloaded: nat := 0;
      var i := 0;
      while i < |chunks|
        invariant 0 <= i <= |chunks|
        invariant downloaded == Sum(chunks[..i])
        invariant exeProgress == ProgressAfter(chunks[..i], total)
        invariant exeDownloading && !exeReady
        invariant frontendUpdated == old(frontendUpdated) && lastCheck == old(lastCheck) && error == old(error)
      {
        assert chunks[..i + 1][..i] == chunks[..i];
        downloaded := downloaded + chunks[i];
        if total > 0 {
          exeProgress := Percent(downloaded, total);
        }
        i := i + 1;
      }
      assert chunks[..i] == chunks;
      match failure {
        case None =>
          exeProgress := 100;
          exeDownloading := false;
          exeReady := true;
        case Some(message) =>
          exeDownloading := false;
          error := Some(message);
      }
    }
  }
}
