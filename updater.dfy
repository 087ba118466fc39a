/**
 * The update checker's decisions: comparing dotted versions, stripping
 * the tag, choosing the download asset, the commit fallback when there
 * is no release, and the downloader's extension and progress reports.
 * The HTTP replies are inputs.
 */
module Updater {
  import opened Common
  import opened Strings

  const CurrentVersion: string := "1.0.0"

  /** `int(x)` restricted to plain decimal digit strings; anything else raises. */
  function ParseInt(s: string): (r: Option<nat>)
    ensures r.Some? <==> s != [] && forall i :: 0 <= i < |s| ==> IsDigit(s[i])
  {
    if s != [] && forall i :: 0 <= i < |s| ==> IsDigit(s[i]) then Some(DigitsValue(s)) else None
  }

  function ParseParts(parts: seq<string>): (r: Option<seq<int>>)
    ensures r.Some? ==> |r.value| == |parts|
    ensures r.Some? <==> forall i :: 0 <= i < |parts| ==> ParseInt(parts[i]).Some?
    ensures r.Some? ==> forall i :: 0 <= i < |parts| ==> r.value[i] == ParseInt(parts[i]).value
  {
    if parts == [] then Some([])
    else
      var head, tail := ParseInt(parts[0]), ParseParts(parts[1..]);
      if head.Some? && tail.Some? then Some([head.value] + tail.value) else None
  }

  /** `[int(x) for x in v.split(".")]`, or `None` where that raises. */
  function ParseVersion(v: string): Option<seq<int>> {
    ParseParts(Split(v, '.'))
  }

  /** Python's `a > b` on lists of integers: lexicographic, and a proper prefix is smaller. */
  function ListGreater(a: seq<int>, b: seq<int>): bool {
    if a == [] then false
    else if b == [] then true
    else if a[0] != b[0] then a[0] > b[0]
    else ListGreater(a[1..], b[1..])
  }

  /** `UpdateChecker.is_newer`. */
  function IsNewer(latest: string, current: string): bool {
    var l, c := ParseVersion(latest), ParseVersion(current);
    if l.Some? && c.Some? then ListGreater(l.value, c.value) else latest != current
  }

  lemma {:induction false} ListGreaterIrreflexive(a: seq<int>)
    ensures !ListGreater(a, a)
  {
    if a != [] {
      ListGreaterIrreflexive(a[1..]);
    }
  }

  lemma {:induction false} ListGreaterAsymmetric(a: seq<int>, b: seq<int>)
    ensures ListGreater(a, b) ==> !ListGreater(b, a)
  {
    if a != [] && b != [] && a[0] == b[0] {
      ListGreaterAsymmetric(a[1..], b[1..]);
    }
  }

  lemma {:induction false} ListGreaterTransitive(a: seq<int>, b: seq<int>, c: seq<int>)
    requires ListGreater(a, b) && ListGreater(b, c)
    ensures ListGreater(a, c)
  {
    if c != [] && a[0] == b[0] && b[0] == c[0] {
      ListGreaterTransitive(a[1..], b[1..], c[1..]);
    }
  }

  /** Two different lists are always ordered one way or the other. */
  lemma {:induction false} ListGreaterConnected(a: seq<int>, b: seq<int>)
    requires a != b
    ensures ListGreater(a, b) || ListGreater(b, a)
  {
    if a != [] && b != [] && a[0] == b[0] {
      assert a == [a[0]] + a[1..] && b == [b[0]] + b[1..];
      ListGreaterConnected(a[1..], b[1..]);
    }
  }

  /** A list is greater than each of its proper prefixes. */
  lemma {:induction false} ListGreaterThanPrefix(a: seq<int>, b: seq<int>)
    requires |b| < |a| && a[..|b|] == b
    ensures ListGreater(a, b)
  {
    if b != [] {
      assert a[1..][..|b| - 1] == b[1..];
      ListGreaterThanPrefix(a[1..], b[1..]);
    }
  }

  /** No version is newer than itself, parseable or not. */
  lemma IsNewerIrreflexive(v: string)
    ensures !IsNewer(v, v)
  {
    if ParseVersion(v).Some? {
      ListGreaterIrreflexive(ParseVersion(v).value);
    }
  }

  /** For parseable versions, "newer" is a strict total order on the parsed lists. */
  lemma IsNewerOrder(a: string, b: string, c: string)
    requires ParseVersion(a).Some? && ParseVersion(b).Some? && ParseVersion(c).Some?
    ensures IsNewer(a, b) ==> !IsNewer(b, a)
    ensures IsNewer(a, b) && IsNewer(b, c) ==> IsNewer(a, c)
    ensures ParseVersion(a) != ParseVersion(b) ==> IsNewer(a, b) || IsNewer(b, a)
  {
    var pa, pb, pc := ParseVersion(a).value, ParseVersion(b).value, ParseVersion(c).value;
    ListGreaterAsymmetric(pa, pb);
    if IsNewer(a, b) && IsNewer(b, c) {
      ListGreaterTransitive(pa, pb, pc);
    }
    if pa != pb {
      ListGreaterConnected(pa, pb);
    }
  }

  /** When a version fails to parse, "newer" means "different". */
  lemma IsNewerFallback(a: string, b: string)
    requires ParseVersion(a).None? || ParseVersion(b).None?
    ensures IsNewer(a, b) <==> a != b
  {
  }

  /** Two versions that parse compare as their integer lists. */
  lemma IsNewerParsed(a: string, b: string, va: seq<int>, vb: seq<int>)
    requires ParseVersion(a) == Some(va) && ParseVersion(b) == Some(vb)
    ensures IsNewer(a, b) == ListGreater(va, vb)
  {
  }

  /** The unit tests' six comparisons, one lemma each, and a longer version beating its prefix. */
  lemma NewerMinorExample()
    ensures IsNewer("1.1.0", "1.0.0")
  {
    VersionThree('1', '1', '0');
    VersionThree('1', '0', '0');
    IsNewerParsed("1.1.0", "1.0.0", [1, 1, 0], [1, 0, 0]);
  }

  lemma NewerMajorExample()
    ensures IsNewer("2.0.0", "1.9.9")
  {
    VersionThree('2', '0', '0');
    VersionThree('1', '9', '9');
    IsNewerParsed("2.0.0", "1.9.9", [2, 0, 0], [1, 9, 9]);
  }

  lemma NewerPatchExample()
    ensures IsNewer("1.0.1", "1.0.0")
  {
    VersionThree('1', '0', '1');
    VersionThree('1', '0', '0');
    IsNewerParsed("1.0.1", "1.0.0", [1, 0, 1], [1, 0, 0]);
  }

  lemma OlderExample()
    ensures !IsNewer("0.9.9", "1.0.0")
  {
    VersionThree('0', '9', '9');
    VersionThree('1', '0', '0');
    IsNewerParsed("0.9.9", "1.0.0", [0, 9, 9], [1, 0, 0]);
  }

  lemma SameExample()
    ensures !IsNewer("1.0.0", "1.0.0")
  {
    VersionThree('1', '0', '0');
    IsNewerParsed("1.0.0", "1.0.0", [1, 0, 0], [1, 0, 0]);
    ListGreaterIrreflexive([1, 0, 0]);
  }

  lemma OlderMinorExample()
    ensures !IsNewer("1.0.0", "1.1.0")
  {
    VersionThree('1', '0', '0');
    VersionThree('1', '1', '0');
    IsNewerParsed("1.0.0", "1.1.0", [1, 0, 0], [1, 1, 0]);
  }

  lemma LongerVersionExample()
    ensures IsNewer("1.0.0", "1.0")
  {
    VersionThree('1', '0', '0');
    VersionTwo('1', '0');
    IsNewerParsed("1.0.0", "1.0", [1, 0, 0], [1, 0]);
    ListGreaterThanPrefix([1, 0, 0], [1, 0]);
  }

  function DigitValue(x: char): int
    requires IsDigit(x)
  {
    x as int - '0' as int
  }

  /** A one-character field followed by a dot splits off as its own piece. */
  lemma SplitDigitDot(x: char, rest: string)
    requires x != '.'
    ensures Split([x, '.'] + rest, '.') == [[x]] + Split(rest, '.')
  {
    var s := [x, '.'] + rest;
    assert s[1..] == ['.'] + rest;
    assert (['.'] + rest)[1..] == rest;
    assert Split(['.'] + rest, '.') == [[]] + Split(rest, '.');
    assert [x] + [] == [x];
  }

  lemma ParseDigit(x: char)
    requires IsDigit(x)
    ensures ParseInt([x]) == Some(DigitValue(x))
  {
    assert [x][..0] == [];
    assert forall i :: 0 <= i < |[x]| ==> IsDigit([x][i]);
    assert DigitsValue([x]) == DigitsValue([]) * 10 + DigitValue(x);
  }

  lemma SplitSingle(x: char)
    requires IsDigit(x)
    ensures Split([x], '.') == [[x]]
  {
    assert x != '.';
    assert [x][1..] == [];
    assert [x] + [] == [x];
  }

  lemma ParsePartsCons(p: string, ps: seq<string>)
    ensures ParseParts([p] + ps) ==
      if ParseInt(p).Some? && ParseParts(ps).Some? then Some([ParseInt(p).value] + ParseParts(ps).value) else None
  {
    assert ([p] + ps)[0] == p;
    assert ([p] + ps)[1..] == ps;
  }

  lemma VersionTwo(a: char, b: char)
    requires IsDigit(a) && IsDigit(b)
    ensures ParseVersion([a, '.', b]) == Some([DigitValue(a), DigitValue(b)])
  {
    SplitDigitDot(a, [b]);
    assert [a, '.', b] == [a, '.'] + [b];
    SplitSingle(b);
    ParseDigit(a);
    ParseDigit(b);
    var e: seq<string> := [];
    ParsePartsCons([b], e);
    assert [[b]] == [[b]] + e;
    assert [DigitValue(b)] + [] == [DigitValue(b)];
    ParsePartsCons([a], [[b]]);
    assert [[a], [b]] == [[a]] + [[b]];
    assert Split([a, '.', b], '.') == [[a], [b]];
    assert [DigitValue(a)] + [DigitValue(b)] == [DigitValue(a), DigitValue(b)];
  }

  lemma VersionThree(a: char, b: char, c: char)
    requires IsDigit(a) && IsDigit(b) && IsDigit(c)
    ensures ParseVersion([a, '.', b, '.', c]) == Some([DigitValue(a), DigitValue(b), DigitValue(c)])
  {
    SplitThreeDigits(a, b, c);
    PartsThreeDigits(a, b, c);
  }

  lemma SplitThreeDigits(a: char, b: char, c: char)
    requires IsDigit(a) && IsDigit(b) && IsDigit(c)
    ensures Split([a, '.', b, '.', c], '.') == [[a], [b], [c]]
  {
    SplitDigitDot(b, [c]);
    assert [b, '.', c] == [b, '.'] + [c];
    SplitSingle(c);
    SplitDigitDot(a, [b, '.', c]);
    assert [a, '.', b, '.', c] == [a, '.'] + [b, '.', c];
  }

  lemma PartsThreeDigits(a: char, b: char, c: char)
    requires IsDigit(a) && IsDigit(b) && IsDigit(c)
    ensures ParseParts([[a], [b], [c]]) == Some([DigitValue(a), DigitValue(b), DigitValue(c)])
  {
    ParseDigit(a);
    ParseDigit(b);
    ParseDigit(c);
    var e: seq<string> := [];
    ParsePartsCons([c], e);
    assert [[c]] == [[c]] + e;
    assert [DigitValue(c)] + [] == [DigitValue(c)];
    ParsePartsCons([b], [[c]]);
    assert [[b], [c]] == [[b]] + [[c]];
    assert [DigitValue(b)] + [DigitValue(c)] == [DigitValue(b), DigitValue(c)];
    ParsePartsCons([a], [[b], [c]]);
    assert [[a], [b], [c]] == [[a]] + [[b], [c]];
    assert [DigitValue(a)] + [DigitValue(b), DigitValue(c)] == [DigitValue(a), DigitValue(b), DigitValue(c)];
  }


  /** `tag.lstrip("v")`: every leading 'v' removed. */
  function StripLeadingV(tag: string): (r: string)
    ensures |r| <= |tag| && r == tag[|tag| - |r|..]
    ensures r == [] || r[0] != 'v'
    ensures forall i :: 0 <= i < |tag| - |r| ==> tag[i] == 'v'
  {
    if tag != [] && tag[0] == 'v' then StripLeadingV(tag[1..]) else tag
  }

  /** A release asset: its name ("" when missing) and its download URL (`None` when missing). */
  datatype Asset = Asset(name: string, downloadUrl: Option<string>)

  /** The latest-release reply: tag, assets and source archive URL ("" when missing). */
  datatype Release = Release(tagName: string, assets: seq<Asset>, zipballUrl: string)

  /** An HTTP reply; a request that raised is an `Err` carrying the exception text. */
  datatype Reply<T> = Reply(status: nat, body: T)

  datatype UpdateSignal =
    | UpdateAvailable(version: string, url: string, isExe: bool)
    | NoUpdate
    | UpdateError(message: string)

  predicate IsArchiveName(name: string) {
    EndsWith(name, ".exe") || EndsWith(name, ".zip")
  }

  /** The index of the first asset named like an installer or archive. */
  function FirstArchive(assets: seq<Asset>): (r: Option<nat>)
    ensures r.Some? ==> r.value < |assets| && IsArchiveName(assets[r.value].name)
    ensures r.Some? ==> forall j :: 0 <= j < r.value ==> !IsArchiveName(assets[j].name)
    ensures r.None? ==> forall j :: 0 <= j < |assets| ==> !IsArchiveName(assets[j].name)
  {
    if assets == [] then None
    else if IsArchiveName(assets[0].name) then Some(0)
    else match FirstArchive(assets[1..])
      case None => None
      case Some(i) => Some(i + 1)
  }

  /** The URL the release path offers: the first archive asset's URL, or the source archive if that is missing or empty. */
  function ReleaseUrl(release: Release): string {
    match FirstArchive(release.assets)
    case Some(i) =>
      var u := release.assets[i].downloadUrl;
      if u.Some? && u.value != "" then u.value else release.zipballUrl
    case None => release.zipballUrl
  }

  /** The asset loop of `UpdateChecker.run`: stop at the first archive, fall back to the source archive. */
  method SelectDownloadUrl(release: Release) returns (url: string)
    ensures url == ReleaseUrl(release)
  {
    var assets := release.assets;
    url := release.zipballUrl;
    var i := 0;
    while i < |assets|
      invariant 0 <= i <= |assets|
      invariant forall j :: 0 <= j < i ==> !IsArchiveName(assets[j].name)
    {
      if IsArchiveName(assets[i].name) {
        FirstArchiveIsFirst(assets, i);
        var found := assets[i].downloadUrl;
        if found.Some? && found.value != "" {
          url := found.value;
        }
        return;
      }
      i := i + 1;
    }
  }

  lemma {:induction false} FirstArchiveIsFirst(assets: seq<Asset>, i: nat)
    requires i < |assets| && IsArchiveName(assets[i].name)
    requires forall j :: 0 <= j < i ==> !IsArchiveName(assets[j].name)
    ensures FirstArchive(assets) == Some(i)
  {
    if i > 0 {
      FirstArchiveIsFirst(assets[1..], i - 1);
    }
  }

  function ShortSha(sha: string): string {
    if |sha| <= 7 then sha else sha[..7]
  }

  /**
   * `UpdateChecker.run`: a 200 release reply offers the release when its
   * stripped tag is non-empty and newer; a 404 falls back to the latest
   * commit of main, offered when its first 7 characters differ from the
   * locally recorded commit; anything else is an error.
   */
  method CheckForUpdate(repo: string, releases: Result<Reply<Release>, string>,
                        commits: Result<Reply<string>, string>, localCommit: string)
    returns (signal: UpdateSignal)
    ensures releases.Err? ==> signal == UpdateError(releases.error)
    ensures signal.UpdateAvailable? && signal.isExe ==>
      releases.Ok? && releases.value.status == 200 &&
      signal.version == StripLeadingV(releases.value.body.tagName) && signal.version != "" &&
      IsNewer(signal.version, CurrentVersion) && signal.url == ReleaseUrl(releases.value.body)
    ensures releases.Ok? && releases.value.status == 200 ==>
      (signal.UpdateAvailable? <==> var v := StripLeadingV(releases.value.body.tagName); v != "" && IsNewer(v, CurrentVersion))
    ensures releases.Ok? && releases.value.status == 200 ==> signal.UpdateAvailable? || signal.NoUpdate?
    ensures signal.UpdateAvailable? && !signal.isExe ==>
      releases.Ok? && releases.value.status == 404 && commits.Ok? && commits.value.status == 200 &&
      signal.version == ShortSha(commits.value.body) && signal.version != localCommit &&
      signal.url == "https://github.com/" + repo + "/archive/refs/heads/main.zip"
    ensures releases.Ok? && releases.value.status == 404 && commits.Ok? && commits.value.status == 200 ==>
      (signal.UpdateAvailable? <==> ShortSha(commits.value.body) != localCommit)
    ensures releases.Ok? && releases.value.status == 404 && commits.Err? ==>
      signal == UpdateError(commits.error)
    ensures releases.Ok? && releases.value.status == 404 && commits.Ok? && commits.value.status != 200 ==>
      signal == UpdateError("Repo bulunamad\U{131} veya eri\U{15F}ilemiyor.")
    ensures (releases.Ok? && releases.value.status == 404 && commits.Ok? && commits.value.status == 200 &&
             ShortSha(commits.value.body) == localCommit) ==> signal == NoUpdate
    ensures releases.Ok? && releases.value.status !in {200, 404} ==>
      signal == UpdateError("GitHub API hatas\U{131}: " + NatToString(releases.value.status))
  {
    if releases.Err? {
      return UpdateError(releases.error);
    }
    var reply := releases.value;
    if reply.status == 200 {
      var latest := StripLeadingV(reply.body.tagName);
      var url := SelectDownloadUrl(reply.body);
      if latest != "" && IsNewer(latest, CurrentVersion) {
        signal := UpdateAvailable(latest, url, true);
      } else {
        signal := NoUpdate;
      }
    } else if reply.status == 404 {
      if commits.Err? {
        return UpdateError(commits.error);
      }
      if commits.value.status == 200 {
        var sha := ShortSha(commits.value.body);
        var downloadUrl := "https://github.com/" + repo + "/archive/refs/heads/main.zip";
        if sha != localCommit {
          signal := UpdateAvailable(sha, downloadUrl, false);
        } else {
          signal := NoUpdate;
        }
      } else {
        signal := UpdateError("Repo bulunamad\U{131} veya eri\U{15F}ilemiyor.");
      }
    } else {
      signal := UpdateError("GitHub API hatas\U{131}: " + NatToString(reply.status));
    }
  }

  /** The downloaded file's extension: ".exe" when the lowered URL ends with it, else ".zip". */
  function DownloadExtension(url: string): (ext: string)
    ensures ext == ".exe" <==> EndsWith(Lower(url), ".exe")
    ensures ext == ".exe" || ext == ".zip"
  {
    if EndsWith(Lower(url), ".exe") then ".exe" else ".zip"
  }

  function Flatten(chunks: seq<seq<bv8>>): seq<bv8> {
    if chunks == [] then [] else Flatten(chunks[..|chunks| - 1]) + chunks[|chunks| - 1]
  }

  /** The byte counts at which progress is reported: after every non-empty chunk. */
  function ProgressPoints(chunks: seq<seq<bv8>>): seq<nat> {
    if chunks == [] then []
    else
      var prev := ProgressPoints(chunks[..|chunks| - 1]);
      var last := chunks[|chunks| - 1];
      if last == [] then prev else prev + [|Flatten(chunks)|]
  }

  /**
   * The loop of `UpdateDownloader.run`: the file receives every chunk in
   * order, and progress is reported after each non-empty chunk, only
   * when the announced content length is positive. The reported value
   * is the byte count (the percentage is a float expression of it).
   */
  method Download(url: string, chunks: seq<seq<bv8>>, contentLength: int)
    returns (ext: string, file: seq<bv8>, progress: seq<nat>)
    ensures ext == DownloadExtension(url)
    ensures file == Flatten(chunks)
    ensures progress == if contentLength > 0 then ProgressPoints(chunks) else []
  {
    ext := ".zip";
    if EndsWith(Lower(url), ".exe") {
      ext := ".exe";
    }
    file := [];
    progress := [];
    var downloaded := 0;
    for k := 0 to |chunks|
      invariant file == Flatten(chunks[..k])
      invariant downloaded == |file|
      invariant progress == if contentLength > 0 then ProgressPoints(chunks[..k]) else []
    {
      assert chunks[..k + 1][..k] == chunks[..k];
      var chunk := chunks[k];
      if chunk != [] {
        file := file + chunk;
        downloaded := downloaded + |chunk|;
        if contentLength > 0 {
          progress := progress + [downloaded];
        }
      }
    }
    assert chunks[..|chunks|] == chunks;
  }

  /** The reported byte counts strictly increase, and the last one is the whole download. */
  lemma {:induction false} ProgressPointsIncrease(chunks: seq<seq<bv8>>)
    ensures forall i, j :: 0 <= i < j < |ProgressPoints(chunks)| ==> ProgressPoints(chunks)[i] < ProgressPoints(chunks)[j]
    ensures ProgressPoints(chunks) != [] ==> ProgressPoints(chunks)[|ProgressPoints(chunks)| - 1] == |Flatten(chunks)|
    ensures forall i :: 0 <= i < |ProgressPoints(chunks)| ==> 0 < ProgressPoints(chunks)[i] <= |Flatten(chunks)|
  {
    if chunks != [] {
      var init := chunks[..|chunks| - 1];
      ProgressPointsIncrease(init);
    }
  }
}
