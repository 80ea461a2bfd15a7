/** `SPZUpdater`: deciding whether the SPZ library is out of date, choosing
    the release asset for the operating system, and the order in which an
    update downloads and records the new version. The version file, the
    latest-release listing and the download are values or parameters. */
module SpzUpdater {
  import opened Wrappers
  import opened Text
  import opened Seqs

  /** `Asset`. */
  datatype Asset = Asset(name: string, browserDownloadUrl: string)

  /** `SPZVersionResponse`: the latest release. */
  datatype Release = Release(tagName: string, assets: seq<Asset>)

  /** `spz_version.txt`: absent, holding some text, or present but unreadable. */
  datatype VersionFile = Missing | Stored(content: string) | Unreadable

  datatype UpdaterError =
    | VersionUnreadable           // reading the version file raised
    | LatestUnavailable           // the release listing could not be fetched or validated
    | UnknownOs(os: string)
    | AssetNotFound(name: string)
    | DownloadFailed(url: string) // the `RuntimeError` of `_download_spz`

  /** `_get_current_version`: `None` without a file, otherwise its stripped text. */
  function CurrentVersion(f: VersionFile): (r: Result<Option<string>, UpdaterError>)
    ensures f.Missing? <==> r == Ok(None)
    ensures f.Unreadable? <==> r.Err?
    ensures f.Stored? ==> r.Ok? && r.value.Some? && IsStripped(r.value.value)
    ensures f.Stored? ==> exists i :: SpaceAround(f.content, r.value.value, i)
  {
    match f
    case Missing => Ok(None)
    case Unreadable => Err(VersionUnreadable)
    case Stored(content) => Ok(Some(Strip(content)))
  }

  /** `_write_version`: the file holds exactly the tag afterwards. */
  function WriteVersion(version: string): (f: VersionFile)
    ensures f.Stored? && f.content == version
  {
    Stored(version)
  }

  /** Reading back a written version gives it without surrounding whitespace,
      so a tag without such whitespace comes back unchanged. */
  lemma WriteThenRead(version: string)
    ensures CurrentVersion(WriteVersion(version)) == Ok(Some(Strip(version)))
    ensures IsStripped(version) ==> CurrentVersion(WriteVersion(version)) == Ok(Some(version))
  {
    if IsStripped(version) {
      StripKeepsStripped(version);
    }
  }

  /** The recorded version differs from the release: none recorded, or another tag. */
  predicate Outdated(current: Option<string>, latest: Release) {
    current.None? || current.value != latest.tagName
  }

  /** `need_update`: whether the recorded version differs from the latest
      release. Any failure while finding out means no. */
  function NeedUpdate(f: VersionFile, latest: Result<Release, UpdaterError>): (r: bool)
    ensures r <==> CurrentVersion(f).Ok? && latest.Ok? && Outdated(CurrentVersion(f).value, latest.value)
    ensures f.Missing? && latest.Ok? ==> r
    ensures f.Unreadable? || latest.Err? ==> !r
  {
    match CurrentVersion(f)
    case Err(_) => false
    case Ok(current) =>
      match latest
      case Err(_) => false
      case Ok(release) => Outdated(current, release)
  }

  /** `_OS_TO_ASSET_NAME.get(os)`. */
  function AssetNameFor(os: string): (r: Option<string>)
    ensures r.Some? <==> os in {"Windows", "Linux", "Darwin"}
    ensures os == "Windows" ==> r == Some("spz-windows.zip")
    ensures os == "Linux" ==> r == Some("spz-linux.zip")
    ensures os == "Darwin" ==> r == Some("spz-macos.zip")
  {
    if os == "Windows" then Some("spz-windows.zip")
    else if os == "Linux" then Some("spz-linux.zip")
    else if os == "Darwin" then Some("spz-macos.zip")
    else None
  }

  /** The three asset names are distinct, so no two systems share an archive. */
  lemma AssetNamesDistinct(a: string, b: string)
    requires AssetNameFor(a).Some? && AssetNameFor(b).Some?
    ensures AssetNameFor(a) == AssetNameFor(b) <==> a == b
  {
  }

  /** The asset `_download_spz` fetches: the first one named for the system. */
  function SelectAsset(release: Release, os: string): (r: Result<Asset, UpdaterError>)
    ensures AssetNameFor(os).None? <==> r == Err(UnknownOs(os))
    ensures r.Ok? ==> r.value.name == AssetNameFor(os).value
    ensures r.Ok? ==> exists k | 0 <= k < |release.assets| ::
      && release.assets[k] == r.value
      && forall i | 0 <= i < k :: release.assets[i].name != r.value.name
    ensures AssetNameFor(os).Some? && r.Err? ==>
      r == Err(AssetNotFound(AssetNameFor(os).value))
      && forall i | 0 <= i < |release.assets| :: release.assets[i].name != AssetNameFor(os).value
  {
    match AssetNameFor(os)
    case None => Err(UnknownOs(os))
    case Some(name) =>
      match Find(release.assets, (a: Asset) => a.name == name)
      case None => Err(AssetNotFound(name))
      case Some(k) =>
        assert forall i | 0 <= i < k :: release.assets[i].name != name;
        Ok(release.assets[k])
  }

  /** `_download_spz`: select the asset, then download and unpack it.
      `fetch(url)` says whether downloading and extracting succeeded. On
      success the result is the URL that was fetched. */
  function DownloadSpz(release: Release, os: string, fetch: string -> bool): (r: Result<string, UpdaterError>)
    ensures SelectAsset(release, os).Err? ==> r == Err(SelectAsset(release, os).error)
    ensures r.Ok? <==> SelectAsset(release, os).Ok? && fetch(SelectAsset(release, os).value.browserDownloadUrl)
    ensures r.Ok? ==> r.value == SelectAsset(release, os).value.browserDownloadUrl
  {
    var asset :- SelectAsset(release, os);
    if fetch(asset.browserDownloadUrl) then Ok(asset.browserDownloadUrl)
    else Err(DownloadFailed(asset.browserDownloadUrl))
  }

  /** What `update` leaves: the version file, the URL it downloaded (if it
      did), and the error it swallowed (if any). */
  datatype UpdateRun = UpdateRun(file: VersionFile, downloaded: Option<string>, error: Option<UpdaterError>)

  /** `update`: fetch the latest release, read the current version, and if
      they differ download the asset and only then record the new tag. Every
      error is swallowed and leaves the version file as it was. */
  function Update(f: VersionFile, latest: Result<Release, UpdaterError>, os: string, fetch: string -> bool): (r: UpdateRun)
    ensures r.file != f || r.downloaded.Some? ==> latest.Ok?
    ensures r.file != f ==> r.downloaded.Some? && r.file == WriteVersion(latest.value.tagName)
    ensures r.downloaded.Some? ==> r.error.None? && r.file == WriteVersion(latest.value.tagName)
    ensures r.downloaded.Some? ==> DownloadSpz(latest.value, os, fetch) == Ok(r.downloaded.value)
    ensures r.error.Some? ==> r.file == f && r.downloaded.None?
    ensures latest.Err? ==> r == UpdateRun(f, None, Some(latest.error))
    ensures latest.Ok? && CurrentVersion(f).Ok? && !Outdated(CurrentVersion(f).value, latest.value)
      ==> r == UpdateRun(f, None, None)
    ensures latest.Ok? && CurrentVersion(f).Err? ==> r == UpdateRun(f, None, Some(CurrentVersion(f).error))
    ensures latest.Ok? && CurrentVersion(f).Ok? && Outdated(CurrentVersion(f).value, latest.value)
              && DownloadSpz(latest.value, os, fetch).Ok?
      ==> r == UpdateRun(WriteVersion(latest.value.tagName), Some(DownloadSpz(latest.value, os, fetch).value), None)
    ensures latest.Ok? && CurrentVersion(f).Ok? && Outdated(CurrentVersion(f).value, latest.value)
              && DownloadSpz(latest.value, os, fetch).Err?
      ==> r == UpdateRun(f, None, Some(DownloadSpz(latest.value, os, fetch).error))
  {
    match latest
    case Err(e) => UpdateRun(f, None, Some(e))
    case Ok(release) =>
      match CurrentVersion(f)
      case Err(e) => UpdateRun(f, None, Some(e))
      case Ok(current) =>
        if !Outdated(current, release) then UpdateRun(f, None, None)
        else
          match DownloadSpz(release, os, fetch)
          case Err(e) => UpdateRun(f, None, Some(e))
          case Ok(url) => UpdateRun(WriteVersion(release.tagName), Some(url), None)
  }

  /** `update` attempts a download exactly when `need_update` says so, even
      though the two read the version file and the release in opposite order. */
  lemma UpdateFollowsNeedUpdate(f: VersionFile, latest: Result<Release, UpdaterError>, os: string, fetch: string -> bool)
    ensures var r := Update(f, latest, os, fetch);
      NeedUpdate(f, latest) <==> r.downloaded.Some? || (r.error.Some? && latest.Ok? && CurrentVersion(f).Ok?)
  {
  }

  /** After a successful update the recorded version is the release tag
      (stripped), and a release whose tag carries no surrounding whitespace
      needs no further update. */
  lemma {:induction false} UpdateSettles(f: VersionFile, release: Release, os: string, fetch: string -> bool)
    requires Update(f, Ok(release), os, fetch).downloaded.Some?
    ensures CurrentVersion(Update(f, Ok(release), os, fetch).file) == Ok(Some(Strip(release.tagName)))
    ensures IsStripped(release.tagName) ==> !NeedUpdate(Update(f, Ok(release), os, fetch).file, Ok(release))
  {
    WriteThenRead(release.tagName);
  }

  /** A tag with surrounding whitespace is never recorded as such: every
      check after the update still finds the library out of date. */
  lemma PaddedTagNeverSettles(release: Release)
    requires !IsStripped(release.tagName)
    ensures NeedUpdate(WriteVersion(release.tagName), Ok(release))
  {
  }

  /** For example the tag `"v1 "`. */
  lemma PaddedTagExample()
    ensures NeedUpdate(WriteVersion("v1 "), Ok(Release("v1 ", [])))
  {
    PaddedTagNeverSettles(Release("v1 ", []));
  }
}
