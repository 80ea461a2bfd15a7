/** `spz_loader`: where the native SPZ library is looked for, how a loader is
    made from it, how the outcome of the native `decompress_spz` call is
    classified, and the process-wide loader created at most once. The
    filesystem, the system library lookup, loading a shared object and the
    native call itself are parameters. */
module SpzLoader {
  import opened Wrappers
  import opened Text

  /** `platform.system()` and `platform.machine()`. */
  datatype Platform = Platform(system: string, machine: string)

  datatype Entry = File | Directory

  /** The paths that exist, and which of them are directories. */
  type FileSystem = map<string, Entry>

  /** A shared object as far as the loader looks at it: its exported symbols. */
  datatype Library = Library(symbols: set<string>)

  /** What the loader consults outside the process. `findLibrary` is
      `ctypes.util.find_library`; `load` is `ctypes.CDLL`, `None` when loading
      raises. */
  datatype Host = Host(
    fs: FileSystem,
    packageDir: string,
    platform: Platform,
    findLibrary: string -> Option<string>,
    load: string -> Option<Library>)

  datatype LoaderError =
    | PathNotFound(path: string)       // the explicit path does not exist
    | UnsupportedMac                   // Darwin on a machine that is not ARM
    | LibraryNotFound(dir: string)     // no candidate and no system library
    | LoadFailed(path: string)         // `ctypes.CDLL` raised
    | MissingDecompressSymbol          // the `RuntimeError` raised for `decompress_spz`
    | MissingSymbol(name: string)      // the unwrapped `AttributeError` for the other two

  /** The machine string names an ARM processor. */
  predicate IsArm(machine: string) {
    Contains(machine, "arm64") || Contains(machine, "aarch64") || Contains(machine, "arm")
  }

  /** Listing `arm64` among the markers changes nothing: it contains `arm`. */
  lemma IsArmIff(machine: string)
    ensures IsArm(machine) <==> Contains(machine, "arm") || Contains(machine, "aarch64")
  {
    ContainsAt(machine, "arm64");
    ContainsAt(machine, "arm");
    if Contains(machine, "arm64") {
      var i :| OccursAt(machine, "arm64", i);
      assert machine[i..i + 3] == machine[i..i + 5][..3];
      assert OccursAt(machine, "arm", i);
    }
  }

  /** The separator `pathlib` writes on the platform. */
  function Separator(system: string): string {
    if system == "Windows" then "\\" else "/"
  }

  /** `directory / name` as a string. */
  function Join(system: string, dir: string, name: string): (r: string)
    ensures r == dir + Separator(system) + name
  {
    dir + Separator(system) + name
  }

  /** The file name the platform's library goes by. */
  function CandidateName(p: Platform): (r: Result<string, LoaderError>)
    ensures p.system == "Windows" ==> r == Ok("spz_shared.dll")
    ensures p.system == "Darwin" && IsArm(p.machine) ==> r == Ok("libspz_shared.dylib")
    ensures p.system == "Darwin" && !IsArm(p.machine) ==> r == Err(UnsupportedMac)
    ensures p.system != "Windows" && p.system != "Darwin" ==> r == Ok("libspz_shared.so")
  {
    if p.system == "Windows" then Ok("spz_shared.dll")
    else if p.system == "Darwin" then
      if !IsArm(p.machine) then Err(UnsupportedMac) else Ok("libspz_shared.dylib")
    else Ok("libspz_shared.so")
  }

  /** Python truthiness of an optional string: `None` and `""` are false. */
  predicate Truthy(x: Option<string>) {
    x.Some? && x.value != ""
  }

  /** `find_library("spz") or find_library("libspz_shared")`. */
  function SystemLibrary(findLibrary: string -> Option<string>): (r: Option<string>)
    ensures Truthy(findLibrary("spz")) ==> r == findLibrary("spz")
    ensures !Truthy(findLibrary("spz")) ==> r == findLibrary("libspz_shared")
  {
    if Truthy(findLibrary("spz")) then findLibrary("spz") else findLibrary("libspz_shared")
  }

  /** `_search_candidates_in_dir`; the machine string is already lower case. */
  function SearchCandidatesInDir(h: Host, dir: string, machine: string): (r: Result<string, LoaderError>)
    ensures var p := Platform(h.platform.system, machine);
      CandidateName(p).Err? ==> r == Err(UnsupportedMac)
    ensures var p := Platform(h.platform.system, machine);
      (CandidateName(p).Ok? && Join(p.system, dir, CandidateName(p).value) in h.fs)
        ==> r == Ok(Join(p.system, dir, CandidateName(p).value))
    ensures var p := Platform(h.platform.system, machine);
      (CandidateName(p).Ok? && Join(p.system, dir, CandidateName(p).value) !in h.fs)
        ==> (r.Ok? <==> Truthy(SystemLibrary(h.findLibrary)))
    ensures var p := Platform(h.platform.system, machine);
      (CandidateName(p).Ok? && Join(p.system, dir, CandidateName(p).value) !in h.fs && r.Ok?)
        ==> Some(r.value) == SystemLibrary(h.findLibrary)
    ensures r.Err? ==> r.error == UnsupportedMac || r.error == LibraryNotFound(dir)
  {
    var system := h.platform.system;
    var name :- CandidateName(Platform(system, machine));
    var candidate := Join(system, dir, name);
    if candidate in h.fs then Ok(candidate)
    else
      var found := SystemLibrary(h.findLibrary);
      if Truthy(found) then Ok(found.value) else Err(LibraryNotFound(dir))
  }

  /** `_resolve_library_path`: an explicit path must exist; a directory is
      searched with the platform rules and a file is taken as is. Without a
      path (or with `""`) the package directory is searched. */
  function ResolveLibraryPath(h: Host, libraryPath: Option<string>): (r: Result<string, LoaderError>)
    ensures var machine := AsciiLower(h.platform.machine);
      !Truthy(libraryPath) ==> r == SearchCandidatesInDir(h, h.packageDir, machine)
    ensures Truthy(libraryPath) && libraryPath.value !in h.fs ==> r == Err(PathNotFound(libraryPath.value))
    ensures Truthy(libraryPath) && libraryPath.value in h.fs && h.fs[libraryPath.value] == File
      ==> r == Ok(libraryPath.value)
    ensures var machine := AsciiLower(h.platform.machine);
      (Truthy(libraryPath) && libraryPath.value in h.fs && h.fs[libraryPath.value] == Directory)
        ==> r == SearchCandidatesInDir(h, libraryPath.value, machine)
  {
    var machine := AsciiLower(h.platform.machine);
    if Truthy(libraryPath) then
      var path := libraryPath.value;
      if path in h.fs then
        if h.fs[path] == Directory then SearchCandidatesInDir(h, path, machine) else Ok(path)
      else Err(PathNotFound(path))
    else SearchCandidatesInDir(h, h.packageDir, machine)
  }

  /** The directory a resolution searches: the explicit path, or the package
      directory without one. */
  function SearchDir(h: Host, libraryPath: Option<string>): string {
    if Truthy(libraryPath) then libraryPath.value else h.packageDir
  }

  /** Every resolved path is accounted for: it is the explicit path naming an
      existing file, the platform's candidate file inside the searched
      directory (which exists), or what the system library lookup found. A
      path of none of these kinds is never handed to `ctypes.CDLL`. */
  lemma ResolvedPathOrigin(h: Host, libraryPath: Option<string>)
    requires ResolveLibraryPath(h, libraryPath).Ok?
    ensures var path := ResolveLibraryPath(h, libraryPath).value;
      var name := CandidateName(Platform(h.platform.system, AsciiLower(h.platform.machine)));
      || (Truthy(libraryPath) && path == libraryPath.value && path in h.fs && h.fs[path] == File)
      || (name.Ok? && path == Join(h.platform.system, SearchDir(h, libraryPath), name.value) && path in h.fs)
      || (Truthy(SystemLibrary(h.findLibrary)) && path == SystemLibrary(h.findLibrary).value)
    ensures var path := ResolveLibraryPath(h, libraryPath).value;
      path in h.fs || Truthy(SystemLibrary(h.findLibrary))
  {
    var machine := AsciiLower(h.platform.machine);
    var dir := SearchDir(h, libraryPath);
    if Truthy(libraryPath) && libraryPath.value in h.fs && h.fs[libraryPath.value] == File {
    } else {
      assert ResolveLibraryPath(h, libraryPath) == SearchCandidatesInDir(h, dir, machine);
    }
  }

  const DECOMPRESS_SYMBOL := "decompress_spz"
  const ERROR_STRING_SYMBOL := "get_error_string_spz"
  const FREE_BUFFER_SYMBOL := "free_buffer_spz"

  /** `SPZLoader`: the path it loaded and the library it holds. */
  datatype Loader = Loader(path: string, library: Library)

  /** `SPZLoader(library_path)`: resolve, load, then look the three symbols up
      in the order the constructor sets their signatures. */
  function NewLoader(h: Host, libraryPath: Option<string>): (r: Result<Loader, LoaderError>)
    ensures ResolveLibraryPath(h, libraryPath).Err? ==> r == Err(ResolveLibraryPath(h, libraryPath).error)
    ensures r.Ok? ==> ResolveLibraryPath(h, libraryPath) == Ok(r.value.path)
    ensures r.Ok? ==> h.load(r.value.path) == Some(r.value.library)
    ensures r.Ok? ==> {DECOMPRESS_SYMBOL, ERROR_STRING_SYMBOL, FREE_BUFFER_SYMBOL} <= r.value.library.symbols
    ensures var path := ResolveLibraryPath(h, libraryPath);
      path.Ok? && h.load(path.value).None? ==> r == Err(LoadFailed(path.value))
    ensures var path := ResolveLibraryPath(h, libraryPath);
      (path.Ok? && h.load(path.value).Some? && DECOMPRESS_SYMBOL !in h.load(path.value).value.symbols)
        ==> r == Err(MissingDecompressSymbol)
    ensures var path := ResolveLibraryPath(h, libraryPath);
      (path.Ok? && h.load(path.value).Some? && DECOMPRESS_SYMBOL in h.load(path.value).value.symbols
        && ERROR_STRING_SYMBOL !in h.load(path.value).value.symbols)
        ==> r == Err(MissingSymbol(ERROR_STRING_SYMBOL))
    ensures var path := ResolveLibraryPath(h, libraryPath);
      (path.Ok? && h.load(path.value).Some?
        && {DECOMPRESS_SYMBOL, ERROR_STRING_SYMBOL} <= h.load(path.value).value.symbols
        && FREE_BUFFER_SYMBOL !in h.load(path.value).value.symbols)
        ==> r == Err(MissingSymbol(FREE_BUFFER_SYMBOL))
    ensures var path := ResolveLibraryPath(h, libraryPath);
      (path.Ok? && h.load(path.value).Some?
        && {DECOMPRESS_SYMBOL, ERROR_STRING_SYMBOL, FREE_BUFFER_SYMBOL} <= h.load(path.value).value.symbols)
        ==> r == Ok(Loader(path.value, h.load(path.value).value))
  {
    var path :- ResolveLibraryPath(h, libraryPath);
    match h.load(path)
    case None => Err(LoadFailed(path))
    case Some(lib) =>
      if DECOMPRESS_SYMBOL !in lib.symbols then Err(MissingDecompressSymbol)
      else if ERROR_STRING_SYMBOL !in lib.symbols then Err(MissingSymbol(ERROR_STRING_SYMBOL))
      else if FREE_BUFFER_SYMBOL !in lib.symbols then Err(MissingSymbol(FREE_BUFFER_SYMBOL))
      else Ok(Loader(path, lib))
  }

  // ---------------------------------------------------------------------------
  // Decompression

  const INT32_MIN: int := -0x8000_0000
  const INT32_MAX: int := 0x7FFF_FFFF

  /** `ctypes.c_int(n).value`: the low 32 bits, read as two's complement. */
  function ToInt32(n: int): (r: int)
    ensures INT32_MIN <= r <= INT32_MAX
    ensures (r - n) % 0x1_0000_0000 == 0
    ensures INT32_MIN <= n <= INT32_MAX ==> r == n
  {
    var low := n % 0x1_0000_0000;
    if low <= INT32_MAX then low else low - 0x1_0000_0000
  }

  /** A buffer of 2^31 bytes or more is announced to the library with a
      negative size. */
  lemma LargeInputWraps(n: nat)
    requires 0x8000_0000 <= n < 0x1_0000_0000
    ensures ToInt32(n) < 0
  {
  }

  /** What Python passes to `decompress_spz`. */
  datatype NativeCall = NativeCall(input: seq<byte>, inputSize: int, includeNormals: int)

  /** What the call leaves behind: its return code, `*outputSize`, and the
      bytes at `*outputPtr`. */
  datatype NativeResult = NativeResult(code: int, outSize: int, output: seq<byte>)

  function NativeArguments(data: seq<byte>, includeNormals: bool): (c: NativeCall)
    ensures c.input == data && c.inputSize == ToInt32(|data|)
    ensures c.includeNormals == 1 <==> includeNormals
    ensures c.includeNormals == 0 || c.includeNormals == 1
  {
    NativeCall(data, ToInt32(|data|), if includeNormals then 1 else 0)
  }

  /** The argument of `decompress`: bytes (or a bytearray), or anything else. */
  datatype Input = Bytes(data: seq<byte>) | NotBytes

  datatype SpzFailure =
    | NotBytesInput      // the `TypeError`
    | SpzError(code: int)

  /** The library's promise: a successful call leaves at least `*outputSize`
      bytes at `*outputPtr`. */
  predicate Delivers(res: NativeResult) {
    res.code == 0 && res.outSize > 0 ==> res.outSize <= |res.output|
  }

  /** `SPZLoader.decompress`. */
  function Decompress(input: Input, includeNormals: bool, native: NativeCall -> NativeResult): (r: Result<seq<byte>, SpzFailure>)
    requires input.Bytes? ==> Delivers(native(NativeArguments(input.data, includeNormals)))
    ensures input.NotBytes? <==> r == Err(NotBytesInput)
    ensures input.Bytes? ==> var res := native(NativeArguments(input.data, includeNormals));
      && (res.code != 0 <==> r.Err?)
      && (res.code != 0 ==> r == Err(SpzError(res.code)))
      && (res.code == 0 && res.outSize <= 0 ==> r == Ok([]))
      && (res.code == 0 && res.outSize > 0 ==> r.Ok? && |r.value| == res.outSize && r.value == res.output[..res.outSize])
  {
    match input
    case NotBytes => Err(NotBytesInput)
    case Bytes(data) =>
      var res := native(NativeArguments(data, includeNormals));
      if res.code != 0 then Err(SpzError(res.code))
      else if res.outSize <= 0 then Ok([])
      else Ok(res.output[..res.outSize])
  }

  /** A successful result is a prefix of what the library produced, never
      longer than its own announcement. */
  lemma DecompressIsPrefix(data: seq<byte>, includeNormals: bool, native: NativeCall -> NativeResult)
    requires Delivers(native(NativeArguments(data, includeNormals)))
    ensures var r := Decompress(Bytes(data), includeNormals, native);
      var res := native(NativeArguments(data, includeNormals));
      r.Ok? ==> |r.value| <= |res.output| && r.value == res.output[..|r.value|]
  {
  }

  // ---------------------------------------------------------------------------
  // The process-wide loader

  /** `_spz_loader_singleton`. */
  datatype Singleton = Singleton(instance: Option<Loader>)

  /** `init_spz(library_path)`: build a loader only when none exists yet. If
      building raises, nothing is stored. */
  function InitSpz(s: Singleton, h: Host, libraryPath: Option<string>): (r: Result<Singleton, LoaderError>)
    ensures s.instance.Some? ==> r == Ok(s)
    ensures s.instance.None? && NewLoader(h, libraryPath).Ok? ==> r == Ok(Singleton(Some(NewLoader(h, libraryPath).value)))
    ensures s.instance.None? && NewLoader(h, libraryPath).Err? ==> r == Err(NewLoader(h, libraryPath).error)
  {
    if s.instance.Some? then Ok(s)
    else
      var loader :- NewLoader(h, libraryPath);
      Ok(Singleton(Some(loader)))
  }

  /** `get_spz()`: the stored loader, built with the default search first if
      there is none. */
  function GetSpz(s: Singleton, h: Host): (r: Result<(Singleton, Loader), LoaderError>)
    ensures r.Ok? ==> r.value.0.instance == Some(r.value.1)
    ensures s.instance.Some? ==> r == Ok((s, s.instance.value))
    ensures s.instance.None? ==> (r.Ok? <==> NewLoader(h, None).Ok?)
    ensures s.instance.None? && r.Ok? ==> r.value.1 == NewLoader(h, None).value
  {
    var s' :- InitSpz(s, h, None);
    Ok((s', s'.instance.value))
  }

  datatype Call = Init(libraryPath: Option<string>) | Get

  /** A series of calls to `init_spz` and `get_spz` against the same host; it
      stops at the first call that raises. The loaders `get_spz` returned are
      collected in order. */
  function Run(s: Singleton, h: Host, calls: seq<Call>): (Singleton, seq<Loader>, Option<LoaderError>)
    decreases |calls|
  {
    if calls == [] then (s, [], None)
    else match calls[0]
      case Init(path) =>
        (match InitSpz(s, h, path)
         case Err(e) => (s, [], Some(e))
         case Ok(s') => Run(s', h, calls[1..]))
      case Get =>
        (match GetSpz(s, h)
         case Err(e) => (s, [], Some(e))
         case Ok(pair) =>
           var rest := Run(pair.0, h, calls[1..]);
           (rest.0, [pair.1] + rest.1, rest.2))
  }

  /** Once a loader is stored it is never replaced, nothing raises any more,
      and every `get_spz` returns that same loader. */
  lemma {:induction false} RunKeepsInstance(s: Singleton, h: Host, calls: seq<Call>)
    requires s.instance.Some?
    ensures Run(s, h, calls).0 == s
    ensures Run(s, h, calls).2 == None
    ensures forall i | 0 <= i < |Run(s, h, calls).1| :: Run(s, h, calls).1[i] == s.instance.value
    decreases |calls|
  {
    if calls != [] {
      RunKeepsInstance(s, h, calls[1..]);
    }
  }

  /** Starting from nothing, every loader handed out is the one the first
      successful call stored. */
  lemma {:induction false} RunSameInstance(s: Singleton, h: Host, calls: seq<Call>)
    ensures var run := Run(s, h, calls);
      forall i | 0 <= i < |run.1| :: run.0.instance == Some(run.1[i])
    decreases |calls|
  {
    if calls != [] {
      match calls[0]
      case Init(path) =>
        if InitSpz(s, h, path).Ok? {
          assert Run(s, h, calls) == Run(InitSpz(s, h, path).value, h, calls[1..]);
          RunSameInstance(InitSpz(s, h, path).value, h, calls[1..]);
        }
      case Get =>
        if GetSpz(s, h).Ok? {
          var pair := GetSpz(s, h).value;
          RunKeepsInstance(pair.0, h, calls[1..]);
        }
    }
  }
}
