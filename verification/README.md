# 404-gen Blender add-on: its decision procedures in Dafny

This project models the pure decision logic of the 404-gen Blender add-on,
which turns a text prompt into a 3D Gaussian-splat asset through the 404
gateway. The Blender, HTTP, filesystem and native-library plumbing around that
logic is lifted into parameters. The model covers:

- **the splat PLY reader** (`read_custom_ply`). It skips header lines up to
  `end_header`, cuts the body into 56-byte records of fourteen
  little-endian `f32` values, and scatters each record into the lists `xyz`,
  `f_dc`, `opacity`, `scale` and `rot`. Each `f32` is kept as an opaque
  four-byte word.
- **the gateway vocabulary** (`GatewayTaskStatus`, `GatewayTaskStatusResponse`,
  `GatewayTask`). This covers the wire strings and the pydantic defaults and
  validation, starting from a decoded JSON value.
- **the gateway API** (`GatewayApi`):
  - the URLs of the three routes, with `urlencode`'s `quote_plus` encoding;
  - the headers and payloads it sends;
  - the `raise_for_status` rule;
  - the "body only with an attachment" rule of `get_result`;
  - the wrapping of every failure into the call's own error.
- **the client** (`Client`): `request_model` and one poll step, `get_result`.
  The step covers the timeout, the status branches, fetching the result, and
  decompressing it into a temporary `.ply` file.
- **the SPZ loader** (`SPZLoader`):
  - library path resolution over an abstract filesystem and system lookup;
  - the symbol checks of the constructor;
  - the classification of the native `decompress_spz` outcome;
  - the process-wide loader that `init_spz`/`get_spz` create at most once.
- **the SPZ updater** (`SPZUpdater`):
  - `need_update`;
  - the version file read and write;
  - the OS-to-asset table and first-match asset selection;
  - the order of download and version write in `update`.
- **box placement** (`best_fit_scale_and_rotation`): it picks the larger of
  the two min-ratio scales, for the object as it is and for the object turned
  90° about Z. This is modelled over exact reals.

Modules: `Wrappers` (`Option`, `Result`), `Text` (bytes, Python whitespace
and `strip`, `startswith`, `in`, ASCII `lower`, UTF-8 encoding), `Seqs`,
`Ply`, `GatewayTask`, `UrlEncoding`, `GatewayApi`, `SpzLoader`, `Client`,
`SpzUpdater`, `Positioning`.

## Model

| member | source | states |
|---|---|---|
| Text.Strip | fourofour_3d_gen/ply.py:7 | `str.strip()` drops exactly the Python whitespace at both ends: the result has none at either end and is a slice of the input with only whitespace around it |
| Text.StripKeepsStripped | fourofour_3d_gen/spz_updater.py:63 | text without surrounding whitespace is unchanged by `strip()` |
| Text.StripIdempotent | fourofour_3d_gen/spz_updater.py:63 | stripping twice is stripping once |
| Text.ContainsAt | fourofour_3d_gen/spz_loader.py:72 | the substring test `x in machine` holds iff `x` occurs at some position |
| Text.AsciiLower | fourofour_3d_gen/spz_loader.py:54 | `lower()` maps every ASCII capital to its small letter and leaves every other character alone |
| Text.EncodeChar | fourofour_3d_gen/gateway/gateway_api.py:109 | the UTF-8 encoding of one code point in its shortest form: 1 byte below U+0080, 2 below U+0800, 3 below U+10000, otherwise 4; a lead byte announcing the length, then continuation bytes |
| Text.EncodeCharUnique | fourofour_3d_gen/gateway/gateway_api.py:109 | any well-formed sequence of the shortest length that decodes to the code point is exactly its encoding, so no overlong form is produced |
| Text.EncodeCharRoundTrip | fourofour_3d_gen/gateway/gateway_api.py:109 | decoding the UTF-8 bytes of a code point gives the code point back |
| Text.DecodeAsciiRoundTrip | fourofour_3d_gen/ply.py:7 | `decode("ascii")` succeeds exactly when every byte is below 0x80, and encoding the text it gives returns the same bytes |
| Text.EncodeAscii | fourofour_3d_gen/gateway/gateway_api.py:109 | ASCII text encodes to one byte per character, equal to its code |
| Seqs.Find | fourofour_3d_gen/spz_updater.py:84 | `next(x for x in xs if p(x))`: the index of the first element that passes, and `None` only when none passes |
| Seqs.ConcatAppend | fourofour_3d_gen/ply.py:6-15 | flattening distributes over concatenation; this backs the split of the input into the header lines read by `readline` and the rest returned by `read()` |
| Ply.SplitLinesSound | fourofour_3d_gen/ply.py:7 | the lines `readline()` returns rebuild the data, and every line but the last ends with its newline |
| Ply.SplitConcat | fourofour_3d_gen/ply.py:7 | splitting the concatenation of well-split lines gives those lines back |
| Ply.SkipHeader | fourofour_3d_gen/ply.py:6-9 | the call fails, with the decode error, exactly when a non-ASCII line comes before any `end_header` line |
| Ply.SkipHeaderBody | fourofour_3d_gen/ply.py:6-15 | a successful skip returns exactly what follows the first line that reads `end_header` after ASCII decoding and stripping, every earlier line having decoded to something else |
| Ply.BodyAtStop | fourofour_3d_gen/ply.py:6-9 | when the loop stops at an `end_header` line, the rest of the data is the body and no line can fail decoding |
| Ply.DecodeRecord | fourofour_3d_gen/ply.py:11-12 | a 56-byte record unpacks to 14 words, word `j` being bytes `4j..4j+4` |
| Ply.Records | fourofour_3d_gen/ply.py:16-19 | the body yields `len // 56` records of 14 values each |
| Ply.DecodeEncodeRecord | fourofour_3d_gen/ply.py:11-12 | decoding the bytes of a record gives the record back |
| Ply.EncodeDecodeRecord | fourofour_3d_gen/ply.py:11-12 | encoding a decoded record gives its 56 bytes back |
| Ply.RecordsOfPack | fourofour_3d_gen/ply.py:19 | unpacking a body packed from records gives those records back, in order |
| Ply.PackOfRecords | fourofour_3d_gen/ply.py:15-19 | packing the records of a body of whole records gives the body back, so no byte is dropped or reordered |
| Ply.Field | fourofour_3d_gen/ply.py:28-38 | a field list holds `hi - lo` values for each record |
| Ply.FieldBlock | fourofour_3d_gen/ply.py:28-38 | record `i`'s slice `lo..hi` sits as block `i` of its field list, so record order is preserved |
| Ply.Scatter | fourofour_3d_gen/ply.py:28-47 | `count` is the number of records, and the lists have lengths 3, 3, 1, 3 and 4 times `count` |
| Ply.RecordSlices | fourofour_3d_gen/ply.py:29-38 | the slices 0-2, 3-5, 6, 7-9 and 10-13 put back together make the whole record |
| Ply.GatherScatter | fourofour_3d_gen/ply.py:29-38 | rebuilding every record from the five lists gives the records back: the slices partition each record, with no overlap and nothing dropped |
| Ply.ScatterGather | fourofour_3d_gen/ply.py:28-38 | the five lists carry nothing beyond the records: scattering the rebuilt records gives the lists back |
| Ply.ScatterRecords | fourofour_3d_gen/ply.py:28-38 | the loop that extends the five lists record by record computes the scatter of the records |
| Ply.ReadCustomPly | fourofour_3d_gen/ply.py:3-47 | the header's decode error, the trailing-bytes `struct.error` when the body is not whole records, and otherwise the scattered records of the body, with lists shaped by `count` and `56 * count` equal to the body length |
| Ply.ScatterPositions | fourofour_3d_gen/ply.py:28-38 | record `i`'s words 0-2, 3-5, 6, 7-9 and 10-13 land at positions `3i`, `3i`, `i`, `3i` and `4i` of the five lists |
| GatewayTask.ParseStatus | fourofour_3d_gen/gateway/gateway_task.py:6-12 | a parsed status has the given wire string, and a string that is no status's wire string is rejected |
| GatewayTask.ParseWireName | fourofour_3d_gen/gateway/gateway_task.py:6-12 | parsing the wire string of any status gives that status back |
| GatewayTask.WireNamesDistinct | fourofour_3d_gen/gateway/gateway_task.py:9-12 | the four wire strings are pairwise distinct |
| GatewayTask.ValidateStatusResponse | fourofour_3d_gen/gateway/gateway_task.py:15-20 | `status` must be present and be one of the wire strings, and any other string is rejected; `reason` defaults to `None` |
| GatewayTask.StatusResponseRoundTrip | fourofour_3d_gen/gateway/gateway_task.py:15-20 | every status response validates back from its JSON form |
| GatewayTask.ReasonInvariantNotEnforced | fourofour_3d_gen/gateway/gateway_task.py:21 | the documented "not SUCCESS implies a reason" is not checked: a `Failure` without a reason validates |
| GatewayTask.NewTask | fourofour_3d_gen/gateway/gateway_task.py:32-34 | a new task has no result and status `NO_RESULT` |
| GatewayTask.ValidateTask | fourofour_3d_gen/gateway/gateway_task.py:24-34 | `id` and `prompt` are required strings; `result` and `task_status` default to `None` and `NO_RESULT`; a present status is one of the wire strings |
| GatewayTask.ValidateMinimalTask | fourofour_3d_gen/gateway/gateway_task.py:24-34 | the JSON `{"id", "prompt"}` validates to a new task |
| UrlEncoding.QuoteByte | fourofour_3d_gen/gateway/gateway_api.py:109 | one UTF-8 byte as `quote_plus` writes it: an unreserved character stays itself, a space becomes `+`, and any other byte becomes `%` and two upper-case hex digits with the byte's value |
| UrlEncoding.QuoteByteCanonical | fourofour_3d_gen/gateway/gateway_api.py:109 | the upper-case `%XX` escape is the only one written for a byte, so no lower-case or other spelling is produced |
| UrlEncoding.QuoteBytesAppend | fourofour_3d_gen/gateway/gateway_api.py:109 | quoting works byte by byte: the quoting of a concatenation is the concatenation of the quotings |
| UrlEncoding.QuotePlus | fourofour_3d_gen/gateway/gateway_api.py:109 | an encoded key or value contains only unreserved characters, `%` and `+` |
| UrlEncoding.QuotePlusExamples | fourofour_3d_gen/gateway/gateway_api.py:109 | `a b` is sent as `a+b`, and `a/b` as `a%2Fb` (`quote_plus` keeps no `/`) |
| UrlEncoding.UnquoteQuote | fourofour_3d_gen/gateway/gateway_api.py:109 | percent-decoding the encoding of a byte string gives the bytes back |
| UrlEncoding.QuoteUnreserved | fourofour_3d_gen/gateway/gateway_api.py:82 | a key made of unreserved characters, such as `id`, is passed through unchanged |
| UrlEncoding.QuotedHasNoSeparator | fourofour_3d_gen/gateway/gateway_api.py:109 | an encoded key or value never contains `=` or `&` |
| UrlEncoding.SinglePairQuery | fourofour_3d_gen/gateway/gateway_api.py:109 | a one-item query is read back unambiguously: a single `=` splits it, and each side decodes to the UTF-8 bytes it came from |
| GatewayApi.AddTaskUrl | fourofour_3d_gen/gateway/gateway_api.py:46 | the add-task URL passes no query keys and ends in `/add_task?` |
| GatewayApi.IdQueryUrl | fourofour_3d_gen/gateway/gateway_api.py:82 | the status and result URLs are the route, then `?id=`, then text with no `=` or `&` that decodes to the UTF-8 bytes of the task id |
| GatewayApi.Checked | fourofour_3d_gen/gateway/gateway_api.py:51 | `raise_for_status` passes a response exactly when its code is outside 400-599 |
| GatewayApi.TaskFrom | fourofour_3d_gen/gateway/gateway_api.py:50-54 | a task exactly when the answer is a success whose JSON validates; transport, HTTP and validation failures each become an `AddTaskError` with that cause |
| GatewayApi.AddTextTaskRequest | fourofour_3d_gen/gateway/gateway_api.py:46-50 | a POST to `/add_task?` with the API key, client origin `blender`, and the JSON `{"prompt": …}` |
| GatewayApi.AddTextTask | fourofour_3d_gen/gateway/gateway_api.py:43-54 | the add-task classification of the gateway's answer to that request, and every failure is an `AddTaskError` |
| GatewayApi.AddTextTaskAccepted | fourofour_3d_gen/gateway/gateway_api.py:43-54 | a 200 answer with the minimal task JSON yields a new task for the prompt |
| GatewayApi.Basename | fourofour_3d_gen/gateway/gateway_api.py:66 | the uploaded file name is the last path component: a suffix without `/`, preceded by `/` unless it is the whole path |
| GatewayApi.AddImageTaskRequest | fourofour_3d_gen/gateway/gateway_api.py:59-68 | a POST to `/add_task?` with the same headers and the rendered PNG as the `image` file part, named by the temporary file's base name |
| GatewayApi.AddImageTask | fourofour_3d_gen/gateway/gateway_api.py:56-76 | a failing `os.remove` replaces every outcome with an unwrapped error; a failing render is an `AddTaskError`; otherwise the add-task classification of the upload's answer |
| GatewayApi.GetStatusRequest | fourofour_3d_gen/gateway/gateway_api.py:82-84 | a GET of `/get_status?id=…` carrying only the API key |
| GatewayApi.GetStatusCall | fourofour_3d_gen/gateway/gateway_api.py:79-89 | a status response exactly when the answer is a success whose JSON validates, and that validated response is what is returned; every failure is a `GetStatusError` |
| GatewayApi.GetStatusReadsAnswer | fourofour_3d_gen/gateway/gateway_api.py:79-89 | a 200 answer carrying a status response's JSON returns that response |
| GatewayApi.GetResultRequest | fourofour_3d_gen/gateway/gateway_api.py:95-97 | a GET of `/get_result?id=…` carrying only the API key |
| GatewayApi.GetResultCall | fourofour_3d_gen/gateway/gateway_api.py:92-103 | the body is returned iff the answer is a success whose `content-disposition` (`""` when missing) starts with `attachment`; a success without one is the no-attachment error; every failure is a `GetResultError` |
| GatewayApi.MissingDispositionFails | fourofour_3d_gen/gateway/gateway_api.py:99-101 | a success without a `content-disposition` header is a `GetResultError` |
| GatewayApi.GetTimeout | fourofour_3d_gen/gateway/gateway_api.py:34 | the gateway timeout is 600 seconds |
| SpzLoader.IsArmIff | fourofour_3d_gen/spz_loader.py:72 | the ARM test holds iff the machine string contains `arm` or `aarch64`; `arm64` adds nothing |
| SpzLoader.CandidateName | fourofour_3d_gen/spz_loader.py:74-84 | `spz_shared.dll` on Windows; `libspz_shared.dylib` on ARM Darwin; the not-found error on other Darwin machines; `libspz_shared.so` everywhere else |
| SpzLoader.SystemLibrary | fourofour_3d_gen/spz_loader.py:91 | the system lookup for `spz`, or for `libspz_shared` when the first lookup is falsy |
| SpzLoader.SearchCandidatesInDir | fourofour_3d_gen/spz_loader.py:70-95 | an existing candidate in the directory is returned; otherwise the system lookup's result when it is truthy, and not-found when it is not; the non-ARM Darwin error comes first |
| SpzLoader.ResolveLibraryPath | fourofour_3d_gen/spz_loader.py:51-68 | a missing explicit path is not-found; an existing file is returned unchanged; a directory is searched; with no path (or `""`) the package directory is searched, with the lower-cased machine string |
| SpzLoader.ResolvedPathOrigin | fourofour_3d_gen/spz_loader.py:51-95 | every resolved path is the explicit path of an existing file, the platform's candidate file inside the searched directory (explicit or the package directory), or the truthy system lookup; so it exists or the system lookup found it |
| SpzLoader.NewLoader | fourofour_3d_gen/spz_loader.py:25-49 | a resolved, loaded library exporting all three symbols gives the loader holding that path and library, and a loader only arises so; resolution and load failures pass through; a missing `decompress_spz` is the dedicated error, then a missing `get_error_string_spz`, then a missing `free_buffer_spz`, in lookup order |
| SpzLoader.ToInt32 | fourofour_3d_gen/spz_loader.py:117 | `c_int(n)` keeps the low 32 bits as two's complement: within range it is `n`, and it always differs from `n` by a multiple of 2^32 |
| SpzLoader.LargeInputWraps | fourofour_3d_gen/spz_loader.py:117 | an input of 2^31 bytes or more is announced to the library with a negative size |
| SpzLoader.NativeArguments | fourofour_3d_gen/spz_loader.py:115-121 | the native call gets the data, its length as a C `int`, and `1` exactly when normals are requested |
| SpzLoader.Decompress | fourofour_3d_gen/spz_loader.py:104-143 | non-bytes input is a type error; a nonzero return code is an `SPZError` with that code; a size of 0 or less gives empty bytes; otherwise exactly the first `size` output bytes |
| SpzLoader.DecompressIsPrefix | fourofour_3d_gen/spz_loader.py:139-143 | a decompressed result is a prefix of the library's output |
| SpzLoader.InitSpz | fourofour_3d_gen/spz_loader.py:165-173 | with a loader stored, nothing changes; otherwise a new loader is stored, or its error is raised and nothing is stored |
| SpzLoader.GetSpz | fourofour_3d_gen/spz_loader.py:176-184 | the returned loader is the stored one; without one it is built with the default search |
| SpzLoader.RunKeepsInstance | fourofour_3d_gen/spz_loader.py:165-184 | once a loader is stored, any series of `init_spz`/`get_spz` calls keeps it, raises nothing, and every `get_spz` returns it |
| SpzLoader.RunSameInstance | fourofour_3d_gen/spz_loader.py:165-184 | in any series of calls, every loader `get_spz` hands out is the one finally stored, so it is always the same instance |
| Client.TaskId | fourofour_3d_gen/client.py:38-40 | the task's id when there is a task, `None` otherwise |
| Client.Prompt | fourofour_3d_gen/client.py:42-44 | the task's prompt when there is a task, `None` otherwise |
| Client.NewClient | fourofour_3d_gen/client.py:31-33 | before any request, `task_id` and `prompt` are `None` and there is no start time |
| Client.RequestModel | fourofour_3d_gen/client.py:46-50 | the returned task and the current time become the client's; a failing add-task call raises and leaves the client unchanged |
| Client.SaveResult | fourofour_3d_gen/client.py:73-79 | the path of the temporary `.ply` file holding the decompressed data; a loader failure raises before any file exists; a decompression failure raises and leaves the file empty |
| Client.GetResult | fourofour_3d_gen/client.py:52-79 | no task or no start time gives `None` with no call; more than 600 s elapsed raises the timeout before any call; otherwise the status is asked first; `NO_RESULT`/`PARTIAL_RESULT` give `None`; `FAILURE` raises without fetching; only `SUCCESS` fetches, and only then is a path returned, holding the decompressed result; on `SUCCESS` a failed fetch raises the gateway error, and a fetched result goes through the loader and decompression, completing with the `.ply` path when both succeed |
| Client.NoTimeoutWithinLimit | fourofour_3d_gen/client.py:14 | a just-started task polled within 600 s (exactly 600 s included) never times out and asks for its status |
| Client.FreshClientIsIdle | fourofour_3d_gen/client.py:52-54 | polling a new client returns `None` and calls nothing |
| SpzUpdater.CurrentVersion | fourofour_3d_gen/spz_updater.py:58-63 | no file gives `None`; a file gives its text with the surrounding whitespace stripped; an unreadable file raises |
| SpzUpdater.WriteVersion | fourofour_3d_gen/spz_updater.py:65-68 | the file holds exactly the version afterwards |
| SpzUpdater.WriteThenRead | fourofour_3d_gen/spz_updater.py:58-68 | reading a written version gives it stripped, so a tag without surrounding whitespace comes back unchanged |
| SpzUpdater.NeedUpdate | fourofour_3d_gen/spz_updater.py:46-56 | true iff both the version and the release are read and no version is recorded or it differs from the tag; any failure gives false |
| SpzUpdater.AssetNameFor | fourofour_3d_gen/spz_updater.py:24-28 | exactly Windows, Linux and Darwin have an asset, named `spz-windows.zip`, `spz-linux.zip` and `spz-macos.zip` |
| SpzUpdater.AssetNamesDistinct | fourofour_3d_gen/spz_updater.py:24-28 | no two systems share an asset name |
| SpzUpdater.SelectAsset | fourofour_3d_gen/spz_updater.py:79-86 | an unknown OS is an error; otherwise the first asset with the system's name, or not-found when no asset has it |
| SpzUpdater.DownloadSpz | fourofour_3d_gen/spz_updater.py:77-106 | selection errors pass through; the selected asset's URL is downloaded, and the call succeeds iff that download and extraction succeed |
| SpzUpdater.Update | fourofour_3d_gen/spz_updater.py:30-43 | an outdated version whose download succeeds is downloaded and then recorded as the release tag; the version file changes only so; a listing, version-read or download error is the one swallowed and leaves the file as it was; an up-to-date version does nothing |
| SpzUpdater.UpdateFollowsNeedUpdate | fourofour_3d_gen/spz_updater.py:30-56 | `update` attempts a download exactly when `need_update` is true |
| SpzUpdater.UpdateSettles | fourofour_3d_gen/spz_updater.py:37-40 | after a successful update the recorded version reads as the stripped tag, and a tag without surrounding whitespace needs no further update |
| SpzUpdater.PaddedTagNeverSettles | fourofour_3d_gen/spz_updater.py:51-63 | a tag with surrounding whitespace still needs an update after it is written |
| SpzUpdater.PaddedTagExample | fourofour_3d_gen/spz_updater.py:51-63 | for example `"v1 "` |
| Positioning.QuarterTurns | fourofour_3d_gen/uitls/positioning.py:13-20 | the rotation is either none or one quarter turn about Z |
| Positioning.Label | fourofour_3d_gen/uitls/positioning.py:16-20 | the label is `no rotation` exactly for the unrotated case |
| Positioning.Min3 | fourofour_3d_gen/uitls/positioning.py:8 | `min` of three is at most each and equal to one of them |
| Positioning.FitsIff | fourofour_3d_gen/uitls/positioning.py:8-11 | with positive extents, an orientation fits the box at exactly the scales up to its min ratio |
| Positioning.BestFitScaleAndRotation | fourofour_3d_gen/uitls/positioning.py:3-22 | a zero extent raises; the scale is that of the chosen orientation and at least both orientations' scales; the rotation is chosen iff its scale is strictly larger; the label matches |
| Positioning.BestFitIsOptimal | fourofour_3d_gen/uitls/positioning.py:8-20 | the object scaled by the returned scale fits the box in the chosen orientation; the scale equals one of that case's per-axis ratios; no orientation fits at a larger scale |
| Positioning.SquareNeverRotated | fourofour_3d_gen/uitls/positioning.py:8-18 | equal X and Y extents never choose the rotation |

## Left out

- The rest of the add-on is not part of this model:
  - the Blender panels, properties, operators and registration;
  - mesh conversion, GLB import and scene positioning;
  - the splat attribute maths (sigmoid, exponent, quaternion to Euler).
- There is no multi-job manager. The code has a single-task `Client` only.
- HTTP is the `send` parameter of `GatewayApi`. Decoding response text to JSON is abstracted: a response carries its decoded JSON, or none when the text is not JSON.
- The release listing is abstracted to a value or an error. This covers its `requests.get`, `raise_for_status` and pydantic validation.
- The download, its chunked write, the zip extraction and the removal of the temporary zip are one success flag per URL.
- Client.GetResult: the client's gateway calls are an abstract interface: what adding a task, asking a status and fetching a result would answer. `client.py` calls `add_task(text_prompt=…)`, `get_status(task=…)` and `get_result(task=…)`, but `GatewayApi` defines `add_text_task(text_prompt)`, `get_status(task_id)` and `get_result(task_id)`. The model does not reconcile the two.
- Client.RequestModel: the start time is the `now` argument, so the wall clock is not modelled. The same holds for the elapsed time in `Client.GetResult`. `print` calls are not modelled.
- Ply.ReadCustomPly: requires that some line stops the header loop. At the end of the data, `readline()` keeps returning empty lines, so the source loops forever; that divergence is not modelled.
- Ply.ReadCustomPly: float values stay opaque four-byte words. No IEEE-754 decoding is modelled.
- Ply.SkipHeader: `readline()` is modelled on an in-memory byte buffer; the file-reading variant in the comments is not modelled.
- Text.AsciiLower: `str.lower()` is modelled on ASCII letters only. Other cased characters in a machine string are left as they are.
- SpzLoader.ResolveLibraryPath: `Path` normalisation is not modelled (`resolve()`, removing trailing separators, `str(Path(...))`). Paths are compared as written, and joining inserts the platform separator.
- SpzLoader.NewLoader: a library is its set of exported symbols. Setting `restype`/`argtypes` is not modelled beyond the symbol lookup.
- SpzLoader.Decompress: the message of `SPZError` comes from `get_error_string_spz` and is not modelled; the error keeps only the code. Freeing the output buffer is not modelled.
- SpzLoader.Decompress: requires the library's promise that a successful call leaves at least `size` bytes at the output pointer. Reading past a shorter buffer is undefined behaviour in the source.
- The module-level `decompress` and `_get_error_message` of `spz_loader.py` are not modelled; they only delegate to `get_spz()`.
- GatewayApi.AddImageTask: creating the named temporary file, before the `try`, is assumed to succeed. The random temporary name is a parameter.
- GatewayApi.Basename: POSIX `os.path.basename` only; the Windows variant also splits at `\`.
- GatewayApi.GetResultCall: header names are taken as already lower case, in place of `requests`' case-insensitive lookup.
- Error message texts are not modelled: `f"Gateway: error to add task: {e}"` and the like. Only the error kind and its cause are kept.
- `get_gateway()`, with its hard-coded URL and key, and `get_addon_prefs()` are Blender glue and are not modelled.
- Positioning.BestFitScaleAndRotation: the angle is returned as 0 or 1 quarter turns rather than the float `math.pi / 2`. Arithmetic is over exact reals, not IEEE floats.
- Positioning.BestFitIsOptimal: optimality and fit are proved for positive object extents only. With negative extents the source still computes a value, but "fits" has no meaning.
- SpzUpdater.Update: a failure while writing the version file is not modelled. `_write_version` is taken to succeed.
- `_REPOSITORY_URL` and the version-file location are constants of I/O that is not modelled.
