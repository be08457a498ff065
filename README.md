# Clipboard inspector, modelled in Dafny

The repository holds two Windows scripts built on `win32clipboard`:

- `clipboard_inspector_raw.py` lists every format on the clipboard. For each
  one it fetches the data and writes it as raw bytes to
  `clipboard_dump_<unix time>_<sanitized format name>.hex`.
- `clipboard_inspector.py` lists every format by name. It prints the data of
  just two formats: Unicode text (`CF_UNICODETEXT`) and the dropped-file list
  (`CF_HDROP`).

The model treats the operating system as an abstract machine, declared in
module `Platform`:

- A `Clipboard` object carries the formats the system enumerates, in order,
  and what fetching each one yields (`Ok(payload)` or `Fail`). It also fixes
  whether opening succeeds and whether the call after the last format raises
  instead of returning 0.
- The object records how often it was closed and which formats were fetched.
- A `FileSystem` object holds the files and whether each name is writable.

The modules are:

- `PyText`: Python's `str()` of an integer and `str.encode('utf-8')`, with a
  strict UTF-8 decoder so that the encoding can be shown to lose nothing.
- `Platform`: format numbers (the `CF_*` constants of `winuser.h`), payloads,
  the clipboard and the file system.
- `Catalogue`: the entry type of the two `format_map` literals and the dumper's
  `format_map.get`, which reads the literal as a Python dict display does, so a
  later entry for the same number wins. The literals themselves are
  `RawInspector.RawCatalogue` and `Inspector.InspectorCatalogue`; the inspector
  builds its dictionary with `Inspector.DictOf`.
- `RawInspector`: the dumper. It covers:
  - the name lookup with the `UNKNOWN_FORMAT_<n>` fallback;
  - the `re.sub(r'[^a-zA-Z0-9_]', '', name)` filter;
  - the file name;
  - the bytes `save_hex_dump` writes;
  - the enumeration loop, with its `formats_found` flag and the close in `finally`.
- `Inspector`: the listing script. It covers:
  - the `format_map` literal and its in-place reverse mapping;
  - the `UNKNOWN_FORMAT (<n>)` fallback;
  - the enumeration loop, which fetches only CF_UNICODETEXT and CF_HDROP and
    closes in `finally`.

The dumper's run is specified by a dump plan: the list of (format, timestamp,
file name, data) records a run writes. The plan and its lemmas take the naming
function as a parameter, so they hold for any naming. The run itself uses the
script's `FormatName`, and `FormatNamesDistinguish` supplies the fact that the
file-name lemmas need.

The console output is modelled only where the listing script's behaviour
consists of it: a log of `Line`s, one per `print` of a format name, a text
payload, the dropped-file header, a file path, or a caught exception.

## Model

| member | source | states |
|---|---|---|
| PyText.Decimal | clipboard_inspector_raw.py:66 | `str(n)` of a non-negative int is a non-empty string of decimal digits, a single digit exactly when n < 10 |
| PyText.DecimalRoundTrip | clipboard_inspector_raw.py:66 | reading the digits of `str(n)` back gives n |
| PyText.DecimalInjective | clipboard_inspector_raw.py:66 | two numbers render to the same digits if and only if they are equal |
| PyText.IntStr | clipboard_inspector_raw.py:16 | definition of `str()` of any int; its properties are IntStrRoundTrip and IntStrInjective |
| PyText.IntStrRoundTrip | clipboard_inspector_raw.py:16 | reading `str(n)` back as a signed decimal gives n, for negative n too |
| PyText.IntStrInjective | clipboard_inspector_raw.py:16 | two ints render to the same text if and only if they are equal |
| PyText.EncodeChar | clipboard_inspector_raw.py:16 | UTF-8 of one character is 1 to 4 bytes; one byte, equal to the code point, exactly for ASCII; every byte after the first is a continuation byte |
| PyText.Utf8Encode | clipboard_inspector_raw.py:16 | `s.encode('utf-8')` has between \|s\| and 4·\|s\| bytes |
| PyText.DecodeEncodedChar | clipboard_inspector_raw.py:16 | the strict decoder reads back from an encoded character exactly that character and its own bytes, whatever follows |
| PyText.Utf8RoundTrip | clipboard_inspector_raw.py:16 | decoding `s.encode('utf-8')` gives back s: the encoding loses nothing |
| PyText.AsciiEncoding | clipboard_inspector_raw.py:16 | ASCII text encodes to one byte per character, each equal to its code point |
| Platform.Str | clipboard_inspector_raw.py:16 | definition of `str()` of a non-buffer payload; StrDistinguishesInts and RawInspector.DumpBytesFaithful carry its properties |
| Platform.StrDistinguishesInts | clipboard_inspector_raw.py:16 | a text payload prints as itself, and two int payloads print the same if and only if they are equal |
| Platform.NextFormat | clipboard_inspector_raw.py:58 | definition of the answer of `EnumClipboardFormats(cur)`: the first format for 0, otherwise the one after cur; NextFormatSteps carries its property |
| Platform.NextFormatSteps | clipboard_inspector_raw.py:54-61 | enumerating from cursor 0 and feeding back each answer visits the format list in order, then returns 0 |
| Platform.Clipboard.EnumAnswer | clipboard_inspector_raw.py:58 | `EnumClipboardFormats(cur)` raises only at the end of the list and only when the clipboard is set to raise there; otherwise it returns the next format |
| Platform.Clipboard.OpenClipboard | clipboard_inspector_raw.py:50 | opening succeeds exactly when the clipboard is available and then leaves it open |
| Platform.Clipboard.EnumClipboardFormats | clipboard_inspector.py:57 | the reply is the clipboard's enumeration answer for the cursor |
| Platform.Clipboard.GetClipboardData | clipboard_inspector_raw.py:71 | the fetch yields the clipboard's contents for that format and is recorded |
| Platform.Clipboard.CloseClipboard | clipboard_inspector_raw.py:95 | the clipboard is closed and the close is counted |
| Platform.FileSystem.WriteBytes | clipboard_inspector_raw.py:12-20 | `open(name, 'wb').write(data)` succeeds exactly for writable names, replacing the file with data; on failure nothing changes |
| Catalogue.Find | clipboard_inspector_raw.py:66 | dict lookup: the position found is within the catalogue and carries the number asked for |
| Catalogue.FindIsLast | clipboard_inspector_raw.py:66 | as in a dict display, the entry found is the last one carrying the number; none is found exactly when no entry carries it |
| Catalogue.FindListed | clipboard_inspector_raw.py:30-43 | with no number listed twice, looking up an entry's number finds that entry |
| RawInspector.FormatName | clipboard_inspector_raw.py:66 | definition of `format_map.get(id, f"UNKNOWN_FORMAT_{id}")`; KnownFormatName, UnknownFormatName, FormatNameIsSafe and FormatNameInjective carry its properties |
| RawInspector.RawIdsDistinct | clipboard_inspector_raw.py:30-43 | no format number appears twice in the dumper's literal |
| RawInspector.RawNamesDistinct | clipboard_inspector_raw.py:30-43 | no display name appears twice in the dumper's literal |
| RawInspector.KnownFormatName | clipboard_inspector_raw.py:30-43 | every catalogued format is named by its catalogue entry |
| RawInspector.UnknownFormatName | clipboard_inspector_raw.py:66 | every other format is named `UNKNOWN_FORMAT_` followed by its decimal number |
| RawInspector.DifIsUnknown | clipboard_inspector_raw.py:66 | CF_DIF (5) is not catalogued and is named `UNKNOWN_FORMAT_5` |
| RawInspector.Sanitize | clipboard_inspector_raw.py:74 | the regex filter's result holds only `[a-zA-Z0-9_]` characters and is no longer than its input |
| RawInspector.SanitizeKeepsOrder | clipboard_inspector_raw.py:74 | the filter's result is a subsequence of its input |
| RawInspector.SanitizeKeepsSafeChars | clipboard_inspector_raw.py:74 | each safe character occurs in the result exactly as often as in the input, each unsafe one never |
| RawInspector.SanitizeFixesSafe | clipboard_inspector_raw.py:74 | a string of safe characters is left unchanged |
| RawInspector.SanitizeIdempotent | clipboard_inspector_raw.py:74 | filtering twice is filtering once |
| RawInspector.SanitizeAppend | clipboard_inspector_raw.py:74 | the filter works character by character: filtering a concatenation concatenates the filtered parts |
| RawInspector.CatalogueNamesSafe | clipboard_inspector_raw.py:30-43 | every name in the dumper's literal is made only of `[a-zA-Z0-9_]` characters |
| RawInspector.FormatNameIsSafe | clipboard_inspector_raw.py:66-74 | every display name, catalogued or fallback, consists of safe characters and is a fixed point of the filter |
| RawInspector.FormatNameInjective | clipboard_inspector_raw.py:66 | different format numbers never get the same display name |
| RawInspector.DumpFileName | clipboard_inspector_raw.py:79 | definition of `clipboard_dump_<ts>_<sanitized name>.hex`; DumpFileNameInjective and UnknownFormatFileName carry its properties |
| RawInspector.DumpFileNameInjective | clipboard_inspector_raw.py:79 | two dump file names are equal if and only if their timestamps and their sanitized names are equal |
| RawInspector.DistinctFormatsDistinctFiles | clipboard_inspector_raw.py:74-79 | different formats are dumped to different file names, whatever the two timestamps are |
| RawInspector.UnknownFormatFileName | clipboard_inspector_raw.py:66-79 | an unknown format n is dumped to `clipboard_dump_<ts>_UNKNOWN_FORMAT_<n>.hex` |
| RawInspector.DumpBytes | clipboard_inspector_raw.py:14-18 | definition of the bytes `save_hex_dump` writes; DumpBytesFaithful and AsciiTextDump carry its properties |
| RawInspector.DumpBytesFaithful | clipboard_inspector_raw.py:14-18 | a `bytes` or `memoryview` payload is written unchanged; any other payload's bytes decode back to its `str()` |
| RawInspector.AsciiTextDump | clipboard_inspector_raw.py:16 | an ASCII text payload is written as one byte per character, equal to its code point |
| RawInspector.SaveHexDump | clipboard_inspector_raw.py:7-22 | a writable file receives the normalised bytes; a failing write leaves every file as it was and raises nothing |
| RawInspector.DumpPlan | clipboard_inspector_raw.py:56-86 | definition of the dumps a run writes, one per enumerated format whose fetch succeeds; DumpAllFormats is proved against it, and the lemmas below carry its properties |
| RawInspector.ApplyWrites | clipboard_inspector_raw.py:12-20 | definition of the files after the planned writes, in order; DumpLandsInItsFile, UnnamedFileUntouched and FetchedFormatIsOnDisk carry its properties |
| RawInspector.FetchFailureSkipsOnlyThatFormat | clipboard_inspector_raw.py:69-86 | if fetching format k fails, the run dumps exactly what it would have dumped otherwise, minus k's dump |
| RawInspector.EveryFetchedFormatDumpedInOrder | clipboard_inspector_raw.py:56-82 | when every fetch succeeds, there is one dump per enumerated format, in enumeration order, with its own name, clock reading and data |
| RawInspector.FetchedFormatIsDumped | clipboard_inspector_raw.py:69-82 | every format whose fetch succeeds is dumped |
| RawInspector.DumpedFormatWasFetched | clipboard_inspector_raw.py:69-82 | every dump is of an enumerated format, carries the data its fetch produced, and is named after that format and its timestamp |
| RawInspector.FormatNamesDistinguish | clipboard_inspector_raw.py:66-74 | the script's names keep every two formats apart even after the regex filter |
| RawInspector.DumpFileNamesDistinct | clipboard_inspector_raw.py:77-82 | with no format enumerated twice and names that stay distinct once filtered, no two dumps of a run share a file name |
| RawInspector.DumpLandsInItsFile | clipboard_inspector_raw.py:12-20 | with distinct file names, each dump with a writable name leaves its file holding exactly its bytes |
| RawInspector.UnnamedFileUntouched | clipboard_inspector_raw.py:12-20 | a file that no dump names exists afterwards exactly when it did before, with the same contents |
| RawInspector.FetchedFormatIsOnDisk | clipboard_inspector_raw.py:69-82 | a fetched format with a writable file name ends up on disk, byte for byte |
| RawInspector.DumpOneFormat | clipboard_inspector_raw.py:69-86 | one loop step fetches the format once; on success it dumps the data under the sanitized name and the step's timestamp, on failure it writes nothing |
| RawInspector.DumpAllFormats | clipboard_inspector_raw.py:54-86 | the loop lists every enumerated format in order, fetches each once, sets `formats_found` exactly when a format was yielded, and writes exactly the dump plan's files; it ends raising exactly when the enumeration raises |
| RawInspector.InspectAndDumpClipboard | clipboard_inspector_raw.py:48-95 | the run: closed exactly once on every path; every enumerated format listed and fetched once, in order; dumps and files as the dump plan says; `formats_found` true exactly when a format was yielded; the error message exactly when opening or enumeration raised; "no formats" exactly when a clean enumeration was empty |
| Inspector.InspectorIdsDistinct | clipboard_inspector.py:13-37 | no format number appears twice in the inspector's literal |
| Inspector.InspectorNamesDistinct | clipboard_inspector.py:13-37 | no display name appears twice in the inspector's literal |
| Inspector.LiteralItems | clipboard_inspector.py:13-37 | definition of the dict display's (int key, str value) pairs in source order; LiteralKeysDistinct and FormatTableEntries carry its properties |
| Inspector.LiteralKeysDistinct | clipboard_inspector.py:13-40 | the pairs have distinct keys if and only if the literal lists no number twice, and distinct values if and only if it lists no name twice |
| Inspector.DictOf | clipboard_inspector.py:13-37 | definition of the dict a display builds, later pairs overwriting earlier ones; DictOfKeys, DictOfLookup and DictOfSize carry its properties |
| Inspector.DictOfKeys | clipboard_inspector.py:13-37 | a dict display's keys are exactly the keys it lists |
| Inspector.DictOfLookup | clipboard_inspector.py:13-37 | with no key listed twice, each listed key maps to the value listed with it |
| Inspector.DictOfSize | clipboard_inspector.py:13-37 | with no key listed twice, the dict has one entry per pair |
| Inspector.Swapped | clipboard_inspector.py:39-40 | definition of the snapshot's pairs turned around; ReversedIsUnion and SwappedTwice carry its properties |
| Inspector.SwappedTwice | clipboard_inspector.py:39-40 | turning the pairs around twice gives them back |
| Inspector.Reversed | clipboard_inspector.py:39-40 | definition of the effect of storing `value -> key` for each snapshot pair in order; AddReverseMapping is proved against it, and ReversedIsUnion carries its property |
| Inspector.AddReverseMapping | clipboard_inspector.py:39-40 | the loop over the snapshot yields the dict that setting `value -> key` for each snapshot pair, in order, produces |
| Inspector.ReversedIsUnion | clipboard_inspector.py:39-40 | for any dict and any snapshot, the reverse mapping equals the original dict overridden by the turned-around snapshot |
| Inspector.FormatTable | clipboard_inspector.py:13-40 | definition of the dictionary after the reverse mapping; FormatTableEntries, ReverseMappingKeepsLiteral and FormatTableSize carry its properties |
| Inspector.FormatTableEntries | clipboard_inspector.py:39-40 | afterwards each catalogued number still maps to its name and each name maps back to its number (number to name to number); there are no other keys |
| Inspector.ReverseMappingKeepsLiteral | clipboard_inspector.py:39-40 | every entry of the literal survives the reverse mapping with its value |
| Inspector.FormatTableSize | clipboard_inspector.py:39-40 | the literal has 23 entries and the reverse mapping doubles it: exactly one new entry per original one |
| Inspector.BuildFormatMap | clipboard_inspector.py:13-40 | building the literal and running the reverse mapping gives the table, in which every catalogued number looks up to its name |
| Inspector.FormatLookup | clipboard_inspector.py:63 | definition of `format_map.get(id, f"UNKNOWN_FORMAT ({id})")` as printed, for any dictionary |
| Inspector.FormatName | clipboard_inspector.py:63 | definition of the lookup in the script's own dictionary; KnownFormatName, UnknownFormatName and DifIsUnknown carry its properties |
| Inspector.KnownFormatName | clipboard_inspector.py:63 | every catalogued format is shown under its catalogue name |
| Inspector.UnknownFormatName | clipboard_inspector.py:63 | every other format is shown as `UNKNOWN_FORMAT (<n>)` |
| Inspector.DifIsUnknown | clipboard_inspector.py:63 | CF_DIF (5) is shown as `UNKNOWN_FORMAT (5)` |
| Inspector.FormatLines | clipboard_inspector.py:63-83 | definition of the lines one enumerated format prints; NoNamesInData and FileListLines carry its properties |
| Inspector.Transcript | clipboard_inspector.py:54-83 | definition of a run's output, each enumerated format's lines in order; ListAllFormats is proved against it, and EveryFormatListedInOrder and TranscriptAppend carry its properties |
| Inspector.Fetched | clipboard_inspector.py:68-83 | definition of the data requests of a run; FetchedOnlyTextAndFiles carries its property |
| Inspector.NamesOf | clipboard_inspector.py:63 | one looked-up name for each format, in order |
| Inspector.NoNamesInData | clipboard_inspector.py:63-83 | a format's block lists exactly one name, its own, whatever its data is |
| Inspector.EveryFormatListedInOrder | clipboard_inspector.py:53-64 | the names listed in a run are exactly the enumerated formats' names, once each, in order, whatever the fetches return or raise |
| Inspector.TranscriptAppend | clipboard_inspector.py:54-83 | each format's output is a block of its own: the output for a list is the outputs of its parts, so a failed fetch changes only its format's block |
| Inspector.FetchedOnlyTextAndFiles | clipboard_inspector.py:68-83 | a format's data is requested if and only if it is enumerated and is CF_UNICODETEXT or CF_HDROP |
| Inspector.PathLines | clipboard_inspector.py:80-81 | definition of the path lines, one per dropped file; PrintFileList and FileListLines carry its properties |
| Inspector.FileListLines | clipboard_inspector.py:76-81 | a dropped-file list is printed as the format's name, the header, then each path once, in order |
| Inspector.PrintFileList | clipboard_inspector.py:80-81 | the `for f in files` loop prints each path once, in list order |
| Inspector.ShowFormat | clipboard_inspector.py:63-83 | one loop step prints the name, then for text formats the text or the caught error, and for file lists the paths or the caught error; only those two formats are fetched |
| Inspector.ListAllFormats | clipboard_inspector.py:54-83 | the loop prints each enumerated format's block in order, fetches only the text and file-list formats, and ends raising exactly when the enumeration raises |
| Inspector.GetAllClipboardFormats | clipboard_inspector.py:46-90 | the run: closed exactly once on every path; fetches exactly the enumerated text and file-list formats, in order; output is each enumerated format's block in order, then the error message exactly when opening or enumeration raised |

## Left out

- The Windows calls (`OpenClipboard`, `EnumClipboardFormats`, `GetClipboardData`, `CloseClipboard`) are abstract. A clipboard fixes the format list and each fetch's result when it is built, and the model takes the enumeration to be forward-only, finite and has no repeats.
- Platform.Clipboard.EnumAnswer: an enumeration that raises is modelled only after the last format. A failure in the middle of the list is not modelled.
- Platform.Clipboard.CloseClipboard, RawInspector.InspectAndDumpClipboard, Inspector.GetAllClipboardFormats: a failing `OpenClipboard` is followed by `CloseClipboard` in the `finally` block. On Windows that call can itself raise, and the exception would then leave the function. The model only counts the close.
- Platform.Clipboard.Valid: duplicate or zero format numbers from the system are excluded rather than handled.
- `time.time()` is a parameter `clock`. The dump for the k-th enumerated format is stamped `clock(k)`, because the source reads the clock inside the loop.
- `os.getcwd()` and the fixed banner lines (`print("-" * 60)` and the like) are not modelled. The dumper's console messages appear only as the `formatsFound`, `noFormatsReported` and `errorReported` flags of its result.
- Python's `str()` of objects other than `str` and `int` (tuples, handles, other objects) cannot be computed here. Such a payload carries its rendering as a string.
- Lone surrogates in a `str` make `encode('utf-8')` raise in Python. A Dafny `char` cannot hold one, so that path of `save_hex_dump` is not modelled.
- Platform.FileSystem, RawInspector.UnnamedFileUntouched, RawInspector.DumpLandsInItsFile: file names are compared exactly, while Windows compares them without regard to case. A pre-existing file whose name differs from a dump's only in case (`CLIPBOARD_DUMP_<ts>_CF_TEXT.HEX`) is overwritten on Windows but counts as untouched in the model.
- A write that fails part-way and leaves a truncated file is not modelled. A write either replaces the file or changes nothing.
- Format numbers are unbounded naturals, not 32-bit `UINT`s. No arithmetic is done on them, so nothing wraps.
- Inspector.AddReverseMapping works on a map value returned to the caller. The aliasing of the one dict object is not represented, since nothing else refers to it.
- Inspector.AddReverseMapping iterates a snapshot that the caller passes in. That the snapshot `list(format_map.items())` of the literal is its pairs in source order follows from Python's insertion-ordered dicts and the distinct keys; the model does not derive it.
- Inspector.GetAllClipboardFormats requires that the two fetched formats return a `str` and a sequence of paths, as pywin32 does. A failure while printing is not modelled.
- No hex listing with offsets or an ASCII gutter is modelled. Despite its name, `save_hex_dump` writes the raw bytes (`clipboard_inspector_raw.py:9,20`).
