/**
 * clipboard_inspector.py: list every clipboard format by name, and show the data
 * of the two formats it knows how to print, Unicode text and the dropped-file list.
 */
module Inspector {
  import opened PyText
  import opened Platform
  import opened Catalogue

  /** The inspector's `format_map` literal, in source order. */
  const InspectorCatalogue: seq<Entry> := [
    Entry(CF_TEXT, "CF_TEXT"),
    Entry(CF_BITMAP, "CF_BITMAP"),
    Entry(CF_DIB, "CF_DIB"),
    Entry(CF_DIBV5, "CF_DIBV5"),
    Entry(CF_DSPBITMAP, "CF_DSPBITMAP"),
    Entry(CF_DSPENHMETAFILE, "CF_DSPENHMETAFILE"),
    Entry(CF_DSPMETAFILEPICT, "CF_DSPMETAFILEPICT"),
    Entry(CF_DSPTEXT, "CF_DSPTEXT"),
    Entry(CF_ENHMETAFILE, "CF_ENHMETAFILE"),
    Entry(CF_HDROP, "CF_HDROP (File List)"),
    Entry(CF_LOCALE, "CF_LOCALE"),
    Entry(CF_METAFILEPICT, "CF_METAFILEPICT"),
    Entry(CF_OEMTEXT, "CF_OEMTEXT"),
    Entry(CF_OWNERDISPLAY, "CF_OWNERDISPLAY"),
    Entry(CF_PALETTE, "CF_PALETTE"),
    Entry(CF_PENDATA, "CF_PENDATA"),
    Entry(CF_PRIVATEFIRST, "CF_PRIVATEFIRST"),
    Entry(CF_PRIVATELAST, "CF_PRIVATELAST"),
    Entry(CF_RIFF, "CF_RIFF"),
    Entry(CF_SYLK, "CF_SYLK"),
    Entry(CF_TIFF, "CF_TIFF"),
    Entry(CF_WAVE, "CF_WAVE"),
    Entry(CF_UNICODETEXT, "CF_UNICODETEXT (Unicode Text)")
  ]

  // The literal is checked in three stretches, each a small enough proof for the solver;
  // InspectorIdsDistinct and InspectorNamesDistinct combine them.
  lemma InspectorIdsDistinctLow()
    ensures IdsDistinctFrom(InspectorCatalogue, 0, 5)
  {
  }

  lemma InspectorIdsDistinctMid()
    ensures IdsDistinctFrom(InspectorCatalogue, 5, 12)
  {
  }

  lemma InspectorIdsDistinctHigh()
    ensures IdsDistinctFrom(InspectorCatalogue, 12, 23)
  {
  }

  lemma InspectorNamesDistinctLow()
    ensures NamesDistinctFrom(InspectorCatalogue, 0, 5)
  {
  }

  lemma InspectorNamesDistinctMid()
    ensures NamesDistinctFrom(InspectorCatalogue, 5, 12)
  {
  }

  lemma InspectorNamesDistinctHigh()
    ensures NamesDistinctFrom(InspectorCatalogue, 12, 23)
  {
  }

  lemma InspectorIdsDistinct()
    ensures DistinctIds(InspectorCatalogue)
  {
    InspectorIdsDistinctLow();
    InspectorIdsDistinctMid();
    InspectorIdsDistinctHigh();
    DistinctIdsInParts(InspectorCatalogue, 5, 12);
  }

  lemma InspectorNamesDistinct()
    ensures DistinctNames(InspectorCatalogue)
  {
    InspectorNamesDistinctLow();
    InspectorNamesDistinctMid();
    InspectorNamesDistinctHigh();
    DistinctNamesInParts(InspectorCatalogue, 5, 12);
  }

  // ---------------------------------------------------------------- the format dictionary

  /** A key or value of `format_map`: a Python `int` or a `str`, which never compare equal. */
  datatype Key = IdKey(id: int) | NameKey(name: string)

  type FormatMap = map<Key, Key>

  /** The `key: value` pairs of the dict literal, in order. */
  function LiteralItems(c: seq<Entry>): (items: seq<(Key, Key)>)
    ensures |items| == |c|
    ensures forall i | 0 <= i < |c| :: items[i] == (IdKey(c[i].id), NameKey(c[i].name))
  {
    seq(|c|, i requires 0 <= i < |c| => (IdKey(c[i].id), NameKey(c[i].name)))
  }

  /** The dict a display `{k1: v1, k2: v2, ...}` builds: each pair stores, later ones overwrite. */
  function DictOf(items: seq<(Key, Key)>): map<Key, Key>
    decreases |items|
  {
    if items == [] then map[]
    else DictOf(items[..|items| - 1])[items[|items| - 1].0 := items[|items| - 1].1]
  }

  /** The pairs turned around: value first, key second. */
  function Swapped(items: seq<(Key, Key)>): (r: seq<(Key, Key)>)
    ensures |r| == |items| && forall i | 0 <= i < |items| :: r[i] == (items[i].1, items[i].0)
  {
    seq(|items|, i requires 0 <= i < |items| => (items[i].1, items[i].0))
  }

  /** Turning the pairs around twice gives them back. */
  lemma SwappedTwice(items: seq<(Key, Key)>)
    ensures Swapped(Swapped(items)) == items
  {
  }

  /**
   * The literal's pairs have distinct keys exactly when the catalogue lists no
   * number twice, and distinct values exactly when it lists no name twice.
   */
  lemma LiteralKeysDistinct(c: seq<Entry>)
    ensures DistinctIds(c) <==>
      forall a, b | 0 <= a < b < |c| :: LiteralItems(c)[a].0 != LiteralItems(c)[b].0
    ensures DistinctNames(c) <==>
      forall a, b | 0 <= a < b < |c| :: Swapped(LiteralItems(c))[a].0 != Swapped(LiteralItems(c))[b].0
  {
    var items := LiteralItems(c);
    var back := Swapped(items);
    assert forall a | 0 <= a < |c| :: items[a].0 == IdKey(c[a].id) && back[a].0 == NameKey(c[a].name);
  }

  /** The effect of `for key, value in snapshot: format_map[value] = key` on `m`. */
  function Reversed(m: FormatMap, snapshot: seq<(Key, Key)>): FormatMap
    decreases |snapshot|
  {
    if snapshot == [] then m
    else
      var (key, value) := snapshot[|snapshot| - 1];
      Reversed(m, snapshot[..|snapshot| - 1])[value := key]
  }

  /** The loop of lines 39-40, over the snapshot `list(format_map.items())` taken before it starts. */
  method AddReverseMapping(formatMap: FormatMap, snapshot: seq<(Key, Key)>) returns (result: FormatMap)
    ensures result == Reversed(formatMap, snapshot)
  {
    result := formatMap;
    for i := 0 to |snapshot|
      invariant result == Reversed(formatMap, snapshot[..i])
    {
      var (key, value) := snapshot[i];
      assert snapshot[..i + 1][..i] == snapshot[..i];
      result := result[value := key];
    }
    assert snapshot[..|snapshot|] == snapshot;
  }

  /** The loop adds the turned-around pairs on top of the original entries, whatever they are. */
  lemma {:induction false} ReversedIsUnion(m: FormatMap, snapshot: seq<(Key, Key)>)
    ensures Reversed(m, snapshot) == m + DictOf(Swapped(snapshot))
  {
    if snapshot != [] {
      var n := |snapshot| - 1;
      ReversedIsUnion(m, snapshot[..n]);
      assert Swapped(snapshot)[..n] == Swapped(snapshot[..n]);
    }
  }

  /** The keys of a dict display are the keys it lists. */
  lemma {:induction false} DictOfKeys(items: seq<(Key, Key)>, k: Key)
    ensures k in DictOf(items) <==> exists i | 0 <= i < |items| :: items[i].0 == k
  {
    if items != [] {
      var n := |items| - 1;
      DictOfKeys(items[..n], k);
      if k != items[n].0 && k in DictOf(items) {
        var i :| 0 <= i < n && items[..n][i].0 == k;
        assert items[i].0 == k;
      }
    }
  }

  /** With no key listed twice, a dict display maps each listed key to the value listed with it. */
  lemma {:induction false} DictOfLookup(items: seq<(Key, Key)>, i: nat)
    requires i < |items|
    requires forall a, b | 0 <= a < b < |items| :: items[a].0 != items[b].0
    ensures items[i].0 in DictOf(items) && DictOf(items)[items[i].0] == items[i].1
  {
    var n := |items| - 1;
    if i < n {
      DictOfLookup(items[..n], i);
    }
  }

  /** With no key listed twice, a dict display has one entry per pair. */
  lemma {:induction false} DictOfSize(items: seq<(Key, Key)>)
    requires forall a, b | 0 <= a < b < |items| :: items[a].0 != items[b].0
    ensures |DictOf(items)| == |items|
  {
    if items != [] {
      var n := |items| - 1;
      DictOfSize(items[..n]);
      DictOfKeys(items[..n], items[n].0);
    }
  }

  /** The dictionary once the reverse mapping has run (lines 13-40). */
  function FormatTable(): FormatMap {
    Reversed(DictOf(LiteralItems(InspectorCatalogue)), LiteralItems(InspectorCatalogue))
  }

  /**
   * After the reverse mapping, each catalogued number still maps to its name,
   * each name maps back to its number, and the only keys are those numbers and names.
   */
  lemma FormatTableEntries()
    ensures forall i | 0 <= i < |InspectorCatalogue| ::
      var e := InspectorCatalogue[i];
      && IdKey(e.id) in FormatTable() && FormatTable()[IdKey(e.id)] == NameKey(e.name)
      && NameKey(e.name) in FormatTable() && FormatTable()[NameKey(e.name)] == IdKey(e.id)
    ensures forall k | k in FormatTable() ::
      exists i | 0 <= i < |InspectorCatalogue| :: k == IdKey(InspectorCatalogue[i].id) || k == NameKey(InspectorCatalogue[i].name)
  {
    var c := InspectorCatalogue;
    var items := LiteralItems(c);
    var forward := DictOf(items);
    var backward := DictOf(Swapped(items));
    InspectorIdsDistinct();
    InspectorNamesDistinct();
    ReversedIsUnion(forward, items);
    assert FormatTable() == forward + backward;
    forall i | 0 <= i < |c|
      ensures IdKey(c[i].id) in FormatTable() && FormatTable()[IdKey(c[i].id)] == NameKey(c[i].name)
      ensures NameKey(c[i].name) in FormatTable() && FormatTable()[NameKey(c[i].name)] == IdKey(c[i].id)
    {
      DictOfLookup(items, i);
      DictOfLookup(Swapped(items), i);
      DictOfKeys(Swapped(items), IdKey(c[i].id));
    }
    forall k | k in FormatTable()
      ensures exists i | 0 <= i < |c| :: k == IdKey(c[i].id) || k == NameKey(c[i].name)
    {
      DictOfKeys(items, k);
      DictOfKeys(Swapped(items), k);
    }
  }

  /**
   * The reverse mapping takes nothing away: every entry of the literal is still
   * there with its value, next to exactly one new entry per original pair.
   */
  lemma ReverseMappingKeepsLiteral()
    ensures forall k | k in DictOf(LiteralItems(InspectorCatalogue)) ::
      k in FormatTable() && FormatTable()[k] == DictOf(LiteralItems(InspectorCatalogue))[k]
  {
    var items := LiteralItems(InspectorCatalogue);
    ReversedIsUnion(DictOf(items), items);
    forall k | k in DictOf(items)
      ensures k in FormatTable() && FormatTable()[k] == DictOf(items)[k]
    {
      DictOfKeys(items, k);
      DictOfKeys(Swapped(items), k);
    }
  }

  /** The reverse mapping adds exactly one entry per original entry: the table doubles. */
  lemma FormatTableSize()
    ensures |DictOf(LiteralItems(InspectorCatalogue))| == |InspectorCatalogue|
    ensures |FormatTable()| == 2 * |InspectorCatalogue|
  {
    var c := InspectorCatalogue;
    var items := LiteralItems(c);
    var forward := DictOf(items);
    var backward := DictOf(Swapped(items));
    InspectorIdsDistinct();
    InspectorNamesDistinct();
    DictOfSize(items);
    DictOfSize(Swapped(items));
    ReversedIsUnion(forward, items);
    forall k | k in forward
      ensures k !in backward
    {
      DictOfKeys(items, k);
      DictOfKeys(Swapped(items), k);
    }
    assert (forward + backward).Keys == forward.Keys + backward.Keys;
    assert forward.Keys * backward.Keys == {};
  }

  /** Builds `format_map` as lines 13-40 do: the literal, then the reverse mapping in place. */
  method BuildFormatMap() returns (formatMap: FormatMap)
    ensures formatMap == FormatTable()
    ensures forall i | 0 <= i < |InspectorCatalogue| ::
      FormatLookup(formatMap, InspectorCatalogue[i].id) == InspectorCatalogue[i].name
  {
    formatMap := DictOf(LiteralItems(InspectorCatalogue));
    formatMap := AddReverseMapping(formatMap, LiteralItems(InspectorCatalogue));
    FormatTableEntries();
  }

  // ---------------------------------------------------------------- names

  /** What `print` shows for a dictionary value: `str()` of the int or the str. */
  function Show(k: Key): string {
    match k
    case IdKey(n) => IntStr(n)
    case NameKey(s) => s
  }

  /** `format_map.get(id, f"UNKNOWN_FORMAT ({id})")`, as printed. */
  function FormatLookup(formatMap: FormatMap, id: FormatId): string {
    if IdKey(id) in formatMap then Show(formatMap[IdKey(id)]) else "UNKNOWN_FORMAT (" + Decimal(id) + ")"
  }

  /** The name the inspector prints for a format. */
  function FormatName(id: FormatId): string {
    FormatLookup(FormatTable(), id)
  }

  /** A catalogued format is shown under its catalogue name, not the number the reverse mapping might suggest. */
  lemma KnownFormatName(i: nat)
    requires i < |InspectorCatalogue|
    ensures FormatName(InspectorCatalogue[i].id) == InspectorCatalogue[i].name
  {
    FormatTableEntries();
  }

  /** Any other format is shown as `UNKNOWN_FORMAT (<number>)`. */
  lemma UnknownFormatName(id: FormatId)
    requires forall i | 0 <= i < |InspectorCatalogue| :: InspectorCatalogue[i].id != id
    ensures FormatName(id) == "UNKNOWN_FORMAT (" + Decimal(id) + ")"
  {
    FormatTableEntries();
  }

  /** CF_DIF is not in the catalogue. */
  lemma DifIsUnknown()
    ensures FormatName(CF_DIF) == "UNKNOWN_FORMAT (5)"
  {
    UnknownFormatName(CF_DIF);
    assert Decimal(5) == "5";
  }

  // ---------------------------------------------------------------- the listing

  /** One line the inspector prints for a format. */
  datatype Line =
    | Listed(name: string)       // `  - <format name>`
    | TextData(text: string)     // the CF_UNICODETEXT data between `---` rules
    | FilesHeader                // `[Data for CF_HDROP (Files)]:`
    | FilePath(path: string)     // `      - <path>`, one per dropped file
    | NoData                     // `[Could not get data for this format: ...]`
    | ErrorOccurred              // `An error occurred: ...`, after an exception outside the fetches

  /** One `FilePath` line per path, in order. */
  function PathLines(paths: seq<string>): (lines: seq<Line>)
    ensures |lines| == |paths|
    ensures forall i | 0 <= i < |paths| :: lines[i] == FilePath(paths[i])
  {
    seq(|paths|, i requires 0 <= i < |paths| => FilePath(paths[i]))
  }

  /** The lines printed for one enumerated format (lines 63-83). */
  function FormatLines(table: FormatMap, id: FormatId, contents: FormatId -> Fetch): seq<Line>
    requires Typed(contents)
  {
    [Listed(FormatLookup(table, id))]
    + (if id == CF_UNICODETEXT then
         match contents(id)
         case Ok(p) => [TextData(p.text)]
         case Fail => [NoData]
       else [])
    + (if id == CF_HDROP then
         match contents(id)
         case Ok(p) => [FilesHeader] + PathLines(p.paths)
         case Fail => [NoData]
       else [])
  }

  /** The lines printed for the formats `ids`, block after block. */
  function Transcript(table: FormatMap, ids: seq<FormatId>, contents: FormatId -> Fetch): seq<Line>
    requires Typed(contents)
    decreases |ids|
  {
    if ids == [] then []
    else Transcript(table, ids[..|ids| - 1], contents) + FormatLines(table, ids[|ids| - 1], contents)
  }

  /** The formats whose data the inspector asks for. */
  function Fetched(ids: seq<FormatId>): seq<FormatId>
    decreases |ids|
  {
    if ids == [] then []
    else
      var id := ids[|ids| - 1];
      Fetched(ids[..|ids| - 1]) + if id == CF_UNICODETEXT || id == CF_HDROP then [id] else []
  }

  /** Enumerating one more format asks for its data exactly when it is text or a file list. */
  lemma FetchedStep(ids: seq<FormatId>, id: FormatId)
    ensures Fetched(ids + [id]) == Fetched(ids) + if id == CF_UNICODETEXT || id == CF_HDROP then [id] else []
  {
    assert (ids + [id])[..|ids|] == ids;
  }

  /** Enumerating one more format appends that format's block. */
  lemma TranscriptStep(table: FormatMap, ids: seq<FormatId>, id: FormatId, contents: FormatId -> Fetch)
    requires Typed(contents)
    ensures Transcript(table, ids + [id], contents) == Transcript(table, ids, contents) + FormatLines(table, id, contents)
  {
    assert (ids + [id])[..|ids|] == ids;
  }

  /** The names listed, in order, dropping every other line. */
  function ListedNames(lines: seq<Line>): seq<string>
    decreases |lines|
  {
    if lines == [] then []
    else ListedNames(lines[..|lines| - 1]) + if lines[|lines| - 1].Listed? then [lines[|lines| - 1].name] else []
  }

  lemma {:induction false} ListedNamesAppend(a: seq<Line>, b: seq<Line>)
    ensures ListedNames(a + b) == ListedNames(a) + ListedNames(b)
    decreases |b|
  {
    if b != [] {
      var n := |b| - 1;
      assert (a + b)[..|a + b| - 1] == a + b[..n];
      ListedNamesAppend(a, b[..n]);
    } else {
      assert a + b == a;
    }
  }

  lemma NoNamesInData(table: FormatMap, id: FormatId, contents: FormatId -> Fetch)
    requires Typed(contents)
    ensures ListedNames(FormatLines(table, id, contents)) == [FormatLookup(table, id)]
  {
    var name := FormatLookup(table, id);
    var data := FormatLines(table, id, contents)[1..];
    assert FormatLines(table, id, contents) == [Listed(name)] + data;
    assert forall i | 0 <= i < |data| :: !data[i].Listed?;
    NoListedLines(data);
    ListedNamesAppend([Listed(name)], data);
    assert ListedNames([Listed(name)]) == [] + [name];
  }

  lemma {:induction false} NoListedLines(lines: seq<Line>)
    requires forall i | 0 <= i < |lines| :: !lines[i].Listed?
    ensures ListedNames(lines) == []
    decreases |lines|
  {
    if lines != [] {
      NoListedLines(lines[..|lines| - 1]);
    }
  }

  /** The names of the formats `ids`, one per format, in order. */
  function NamesOf(table: FormatMap, ids: seq<FormatId>): (names: seq<string>)
    ensures |names| == |ids|
    ensures forall i | 0 <= i < |ids| :: names[i] == FormatLookup(table, ids[i])
    decreases |ids|
  {
    if ids == [] then [] else NamesOf(table, ids[..|ids| - 1]) + [FormatLookup(table, ids[|ids| - 1])]
  }

  /**
   * Every enumerated format is listed exactly once, in enumeration order, and
   * what the fetches return or raise never changes the listing.
   */
  lemma {:induction false} EveryFormatListedInOrder(table: FormatMap, ids: seq<FormatId>, contents: FormatId -> Fetch)
    requires Typed(contents)
    ensures ListedNames(Transcript(table, ids, contents)) == NamesOf(table, ids)
    decreases |ids|
  {
    if ids != [] {
      var n := |ids| - 1;
      EveryFormatListedInOrder(table, ids[..n], contents);
      ListedNamesAppend(Transcript(table, ids[..n], contents), FormatLines(table, ids[n], contents));
      NoNamesInData(table, ids[n], contents);
    }
  }

  /** Each format gets a block of its own: the transcript of a list is the transcripts of its parts. */
  lemma {:induction false} TranscriptAppend(table: FormatMap, a: seq<FormatId>, b: seq<FormatId>, contents: FormatId -> Fetch)
    requires Typed(contents)
    ensures Transcript(table, a + b, contents) == Transcript(table, a, contents) + Transcript(table, b, contents)
    decreases |b|
  {
    if b != [] {
      var n := |b| - 1;
      assert (a + b)[..|a + b| - 1] == a + b[..n];
      TranscriptAppend(table, a, b[..n], contents);
    } else {
      assert a + b == a;
    }
  }

  /** The data is asked for exactly for the enumerated CF_UNICODETEXT and CF_HDROP formats. */
  lemma {:induction false} FetchedOnlyTextAndFiles(ids: seq<FormatId>)
    ensures forall id :: id in Fetched(ids) <==> id in ids && (id == CF_UNICODETEXT || id == CF_HDROP)
    decreases |ids|
  {
    if ids != [] {
      var n := |ids| - 1;
      FetchedOnlyTextAndFiles(ids[..n]);
      assert ids == ids[..n] + [ids[n]];
    }
  }

  /** A dropped-file list is printed under its header, one line per path, in list order. */
  lemma FileListLines(contents: FormatId -> Fetch, paths: seq<string>, shown: string)
    requires Typed(contents) && contents(CF_HDROP) == Ok(Paths(paths, shown))
    ensures FormatLines(FormatTable(), CF_HDROP, contents) == [Listed("CF_HDROP (File List)"), FilesHeader] + PathLines(paths)
  {
    KnownFormatName(9);
  }

  /** The `for f in files` loop of lines 80-81: one line per dropped file. */
  method PrintFileList(paths: seq<string>) returns (lines: seq<Line>)
    ensures lines == PathLines(paths)
  {
    lines := [];
    for i := 0 to |paths|
      invariant lines == PathLines(paths[..i])
    {
      assert PathLines(paths[..i + 1]) == PathLines(paths[..i]) + [FilePath(paths[i])];
      lines := lines + [FilePath(paths[i])];
    }
    assert paths[..|paths|] == paths;
  }

  /**
   * The body of the enumeration loop for one format (lines 63-83): print its name,
   * then fetch and print the data of CF_UNICODETEXT or CF_HDROP, catching the
   * exception a failed fetch raises.
   */
  method ShowFormat(cb: Clipboard, formatMap: FormatMap, current: FormatId) returns (lines: seq<Line>)
    requires cb.isOpen && Typed(cb.contents)
    modifies cb`requests
    ensures lines == FormatLines(formatMap, current, cb.contents)
    ensures cb.requests == old(cb.requests) + if current == CF_UNICODETEXT || current == CF_HDROP then [current] else []
  {
    lines := [Listed(FormatLookup(formatMap, current))];
    if current == CF_UNICODETEXT {
      var data := cb.GetClipboardData(CF_UNICODETEXT);
      if data.Ok? {
        lines := lines + [TextData(data.payload.text)];
      } else {
        lines := lines + [NoData];
      }
    }
    if current == CF_HDROP {
      var files := cb.GetClipboardData(CF_HDROP);
      if files.Ok? {
        var fileLines := PrintFileList(files.payload.paths);
        lines := lines + [FilesHeader] + fileLines;
      } else {
        lines := lines + [NoData];
      }
    }
  }

  /**
   * The `while True` loop of lines 54-83: walk the enumeration from 0 until it
   * returns 0 or raises, printing each format's block.
   */
  method ListAllFormats(cb: Clipboard, formatMap: FormatMap) returns (output: seq<Line>, raised: bool)
    requires cb.Valid() && cb.isOpen && Typed(cb.contents)
    modifies cb`requests
    ensures raised == cb.enumRaises
    ensures cb.requests == old(cb.requests) + Fetched(cb.formats)
    ensures output == Transcript(formatMap, cb.formats, cb.contents)
  {
    output, raised := [], false;
    var current: FormatId := 0;
    var k: nat := 0;
    while true
      invariant k <= |cb.formats|
      invariant current == if k == 0 then 0 else cb.formats[k - 1]
      invariant cb.requests == old(cb.requests) + Fetched(cb.formats[..k])
      invariant output == Transcript(formatMap, cb.formats[..k], cb.contents)
      invariant !raised
      decreases |cb.formats| - k
    {
      NextFormatSteps(cb.formats, k);
      var reply := cb.EnumClipboardFormats(current);
      if reply.Raised? {
        raised := true;
        break;
      }
      current := reply.format;
      if current == 0 {
        break;
      }
      var lines := ShowFormat(cb, formatMap, current);
      FetchedStep(cb.formats[..k], current);
      TranscriptStep(formatMap, cb.formats[..k], current, cb.contents);
      assert cb.formats[..k + 1] == cb.formats[..k] + [current];
      k := k + 1;
      output := output + lines;
    }
    assert cb.formats[..k] == cb.formats;
  }

  /**
   * `get_all_clipboard_formats()`: build `format_map`, open the clipboard, walk
   * the enumeration from 0 until it returns 0, list each format, print the data
   * of CF_UNICODETEXT and CF_HDROP, and close the clipboard on every path.
   */
  method GetAllClipboardFormats(cb: Clipboard) returns (output: seq<Line>)
    requires cb.Valid() && Typed(cb.contents)
    modifies cb
    ensures !cb.isOpen && cb.closeCount == old(cb.closeCount) + 1
    ensures cb.requests == old(cb.requests) + if cb.openSucceeds then Fetched(cb.formats) else []
    ensures output == (if cb.openSucceeds then Transcript(FormatTable(), cb.formats, cb.contents) else [])
                    + (if !cb.openSucceeds || cb.enumRaises then [ErrorOccurred] else [])
  {
    var formatMap := BuildFormatMap();
    output := [];
    var isOpen := cb.OpenClipboard();
    if !isOpen {
      output := output + [ErrorOccurred];
    } else {
      var raised;
      output, raised := ListAllFormats(cb, formatMap);
      if raised {
        output := output + [ErrorOccurred];
      }
    }
    cb.CloseClipboard();
  }
}
