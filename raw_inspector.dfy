/**
 * clipboard_inspector_raw.py: list every clipboard format and write each
 * format's data, as raw bytes, to `clipboard_dump_<time>_<name>.hex`.
 */
module RawInspector {
  import opened PyText
  import opened Platform
  import opened Catalogue

  /** The dumper's `format_map` literal, in source order. */
  const RawCatalogue: seq<Entry> := [
    Entry(CF_TEXT, "CF_TEXT"), Entry(CF_BITMAP, "CF_BITMAP"),
    Entry(CF_DIB, "CF_DIB"), Entry(CF_DIBV5, "CF_DIBV5"),
    Entry(CF_DSPBITMAP, "CF_DSPBITMAP"), Entry(CF_DSPENHMETAFILE, "CF_DSPENHMETAFILE"),
    Entry(CF_DSPMETAFILEPICT, "CF_DSPMETAFILEPICT"), Entry(CF_DSPTEXT, "CF_DSPTEXT"),
    Entry(CF_ENHMETAFILE, "CF_ENHMETAFILE"), Entry(CF_HDROP, "CF_HDROP_FileList"),
    Entry(CF_LOCALE, "CF_LOCALE"), Entry(CF_METAFILEPICT, "CF_METAFILEPICT"),
    Entry(CF_OEMTEXT, "CF_OEMTEXT"), Entry(CF_OWNERDISPLAY, "CF_OWNERDISPLAY"),
    Entry(CF_PALETTE, "CF_PALETTE"), Entry(CF_PENDATA, "CF_PENDATA"),
    Entry(CF_PRIVATEFIRST, "CF_PRIVATEFIRST"), Entry(CF_PRIVATELAST, "CF_PRIVATELAST"),
    Entry(CF_RIFF, "CF_RIFF"), Entry(CF_SYLK, "CF_SYLK"),
    Entry(CF_TIFF, "CF_TIFF"), Entry(CF_WAVE, "CF_WAVE"),
    Entry(CF_UNICODETEXT, "CF_UNICODETEXT")
  ]

  const UnknownPrefix: string := "UNKNOWN_FORMAT_"

  /** `format_map.get(id, f"UNKNOWN_FORMAT_{id}")`. */
  function FormatName(id: FormatId): string {
    var k := Find(RawCatalogue, id);
    if k >= 0 then RawCatalogue[k].name else UnknownPrefix + Decimal(id)
  }

  // ---------------------------------------------------------------- catalogue facts

  // The literal is checked in three stretches, each a small enough proof for the solver;
  // RawIdsDistinct and RawNamesDistinct combine them.
  lemma RawIdsDistinctLow()
    ensures IdsDistinctFrom(RawCatalogue, 0, 5)
  {
  }

  lemma RawIdsDistinctMid()
    ensures IdsDistinctFrom(RawCatalogue, 5, 12)
  {
  }

  lemma RawIdsDistinctHigh()
    ensures IdsDistinctFrom(RawCatalogue, 12, 23)
  {
  }

  lemma RawNamesDistinctLow()
    ensures NamesDistinctFrom(RawCatalogue, 0, 5)
  {
  }

  lemma RawNamesDistinctMid()
    ensures NamesDistinctFrom(RawCatalogue, 5, 12)
  {
  }

  lemma RawNamesDistinctHigh()
    ensures NamesDistinctFrom(RawCatalogue, 12, 23)
  {
  }

  lemma RawIdsDistinct()
    ensures DistinctIds(RawCatalogue)
  {
    RawIdsDistinctLow();
    RawIdsDistinctMid();
    RawIdsDistinctHigh();
    DistinctIdsInParts(RawCatalogue, 5, 12);
  }

  lemma RawNamesDistinct()
    ensures DistinctNames(RawCatalogue)
  {
    RawNamesDistinctLow();
    RawNamesDistinctMid();
    RawNamesDistinctHigh();
    DistinctNamesInParts(RawCatalogue, 5, 12);
  }

  /** A catalogued format is shown under its catalogue name. */
  lemma KnownFormatName(i: nat)
    requires i < |RawCatalogue|
    ensures FormatName(RawCatalogue[i].id) == RawCatalogue[i].name
  {
    RawIdsDistinct();
    FindListed(RawCatalogue, i);
  }

  /** Any other format is shown as `UNKNOWN_FORMAT_` and its number. */
  lemma UnknownFormatName(id: FormatId)
    requires forall i | 0 <= i < |RawCatalogue| :: RawCatalogue[i].id != id
    ensures FormatName(id) == "UNKNOWN_FORMAT_" + Decimal(id)
  {
    FindIsLast(RawCatalogue, id);
  }

  /** CF_DIF is not in the catalogue, so it gets the fallback name. */
  lemma DifIsUnknown()
    ensures FormatName(CF_DIF) == "UNKNOWN_FORMAT_5"
  {
    UnknownFormatName(CF_DIF);
    assert Decimal(5) == "5";
  }

  // ---------------------------------------------------------------- sanitizing

  /** The characters `[a-zA-Z0-9_]` that survive `re.sub(r'[^a-zA-Z0-9_]', '', ...)`. */
  predicate IsSafeChar(c: char) {
    'a' <= c <= 'z' || 'A' <= c <= 'Z' || '0' <= c <= '9' || c == '_'
  }

  predicate AllSafe(s: string) {
    forall i | 0 <= i < |s| :: IsSafeChar(s[i])
  }

  /** `re.sub(r'[^a-zA-Z0-9_]', '', s)`: drop every character outside the safe set. */
  function Sanitize(s: string): (r: string)
    ensures AllSafe(r) && |r| <= |s|
  {
    if s == [] then []
    else (if IsSafeChar(s[0]) then [s[0]] else []) + Sanitize(s[1..])
  }

  /** `a` is `b` with some characters left out: order is kept. */
  predicate IsSubsequence(a: string, b: string)
    decreases |b|
  {
    if a == [] then true
    else if b == [] then false
    else (a[0] == b[0] && IsSubsequence(a[1..], b[1..])) || IsSubsequence(a, b[1..])
  }

  /** Sanitizing keeps characters in their order ... */
  lemma {:induction false} SanitizeKeepsOrder(s: string)
    ensures IsSubsequence(Sanitize(s), s)
  {
    if s != [] {
      SanitizeKeepsOrder(s[1..]);
      if IsSafeChar(s[0]) {
        assert Sanitize(s) == [s[0]] + Sanitize(s[1..]);
        assert Sanitize(s)[1..] == Sanitize(s[1..]);
      } else {
        assert Sanitize(s) == Sanitize(s[1..]);
      }
    }
  }

  /** ... keeps every occurrence of a safe character and no unsafe one. */
  lemma {:induction false} SanitizeKeepsSafeChars(s: string, c: char)
    ensures multiset(Sanitize(s))[c] == if IsSafeChar(c) then multiset(s)[c] else 0
  {
    if s != [] {
      SanitizeKeepsSafeChars(s[1..], c);
      assert s == [s[0]] + s[1..];
      assert multiset(s) == multiset([s[0]]) + multiset(s[1..]);
    }
  }

  /** A string made only of safe characters is left as it is. */
  lemma {:induction false} SanitizeFixesSafe(s: string)
    requires AllSafe(s)
    ensures Sanitize(s) == s
  {
    if s != [] {
      SanitizeFixesSafe(s[1..]);
    }
  }

  lemma SanitizeIdempotent(s: string)
    ensures Sanitize(Sanitize(s)) == Sanitize(s)
  {
    SanitizeFixesSafe(Sanitize(s));
  }

  lemma {:induction false} SanitizeAppend(a: string, b: string)
    ensures Sanitize(a + b) == Sanitize(a) + Sanitize(b)
  {
    if a != [] {
      assert (a + b)[1..] == a[1..] + b;
      SanitizeAppend(a[1..], b);
    } else {
      assert a + b == b;
    }
  }

  // The names are checked six at a time, each stretch a small enough proof for the solver;
  // CatalogueNamesSafe combines them.
  lemma CatalogueNamesSafeA()
    ensures forall i | 0 <= i < 6 :: AllSafe(RawCatalogue[i].name)
  {
  }

  lemma CatalogueNamesSafeB()
    ensures forall i | 6 <= i < 12 :: AllSafe(RawCatalogue[i].name)
  {
  }

  lemma CatalogueNamesSafeC()
    ensures forall i | 12 <= i < 18 :: AllSafe(RawCatalogue[i].name)
  {
  }

  lemma CatalogueNamesSafeD()
    ensures forall i | 18 <= i < |RawCatalogue| :: AllSafe(RawCatalogue[i].name)
  {
  }

  /** Every catalogue name, such as `CF_HDROP_FileList`, is made of safe characters only. */
  lemma CatalogueNamesSafe()
    ensures forall i | 0 <= i < |RawCatalogue| :: AllSafe(RawCatalogue[i].name)
  {
    CatalogueNamesSafeA();
    CatalogueNamesSafeB();
    CatalogueNamesSafeC();
    CatalogueNamesSafeD();
  }

  lemma CatalogueNamesStartWithC()
    ensures forall i | 0 <= i < |RawCatalogue| :: |RawCatalogue[i].name| > 0 && RawCatalogue[i].name[0] == 'C'
  {
  }

  lemma DigitsAreSafe(s: string)
    requires AllDigits(s)
    ensures AllSafe(s)
  {
    assert forall i | 0 <= i < |s| :: IsDigit(s[i]);
  }

  /** Every display name, catalogued or made up, already is a valid file-name part. */
  lemma FormatNameIsSafe(id: FormatId)
    ensures AllSafe(FormatName(id))
    ensures Sanitize(FormatName(id)) == FormatName(id)
  {
    var k := Find(RawCatalogue, id);
    if k >= 0 {
      CatalogueNamesSafe();
      assert AllSafe(RawCatalogue[k].name);
    } else {
      DigitsAreSafe(Decimal(id));
      assert AllSafe(UnknownPrefix);
    }
    SanitizeFixesSafe(FormatName(id));
  }

  /** Different formats never share a display name. */
  lemma FormatNameInjective(a: FormatId, b: FormatId)
    requires a != b
    ensures FormatName(a) != FormatName(b)
  {
    var ka, kb := Find(RawCatalogue, a), Find(RawCatalogue, b);
    CatalogueNamesStartWithC();
    if ka >= 0 && kb >= 0 {
      RawNamesDistinct();
      assert ka != kb;
      if ka < kb {
        assert RawCatalogue[ka].name != RawCatalogue[kb].name;
      } else {
        assert RawCatalogue[kb].name != RawCatalogue[ka].name;
      }
    } else if ka < 0 && kb < 0 {
      DecimalInjective(a, b);
      var na, nb := UnknownPrefix + Decimal(a), UnknownPrefix + Decimal(b);
      assert na[|UnknownPrefix|..] == Decimal(a) && nb[|UnknownPrefix|..] == Decimal(b);
    } else if ka >= 0 {
      assert FormatName(a)[0] == 'C' && FormatName(b)[0] == 'U';
    } else {
      assert FormatName(a)[0] == 'U' && FormatName(b)[0] == 'C';
    }
  }

  // ---------------------------------------------------------------- file names

  const DumpPrefix: string := "clipboard_dump_"
  const DumpSuffix: string := ".hex"

  /** `f"clipboard_dump_{timestamp}_{safe_filename}.hex"` with the name sanitized first. */
  function DumpFileName(timestamp: nat, formatName: string): string {
    DumpPrefix + Decimal(timestamp) + "_" + Sanitize(formatName) + DumpSuffix
  }

  /** In `a + "_" + x` with `a` all digits, the first `_` stands right after `a`. */
  lemma FirstUnderscore(a: string, x: string)
    requires AllDigits(a)
    ensures (a + "_" + x)[|a|] == '_'
    ensures forall i | 0 <= i < |a| :: (a + "_" + x)[i] != '_'
  {
    assert forall i | 0 <= i < |a| :: (a + "_" + x)[i] == a[i] && IsDigit(a[i]);
  }

  /** Cutting a string at its first `_` when the part before it holds only digits. */
  lemma SplitAtUnderscore(a: string, x: string, b: string, y: string)
    requires AllDigits(a) && AllDigits(b)
    requires a + "_" + x == b + "_" + y
    ensures a == b && x == y
  {
    var s := a + "_" + x;
    FirstUnderscore(a, x);
    FirstUnderscore(b, y);
    assert |a| <= |b|;
    assert |b| <= |a|;
    assert a == s[..|a|] && b == (b + "_" + y)[..|b|];
    assert x == s[|a| + 1..] && y == (b + "_" + y)[|b| + 1..];
  }

  lemma StripAffixes(p: string, m1: string, m2: string, q: string)
    requires p + m1 + q == p + m2 + q
    ensures m1 == m2
  {
    var f := p + m1 + q;
    assert f[|p|..|f| - |q|] == m1;
    assert (p + m2 + q)[|p|..|f| - |q|] == m2;
  }

  /** Two dumps share a file name exactly when they share the timestamp and the sanitized name. */
  lemma DumpFileNameInjective(t1: nat, n1: string, t2: nat, n2: string)
    ensures DumpFileName(t1, n1) == DumpFileName(t2, n2) <==> t1 == t2 && Sanitize(n1) == Sanitize(n2)
  {
    var d1, d2 := Decimal(t1), Decimal(t2);
    var m1, m2 := d1 + "_" + Sanitize(n1), d2 + "_" + Sanitize(n2);
    assert DumpFileName(t1, n1) == DumpPrefix + m1 + DumpSuffix;
    assert DumpFileName(t2, n2) == DumpPrefix + m2 + DumpSuffix;
    if DumpFileName(t1, n1) == DumpFileName(t2, n2) {
      StripAffixes(DumpPrefix, m1, m2, DumpSuffix);
      SplitAtUnderscore(d1, Sanitize(n1), d2, Sanitize(n2));
      DecimalInjective(t1, t2);
    }
  }

  /** Different formats are always dumped to different files, whatever the clock says. */
  lemma DistinctFormatsDistinctFiles(t1: nat, a: FormatId, t2: nat, b: FormatId)
    requires a != b
    ensures DumpFileName(t1, FormatName(a)) != DumpFileName(t2, FormatName(b))
  {
    FormatNameInjective(a, b);
    FormatNameIsSafe(a);
    FormatNameIsSafe(b);
    DumpFileNameInjective(t1, FormatName(a), t2, FormatName(b));
  }

  /** An unrecognised format number is visible, digit for digit, in its file name. */
  lemma UnknownFormatFileName(ts: nat, id: FormatId)
    requires forall i | 0 <= i < |RawCatalogue| :: RawCatalogue[i].id != id
    ensures DumpFileName(ts, FormatName(id)) == DumpPrefix + Decimal(ts) + "_UNKNOWN_FORMAT_" + Decimal(id) + DumpSuffix
  {
    FormatNameIsSafe(id);
    var stamp, digits := Decimal(ts), Decimal(id);
    assert Sanitize(FormatName(id)) == UnknownPrefix + digits;
    assert "_" + UnknownPrefix == "_UNKNOWN_FORMAT_";
    assert DumpPrefix + stamp + "_" + (UnknownPrefix + digits) + DumpSuffix
        == DumpPrefix + stamp + ("_" + UnknownPrefix) + digits + DumpSuffix;
  }

  // ---------------------------------------------------------------- byte normalisation

  /** The bytes `save_hex_dump` writes: a byte buffer as it is, anything else as UTF-8 of `str()`. */
  function DumpBytes(p: Payload): seq<byte> {
    if !IsByteShaped(p) then Utf8Encode(Str(p)) else p.bytes
  }

  /** The dump of a byte buffer is that buffer; the dump of anything else decodes back to its text. */
  lemma DumpBytesFaithful(p: Payload)
    ensures IsByteShaped(p) ==> DumpBytes(p) == p.bytes
    ensures !IsByteShaped(p) ==> Utf8Decode(DumpBytes(p)) == Some(Str(p))
  {
    if !IsByteShaped(p) {
      Utf8RoundTrip(Str(p));
    }
  }

  /** An ASCII text payload is dumped one byte per character. */
  lemma AsciiTextDump(t: string)
    requires IsAscii(t)
    ensures |DumpBytes(Text(t))| == |t|
    ensures forall i | 0 <= i < |t| :: DumpBytes(Text(t))[i] == t[i] as int
  {
    AsciiEncoding(t);
  }

  /**
   * `save_hex_dump(data, filename)`: write the normalised bytes; a failing
   * `open` or `write` is reported on the console and goes no further.
   */
  method SaveHexDump(fs: FileSystem, data: Payload, filename: string)
    modifies fs
    ensures fs.files == if fs.writable(filename) then old(fs.files)[filename := DumpBytes(data)] else old(fs.files)
  {
    var byteData: seq<byte>;
    if !IsByteShaped(data) {
      byteData := Utf8Encode(Str(data));
    } else {
      byteData := data.bytes;
    }
    var written := fs.WriteBytes(filename, byteData);
  }

  // ---------------------------------------------------------------- the enumeration loop

  /** One call of `save_hex_dump`: the format, the clock reading, the file name and the data. */
  datatype Dump = Dump(format: FormatId, timestamp: nat, fileName: string, payload: Payload)

  /**
   * The dumps a pass over `ids` attempts when formats are named by `naming`: one for
   * each format whose data could be fetched, in enumeration order, the k-th format
   * stamped with `clock(k)`. The script names formats with `FormatName`.
   */
  function DumpPlan(ids: seq<FormatId>, contents: FormatId -> Fetch, clock: nat -> nat, naming: FormatId -> string): seq<Dump>
    decreases |ids|
  {
    if ids == [] then []
    else
      var k := |ids| - 1;
      DumpPlan(ids[..k], contents, clock, naming) +
        match contents(ids[k])
        case Ok(p) => [DumpFor(ids, clock, naming, k, p)]
        case Fail => []
  }

  /** The files after the planned writes, each to a writable name replacing what was there. */
  function ApplyWrites(files: map<string, seq<byte>>, plan: seq<Dump>, writable: string -> bool): map<string, seq<byte>>
    decreases |plan|
  {
    if plan == [] then files
    else
      var d := plan[|plan| - 1];
      var before := ApplyWrites(files, plan[..|plan| - 1], writable);
      if writable(d.fileName) then before[d.fileName := DumpBytes(d.payload)] else before
  }

  /** The dump a pass attempts for the k-th format when its fetch yields `p`. */
  function DumpFor(ids: seq<FormatId>, clock: nat -> nat, naming: FormatId -> string, k: nat, p: Payload): Dump
    requires k < |ids|
  {
    Dump(ids[k], clock(k), DumpFileName(clock(k), naming(ids[k])), p)
  }

  /** Extending the enumeration by one format extends the plan by that format's dump, if any. */
  lemma DumpPlanStep(ids: seq<FormatId>, contents: FormatId -> Fetch, clock: nat -> nat, naming: FormatId -> string, id: FormatId)
    ensures DumpPlan(ids + [id], contents, clock, naming) == DumpPlan(ids, contents, clock, naming) +
      match contents(id)
      case Ok(p) => [Dump(id, clock(|ids|), DumpFileName(clock(|ids|), naming(id)), p)]
      case Fail => []
  {
    assert (ids + [id])[..|ids|] == ids;
  }

  /** Writing one more dump applies it on top of the earlier writes. */
  lemma ApplyWritesStep(files: map<string, seq<byte>>, plan: seq<Dump>, writable: string -> bool, d: Dump)
    ensures ApplyWrites(files, plan + [d], writable) == ApplyWrites(ApplyWrites(files, plan, writable), [d], writable)
  {
    assert (plan + [d])[..|plan|] == plan;
    assert [d][..0] == [];
  }

  /** `plan` with every dump of format `id` taken out. */
  function Without(plan: seq<Dump>, id: FormatId): (r: seq<Dump>)
    ensures |r| <= |plan|
  {
    if plan == [] then []
    else Without(plan[..|plan| - 1], id) + if plan[|plan| - 1].format == id then [] else [plan[|plan| - 1]]
  }

  /**
   * A failing fetch costs exactly its own dump: with `bad` failing for format `k`
   * and otherwise answering as `good` does, the pass dumps what it would have
   * dumped under `good`, less the dumps of `k`.
   */
  lemma {:induction false} FetchFailureSkipsOnlyThatFormat(ids: seq<FormatId>, good: FormatId -> Fetch, bad: FormatId -> Fetch,
                                                          clock: nat -> nat, naming: FormatId -> string, k: FormatId)
    requires bad(k).Fail?
    requires forall id :: id != k ==> bad(id) == good(id)
    ensures DumpPlan(ids, bad, clock, naming) == Without(DumpPlan(ids, good, clock, naming), k)
  {
    if ids != [] {
      var n := |ids| - 1;
      FetchFailureSkipsOnlyThatFormat(ids[..n], good, bad, clock, naming, k);
      var before := DumpPlan(ids[..n], good, clock, naming);
      var plan := DumpPlan(ids, good, clock, naming);
      if good(ids[n]).Ok? {
        assert plan == before + [DumpFor(ids, clock, naming, n, good(ids[n]).payload)];
        assert plan[..|plan| - 1] == before;
      } else {
        assert plan == before;
      }
    }
  }

  /** When every fetch succeeds, the pass dumps every format once, in enumeration order. */
  lemma {:induction false} EveryFetchedFormatDumpedInOrder(ids: seq<FormatId>, contents: FormatId -> Fetch,
                                                          clock: nat -> nat, naming: FormatId -> string)
    requires forall j | 0 <= j < |ids| :: contents(ids[j]).Ok?
    ensures |DumpPlan(ids, contents, clock, naming)| == |ids|
    ensures forall j | 0 <= j < |ids| ::
      DumpPlan(ids, contents, clock, naming)[j] == DumpFor(ids, clock, naming, j, contents(ids[j]).payload)
  {
    if ids != [] {
      var n := |ids| - 1;
      EveryFetchedFormatDumpedInOrder(ids[..n], contents, clock, naming);
      var before := DumpPlan(ids[..n], contents, clock, naming);
      var plan := DumpPlan(ids, contents, clock, naming);
      assert plan == before + [DumpFor(ids, clock, naming, n, contents(ids[n]).payload)];
      forall j | 0 <= j < |ids|
        ensures plan[j] == DumpFor(ids, clock, naming, j, contents(ids[j]).payload)
      {
        if j < n {
          assert ids[..n][j] == ids[j];
          assert plan[j] == before[j];
        }
      }
    }
  }

  /** Each format whose fetch succeeds is dumped, under its own name and clock reading. */
  lemma {:induction false} FetchedFormatIsDumped(ids: seq<FormatId>, contents: FormatId -> Fetch,
                                                clock: nat -> nat, naming: FormatId -> string, j: nat)
    requires j < |ids| && contents(ids[j]).Ok?
    ensures DumpFor(ids, clock, naming, j, contents(ids[j]).payload) in DumpPlan(ids, contents, clock, naming)
  {
    var n := |ids| - 1;
    if j < n {
      FetchedFormatIsDumped(ids[..n], contents, clock, naming, j);
      assert ids[..n][j] == ids[j];
    }
  }

  /** A dump whose name is the file name of its own format and clock reading. */
  predicate WellNamed(d: Dump, naming: FormatId -> string) {
    d.fileName == DumpFileName(d.timestamp, naming(d.format))
  }

  /** Every dump is of an enumerated format, with the data its fetch produced, under its own name. */
  lemma {:induction false} DumpedFormatWasFetched(ids: seq<FormatId>, contents: FormatId -> Fetch,
                                                 clock: nat -> nat, naming: FormatId -> string)
    ensures forall d | d in DumpPlan(ids, contents, clock, naming) ::
      d.format in ids && contents(d.format) == Ok(d.payload) && WellNamed(d, naming)
  {
    if ids != [] {
      var n := |ids| - 1;
      DumpedFormatWasFetched(ids[..n], contents, clock, naming);
      assert forall id | id in ids[..n] :: id in ids;
    }
  }

  /** Different formats get names that stay different once sanitized. */
  ghost predicate Distinguishes(naming: FormatId -> string) {
    forall a, b | a != b :: Sanitize(naming(a)) != Sanitize(naming(b))
  }

  /** The script's names tell every two formats apart, even after sanitizing. */
  lemma FormatNamesDistinguish()
    ensures Distinguishes(FormatName)
  {
    forall a, b | a != b
      ensures Sanitize(FormatName(a)) != Sanitize(FormatName(b))
    {
      FormatNameInjective(a, b);
      FormatNameIsSafe(a);
      FormatNameIsSafe(b);
    }
  }

  /** With no format enumerated twice, no two dumps of a pass share a file. */
  lemma {:induction false} DumpFileNamesDistinct(ids: seq<FormatId>, contents: FormatId -> Fetch,
                                                clock: nat -> nat, naming: FormatId -> string)
    requires IsFormatList(ids) && Distinguishes(naming)
    ensures DistinctFileNames(DumpPlan(ids, contents, clock, naming))
  {
    if ids != [] {
      var n := |ids| - 1;
      var before := DumpPlan(ids[..n], contents, clock, naming);
      var plan := DumpPlan(ids, contents, clock, naming);
      DumpFileNamesDistinct(ids[..n], contents, clock, naming);
      if contents(ids[n]).Ok? {
        var last := DumpFor(ids, clock, naming, n, contents(ids[n]).payload);
        assert plan == before + [last];
        DumpedFormatWasFetched(ids[..n], contents, clock, naming);
        forall a | 0 <= a < |before|
          ensures before[a].fileName != last.fileName
        {
          var d := before[a];
          assert d in before;
          assert d.format != ids[n];
          DumpFileNameInjective(d.timestamp, naming(d.format), clock(n), naming(ids[n]));
        }
      }
    }
  }

  /** No two dumps of `plan` share a file. */
  predicate DistinctFileNames(plan: seq<Dump>) {
    forall a, b | 0 <= a < b < |plan| :: plan[a].fileName != plan[b].fileName
  }

  /** When no two dumps share a file, a dump to a writable file leaves there exactly its own bytes. */
  lemma {:induction false} DumpLandsInItsFile(files: map<string, seq<byte>>, plan: seq<Dump>, writable: string -> bool, a: nat)
    requires DistinctFileNames(plan) && a < |plan| && writable(plan[a].fileName)
    ensures plan[a].fileName in ApplyWrites(files, plan, writable)
    ensures ApplyWrites(files, plan, writable)[plan[a].fileName] == DumpBytes(plan[a].payload)
  {
    var n := |plan| - 1;
    if a < n {
      assert plan[a].fileName != plan[n].fileName;
      assert plan[..n][a] == plan[a];
      DumpLandsInItsFile(files, plan[..n], writable, a);
    }
  }

  /** A file that no dump names is left as it was. */
  lemma {:induction false} UnnamedFileUntouched(files: map<string, seq<byte>>, plan: seq<Dump>, writable: string -> bool, name: string)
    requires forall a | 0 <= a < |plan| :: plan[a].fileName != name
    ensures name in ApplyWrites(files, plan, writable) <==> name in files
    ensures name in files ==> ApplyWrites(files, plan, writable)[name] == files[name]
  {
    if plan != [] {
      var n := |plan| - 1;
      assert forall a | 0 <= a < n :: plan[..n][a] == plan[a];
      UnnamedFileUntouched(files, plan[..n], writable, name);
    }
  }

  /** End to end: a format whose data was fetched and whose file could be written ends up on disk, byte for byte. */
  lemma FetchedFormatIsOnDisk(ids: seq<FormatId>, contents: FormatId -> Fetch, clock: nat -> nat,
                              files: map<string, seq<byte>>, writable: string -> bool, j: nat)
    requires IsFormatList(ids) && j < |ids| && contents(ids[j]).Ok?
    requires writable(DumpFileName(clock(j), FormatName(ids[j])))
    ensures var name := DumpFileName(clock(j), FormatName(ids[j]));
      && name in ApplyWrites(files, DumpPlan(ids, contents, clock, FormatName), writable)
      && ApplyWrites(files, DumpPlan(ids, contents, clock, FormatName), writable)[name] == DumpBytes(contents(ids[j]).payload)
  {
    var plan := DumpPlan(ids, contents, clock, FormatName);
    FetchedFormatIsDumped(ids, contents, clock, FormatName, j);
    FormatNamesDistinguish();
    DumpFileNamesDistinct(ids, contents, clock, FormatName);
    var a :| 0 <= a < |plan| && plan[a] == DumpFor(ids, clock, FormatName, j, contents(ids[j]).payload);
    DumpLandsInItsFile(files, plan, writable, a);
  }

  /**
   * The `try` block of lines 69-86 for one format: fetch its data and, when the
   * fetch succeeds, sanitize the name, read the clock and save the dump.
   */
  method DumpOneFormat(cb: Clipboard, fs: FileSystem, current: FormatId, timestamp: nat)
    returns (dump: Option<Dump>)
    requires cb.isOpen
    modifies cb`requests, fs
    ensures cb.requests == old(cb.requests) + [current]
    ensures dump == match cb.contents(current)
      case Ok(p) => Some(Dump(current, timestamp, DumpFileName(timestamp, FormatName(current)), p))
      case Fail => None
    ensures fs.files == if dump.Some? then ApplyWrites(old(fs.files), [dump.value], fs.writable) else old(fs.files)
  {
    var formatName := FormatName(current);
    var fetched := cb.GetClipboardData(current);
    if fetched.Ok? {
      var safeFilename := Sanitize(formatName);
      var outputFilename := DumpPrefix + Decimal(timestamp) + "_" + safeFilename + DumpSuffix;
      SaveHexDump(fs, fetched.payload, outputFilename);
      dump := Some(Dump(current, timestamp, outputFilename, fetched.payload));
    } else {
      dump := None;
    }
  }

  /** What one run reports: the formats listed, the dumps attempted, and the console summary. */
  datatype Run = Run(listed: seq<FormatId>, dumps: seq<Dump>, formatsFound: bool,
                     noFormatsReported: bool, errorReported: bool)

  /**
   * The `while True` loop of lines 56-86: walk the enumeration from 0 until it
   * returns 0 or raises, dumping each format whose data can be fetched.
   */
  method DumpAllFormats(cb: Clipboard, fs: FileSystem, clock: nat -> nat)
    returns (listed: seq<FormatId>, dumps: seq<Dump>, formatsFound: bool, raised: bool)
    requires cb.Valid() && cb.isOpen
    modifies cb`requests, fs
    ensures listed == cb.formats && raised == cb.enumRaises
    ensures formatsFound <==> listed != []
    ensures cb.requests == old(cb.requests) + listed
    ensures dumps == DumpPlan(listed, cb.contents, clock, FormatName)
    ensures fs.files == ApplyWrites(old(fs.files), dumps, fs.writable)
  {
    listed, dumps, formatsFound, raised := [], [], false, false;
    var current: FormatId := 0;
    while true
      invariant |listed| <= |cb.formats| && listed == cb.formats[..|listed|]
      invariant formatsFound <==> listed != []
      invariant current == if listed == [] then 0 else listed[|listed| - 1]
      invariant cb.requests == old(cb.requests) + listed
      invariant dumps == DumpPlan(listed, cb.contents, clock, FormatName)
      invariant fs.files == ApplyWrites(old(fs.files), dumps, fs.writable)
      invariant !raised
      decreases |cb.formats| - |listed|
    {
      NextFormatSteps(cb.formats, |listed|);
      var reply := cb.EnumClipboardFormats(current);
      if reply.Raised? {
        raised := true;
        break;
      }
      current := reply.format;
      if current == 0 {
        break;
      }
      formatsFound := true;
      var k := |listed|;
      assert cb.formats[..k + 1] == listed + [current];
      var dump := DumpOneFormat(cb, fs, current, clock(k));
      DumpPlanStep(listed, cb.contents, clock, FormatName, current);
      listed := listed + [current];
      if dump.Some? {
        ApplyWritesStep(old(fs.files), dumps, fs.writable, dump.value);
        dumps := dumps + [dump.value];
      }
      assert listed[..k] == listed[..|listed| - 1];
    }
    assert listed == cb.formats;
  }

  /**
   * `inspect_and_dump_clipboard()`: open the clipboard, walk the enumeration from 0
   * until it returns 0, name each format, fetch its data and dump it, skipping a
   * format whose fetch raises; close the clipboard on every path.
   */
  method InspectAndDumpClipboard(cb: Clipboard, fs: FileSystem, clock: nat -> nat) returns (run: Run)
    requires cb.Valid()
    modifies cb, fs
    ensures !cb.isOpen && cb.closeCount == old(cb.closeCount) + 1
    ensures run.listed == if cb.openSucceeds then cb.formats else []
    ensures cb.requests == old(cb.requests) + run.listed
    ensures run.dumps == DumpPlan(run.listed, cb.contents, clock, FormatName)
    ensures fs.files == ApplyWrites(old(fs.files), run.dumps, fs.writable)
    ensures run.formatsFound <==> run.listed != []
    ensures run.errorReported <==> !cb.openSucceeds || cb.enumRaises
    ensures run.noFormatsReported <==> cb.openSucceeds && !cb.enumRaises && cb.formats == []
  {
    var listed: seq<FormatId> := [];
    var dumps: seq<Dump> := [];
    var formatsFound := false;
    var noFormatsReported := false;
    var errorReported := false;
    var isOpen := cb.OpenClipboard();
    if !isOpen {
      errorReported := true;
    } else {
      listed, dumps, formatsFound, errorReported := DumpAllFormats(cb, fs, clock);
      if !errorReported {
        noFormatsReported := !formatsFound;
      }
    }
    cb.CloseClipboard();
    run := Run(listed, dumps, formatsFound, noFormatsReported, errorReported);
  }
}
