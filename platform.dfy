/**
 * The operating-system services the two clipboard scripts call, as an abstract
 * machine: the Windows clipboard behind `win32clipboard` (with the format numbers
 * of `win32con`), and the file writes behind Python's `open(name, 'wb')`.
 * What the real system would answer is fixed when an object is built: the list
 * of published formats, what fetching each one yields, and whether opening,
 * enumerating and writing succeed.
 */
module Platform {
  import opened PyText

  /** A clipboard format number (a Windows `UINT`; 0 is never a format). */
  type FormatId = nat

  // The standard clipboard formats of winuser.h, as win32con names them.
  const CF_TEXT: FormatId := 1
  const CF_BITMAP: FormatId := 2
  const CF_METAFILEPICT: FormatId := 3
  const CF_SYLK: FormatId := 4
  const CF_DIF: FormatId := 5
  const CF_TIFF: FormatId := 6
  const CF_OEMTEXT: FormatId := 7
  const CF_DIB: FormatId := 8
  const CF_PALETTE: FormatId := 9
  const CF_PENDATA: FormatId := 10
  const CF_RIFF: FormatId := 11
  const CF_WAVE: FormatId := 12
  const CF_UNICODETEXT: FormatId := 13
  const CF_ENHMETAFILE: FormatId := 14
  const CF_HDROP: FormatId := 15
  const CF_LOCALE: FormatId := 16
  const CF_DIBV5: FormatId := 17
  const CF_OWNERDISPLAY: FormatId := 0x80
  const CF_DSPTEXT: FormatId := 0x81
  const CF_DSPBITMAP: FormatId := 0x82
  const CF_DSPMETAFILEPICT: FormatId := 0x83
  const CF_DSPENHMETAFILE: FormatId := 0x8E
  const CF_PRIVATEFIRST: FormatId := 0x200
  const CF_PRIVATELAST: FormatId := 0x2FF

  /**
   * What `GetClipboardData` hands back. Python objects other than byte buffers
   * carry their `str()` rendering where the model needs it but cannot compute it.
   */
  datatype Payload =
    | Bytes(bytes: seq<byte>)                // a `bytes` object
    | View(bytes: seq<byte>)                 // a `memoryview` over those bytes
    | Text(text: string)                     // a `str` (CF_UNICODETEXT)
    | Int(value: int)                        // an `int`, such as a GDI handle
    | Paths(paths: seq<string>, shown: string)  // the tuple of paths of CF_HDROP
    | Other(shown: string)                   // any other object

  predicate IsByteShaped(p: Payload) {
    p.Bytes? || p.View?
  }

  /** `str(p)` for a payload that is not a byte buffer. */
  function Str(p: Payload): (s: string)
    requires !IsByteShaped(p)
    ensures p.Text? ==> s == p.text
    ensures p.Int? ==> s == IntStr(p.value)
  {
    match p
    case Text(t) => t
    case Int(n) => IntStr(n)
    case Paths(_, shown) => shown
    case Other(shown) => shown
  }

  /** Different int payloads, such as two handles, print differently, and a text payload prints as itself. */
  lemma StrDistinguishesInts(a: int, b: int, t: string)
    ensures Str(Int(a)) == Str(Int(b)) <==> a == b
    ensures Str(Text(t)) == t
  {
    IntStrInjective(a, b);
  }

  /** The outcome of one `GetClipboardData` call: a payload, or an exception. */
  datatype Fetch = Ok(payload: Payload) | Fail

  /** What pywin32 returns for CF_UNICODETEXT and CF_HDROP: a `str` and a tuple of paths. */
  ghost predicate Typed(contents: FormatId -> Fetch) {
    && (contents(CF_UNICODETEXT).Ok? ==> contents(CF_UNICODETEXT).payload.Text?)
    && (contents(CF_HDROP).Ok? ==> contents(CF_HDROP).payload.Paths?)
  }

  /** The outcome of one `EnumClipboardFormats` call: a number (0 ends the list), or an exception. */
  datatype EnumReply = Returned(format: nat) | Raised

  /** A list the clipboard can publish: 0 is not a format, and no format is listed twice. */
  ghost predicate IsFormatList(fs: seq<FormatId>) {
    && (forall i | 0 <= i < |fs| :: fs[i] != 0)
    && (forall i, j | 0 <= i < j < |fs| :: fs[i] != fs[j])
  }

  /** The format listed after `cur`, or 0 when `cur` is last or not listed. */
  function After(fs: seq<FormatId>, cur: FormatId): FormatId {
    if |fs| < 2 then 0
    else if fs[0] == cur then fs[1]
    else After(fs[1..], cur)
  }

  /** The answer of `EnumClipboardFormats(cur)`: the first format for 0, otherwise the next one. */
  function NextFormat(fs: seq<FormatId>, cur: FormatId): FormatId {
    if cur == 0 then (if fs == [] then 0 else fs[0]) else After(fs, cur)
  }

  lemma {:induction false} AfterListed(fs: seq<FormatId>, i: nat)
    requires IsFormatList(fs) && i < |fs|
    ensures After(fs, fs[i]) == if i + 1 < |fs| then fs[i + 1] else 0
  {
    if |fs| >= 2 && i > 0 {
      assert fs[0] != fs[i];
      AfterListed(fs[1..], i - 1);
    }
  }

  /**
   * Stepping the enumeration from 0 visits the list in order: after the formats
   * `fs[..k]` have been returned, the next call returns `fs[k]`, or 0 once all are out.
   */
  lemma NextFormatSteps(fs: seq<FormatId>, k: nat)
    requires IsFormatList(fs) && k <= |fs|
    ensures NextFormat(fs, if k == 0 then 0 else fs[k - 1]) == if k < |fs| then fs[k] else 0
  {
    if k > 0 {
      AfterListed(fs, k - 1);
    }
  }

  /** The Windows clipboard as `win32clipboard` presents it to one process. */
  class Clipboard {
    /** The formats on the clipboard, in the order the system enumerates them. */
    const formats: seq<FormatId>
    /** What `GetClipboardData` yields for each format. */
    const contents: FormatId -> Fetch
    /** Whether `OpenClipboard` succeeds (another process may hold the clipboard). */
    const openSucceeds: bool
    /** Whether the call after the last format raises instead of returning 0. */
    const enumRaises: bool

    var isOpen: bool
    /** How often `CloseClipboard` has been called. */
    var closeCount: nat
    /** Every `GetClipboardData` call so far, in order. */
    var requests: seq<FormatId>

    ghost predicate Valid() {
      IsFormatList(formats)
    }

    constructor (formats: seq<FormatId>, contents: FormatId -> Fetch, openSucceeds: bool, enumRaises: bool)
      ensures this.formats == formats && this.contents == contents
      ensures this.openSucceeds == openSucceeds && this.enumRaises == enumRaises
      ensures !isOpen && closeCount == 0 && requests == []
    {
      this.formats := formats;
      this.contents := contents;
      this.openSucceeds := openSucceeds;
      this.enumRaises := enumRaises;
      isOpen := false;
      closeCount := 0;
      requests := [];
    }

    function EnumAnswer(current: FormatId): (r: EnumReply)
      ensures r.Raised? <==> NextFormat(formats, current) == 0 && enumRaises
      ensures r.Returned? ==> r.format == NextFormat(formats, current)
    {
      var next := NextFormat(formats, current);
      if next == 0 && enumRaises then Raised else Returned(next)
    }

    method OpenClipboard() returns (ok: bool)
      modifies this`isOpen
      ensures ok == openSucceeds
      ensures isOpen == (old(isOpen) || ok)
    {
      ok := openSucceeds;
      if ok {
        isOpen := true;
      }
    }

    method EnumClipboardFormats(current: FormatId) returns (r: EnumReply)
      requires isOpen
      ensures r == EnumAnswer(current)
    {
      r := EnumAnswer(current);
    }

    method GetClipboardData(id: FormatId) returns (f: Fetch)
      requires isOpen
      modifies this`requests
      ensures f == contents(id)
      ensures requests == old(requests) + [id]
    {
      f := contents(id);
      requests := requests + [id];
    }

    method CloseClipboard()
      modifies this`isOpen, this`closeCount
      ensures !isOpen && closeCount == old(closeCount) + 1
    {
      isOpen := false;
      closeCount := closeCount + 1;
    }
  }

  /** The working directory's files, as far as `open(name, 'wb').write(data)` changes them. */
  class FileSystem {
    /** Whether opening `name` for writing and writing to it succeed. */
    const writable: string -> bool
    var files: map<string, seq<byte>>

    constructor (writable: string -> bool, files: map<string, seq<byte>>)
      ensures this.writable == writable && this.files == files
    {
      this.writable := writable;
      this.files := files;
    }

    /** Creates or truncates `name` and writes `data`; `ok` is false where Python would raise. */
    method WriteBytes(name: string, data: seq<byte>) returns (ok: bool)
      modifies this`files
      ensures ok == writable(name)
      ensures files == if ok then old(files)[name := data] else old(files)
    {
      ok := writable(name);
      if ok {
        files := files[name := data];
      }
    }
  }
}
