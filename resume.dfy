/**
 * The resume download endpoint (`GET /api/resume?format=…`): choose a file
 * from the listing of the resumes directory, then set the response's
 * Content-Type and Content-Disposition from the chosen file's extension.
 *
 * The directory listing is an input (the names `fs.readdir` returned, in
 * its order); the file's bytes are opaque and stand as its name.
 */
module Resume {
  import opened Wrappers
  import opened Strings

  const DefaultFormat := "pdf"
  const PdfType := "application/pdf"
  // The Word type, written in three pieces so that each can be checked on its own.
  const DocxType := "application/vnd.openxml" + "formats-officedocument." + "wordprocessingml.document"
  const OtherType := "application/octet-stream"
  const DownloadName := "Daniel_Koryat_Resume."
  const AttachmentHead := "attachment; filename=\""
  const DownloadFailed := "Failed to download resume. Please try again later."

  /** The reply: a JSON error, or the file with its response headers. */
  datatype ResumeReply =
    | JsonError(status: int, error: string)
    | FileDownload(status: int, file: string, headers: map<string, string>)

  /** A character `headers.set` accepts in a value: a byte (at most U+00FF) other than NUL, LF and CR. */
  predicate HeaderChar(c: char) {
    c as int < 0x100 && c != '\0' && c != '\n' && c != '\r'
  }

  /**
   * A value `headers.set` stores: its conversion to a byte string succeeds
   * and it holds no NUL, LF or CR. Any other value makes `set` throw a
   * `TypeError`.
   */
  predicate HeaderValueOk(v: string) {
    forall i | 0 <= i < |v| :: HeaderChar(v[i])
  }

  /** A concatenation is a valid header value exactly when both parts are. */
  lemma HeaderValueConcat(a: string, b: string)
    ensures HeaderValueOk(a + b) <==> HeaderValueOk(a) && HeaderValueOk(b)
  {
    if HeaderValueOk(a) && HeaderValueOk(b) {
      forall i | |a| <= i < |a + b| ensures HeaderChar((a + b)[i]) {
        assert (a + b)[i] == b[i - |a|];
      }
    }
    if HeaderValueOk(a + b) {
      forall i | 0 <= i < |a| ensures HeaderChar(a[i]) {
        assert (a + b)[i] == a[i];
      }
      forall i | 0 <= i < |b| ensures HeaderChar(b[i]) {
        assert (a + b)[|a| + i] == b[i];
      }
    }
  }

  /** A `Headers` object: a map from header name to value. */
  class Headers {
    var entries: map<string, string>

    constructor ()
      ensures entries == map[]
    {
      entries := map[];
    }

    /**
     * `headers.set(name, value)`: a valid value replaces any earlier value
     * of the same name; an invalid one throws (`ok` is false) and leaves the
     * headers as they were.
     */
    method Set(name: string, value: string) returns (ok: bool)
      modifies this
      ensures ok <==> HeaderValueOk(value)
      ensures entries == if ok then old(entries)[name := value] else old(entries)
    {
      ok := HeaderValueOk(value);
      if ok {
        entries := entries[name := value];
      }
    }
  }

  /** `searchParams.get("format") || "pdf"`. */
  function FormatOf(param: Option<string>): (format: string)
    ensures format != ""
    ensures param.Some? && param.value != "" ==> format == param.value
    ensures param.None? || param.value == "" ==> format == DefaultFormat
  {
    if param.Some? && param.value != "" then param.value else DefaultFormat
  }

  /** The three `files.find` predicates of the route. */
  datatype Rule =
    | ResumeFor(format: string)   // contains "resume" and ends with the format
    | Suffix(suffix: string)      // ends with ".docx" or ".pdf"

  /** Whether `rule` accepts `file`; both compare the lower-cased name. */
  predicate Accepts(rule: Rule, file: string) {
    match rule
    case ResumeFor(format) => Includes(ToLower(file), "resume") && EndsWith(ToLower(file), ToLower(format))
    case Suffix(suffix) => EndsWith(ToLower(file), suffix)
  }

  /** Index of the first name that `rule` accepts, or `|files|` when there is none. */
  function FirstIndex(files: seq<string>, rule: Rule): (k: nat)
    ensures k <= |files|
    ensures forall j :: 0 <= j < k ==> !Accepts(rule, files[j])
    ensures k < |files| ==> Accepts(rule, files[k])
  {
    if |files| == 0 then 0
    else if Accepts(rule, files[0]) then 0
    else 1 + FirstIndex(files[1..], rule)
  }

  /** `files.find(...)`: the first accepted name in listing order, or nothing. */
  function Find(files: seq<string>, rule: Rule): Option<string> {
    var k := FirstIndex(files, rule);
    if k < |files| then Some(files[k]) else None
  }

  /**
   * The `resumeFile` the route settles on: the first name the primary rule
   * accepts; failing that, for format "docx" or "pdf" only (in any case),
   * the first name ending in ".docx" or ".pdf".
   */
  function Chosen(files: seq<string>, format: string): (choice: Option<string>)
    ensures choice.Some? ==> choice.value in files && EndsWith(ToLower(choice.value), ToLower(format))
  {
    var primary := Find(files, ResumeFor(format));
    var lowerFormat := ToLower(format);
    if primary.Some? then primary
    else if lowerFormat == "docx" || lowerFormat == "pdf" then
      var fallback := Find(files, Suffix("." + lowerFormat));
      if fallback.Some? then
        ChosenEndsWithFormat(files, format, Suffix("." + lowerFormat));
        fallback
      else None
    else None
  }

  /**
   * The choice of `resumeFile`: the first name the primary rule accepts;
   * failing that, for format "docx" or "pdf" only, the first name ending in
   * ".docx" or ".pdf".
   */
  method SelectResume(files: seq<string>, format: string) returns (resumeFile: Option<string>)
    ensures resumeFile == Chosen(files, format)
    ensures Find(files, ResumeFor(format)).Some? ==> resumeFile == Find(files, ResumeFor(format))
    ensures Find(files, ResumeFor(format)).None? ==>
      resumeFile == if ToLower(format) in {"docx", "pdf"} then Find(files, Suffix("." + ToLower(format))) else None
    ensures resumeFile.Some? ==> resumeFile.value in files && EndsWith(ToLower(resumeFile.value), ToLower(format))
  {
    var lowerFormat := ToLower(format);
    resumeFile := Find(files, ResumeFor(format));
    ghost var rule := ResumeFor(format);
    if resumeFile.None? && lowerFormat == "docx" {
      resumeFile := Find(files, Suffix(".docx"));
      rule := Suffix(".docx");
      assert "." + lowerFormat == rule.suffix by {
        assert ("." + lowerFormat)[1..] == lowerFormat;
      }
    }
    if resumeFile.None? && lowerFormat == "pdf" {
      resumeFile := Find(files, Suffix(".pdf"));
      rule := Suffix(".pdf");
      assert "." + lowerFormat == rule.suffix by {
        assert ("." + lowerFormat)[1..] == lowerFormat;
      }
    }
    if resumeFile.Some? {
      ChosenEndsWithFormat(files, format, rule);
    }
  }

  /**
   * A name found by the primary rule, or by the suffix rule "." + format,
   * is listed and its lower-cased name ends with the lower-cased format.
   */
  lemma ChosenEndsWithFormat(files: seq<string>, format: string, rule: Rule)
    requires rule == ResumeFor(format) || rule == Suffix("." + ToLower(format))
    requires Find(files, rule).Some?
    ensures var f := Find(files, rule).value;
      f in files && EndsWith(ToLower(f), ToLower(format))
  {
    if rule.Suffix? {
      EndsWithDotted(ToLower(Find(files, rule).value), ToLower(format));
    }
  }

  /** `name.split(".").pop()`: the text after the last ".", or the whole name when there is none. */
  function LastSegment(name: string): (ext: string)
    ensures '.' !in ext
    ensures EndsWith(name, ext)
    ensures |ext| == |name| || name[|name| - |ext| - 1] == '.'
  {
    if |name| == 0 then ""
    else if name[|name| - 1] == '.' then ""
    else
      var init := name[..|name| - 1];
      var ext := LastSegment(init) + [name[|name| - 1]];
      assert name == init + [name[|name| - 1]];
      ext
  }

  /** The segment after the last "." is the only dot-free suffix that is the whole name or follows a ".". */
  lemma {:induction false} LastSegmentUnique(name: string, ext: string)
    requires '.' !in ext && EndsWith(name, ext)
    requires |ext| == |name| || name[|name| - |ext| - 1] == '.'
    ensures ext == LastSegment(name)
  {
    var e := LastSegment(name);
  }

  /** `fileExtension`: the last segment, lower-cased. */
  function Extension(file: string): string {
    ToLower(LastSegment(file))
  }

  /** Lowering the name first gives the same extension: "." is not a letter. */
  lemma ExtensionOfLowered(file: string)
    ensures LastSegment(ToLower(file)) == Extension(file)
  {
    var e := LastSegment(file);
    var lowered, ext := ToLower(file), ToLower(e);
    assert '.' !in ext by {
      LowerKeepsDots(e);
    }
    assert EndsWith(lowered, ext) by {
      LowerKeepsSuffix(file, e);
    }
    assert |ext| == |lowered| || lowered[|lowered| - |ext| - 1] == '.' by {
      if |e| < |file| {
        ToLowerAt(file, |file| - |e| - 1);
      }
    }
    LastSegmentUnique(lowered, ext);
  }

  /** A name whose lower-cased form ends in "." + `ext` (a dot-free `ext`) has extension `ext`. */
  lemma ExtensionAfterDot(file: string, ext: string)
    requires '.' !in ext && EndsWith(ToLower(file), "." + ext)
    ensures Extension(file) == ext
  {
    var t := ToLower(file);
    assert t[|t| - |ext|..] == ext by {
      assert t[|t| - |ext|..] == t[|t| - |ext| - 1..][1..];
    }
    assert t[|t| - |ext| - 1] == t[|t| - |ext| - 1..][0];
    LastSegmentUnique(t, ext);
    ExtensionOfLowered(file);
  }

  /** A file found by the ".pdf" or ".docx" rule is served with the matching Content-Type. */
  lemma FallbackContentType(file: string)
    ensures EndsWith(ToLower(file), ".pdf") ==> ContentType(Extension(file)) == PdfType
    ensures EndsWith(ToLower(file), ".docx") ==> ContentType(Extension(file)) == DocxType
  {
    if EndsWith(ToLower(file), ".pdf") {
      assert ".pdf" == "." + "pdf";
      ExtensionAfterDot(file, "pdf");
    }
    if EndsWith(ToLower(file), ".docx") {
      assert ".docx" == "." + "docx";
      ExtensionAfterDot(file, "docx");
    }
  }

  /** The Content-Type chosen from the extension. */
  function ContentType(ext: string): (t: string)
    ensures t == PdfType <==> ext == "pdf"
    ensures t == DocxType <==> ext == "docx"
    ensures t == OtherType <==> ext != "pdf" && ext != "docx"
  {
    if ext == "pdf" then PdfType
    else if ext == "docx" then DocxType
    else OtherType
  }

  function NotFoundMessage(format: string): string {
    "Resume not found in " + ToUpper(format) + " format. Please upload a resume file to the public/resumes/ directory."
  }

  /** The Content-Disposition value: an attachment under the fixed download name with the file's extension. */
  function Disposition(ext: string): string {
    AttachmentHead + DownloadName + ext + "\""
  }

  lemma AttachmentPartsValid()
    ensures HeaderValueOk(AttachmentHead) && HeaderValueOk(DownloadName) && HeaderValueOk("\"")
  {
  }

  /** The Content-Disposition value can be set exactly when the extension is a valid header value. */
  lemma DispositionValid(ext: string)
    ensures HeaderValueOk(Disposition(ext)) <==> HeaderValueOk(ext)
  {
    AttachmentPartsValid();
    HeaderValueConcat(AttachmentHead, DownloadName);
    HeaderValueConcat(AttachmentHead + DownloadName, ext);
    HeaderValueConcat(AttachmentHead + DownloadName + ext, "\"");
  }

  lemma PdfAndOtherTypeValid()
    ensures HeaderValueOk(PdfType) && HeaderValueOk(OtherType)
  {
  }

  lemma DocxTypeHeadValid()
    ensures HeaderValueOk("application/vnd.openxml")
  {
  }

  lemma DocxTypeMiddleValid()
    ensures HeaderValueOk("formats-officedocument.")
  {
  }

  lemma DocxTypeTailValid()
    ensures HeaderValueOk("wordprocessingml.document")
  {
  }

  /** Every Content-Type the route sets is a valid header value, so setting it never throws. */
  lemma ContentTypesValid(ext: string)
    ensures HeaderValueOk(ContentType(ext))
  {
    PdfAndOtherTypeValid();
    DocxTypeHeadValid();
    DocxTypeMiddleValid();
    DocxTypeTailValid();
    HeaderValueConcat("application/vnd.openxml", "formats-officedocument.");
    HeaderValueConcat("application/vnd.openxml" + "formats-officedocument.", "wordprocessingml.document");
  }

  /**
   * The headers the route sets for a chosen file: its type, then the fixed
   * download name with its extension. `None` when `headers.set` throws,
   * which happens exactly when the extension is not a valid header value.
   */
  method DownloadHeaders(file: string) returns (entries: Option<map<string, string>>)
    ensures entries.Some? <==> HeaderValueOk(Extension(file))
    ensures entries.Some? ==>
      && entries.value.Keys == {"Content-Type", "Content-Disposition"}
      && entries.value["Content-Type"] == ContentType(Extension(file))
      && entries.value["Content-Disposition"] == Disposition(Extension(file))
  {
    var headers := new Headers();
    var fileExtension := Extension(file);
    ContentTypesValid(fileExtension);
    var ok := headers.Set("Content-Type", ContentType(fileExtension));
    assert ok;
    DispositionValid(fileExtension);
    ok := headers.Set("Content-Disposition", Disposition(fileExtension));
    if !ok {
      return None;
    }
    entries := Some(headers.entries);
  }

  /** The 404 message names the requested format in upper case. */
  lemma NotFoundNamesFormat(format: string)
    ensures exists i :: OccursAt(NotFoundMessage(format), ToUpper(format), i)
  {
    assert OccursAt(NotFoundMessage(format), ToUpper(format), |"Resume not found in "|);
  }

  /**
   * `GET /api/resume`. `listing` is what `fs.readdir` returned, or `None`
   * when it threw; `readFails` says whether `fs.readFile` of the chosen file
   * throws. Either failure, and a `headers.set` that throws, lands in the
   * `catch` block.
   */
  method Get(param: Option<string>, listing: Option<seq<string>>, readFails: bool) returns (reply: ResumeReply)
    ensures listing.None? ==> reply == JsonError(500, DownloadFailed)
    ensures listing.Some? ==> var format := FormatOf(param);
      var choice := Chosen(listing.value, format);
      && (choice.None? ==> reply == JsonError(404, NotFoundMessage(format)))
      && (choice.Some? && (readFails || !HeaderValueOk(Extension(choice.value))) ==> reply == JsonError(500, DownloadFailed))
      && (reply.FileDownload? <==> choice.Some? && !readFails && HeaderValueOk(Extension(choice.value)))
      && (reply.FileDownload? ==> reply.file == choice.value)
    ensures reply.FileDownload? ==>
      && listing.Some?
      && reply.status == 200
      && reply.file in listing.value
      && EndsWith(ToLower(reply.file), ToLower(FormatOf(param)))
      && reply.headers.Keys == {"Content-Type", "Content-Disposition"}
      && reply.headers["Content-Type"] == ContentType(Extension(reply.file))
      && reply.headers["Content-Disposition"] == Disposition(Extension(reply.file))
  {
    if listing.None? {
      return JsonError(500, DownloadFailed);
    }
    var format := FormatOf(param);
    var resumeFile := SelectResume(listing.value, format);
    if resumeFile.None? {
      reply := JsonError(404, NotFoundMessage(format));
      return;
    }
    if readFails {
      return JsonError(500, DownloadFailed);
    }
    var file := resumeFile.value;
    var headers := DownloadHeaders(file);
    if headers.None? {
      return JsonError(500, DownloadFailed);
    }
    reply := FileDownload(200, file, headers.value);
  }
}
