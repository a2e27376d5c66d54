/**
 * The control flow of the HTTP function `Function1.Run`: bind the helper
 * to Ghostscript, reject a request without a file, count the pages of the
 * upload and render all of them at 200 DPI, reporting one diagnostic line
 * per step and per page; any exception becomes a 400 response.
 */
module Function1 {
  import opened Wrappers
  import opened DotNet
  import opened Ghostscript
  import opened NativeLibrary
  import opened PageRange
  import opened Pdf

  const FileIsEmpty: string := "File is empty."
  const RunDpi: Int32 := 200

  /** The diagnostic lines of a successful response, in the order they are added. */
  datatype Line =
    | RootApplicationPath(path: string)
    | HelperCreated
    | FileLoaded(fileName: string, length: nat)
    | PagesTotal(count: int)
    | PageImageCreated(width: int, height: int)

  /** The form field `file`: its name, its length and its bytes as the rasteriser sees them. */
  datatype Upload = Upload(fileName: string, length: nat, document: Document)

  /** `OkObjectResult(res)`, `BadRequestObjectResult("File is empty.")` or `BadRequestObjectResult(ex)`. */
  datatype Response = Ok(lines: seq<Line>) | BadRequestText(text: string) | BadRequestError(error: Error)

  /** The lines reported before the pages. */
  function Header(rootApplicationPath: string, file: Upload, pagesTotal: int): (lines: seq<Line>)
    ensures |lines| == 4
    ensures lines[0].RootApplicationPath? && lines[0].path == rootApplicationPath
    ensures lines[1] == HelperCreated
    ensures lines[2].FileLoaded? && lines[2].fileName == file.fileName && lines[2].length == file.length
    ensures lines[3].PagesTotal? && lines[3].count == pagesTotal
    ensures forall i :: 0 <= i < |lines| ==> !lines[i].PageImageCreated?
  {
    [RootApplicationPath(rootApplicationPath)] + [HelperCreated] + [FileLoaded(file.fileName, file.length)] + [PagesTotal(pagesTotal)]
  }

  /** One line per image, with its dimensions, in the images' order. */
  function ImageLines(images: seq<Bitmap>): (lines: seq<Line>)
    ensures |lines| == |images|
    ensures forall i :: 0 <= i < |images| ==> lines[i] == PageImageCreated(images[i].width, images[i].height)
  {
    if images == [] then [] else [PageImageCreated(images[0].width, images[0].height)] + ImageLines(images[1..])
  }

  /** The response `Run` gives, stage by stage. */
  function Respond(rootApplicationPath: string, host: Host, upload: Option<Upload>): (r: Response)
    ensures LoadOutcome(rootApplicationPath, host).Fail? ==> r == BadRequestError(LoadOutcome(rootApplicationPath, host).error)
    ensures r.BadRequestText? ==> upload.None? && r.text == FileIsEmpty
    ensures r.Ok? ==> && upload.Some? && |r.lines| >= 4
                      && r.lines[3].PagesTotal? && r.lines[..4] == Header(rootApplicationPath, upload.value, r.lines[3].count)
  {
    match LoadOutcome(rootApplicationPath, host)
    case Fail(e) => BadRequestError(e)
    case Pass =>
      var version := LoadedVersion(None, rootApplicationPath, host);
      match upload
      case None => BadRequestText(FileIsEmpty)
      case Some(file) =>
        match OpenDocument(version, file.document)
        case Failure(e) => BadRequestError(e)
        case Success(pagesTotal) =>
          match Batch(version, file.document, 1, pagesTotal, RunDpi)
          case Failure(e) => BadRequestError(e)
          case Success(images) => Ok(Header(rootApplicationPath, file, pagesTotal) + ImageLines(images))
  }

  /**
   * `Run`, given the application root (`<function directory>/../bin`), the
   * machine and the uploaded file, if any.
   */
  method Run(rootApplicationPath: string, host: Host, upload: Option<Upload>) returns (response: Response)
    ensures response == Respond(rootApplicationPath, host, upload)
  {
    var res := [RootApplicationPath(rootApplicationPath)];
    var helper := new PdfHelper.Empty();
    var loaded := helper.LoadNativeAssemblies(rootApplicationPath, host);
    if loaded.Fail? {
      return BadRequestError(loaded.error);
    }
    ghost var version := LoadedVersion(None, rootApplicationPath, host);
    assert helper.version == version;
    res := res + [HelperCreated];
    if upload.None? {
      return BadRequestText(FileIsEmpty);
    }
    var file := upload.value;
    res := res + [FileLoaded(file.fileName, file.length)];
    var pagesTotal := helper.PdfPagesCount(file.document);
    if pagesTotal.Failure? {
      assert Respond(rootApplicationPath, host, upload) == BadRequestError(pagesTotal.error);
      return BadRequestError(pagesTotal.error);
    }
    res := res + [PagesTotal(pagesTotal.value)];
    assert res == Header(rootApplicationPath, file, pagesTotal.value);
    ghost var requested: seq<int>;
    var images: Result<seq<Bitmap>, Error>;
    images, requested := helper.GetPagesBitmapsFromPdf(file.document, 1, pagesTotal.value, RunDpi);
    ghost var batch := Batch(version, file.document, 1, pagesTotal.value, RunDpi);
    assert images == batch;
    assert Respond(rootApplicationPath, host, upload) ==
      match batch
      case Failure(e) => BadRequestError(e)
      case Success(bitmaps) => Ok(res + ImageLines(bitmaps));
    if images.Failure? {
      return BadRequestError(images.error);
    }
    res := AppendImageLines(res, images.value);
    return Ok(res);
  }

  /** The `foreach` over the images: one line per image appended to `res`, in order. */
  method AppendImageLines(res: seq<Line>, images: seq<Bitmap>) returns (lines: seq<Line>)
    ensures lines == res + ImageLines(images)
  {
    lines := res;
    for i := 0 to |images|
      invariant lines == res + ImageLines(images)[..i]
    {
      lines := lines + [PageImageCreated(images[i].width, images[i].height)];
      assert ImageLines(images)[..i + 1] == ImageLines(images)[..i] + [ImageLines(images)[i]];
    }
    assert ImageLines(images)[..|images|] == ImageLines(images);
  }

  /** The range `Run` requests, rendered from a document whose pages all render: every page, in order. */
  lemma {:induction false} FullRangeBatch(version: Option<VersionInfo>, doc: Document)
    requires version.Some? && doc.openResult.Success? && doc.openResult.value < IntMax
    requires forall p :: 1 <= p <= doc.openResult.value ==> doc.getPage(200, p).Success?
    ensures var n: int := doc.openResult.value;
      var r := Batch(version, doc, 1, n, RunDpi);
      && r.Success?
      && |r.value| == n
      && forall i :: 0 <= i < n ==> doc.getPage(200, i + 1) == Success(r.value[i])
  {
    var n: int := doc.openResult.value;
    var pages := VisitedPages(1, n, n);
    FullRange(n);
    if n > 0 {
      BatchSucceedsIffAllPagesRender(version, doc, 1, n, RunDpi);
      assert forall i :: 0 <= i < |pages| ==> doc.getPage(200, pages[i]).Success?;
    }
  }

  /** A bound helper and an upload with `n` pages that all render answer with every page, in order. */
  lemma {:induction false} RunReportsEveryPage(rootApplicationPath: string, host: Host, file: Upload)
    requires DllDirectory(rootApplicationPath) in host.directories
    requires DllPath(rootApplicationPath, host.is64BitProcess) in host.files && !host.versionInfoThrows
    requires file.document.openResult.Success? && file.document.openResult.value < IntMax
    requires forall p :: 1 <= p <= file.document.openResult.value ==> file.document.getPage(200, p).Success?
    ensures Respond(rootApplicationPath, host, Some(file)).Ok?
    ensures |Respond(rootApplicationPath, host, Some(file)).lines| == 4 + file.document.openResult.value
    ensures Respond(rootApplicationPath, host, Some(file)).lines[..4] ==
      Header(rootApplicationPath, file, file.document.openResult.value)
    ensures var pageLines := Respond(rootApplicationPath, host, Some(file)).lines[4..];
      forall i :: 0 <= i < |pageLines| ==>
        && file.document.getPage(200, i + 1).Success?
        && pageLines[i] == PageImageCreated(file.document.getPage(200, i + 1).value.width,
                                            file.document.getPage(200, i + 1).value.height)
  {
    var version := LoadedVersion(None, rootApplicationPath, host);
    var doc := file.document;
    var n: int := doc.openResult.value;
    assert OpenDocument(version, doc) == Success(n);
    assert version.Some?;
    FullRangeBatch(version, doc);
    var batch := Batch(version, doc, 1, n, RunDpi);
    var lines := Header(rootApplicationPath, file, n) + ImageLines(batch.value);
    assert Respond(rootApplicationPath, host, Some(file)) == Ok(lines);
    assert lines[..4] == Header(rootApplicationPath, file, n);
    assert lines[4..] == ImageLines(batch.value);
  }

  /**
   * When a page fails to render, the response is a 400 carrying the error
   * of the first failing page, and no page line is returned.
   */
  lemma {:induction false} RunRenderFailureIsBadRequest(rootApplicationPath: string, host: Host, file: Upload, page: int)
    requires DllDirectory(rootApplicationPath) in host.directories
    requires DllPath(rootApplicationPath, host.is64BitProcess) in host.files && !host.versionInfoThrows
    requires file.document.openResult.Success? && file.document.openResult.value < IntMax
    requires 1 <= page <= file.document.openResult.value && file.document.getPage(200, page).Failure?
    requires forall p :: 1 <= p < page ==> file.document.getPage(200, p).Success?
    ensures Respond(rootApplicationPath, host, Some(file)) ==
      BadRequestError(PageRenderFailed(file.document.getPage(200, page).error))
  {
    var version := LoadedVersion(None, rootApplicationPath, host);
    var n: int := file.document.openResult.value;
    var pages := VisitedPages(1, n, n);
    FullRange(n);
    assert pages[page - 1] == page;
    var k := FirstFailure(file.document.getPage, 200, pages);
    assert k == page - 1;
  }

  /** A request without a file, once the helper is built, is the "File is empty." 400. */
  lemma RunRejectsMissingFile(rootApplicationPath: string, host: Host)
    requires DllDirectory(rootApplicationPath) in host.directories
    ensures Respond(rootApplicationPath, host, None) == BadRequestText(FileIsEmpty)
  {
  }

  /** A missing `dll/` directory fails building the helper, before the file is looked at. */
  lemma RunWithoutDllDirectory(rootApplicationPath: string, host: Host, upload: Option<Upload>)
    requires DllDirectory(rootApplicationPath) !in host.directories
    ensures Respond(rootApplicationPath, host, upload) ==
      BadRequestError(DllDirectoryNotFound(DllDirectory(rootApplicationPath)))
  {
  }

  /**
   * A missing DLL, or a version object that does not build, is only
   * noticed when the pages are counted: the response is the 400 of the
   * null-version guard.
   */
  lemma RunWithoutBindingIsBadRequest(rootApplicationPath: string, host: Host, file: Upload)
    requires DllDirectory(rootApplicationPath) in host.directories
    requires DllPath(rootApplicationPath, host.is64BitProcess) !in host.files || host.versionInfoThrows
    ensures Respond(rootApplicationPath, host, Some(file)) == BadRequestError(VersionNotInitialised)
  {
  }

  /** An upload the rasteriser cannot open is a 400 carrying the rasteriser's message. */
  lemma RunOpenFailureIsBadRequest(rootApplicationPath: string, host: Host, file: Upload)
    requires DllDirectory(rootApplicationPath) in host.directories
    requires DllPath(rootApplicationPath, host.is64BitProcess) in host.files && !host.versionInfoThrows
    requires file.document.openResult.Failure?
    ensures Respond(rootApplicationPath, host, Some(file)) ==
      BadRequestError(DocumentOpenFailed(file.document.openResult.error))
  {
  }
}
