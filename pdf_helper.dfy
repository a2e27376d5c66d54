/**
 * `PdfHelper`: binding to the Ghostscript DLL (`LoadNativeAssemblies`), the
 * null guard on the binding (`GetVersion`), counting pages
 * (`PdfPagesCount`) and rendering a page range (`GetPagesBitmapsFromPdf`).
 */
module Pdf {
  import opened Wrappers
  import opened DotNet
  import opened Ghostscript
  import opened NativeLibrary
  import opened PageRange

  /** The exceptions the helper lets escape to its caller. */
  datatype Error =
    | DllDirectoryNotFound(path: string)  // listing a `dll/` directory that does not exist
    | VersionNotInitialised               // `GetVersion` while `_version` is null
    | DocumentOpenFailed(message: string) // the rasteriser's `Open` rejects the stream
    | PageRenderFailed(message: string)   // the rasteriser's `GetPage` fails

  /**
   * What the helper can learn about its machine: the process bit width,
   * which directories and files exist, and whether constructing the
   * `GhostscriptVersionInfo` for the DLL throws.
   */
  datatype Host = Host(is64BitProcess: bool, directories: set<string>, files: set<string>, versionInfoThrows: bool)

  /** The binding built for a DLL: version 0.0.0, no library path, GPL. */
  function VersionInfoFor(dllPath: string): VersionInfo {
    VersionInfo(Version(0, 0, 0), dllPath, "", GPL)
  }

  /** Whether `LoadNativeAssemblies` completes or throws (listing a missing directory). */
  function LoadOutcome(rootApplicationPath: string, host: Host): (o: Outcome<Error>)
    ensures o.Pass? <==> DllDirectory(rootApplicationPath) in host.directories
    ensures o.Fail? ==> o.error == DllDirectoryNotFound(DllDirectory(rootApplicationPath))
  {
    var dir := DllDirectory(rootApplicationPath);
    if dir in host.directories then Pass else Fail(DllDirectoryNotFound(dir))
  }

  /**
   * `_version` after `LoadNativeAssemblies` when it was `current` before:
   * set only when the directory and the DLL exist and building the version
   * information does not throw, and otherwise left as it was.
   */
  function LoadedVersion(current: Option<VersionInfo>, rootApplicationPath: string, host: Host): (r: Option<VersionInfo>)
    ensures r != current ==> r == Some(VersionInfoFor(DllPath(rootApplicationPath, host.is64BitProcess)))
    ensures r != current <==>
      && DllDirectory(rootApplicationPath) in host.directories
      && DllPath(rootApplicationPath, host.is64BitProcess) in host.files
      && !host.versionInfoThrows
      && current != Some(VersionInfoFor(DllPath(rootApplicationPath, host.is64BitProcess)))
  {
    var path := DllPath(rootApplicationPath, host.is64BitProcess);
    if DllDirectory(rootApplicationPath) in host.directories && path in host.files && !host.versionInfoThrows
    then Some(VersionInfoFor(path))
    else current
  }

  /**
   * A helper that starts unbound is bound after loading exactly when the
   * DLL directory and file exist and the version information builds, and
   * then to the DLL chosen by the process width; a missing DLL leaves it
   * unbound.
   */
  lemma {:induction false} FreshHelperBinding(rootApplicationPath: string, host: Host)
    ensures var v := LoadedVersion(None, rootApplicationPath, host);
      && (v.Some? <==>
            DllDirectory(rootApplicationPath) in host.directories &&
            DllPath(rootApplicationPath, host.is64BitProcess) in host.files &&
            !host.versionInfoThrows)
      && (v.Some? ==> v.value.dllPath == DllPath(rootApplicationPath, host.is64BitProcess) &&
                      v.value.version == Version(0, 0, 0) && v.value.license == GPL)
  {
  }

  /** Loading never unbinds a bound helper. */
  lemma {:induction false} LoadKeepsBinding(current: Option<VersionInfo>, rootApplicationPath: string, host: Host)
    requires current.Some?
    ensures LoadedVersion(current, rootApplicationPath, host).Some?
  {
  }

  /** `rasterizer.Open(stream, GetVersion(), true)` followed by `PageCount`. */
  function OpenDocument(version: Option<VersionInfo>, doc: Document): (r: Result<PageCount, Error>)
    ensures r.Success? <==> version.Some? && doc.openResult.Success?
    ensures r.Success? ==> r.value == doc.openResult.value
    ensures version.None? ==> r == Failure(VersionNotInitialised)
    ensures version.Some? && doc.openResult.Failure? ==> r == Failure(DocumentOpenFailed(doc.openResult.error))
  {
    if version.None? then Failure(VersionNotInitialised)
    else match doc.openResult
      case Failure(m) => Failure(DocumentOpenFailed(m))
      case Success(n) => Success(n)
  }

  /** The position of the first page whose render fails, or `|pages|` when none does. */
  function FirstFailure(getPage: PageRenderer, dpi: int, pages: seq<int>): (k: nat)
    ensures k <= |pages|
    ensures forall i :: 0 <= i < k ==> getPage(dpi, pages[i]).Success?
    ensures k < |pages| ==> getPage(dpi, pages[k]).Failure?
  {
    if pages == [] then 0
    else if getPage(dpi, pages[0]).Failure? then 0
    else 1 + FirstFailure(getPage, dpi, pages[1..])
  }

  /** The bitmaps of pages that all render. */
  function RenderedImages(getPage: PageRenderer, dpi: int, pages: seq<int>): (images: seq<Bitmap>)
    requires forall i :: 0 <= i < |pages| ==> getPage(dpi, pages[i]).Success?
    ensures |images| == |pages|
    ensures forall i :: 0 <= i < |pages| ==> getPage(dpi, pages[i]) == Success(images[i])
  {
    seq(|pages|, i requires 0 <= i < |pages| => getPage(dpi, pages[i]).value)
  }

  /**
   * The result of `GetPagesBitmapsFromPdf`: the guard and open errors, the
   * empty list for a document without pages, the first render error of the
   * visited pages, or one bitmap per visited page.
   */
  function Batch(version: Option<VersionInfo>, doc: Document, startPage: Int32, pagesToTake: Int32, dpi: Int32): (r: Result<seq<Bitmap>, Error>)
    ensures OpenDocument(version, doc).Failure? ==> r == Failure(OpenDocument(version, doc).error)
    ensures r.Failure? && OpenDocument(version, doc).Success? ==> r.error.PageRenderFailed?
    ensures r.Success? ==> forall i :: 0 <= i < |r.value| ==> doc.getPage(dpi, startPage + i) == Success(r.value[i])
  {
    match OpenDocument(version, doc)
    case Failure(e) => Failure(e)
    case Success(pageCount) =>
      if pageCount == 0 then Success([])
      else
        var pages := VisitedPages(startPage, pagesToTake, pageCount);
        var k := FirstFailure(doc.getPage, dpi, pages);
        if k < |pages| then Failure(PageRenderFailed(doc.getPage(dpi, pages[k]).error))
        else Success(RenderedImages(doc.getPage, dpi, pages))
  }

  /** The pages `GetPagesBitmapsFromPdf` asks the rasteriser to render, in order. */
  function Requested(version: Option<VersionInfo>, doc: Document, startPage: Int32, pagesToTake: Int32, dpi: Int32): (requested: seq<int>)
    ensures OpenDocument(version, doc).Failure? ==> requested == []
    ensures forall i :: 0 <= i < |requested| ==> requested[i] == startPage + i
  {
    match OpenDocument(version, doc)
    case Failure(_) => []
    case Success(pageCount) =>
      if pageCount == 0 then []
      else
        var pages := VisitedPages(startPage, pagesToTake, pageCount);
        var k := FirstFailure(doc.getPage, dpi, pages);
        pages[..Min(k + 1, |pages|)]
  }

  /** A document without pages gives the empty list, and no page is rendered. */
  lemma {:induction false} ZeroPagesIsEmptySuccess(version: Option<VersionInfo>, doc: Document, startPage: Int32, pagesToTake: Int32, dpi: Int32)
    requires version.Some? && doc.openResult == Success(0)
    ensures Batch(version, doc, startPage, pagesToTake, dpi) == Success([])
    ensures Requested(version, doc, startPage, pagesToTake, dpi) == []
  {
  }

  /**
   * The early return matters: without it a start at page 0 or below would
   * have the loop ask a page-less document for page `startPage`.
   */
  lemma {:induction false} ZeroPagesEarlyReturnNeeded(startPage: Int32, pagesToTake: Int32)
    requires startPage <= 0 && startPage < LoopBound(startPage, pagesToTake)
    ensures VisitedPages(startPage, pagesToTake, 0) != []
  {
    assert VisitedPages(startPage, pagesToTake, 0)[0] == startPage;
  }

  /**
   * A start beyond the last page, or a non-positive count that does not
   * wrap, gives the empty list (success, not an error) and renders nothing.
   */
  lemma {:induction false} EmptyRangeIsEmptySuccess(version: Option<VersionInfo>, doc: Document, startPage: Int32, pagesToTake: Int32, dpi: Int32)
    requires version.Some? && doc.openResult.Success?
    requires startPage > doc.openResult.value || (pagesToTake <= 0 && IntMin <= startPage + pagesToTake)
    ensures Batch(version, doc, startPage, pagesToTake, dpi) == Success([])
    ensures Requested(version, doc, startPage, pagesToTake, dpi) == []
  {
    EmptyRanges(startPage, pagesToTake, doc.openResult.value);
  }

  /**
   * In an opened document with pages, the batch succeeds exactly when every
   * visited page renders; the result then holds the bitmap of each visited
   * page, in ascending page order, and every visited page was rendered.
   */
  lemma {:induction false} BatchSucceedsIffAllPagesRender(version: Option<VersionInfo>, doc: Document, startPage: Int32, pagesToTake: Int32, dpi: Int32)
    requires version.Some? && doc.openResult.Success? && doc.openResult.value > 0
    ensures var pages := VisitedPages(startPage, pagesToTake, doc.openResult.value);
      var r := Batch(version, doc, startPage, pagesToTake, dpi);
      && (r.Success? <==> forall i :: 0 <= i < |pages| ==> doc.getPage(dpi, pages[i]).Success?)
      && (r.Success? ==>
            && |r.value| == |pages|
            && (forall i :: 0 <= i < |pages| ==> doc.getPage(dpi, startPage + i) == Success(r.value[i]))
            && Requested(version, doc, startPage, pagesToTake, dpi) == pages)
  {
    var pages := VisitedPages(startPage, pagesToTake, doc.openResult.value);
    var k := FirstFailure(doc.getPage, dpi, pages);
    if k < |pages| {
      assert !doc.getPage(dpi, pages[k]).Success?;
    }
  }

  /**
   * A failing batch fails at the first visited page that does not render,
   * with that page's error: every earlier page rendered, and no page after
   * it was asked for.
   */
  lemma {:induction false} BatchFailsFast(version: Option<VersionInfo>, doc: Document, startPage: Int32, pagesToTake: Int32, dpi: Int32)
    requires version.Some? && doc.openResult.Success?
    requires Batch(version, doc, startPage, pagesToTake, dpi).Failure?
    ensures var pages := VisitedPages(startPage, pagesToTake, doc.openResult.value);
      var requested := Requested(version, doc, startPage, pagesToTake, dpi);
      exists k ::
        && 0 <= k < |pages|
        && doc.getPage(dpi, pages[k]).Failure?
        && Batch(version, doc, startPage, pagesToTake, dpi) == Failure(PageRenderFailed(doc.getPage(dpi, pages[k]).error))
        && (forall i :: 0 <= i < k ==> doc.getPage(dpi, pages[i]).Success?)
        && requested == pages[..k + 1]
        && (forall p :: p in requested ==> p <= pages[k])
  {
    var pages := VisitedPages(startPage, pagesToTake, doc.openResult.value);
    var k := FirstFailure(doc.getPage, dpi, pages);
    var requested := Requested(version, doc, startPage, pagesToTake, dpi);
    assert requested == pages[..k + 1];
    forall p | p in requested ensures p <= pages[k] {
      var j :| 0 <= j < |requested| && requested[j] == p;
    }
  }

  /** A fail-fast map over the pages: the reference the loop is compared against. */
  function RenderAll(getPage: PageRenderer, dpi: int, pages: seq<int>): Result<seq<Bitmap>, string>
  {
    if pages == [] then Success([])
    else match getPage(dpi, pages[0])
      case Failure(e) => Failure(e)
      case Success(b) =>
        match RenderAll(getPage, dpi, pages[1..])
        case Failure(e) => Failure(e)
        case Success(bs) => Success([b] + bs)
  }

  lemma {:induction false} RenderAllAgrees(getPage: PageRenderer, dpi: int, pages: seq<int>)
    ensures var k := FirstFailure(getPage, dpi, pages);
      && (k < |pages| ==> RenderAll(getPage, dpi, pages) == Failure(getPage(dpi, pages[k]).error))
      && (k == |pages| ==> RenderAll(getPage, dpi, pages) == Success(RenderedImages(getPage, dpi, pages)))
  {
    if pages != [] && getPage(dpi, pages[0]).Success? {
      RenderAllAgrees(getPage, dpi, pages[1..]);
      var k := FirstFailure(getPage, dpi, pages);
      if k == |pages| {
        assert RenderedImages(getPage, dpi, pages) ==
          [getPage(dpi, pages[0]).value] + RenderedImages(getPage, dpi, pages[1..]);
      }
    }
  }

  /**
   * In an opened document with pages, the batch is the fail-fast map of the
   * renderer over the visited pages, its error wrapped as a render failure.
   */
  lemma {:induction false} BatchIsFailFastMap(version: Option<VersionInfo>, doc: Document, startPage: Int32, pagesToTake: Int32, dpi: Int32)
    requires version.Some? && doc.openResult.Success? && doc.openResult.value > 0
    ensures var all := RenderAll(doc.getPage, dpi, VisitedPages(startPage, pagesToTake, doc.openResult.value));
      Batch(version, doc, startPage, pagesToTake, dpi) ==
        match all
        case Failure(m) => Failure(PageRenderFailed(m))
        case Success(images) => Success(images)
  {
    RenderAllAgrees(doc.getPage, dpi, VisitedPages(startPage, pagesToTake, doc.openResult.value));
  }

  class PdfHelper {
    /** `_version`: the Ghostscript binding, null until loading succeeds. */
    var version: Option<VersionInfo>

    /** The helper before `LoadNativeAssemblies` has run. */
    constructor Empty()
      ensures version == None
    {
      version := None;
    }

    /**
     * Looks for the DLL under `<root>/dll/`; listing that directory throws
     * when it is missing. A missing DLL, or a version object that fails to
     * build, is only logged and leaves `_version` as it was.
     */
    method LoadNativeAssemblies(rootApplicationPath: string, host: Host) returns (outcome: Outcome<Error>)
      modifies this
      ensures outcome == LoadOutcome(rootApplicationPath, host)
      ensures version == LoadedVersion(old(version), rootApplicationPath, host)
    {
      var newPath := DllDirectory(rootApplicationPath);
      var gsDllPath := DllPath(rootApplicationPath, host.is64BitProcess);
      if newPath !in host.directories {
        return Fail(DllDirectoryNotFound(newPath));
      }
      if gsDllPath !in host.files {
        return Pass;
      }
      if !host.versionInfoThrows {
        version := Some(VersionInfoFor(gsDllPath));
      }
      return Pass;
    }

    /** Throws exactly while `_version` is null; otherwise returns it unchanged. */
    method GetVersion() returns (r: Result<VersionInfo, Error>)
      ensures r.Success? <==> version.Some?
      ensures version.Some? ==> r.value == version.value
      ensures version.None? ==> r.error == VersionNotInitialised
    {
      if version.None? {
        return Failure(VersionNotInitialised);
      }
      return Success(version.value);
    }

    /** Opens the document against the binding and reports its page count. */
    method PdfPagesCount(doc: Document) returns (r: Result<PageCount, Error>)
      ensures r == OpenDocument(version, doc)
    {
      var gs := GetVersion();
      if gs.Failure? {
        return Failure(gs.error);
      }
      match doc.openResult
      case Failure(m) => return Failure(DocumentOpenFailed(m));
      case Success(n) => return Success(n);
    }

    /**
     * Renders pages `startPage` upward, while they exist and are fewer than
     * `pagesToTake`, appending one bitmap per page; a render error is
     * rethrown and no list is returned. The ghost `requested` records the
     * page numbers passed to the rasteriser's `GetPage`, in call order; it
     * is instrumentation, not part of the result.
     */
    method GetPagesBitmapsFromPdf(doc: Document, startPage: Int32, pagesToTake: Int32, dpi: Int32)
      returns (r: Result<seq<Bitmap>, Error>, ghost requested: seq<int>)
      ensures r == Batch(version, doc, startPage, pagesToTake, dpi)
      ensures requested == Requested(version, doc, startPage, pagesToTake, dpi)
    {
      var gs := GetVersion();
      if gs.Failure? {
        return Failure(gs.error), [];
      }
      if doc.openResult.Failure? {
        return Failure(DocumentOpenFailed(doc.openResult.error)), [];
      }
      var pageCount := doc.openResult.value;
      if pageCount == 0 {
        return Success([]), [];
      }
      ghost var pages := VisitedPages(startPage, pagesToTake, pageCount);
      var bitmaps: seq<Bitmap> := [];
      requested := [];
      var pageNumber: Int32 := startPage;
      while pageNumber <= pageCount && pageNumber < Wrap32(startPage + pagesToTake)
        invariant startPage <= pageNumber <= startPage + |pages|
        invariant requested == pages[..pageNumber - startPage]
        invariant |bitmaps| == |requested|
        invariant forall i :: 0 <= i < |bitmaps| ==> doc.getPage(dpi, requested[i]) == Success(bitmaps[i])
      {
        assert pageNumber - startPage < |pages| && pages[pageNumber - startPage] == pageNumber;
        var image := doc.getPage(dpi, pageNumber);
        requested := requested + [pageNumber];
        if image.Failure? {
          assert FirstFailure(doc.getPage, dpi, pages) == pageNumber - startPage;
          return Failure(PageRenderFailed(image.error)), requested;
        }
        bitmaps := bitmaps + [image.value];
        pageNumber := pageNumber + 1;
      }
      assert requested == pages;
      assert FirstFailure(doc.getPage, dpi, pages) == |pages|;
      assert bitmaps == RenderedImages(doc.getPage, dpi, pages);
      return Success(bitmaps), requested;
    }
  }
}
