# PDF page rasterisation helper (test-ims), modelled in Dafny

`test-ims` is an Azure HTTP function that takes an uploaded PDF, binds to
the native Ghostscript library and rasterises every page at 200 DPI,
answering with one diagnostic line per step and per page. This project
models its core, `test-ims/Function1.cs`:

- `PdfHelper.LoadNativeAssemblies`: choosing `<root>/dll/gsdll64.dll` or
  `<root>/dll/gsdll32.dll` by process bit width, and setting `_version`
  only when that directory and file exist and the version object builds
  (module `NativeLibrary` for the path, class `Pdf.PdfHelper` for the state);
- `PdfHelper.GetVersion`: the null guard on `_version`;
- `PdfHelper.PdfPagesCount` and `PdfHelper.GetPagesBitmapsFromPdf`: opening
  the document, the early return for a document without pages, the `for`
  loop over the page range and the fail-fast rethrow (modules `PageRange`
  and `Pdf`);
- `Function1.Run`: its control flow, from building the helper to the 400
  and 200 responses (module `Function1`).

The native rasteriser is an oracle (module `Ghostscript`): a `Document`
holds the result of `Open` (a page count or an error) and a function giving,
for a DPI and a page number, the bitmap `GetPage` returns or the error it
raises. The machine is a `Host`: the process bit width, the sets of
existing directories and files, and whether building the
`GhostscriptVersionInfo` throws. Exceptions become `Result`/`Outcome`
values carrying an `Error`.

`GetPagesBitmapsFromPdf` is a method with the source's loop; beside its
result it returns, as a ghost out-parameter, `requested`, the page numbers passed to `GetPage` in call
order, so that "no page after a failing one is rendered" can be stated. It
is proved equal to the specification functions `Batch` and `Requested`;
the lemmas about those state which pages are rendered, in which order, how
many, and when the result is empty or an error. `Batch` is also proved,
for an opened document with pages, equal to an independent fail-fast map
over the pages (`RenderAll`).

The loop bound `startPage + pagesToTake` is computed as C# computes it, in
unchecked 32-bit arithmetic (`DotNet.Wrap32`). Without overflow the pages
are exactly `startPage … min(PageCount, startPage + pagesToTake - 1)`. When
the sum rises above `int.MaxValue` (start 1 and `int.MaxValue` pages, for
instance) the bound wraps to a negative number and no page is rendered
(`PageRange.OverflowVisitsNothing`). When it falls below `int.MinValue` the
bound wraps to a large positive number and the loop does call `GetPage`,
starting at the (negative) start page
(`PageRange.NegativeOverflowVisitsFromStart`). `Run` asks for `pagesTotal` pages from
page 1, which overflows only for a document of `int.MaxValue` pages.

Behaviour of the code worth noting:

- `GetPagesBitmapsFromPdf` checks neither `startPage >= 1` nor `dpi > 0`:
  any `int` is accepted and passed on; with a start at page 0 or below the
  loop would ask for that page, except that a document without pages
  returns first (`Pdf.ZeroPagesEarlyReturnNeeded`).
- A missing DLL is not an error when the helper is built: it is only
  logged, and the request fails later, when `PdfPagesCount` calls
  `GetVersion` ("version is null"). A missing `dll/` directory, by
  contrast, fails building the helper, because listing it for the log
  throws (line 72), before the upload is looked at.
- A render error is rethrown unchanged (`throw;`); it carries the
  rasteriser's message, not a page number.

## Model

| member | source | states |
|---|---|---|
| DotNet.Wrap32 | test-ims/Function1.cs:126 | the unchecked `int` sum: identity in range, congruent modulo 2^32, and the exact wrapped value for one overflow in either direction |
| DotNet.PathCombine | test-ims/Function1.cs:69-70 | `Path.Combine`: an empty second part gives the first; an empty first part or a rooted second part gives the second; otherwise the result is the first part, then exactly one separator (none added when the first already ends in one), then the second |
| NativeLibrary.DllFileName | test-ims/Function1.cs:70 | a 64-bit process selects `gsdll64.dll` and any other `gsdll32.dll`, a relative name |
| NativeLibrary.DllDirectory | test-ims/Function1.cs:69 | the searched directory always ends in a separator |
| NativeLibrary.DllPath | test-ims/Function1.cs:70 | the DLL path is the searched directory followed directly by the selected file name, with no separator added |
| NativeLibrary.DllPathLayout | test-ims/Function1.cs:69-70 | the DLL path is `<root>/dll/gsdll64.dll` for a 64-bit process and `<root>/dll/gsdll32.dll` otherwise, without doubling a trailing separator of the root |
| NativeLibrary.DllPathSelectsBitWidth | test-ims/Function1.cs:70 | the 64-bit and 32-bit processes look for different files under the same root |
| PageRange.LoopBound | test-ims/Function1.cs:126 | the loop bound equals `startPage + pagesToTake` whenever that sum fits in `int` |
| PageRange.VisitedPages | test-ims/Function1.cs:126 | the i-th visited page is `startPage + i` |
| PageRange.VisitedPagesMatchLoopCondition | test-ims/Function1.cs:126 | a page is visited exactly when it is at least `startPage`, at most `PageCount` and below the loop bound; visits are strictly ascending |
| PageRange.VisitedPagesWithoutOverflow | test-ims/Function1.cs:125-132 | without overflow the visited pages are exactly `startPage … min(PageCount, startPage + pagesToTake - 1)`, `max(0, min(PageCount, startPage + pagesToTake - 1) - startPage + 1)` of them |
| PageRange.EmptyRanges | test-ims/Function1.cs:126 | a start past the last page, or a non-positive count whose sum does not wrap, visits no page |
| PageRange.OverflowVisitsNothing | test-ims/Function1.cs:126 | with a positive start and an overflowing `startPage + pagesToTake`, no page is visited |
| PageRange.NegativeOverflowVisitsFromStart | test-ims/Function1.cs:126 | when the sum falls below `int.MinValue` the bound is the sum plus 2^32, and the pages visited are `startPage … min(PageCount, sum + 2^32 - 1)` |
| PageRange.FullRange | test-ims/Function1.cs:40 | the range `Run` requests, start 1 and `pagesTotal` pages, is pages `1 … pagesTotal` in order |
| Pdf.LoadOutcome | test-ims/Function1.cs:69-72 | loading completes exactly when `<root>/dll/` exists, and otherwise fails with that directory |
| Pdf.LoadedVersion | test-ims/Function1.cs:74-88 | `_version` changes only when the directory and the DLL exist and the version object builds, and then becomes the binding to that DLL |
| Pdf.FreshHelperBinding | test-ims/Function1.cs:60-88 | a new helper ends up bound exactly when directory and DLL exist and the version object builds, with version 0.0.0, the chosen DLL and the GPL licence |
| Pdf.LoadKeepsBinding | test-ims/Function1.cs:74-88 | loading never resets a bound `_version` to null |
| Pdf.OpenDocument | test-ims/Function1.cs:100-107 | opening succeeds exactly when `_version` is set and the rasteriser opens the stream, giving its page count; otherwise the null-version or the open error |
| Pdf.FirstFailure | test-ims/Function1.cs:126-131 | the first position whose page fails to render: all before it render, it fails (or is the end) |
| Pdf.RenderedImages | test-ims/Function1.cs:129-130 | when every page renders, one bitmap per page, each the one the rasteriser gave for that page |
| Pdf.Batch | test-ims/Function1.cs:110-140 | a guard or open error is returned as it is; any other error is a page render error; on success the i-th bitmap is the one the rasteriser gives for page `startPage + i` |
| Pdf.Requested | test-ims/Function1.cs:125-132 | no page is requested when the guard or `Open` fails; the pages requested are `startPage, startPage + 1, …` in call order |
| Pdf.ZeroPagesIsEmptySuccess | test-ims/Function1.cs:119-123 | a document without pages gives the empty list and no `GetPage` call |
| Pdf.ZeroPagesEarlyReturnNeeded | test-ims/Function1.cs:119-126 | without the early return a start at page 0 or below would visit a page of a page-less document |
| Pdf.EmptyRangeIsEmptySuccess | test-ims/Function1.cs:126 | a start past the last page, or a non-positive count without wrap, gives the empty list (not an error) and no `GetPage` call |
| Pdf.BatchSucceedsIffAllPagesRender | test-ims/Function1.cs:125-132 | the batch succeeds exactly when every visited page renders; the list then has one bitmap per visited page, the i-th of page `startPage + i`, and every visited page was requested |
| Pdf.BatchFailsFast | test-ims/Function1.cs:127-139 | a failing batch returns the error of the first failing visited page, every earlier page rendered, and no later page was requested |
| Pdf.RenderAllAgrees | test-ims/Function1.cs:126-131 | the fail-fast map stops at the first failing page with its error, and otherwise yields every page's bitmap |
| Pdf.BatchIsFailFastMap | test-ims/Function1.cs:113-139 | for an opened document with pages, the batch equals the fail-fast map over the visited pages |
| Pdf.PdfHelper.Empty | test-ims/Function1.cs:57 | a helper starts with `_version` null |
| Pdf.PdfHelper.LoadNativeAssemblies | test-ims/Function1.cs:66-89 | fails exactly when the `dll/` directory is missing; `_version` afterwards is `LoadedVersion` of its old value |
| Pdf.PdfHelper.GetVersion | test-ims/Function1.cs:91-98 | fails with the null-version error exactly when `_version` is null, and otherwise returns it unchanged |
| Pdf.PdfHelper.PdfPagesCount | test-ims/Function1.cs:100-107 | returns the page count exactly as `OpenDocument` describes |
| Pdf.PdfHelper.GetPagesBitmapsFromPdf | test-ims/Function1.cs:110-140 | the loop's result is `Batch` and its `GetPage` calls (recorded in a ghost out-parameter) are `Requested`, whose properties the lemmas above state |
| Function1.ImageLines | test-ims/Function1.cs:41-44 | one line per image, carrying that image's width and height, in order |
| Function1.Header | test-ims/Function1.cs:26-39 | four lines: the root path, the helper created, the file name and length, the page total; none is a page line |
| Function1.Respond | test-ims/Function1.cs:20-52 | a missing `dll/` directory is the 400 with that error; the text 400 occurs only for a missing file, with "File is empty."; a 200 carries the upload's header lines first |
| Function1.AppendImageLines | test-ims/Function1.cs:41-44 | the `foreach` appends exactly the image lines to the lines already collected |
| Function1.Run | test-ims/Function1.cs:20-52 | the response is the one `Respond` gives stage by stage, which the lemmas below characterise |
| Function1.FullRangeBatch | test-ims/Function1.cs:40 | the batch `Run` requests of a document whose pages all render succeeds with one bitmap per page, the i-th bitmap being that of page i + 1 |
| Function1.RunReportsEveryPage | test-ims/Function1.cs:38-44 | a bound helper and a document whose pages all render give a 200 with the four header lines and one line per page `1 … pagesTotal`, in page order |
| Function1.RunRenderFailureIsBadRequest | test-ims/Function1.cs:40-50 | a page that fails to render, the first to do so, turns the response into a 400 with its error |
| Function1.RunRejectsMissingFile | test-ims/Function1.cs:29-33 | a request without a file, once the helper is built, is the "File is empty." 400 |
| Function1.RunWithoutDllDirectory | test-ims/Function1.cs:27 | a missing `dll/` directory gives a 400 whatever the upload |
| Function1.RunWithoutBindingIsBadRequest | test-ims/Function1.cs:91-104 | a missing DLL or a failed version object gives the null-version 400 once a file is uploaded |
| Function1.RunOpenFailureIsBadRequest | test-ims/Function1.cs:38 | a stream the rasteriser cannot open gives a 400 with the rasteriser's message |

## Left out

- Ghostscript.NET (`GhostscriptRasterizer.Open`, `PageCount`, `GetPage`, `GhostscriptVersionInfo`): native code, replaced by the `Document` oracle and the `Host.versionInfoThrows` flag; the cast of `GetPage`'s result to `Bitmap` is part of the oracle's failure.
- Bitmap pixels and DPI scaling: only width and height are visible to the program, and they come from the oracle.
- Disposal of the rasteriser (`using` at lines 102 and 115) and of the `MemoryStream`: the model holds no native handles, so release on every exit path is not modelled.
- Filesystem access: `File.Exists` and the existence of `<root>/dll/` are membership in `Host.files` and `Host.directories`; the directory listing itself is only logged and is not modelled; any other I/O error of the listing is not modelled.
- `Path.GetFullPath` normalisation (lines 25 and 69) and Windows separators: paths are joined with `/` as on Unix and not normalised; `rootApplicationPath` (line 25) is an input of `Run` rather than computed from the function directory.
- HTTP and Azure Functions plumbing (`HttpRequest`, `req.Form.Files`, the `IActionResult` types, `async`/`await`, copying the upload into a stream and the stream's position): an upload is its name, length and `Document`.
- Logging (`ILogger`): it has no effect on results.
- The `PdfHelper` constructor is split into `Pdf.PdfHelper.Empty` and a call of `LoadNativeAssemblies`, because a Dafny constructor cannot fail; `Run` makes both calls in that order.
