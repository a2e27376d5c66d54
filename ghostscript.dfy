/**
 * The boundary to the native Ghostscript rasteriser. Nothing behind it is
 * modelled: an opened document is represented by what the rasteriser says
 * about it, its page count (or the error `Open` raises) and, for every DPI
 * and page number, the bitmap `GetPage` produces (or the error it raises).
 * Because these are values, opening the same bytes twice gives the same
 * answer, as it does for the deterministic native library.
 */
module Ghostscript {
  import opened Wrappers

  datatype License = GPL | AFPL

  datatype Version = Version(major: nat, minor: nat, build: nat)

  /** `GhostscriptVersionInfo`: which native library the rasteriser is bound to. */
  datatype VersionInfo = VersionInfo(version: Version, dllPath: string, libPath: string, license: License)

  /** A rendered page; only its dimensions are visible to the program. */
  datatype Bitmap = Bitmap(width: int, height: int)

  /** A page count as `GhostscriptRasterizer.PageCount` reports it. */
  type PageCount = n: int | 0 <= n <= 0x7FFF_FFFF

  /** `GetPage(dpi, pageNumber)` on one opened document. */
  type PageRenderer = (int, int) -> Result<Bitmap, string>

  /** An uploaded byte stream as the rasteriser sees it. */
  datatype Document = Document(openResult: Result<PageCount, string>, getPage: PageRenderer)
}
