/**
 * The few pieces of the .NET runtime whose behaviour the model depends on:
 * 32-bit `int` arithmetic as C# performs it (unchecked, two's complement)
 * and `Path.Combine` with the Unix directory separator.
 */
module DotNet {

  const IntMin: int := -0x8000_0000
  const IntMax: int := 0x7FFF_FFFF

  /** The C# `int` type. */
  type Int32 = x: int | -0x8000_0000 <= x <= 0x7FFF_FFFF

  /**
   * The value C# gives to a mathematical integer in an unchecked `int`
   * context: the representative of `x` modulo 2^32 in the `int` range.
   */
  function Wrap32(x: int): (r: Int32)
    ensures IntMin <= x <= IntMax ==> r == x
    ensures (x - r) % 0x1_0000_0000 == 0
    ensures x > IntMax && x <= 2 * IntMax ==> r == x - 0x1_0000_0000
    ensures x < IntMin && x >= 2 * IntMin ==> r == x + 0x1_0000_0000
  {
    (x + 0x8000_0000) % 0x1_0000_0000 - 0x8000_0000
  }

  const DirectorySeparator: char := '/'

  predicate IsPathRooted(path: string) {
    |path| > 0 && path[0] == DirectorySeparator
  }

  predicate EndsInSeparator(path: string) {
    |path| > 0 && path[|path| - 1] == DirectorySeparator
  }

  /**
   * `Path.Combine(path1, path2)`: an empty second part gives the first; an
   * empty first part or a rooted second part gives the second; otherwise
   * the two are joined with exactly one separator added when the first does
   * not already end in one.
   */
  function PathCombine(path1: string, path2: string): (r: string)
    ensures path2 == [] ==> r == path1
    ensures path2 != [] && (path1 == [] || IsPathRooted(path2)) ==> r == path2
    ensures path2 != [] ==> |r| >= |path2| && r[|r| - |path2|..] == path2
    ensures path1 != [] && path2 != [] && !IsPathRooted(path2) ==>
      && |r| == |path1| + |path2| + (if EndsInSeparator(path1) then 0 else 1)
      && r[..|path1|] == path1
      && EndsInSeparator(r[..|r| - |path2|])
  {
    if path2 == [] then path1
    else if path1 == [] || IsPathRooted(path2) then path2
    else if EndsInSeparator(path1) then path1 + path2
    else path1 + [DirectorySeparator] + path2
  }
}
