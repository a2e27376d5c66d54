/**
 * Where `PdfHelper.LoadNativeAssemblies` looks for the Ghostscript DLL: in
 * the `dll/` directory under the application root, under a name chosen by
 * the bit width of the running process.
 */
module NativeLibrary {
  import opened DotNet

  const DllSubdirectory: string := "dll/"
  const Dll64: string := "gsdll64.dll"
  const Dll32: string := "gsdll32.dll"

  /** The DLL's file name for a 64-bit (`true`) or 32-bit process. */
  function DllFileName(is64BitProcess: bool): (name: string)
    ensures !IsPathRooted(name)
    ensures is64BitProcess ==> name == "gsdll64.dll"
    ensures !is64BitProcess ==> name == "gsdll32.dll"
  {
    if is64BitProcess then Dll64 else Dll32
  }

  /** `Path.Combine(rootApplicationPath, "dll/")`, the directory searched. */
  function DllDirectory(rootApplicationPath: string): (dir: string)
    ensures EndsInSeparator(dir)
  {
    PathCombine(rootApplicationPath, DllSubdirectory)
  }

  /** `Path.Combine(newPath, gsdll64.dll or gsdll32.dll)`, the DLL looked for. */
  function DllPath(rootApplicationPath: string, is64BitProcess: bool): (path: string)
    ensures var dir, name := DllDirectory(rootApplicationPath), DllFileName(is64BitProcess);
      && |path| == |dir| + |name|
      && path[..|dir|] == dir
      && path[|dir|..] == name
  {
    PathCombine(DllDirectory(rootApplicationPath), DllFileName(is64BitProcess))
  }

  /**
   * The DLL is `<root>/dll/gsdll64.dll` in a 64-bit process and
   * `<root>/dll/gsdll32.dll` otherwise, with no separator doubled when the
   * root already ends in one.
   */
  lemma DllPathLayout(rootApplicationPath: string, is64BitProcess: bool)
    ensures DllPath(rootApplicationPath, is64BitProcess) ==
      DllDirectory(rootApplicationPath) + DllFileName(is64BitProcess)
    ensures !EndsInSeparator(rootApplicationPath) && rootApplicationPath != [] ==>
      DllPath(rootApplicationPath, is64BitProcess) ==
        rootApplicationPath + "/dll/" + (if is64BitProcess then "gsdll64.dll" else "gsdll32.dll")
    ensures EndsInSeparator(rootApplicationPath) ==>
      DllPath(rootApplicationPath, is64BitProcess) ==
        rootApplicationPath + "dll/" + (if is64BitProcess then "gsdll64.dll" else "gsdll32.dll")
  {
    var dir := DllDirectory(rootApplicationPath);
    var name := DllFileName(is64BitProcess);
    assert dir != [] && EndsInSeparator(dir);
    assert DllPath(rootApplicationPath, is64BitProcess) == dir + name;
    if rootApplicationPath != [] {
      if EndsInSeparator(rootApplicationPath) {
        assert dir == rootApplicationPath + "dll/";
      } else {
        assert dir == rootApplicationPath + "/" + "dll/";
        assert dir + name == rootApplicationPath + "/dll/" + name;
      }
    }
  }

  /** The two process widths never look for the same file. */
  lemma {:induction false} DllPathSelectsBitWidth(rootApplicationPath: string)
    ensures DllPath(rootApplicationPath, true) != DllPath(rootApplicationPath, false)
  {
    DllPathLayout(rootApplicationPath, true);
    DllPathLayout(rootApplicationPath, false);
    var dir := DllDirectory(rootApplicationPath);
    assert DllPath(rootApplicationPath, true)[|dir| + 5] == '6';
    assert DllPath(rootApplicationPath, false)[|dir| + 5] == '3';
  }
}
