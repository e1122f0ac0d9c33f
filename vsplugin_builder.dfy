/** The Visual Studio plugin's builder: where the generated files of a
  * Slice file go, when a C++ Slice file must be compiled again, the
  * `-I` arguments handed to the Slice compiler, and the table of the
  * Slice files each Slice file depends on. */
module VsBuilder {
  import opened Basics
  import opened VsUtil

  // ---------------------------------------------------------------------
  // The .NET `Path` functions the builder uses
  // ---------------------------------------------------------------------

  predicate EndsWith(s: string, suffix: string)
  {
    |suffix| <= |s| && s[|s| - |suffix|..] == suffix
  }

  /** The directory separators and the volume separator. */
  predicate IsPathSeparator(c: char)
  {
    c == '\\' || c == '/' || c == ':'
  }

  predicate NoSeparator(s: string)
  {
    forall i :: 0 <= i < |s| ==> !IsPathSeparator(s[i])
  }

  /** `Path.GetFileName`: what follows the last separator. */
  function FileName(path: string): (r: string)
    ensures EndsWith(path, r) && NoSeparator(r)
  {
    if path == [] || IsPathSeparator(path[|path| - 1]) then []
    else FileName(path[..|path| - 1]) + [path[|path| - 1]]
  }

  /** Characters without a separator added at the end carry over to the
    * file name. */
  lemma {:induction false} FileNameAppend(a: string, b: string)
    requires NoSeparator(b)
    ensures FileName(a + b) == FileName(a) + b
    decreases |b|
  {
    if b == [] {
      assert a + b == a;
    } else {
      var binit := b[..|b| - 1];
      assert (a + b)[..|a + b| - 1] == a + binit;
      FileNameAppend(a, binit);
      Assoc(FileName(a), binit, [b[|b| - 1]]);
      assert b == binit + [b[|b| - 1]];
    }
  }

  /** The position of the dot that starts the extension: the last dot after
    * the last separator. */
  function ExtensionDot(path: string): (r: Option<nat>)
    ensures r.Some? ==> r.value < |path| && path[r.value] == '.'
  {
    if path == [] || IsPathSeparator(path[|path| - 1]) then None
    else if path[|path| - 1] == '.' then Some(|path| - 1)
    else ExtensionDot(path[..|path| - 1])
  }

  /** `Path.ChangeExtension`: the extension, if any, is cut off, then a dot
    * (unless the new extension brings its own) and the new extension are
    * appended; an empty path stays empty. */
  function ChangeExtension(path: string, ext: string): string
  {
    if path == [] then []
    else
      var stem := match ExtensionDot(path) case Some(i) => path[..i] case None => path;
      stem + (if ext == [] || ext[0] != '.' then "." else "") + ext
  }

  /** A path ending in `.ice` gets `.ice` replaced by the new extension. */
  lemma ChangeIceExtension(path: string, ext: string)
    requires EndsWith(path, ".ice") && (ext == [] || ext[0] != '.')
    ensures ChangeExtension(path, ext) == path[..|path| - 4] + "." + ext
  {
    var n := |path|;
    assert path[n - 4..] == ".ice";
    assert path[n - 1] == 'e' && path[n - 2] == 'c' && path[n - 3] == 'i' && path[n - 4] == '.';
    var p1 := path[..n - 1];
    var p2 := path[..n - 2];
    var p3 := path[..n - 3];
    assert p1[..n - 2] == p2 && p2[..n - 3] == p3;
    assert p3[n - 4] == '.';
    assert ExtensionDot(p3) == Some(n - 4);
    assert p2[n - 3] == 'i';
    assert ExtensionDot(p2) == Some(n - 4);
    assert p1[n - 2] == 'c';
    assert ExtensionDot(p1) == Some(n - 4);
    assert ExtensionDot(path) == Some(n - 4);
  }

  /** `Path.IsPathRooted`. */
  predicate IsRooted(p: string)
  {
    (|p| >= 1 && (p[0] == '\\' || p[0] == '/')) || (|p| >= 2 && p[1] == ':')
  }

  /** `Path.Combine`: an empty part gives the other, a rooted second part
    * wins, otherwise the parts are joined with a backslash unless the
    * first ends in a separator. */
  function Combine(dir: string, name: string): (r: string)
  {
    if name == [] then dir
    else if dir == [] then name
    else if IsRooted(name) then name
    else if IsPathSeparator(dir[|dir| - 1]) then dir + name
    else dir + "\\" + name
  }

  /** A non-empty name without separators is what `Combine` ends with, and
    * its file name. */
  lemma FileNameOfCombine(dir: string, name: string)
    requires name != [] && NoSeparator(name)
    ensures FileName(Combine(dir, name)) == name
  {
    NotRooted(name);
    if dir == [] {
      FileNameAppend([], name);
      assert [] + name == name;
    } else if IsPathSeparator(dir[|dir| - 1]) {
      assert Combine(dir, name) == dir + name;
      FileNameAppend(dir, name);
    } else {
      var front := dir + "\\";
      assert Combine(dir, name) == front + name;
      assert front[|front| - 1] == '\\';
      assert FileName(front) == [];
      FileNameAppend(front, name);
    }
  }

  lemma NotRooted(name: string)
    requires NoSeparator(name)
    ensures !IsRooted(name)
  {
    if |name| >= 1 {
      assert !IsPathSeparator(name[0]);
    }
    if |name| >= 2 {
      assert !IsPathSeparator(name[1]);
    }
  }

  /** `Path.GetDirectoryName`: what precedes the last separator, the empty
    * string when there is none. */
  function DirectoryName(path: string): (r: string)
    ensures |r| <= |path| && r == path[..|r|]
  {
    if path == [] then []
    else if IsPathSeparator(path[|path| - 1]) then path[..|path| - 1]
    else DirectoryName(path[..|path| - 1])
  }

  /** ASCII upper case; .NET `ToUpper` also folds letters outside ASCII. */
  function Upper(s: string): (r: string)
    ensures |r| == |s|
  {
    if s == [] then []
    else [if 'a' <= s[0] <= 'z' then ((s[0] as int) - 32) as char else s[0]] + Upper(s[1..])
  }

  predicate OccursAt(s: string, t: string, i: int)
  {
    0 <= i && i + |t| <= |s| && s[i..i + |t|] == t
  }

  /** `String.Contains`. */
  predicate Contains(s: string, t: string)
  {
    exists i :: 0 <= i <= |s| && OccursAt(s, t, i)
  }

  // ---------------------------------------------------------------------
  // Generated file names
  // ---------------------------------------------------------------------

  /** An extension as the builder passes them: no leading dot and no
    * separator. */
  predicate PlainExtension(ext: string)
  {
    (ext == [] || ext[0] != '.') && NoSeparator(ext)
  }

  /** `getCppGeneratedFileName`: nothing for a missing directory or path or
    * a file that is not a Slice file; a Slice file inside the project
    * directory (compared ignoring case) keeps its place, any other is
    * placed in the project directory; either way with the new extension. */
  function CppGeneratedFileName(projectDir: string, fullPath: string, ext: string): string
  {
    if projectDir == [] || fullPath == [] then ""
    else if !EndsWith(fullPath, ".ice") then ""
    else if Contains(Upper(fullPath), Upper(projectDir)) then ChangeExtension(fullPath, ext)
    else ChangeExtension(Combine(projectDir, FileName(fullPath)), ext)
  }

  /** The name of a Slice file with its `.ice` replaced by `ext`. */
  function Renamed(sliceName: string, ext: string): string
    requires EndsWith(sliceName, ".ice")
  {
    sliceName[..|sliceName| - 4] + "." + ext
  }

  /** The generated file is named after the Slice file with the new
    * extension; it sits next to the Slice file when that is inside the
    * project directory, and in the project directory otherwise. */
  lemma CppGeneratedFileNameMeaning(projectDir: string, fullPath: string, ext: string)
    requires PlainExtension(ext)
    ensures projectDir == [] || fullPath == [] || !EndsWith(fullPath, ".ice") ==>
              CppGeneratedFileName(projectDir, fullPath, ext) == ""
    ensures projectDir != [] && EndsWith(fullPath, ".ice") ==>
              && EndsWith(FileName(fullPath), ".ice")
              && FileName(CppGeneratedFileName(projectDir, fullPath, ext)) == Renamed(FileName(fullPath), ext)
              && (Contains(Upper(fullPath), Upper(projectDir)) ==>
                    CppGeneratedFileName(projectDir, fullPath, ext) == Renamed(fullPath, ext))
              && (!Contains(Upper(fullPath), Upper(projectDir)) ==>
                    CppGeneratedFileName(projectDir, fullPath, ext)
                    == Combine(projectDir, Renamed(FileName(fullPath), ext)))
  {
    if projectDir != [] && EndsWith(fullPath, ".ice") {
      var name := FileName(fullPath);
      IceFileName(fullPath);
      var renamed := Renamed(name, ext);
      RenamedFileName(fullPath, ext);
      if Contains(Upper(fullPath), Upper(projectDir)) {
        ChangeIceExtension(fullPath, ext);
      } else {
        CombineIce(projectDir, name, ext);
        RenamedNoSeparator(name, ext);
        FileNameOfCombine(projectDir, renamed);
      }
    }
  }

  /** The file name of a Slice file's path ends in `.ice` too. */
  lemma IceFileName(path: string)
    requires EndsWith(path, ".ice")
    ensures EndsWith(FileName(path), ".ice")
  {
    var n := |path|;
    assert path == path[..n - 4] + ".ice";
    FileNameAppend(path[..n - 4], ".ice");
  }

  lemma RenamedFileName(path: string, ext: string)
    requires EndsWith(path, ".ice") && NoSeparator(ext)
    ensures EndsWith(FileName(path), ".ice")
    ensures FileName(Renamed(path, ext)) == Renamed(FileName(path), ext)
  {
    var n := |path|;
    var stem := path[..n - 4];
    assert path == stem + ".ice";
    FileNameAppend(stem, ".ice");
    assert NoSeparator("." + ext);
    FileNameAppend(stem, "." + ext);
    Append3(stem, ".", ext);
    var f := FileName(stem);
    assert (f + ".ice")[..|f + ".ice"| - 4] == f;
    Append3(f, ".", ext);
  }

  lemma RenamedNoSeparator(name: string, ext: string)
    requires EndsWith(name, ".ice") && NoSeparator(name) && NoSeparator(ext)
    ensures Renamed(name, ext) != [] && NoSeparator(Renamed(name, ext))
  {
    var r := Renamed(name, ext);
    var stem := name[..|name| - 4];
    assert forall i :: 0 <= i < |stem| ==> stem[i] == name[i];
    assert forall i :: |stem| < i < |r| ==> r[i] == ext[i - |stem| - 1];
  }

  /** Renaming a Slice file placed in a directory is placing the renamed
    * file there. */
  lemma CombineIce(dir: string, name: string, ext: string)
    requires dir != [] && EndsWith(name, ".ice") && NoSeparator(name) && PlainExtension(ext)
    ensures EndsWith(Combine(dir, name), ".ice")
    ensures ChangeExtension(Combine(dir, name), ext) == Combine(dir, Renamed(name, ext))
  {
    var stem := name[..|name| - 4];
    assert name == stem + ".ice";
    NotRooted(name);
    RenamedNoSeparator(name, ext);
    var renamed := Renamed(name, ext);
    NotRooted(renamed);
    var front := if IsPathSeparator(dir[|dir| - 1]) then dir else dir + "\\";
    assert Combine(dir, name) == front + name;
    assert Combine(dir, renamed) == front + renamed;
    Assoc(front, stem, ".ice");
    ChangeIceExtension(front + name, ext);
    assert (front + name)[..|front + name| - 4] == front + stem;
    Append3(front + stem, ".", ext);
    Append3(front, stem, "." + ext);
    Append3(stem, ".", ext);
  }

  /** What the builder knows of a project item: its name and its path
    * relative to the project. */
  datatype Item = Item(name: string, relativePath: string)

  /** `getCSharpGeneratedFileName`: nothing without a project (given by its
    * file name) or an item, or for an item that is not a Slice file;
    * otherwise the item's directory relative to the project, under the
    * project's directory, with the item's name and the new extension. */
  function CSharpGeneratedFileName(projectFile: Option<string>, item: Option<Item>, ext: string): string
  {
    if projectFile.None? || item.None? then ""
    else if !EndsWith(item.value.name, ".ice") then ""
    else
      var projectDir := DirectoryName(projectFile.value);
      var generatedDir := DirectoryName(NormalizePath(item.value.relativePath));
      Combine(Combine(projectDir, generatedDir), ChangeExtension(item.value.name, ext))
  }

  /** The generated C# file is named after the Slice item, with the new
    * extension. */
  lemma CSharpGeneratedFileNameMeaning(projectFile: Option<string>, item: Option<Item>, ext: string)
    requires PlainExtension(ext)
    ensures projectFile.None? || item.None? || !EndsWith(item.value.name, ".ice") ==>
              CSharpGeneratedFileName(projectFile, item, ext) == ""
    ensures projectFile.Some? && item.Some? && EndsWith(item.value.name, ".ice") && NoSeparator(item.value.name) ==>
              FileName(CSharpGeneratedFileName(projectFile, item, ext)) == Renamed(item.value.name, ext)
  {
    if projectFile.Some? && item.Some? && EndsWith(item.value.name, ".ice") && NoSeparator(item.value.name) {
      var name := item.value.name;
      ChangeIceExtension(name, ext);
      RenamedNoSeparator(name, ext);
      var dir := Combine(DirectoryName(projectFile.value), DirectoryName(NormalizePath(item.value.relativePath)));
      FileNameOfCombine(dir, Renamed(name, ext));
    }
  }

  // ---------------------------------------------------------------------
  // Include arguments for the Slice compiler
  // ---------------------------------------------------------------------

  /** `quoteArg`: the argument in double quotes. */
  function QuoteArg(arg: string): (r: string)
    ensures |r| == |arg| + 2 && r[0] == '"' && r[|r| - 1] == '"' && r[1..|r| - 1] == arg
  {
    "\"" + arg + "\""
  }

  /** `Replace("\\", "\\\\")`: every backslash doubled. */
  function Doubled(s: string): string
  {
    if s == [] then [] else (if s[0] == '\\' then "\\\\" else [s[0]]) + Doubled(s[1..])
  }

  /** The inverse of `Doubled`: each doubled backslash becomes one. It is the
    * reference the round trip is stated against, not the Windows
    * command-line rule, which halves only backslashes before a quote. */
  function Undoubled(t: string): string
  {
    if t == [] then []
    else if |t| >= 2 && t[0] == '\\' && t[1] == '\\' then ['\\'] + Undoubled(t[2..])
    else [t[0]] + Undoubled(t[1..])
  }

  lemma {:induction false} UndoubledRoundTrip(s: string)
    ensures Undoubled(Doubled(s)) == s
  {
    if s != [] {
      UndoubledRoundTrip(s[1..]);
      var t := Doubled(s);
      if s[0] == '\\' {
        assert t == "\\\\" + Doubled(s[1..]);
        assert t[2..] == Doubled(s[1..]);
      } else {
        assert t == [s[0]] + Doubled(s[1..]);
        assert t[1..] == Doubled(s[1..]);
      }
    }
  }

  /** The number of non-empty pieces, as `Split` with `RemoveEmptyEntries`
    * counts them. */
  function NonEmptyCount(pieces: seq<string>): nat
  {
    if pieces == [] then 0
    else NonEmptyCount(pieces[..|pieces| - 1]) + (if pieces[|pieces| - 1] != [] then 1 else 0)
  }

  /** An include directory of a single component that ends in a backslash
    * (a drive root such as `C:\\`) gets a `.` appended, so that the closing
    * quote is not escaped. */
  function WithDot(dir: string): (r: string)
    ensures r == dir || r == dir + "."
  {
    if EndsWith(dir, "\\") && NonEmptyCount(Split(dir, '\\')) == 1 then dir + "." else dir
  }

  /** The argument for one include directory. */
  function IncludeArg(dir: string): string
  {
    "-I" + QuoteArg(Doubled(WithDot(dir))) + " "
  }

  /** The arguments for the include directories, skipping empty ones. */
  function IncludeArgs(includes: seq<string>): string
  {
    if includes == [] then ""
    else
      var last := includes[|includes| - 1];
      IncludeArgs(includes[..|includes| - 1]) + (if last == "" then "" else IncludeArg(last))
  }

  /** How the compiler reads one `-I` argument: the text between the quotes,
    * with doubled backslashes read back. */
  function ReadIncludeArg(a: string): Option<string>
  {
    if |a| >= 5 && a[..3] == "-I\"" && a[|a| - 2..] == "\" " then Some(Undoubled(a[3..|a| - 2])) else None
  }

  /** Reading an include argument gives back the directory, with the `.`
    * added to a single-component one. */
  lemma IncludeArgRoundTrip(dir: string)
    ensures ReadIncludeArg(IncludeArg(dir)) == Some(WithDot(dir))
  {
    var d := Doubled(WithDot(dir));
    var a := IncludeArg(dir);
    assert a == "-I\"" + d + "\" ";
    assert a[..3] == "-I\"";
    assert a[|a| - 2..] == "\" ";
    assert a[3..|a| - 2] == d;
    UndoubledRoundTrip(WithDot(dir));
  }

  lemma NonEmptyCountSnoc(p: seq<string>, x: string)
    ensures NonEmptyCount(p + [x]) == NonEmptyCount(p) + (if x != [] then 1 else 0)
  {
    assert (p + [x])[..|p|] == p;
  }

  /** The pieces of a directory name followed by a backslash. */
  lemma SplitTrailing(a: string)
    requires '\\' !in a
    ensures Split(a + "\\", '\\') == [a, ""]
  {
    SplitWhole(a, '\\');
    assert Split("", '\\') == [""];
    SplitAt(a, '\\', "");
    assert a + "\\" == a + ['\\'] + "";
  }

  /** A single directory name followed by a backslash gets the `.`. */
  lemma WithDotSingle(a: string)
    requires a != [] && '\\' !in a
    ensures WithDot(a + "\\") == a + "\\."
  {
    SplitTrailing(a);
    NonEmptyCountSnoc([], a);
    NonEmptyCountSnoc([a], "");
    assert [] + [a] == [a] && [a] + [""] == [a, ""];
    assert EndsWith(a + "\\", "\\");
  }

  /** A path of two directory names keeps its trailing backslash. */
  lemma WithDotDouble(a: string, b: string)
    requires a != [] && b != [] && '\\' !in a && '\\' !in b
    ensures WithDot(a + "\\" + b + "\\") == a + "\\" + b + "\\"
  {
    SplitWhole(a, '\\');
    SplitTrailing(b);
    SplitAt(a, '\\', b + "\\");
    assert a + "\\" + b + "\\" == a + ['\\'] + (b + "\\");
    assert Split(a + "\\" + b + "\\", '\\') == [a] + [b, ""];
    NonEmptyCountSnoc([], a);
    NonEmptyCountSnoc([a], b);
    NonEmptyCountSnoc([a, b], "");
    assert [] + [a] == [a] && [a] + [b] == [a, b] && [a, b] + [""] == [a] + [b, ""];
  }

  /** The include loop of `getSliceCompilerArgs`. */
  method AddIncludeArgs(args: string, includes: seq<string>) returns (r: string)
    ensures r == args + IncludeArgs(includes)
  {
    r := args;
    var i := 0;
    while i < |includes|
      invariant 0 <= i <= |includes|
      invariant r == args + IncludeArgs(includes[..i])
    {
      IncludeArgsStep(includes, i);
      var dir := includes[i];
      if dir == "" {
        i := i + 1;
        continue;
      }
      if EndsWith(dir, "\\") && NonEmptyCount(Split(dir, '\\')) == 1 {
        dir := dir + ".";
      }
      assert dir == WithDot(includes[i]);
      dir := Doubled(dir);
      Append3(args, IncludeArgs(includes[..i]), IncludeArg(includes[i]));
      r := r + ("-I" + QuoteArg(dir) + " ");
      i := i + 1;
    }
    assert includes[..i] == includes;
  }

  /** One more directory adds its argument, unless it is empty. */
  lemma IncludeArgsStep(includes: seq<string>, i: nat)
    requires i < |includes|
    ensures IncludeArgs(includes[..i + 1])
            == IncludeArgs(includes[..i]) + (if includes[i] == "" then "" else IncludeArg(includes[i]))
  {
    assert includes[..i + 1][..i] == includes[..i];
  }

  // ---------------------------------------------------------------------
  // When a C++ Slice file is compiled again
  // ---------------------------------------------------------------------

  /** A file on disk: missing, or written at some time. */
  datatype FileStamp = Missing | Written(time: int)

  datatype BuildError = NoDependencyTable(project: string)

  /** The Slice files each Slice file of each project depends on, by
    * project name and Slice file. */
  type DependencyTable = map<string, map<string, seq<string>>>

  /** A dependency that exists and is newer than either generated file. */
  predicate NewerDependency(d: FileStamp, hTime: int, cppTime: int)
  {
    d.Written? && (d.time > cppTime || d.time > hTime)
  }

  predicate AnyNewerDependency(names: seq<string>, projectDir: string, stamp: string -> FileStamp,
                               hTime: int, cppTime: int)
  {
    exists k :: 0 <= k < |names| && NewerDependency(stamp(Combine(projectDir, names[k])), hTime, cppTime)
  }

  lemma AnyNewerDependencyGrows(names: seq<string>, i: nat, projectDir: string, stamp: string -> FileStamp,
                                hTime: int, cppTime: int)
    requires i <= |names| && AnyNewerDependency(names[..i], projectDir, stamp, hTime, cppTime)
    ensures AnyNewerDependency(names, projectDir, stamp, hTime, cppTime)
  {
    var k :| 0 <= k < i && NewerDependency(stamp(Combine(projectDir, names[..i][k])), hTime, cppTime);
    assert names[..i][k] == names[k];
  }

  /** The decision of `buildCppProjectItem`: a missing generated file, one
    * that is not in the project, or a Slice file newer than either means a
    * rebuild; otherwise the project's dependency table is consulted (it
    * must exist), and a forced build or an existing dependency newer than
    * either generated file means a rebuild. */
  function Stale(deps: DependencyTable, force: bool, ice: string, iceTime: int, h: FileStamp, cpp: FileStamp,
                 hInProject: bool, cppInProject: bool, project: string, projectDir: string,
                 stamp: string -> FileStamp): Result<bool, BuildError>
  {
    if h.Missing? || cpp.Missing? || !hInProject || !cppInProject || iceTime > h.time || iceTime > cpp.time then
      Success(true)
    else if project !in deps then Failure(NoDependencyTable(project))
    else
      Success(force || (ice in deps[project] &&
                        AnyNewerDependency(deps[project][ice], projectDir, stamp, h.time, cpp.time)))
  }

  /** A rebuild is needed exactly when it is forced, a generated file is
    * missing or not in the project, the Slice file is newer than a
    * generated file, or a listed dependency that exists is newer than a
    * generated file; the decision fails only for a project without a
    * dependency table whose generated files are up to date. */
  lemma StaleMeaning(deps: DependencyTable, force: bool, ice: string, iceTime: int, h: FileStamp, cpp: FileStamp,
                     hInProject: bool, cppInProject: bool, project: string, projectDir: string,
                     stamp: string -> FileStamp)
    ensures var r := Stale(deps, force, ice, iceTime, h, cpp, hInProject, cppInProject, project, projectDir, stamp);
            var outdated := h.Missing? || cpp.Missing? || !hInProject || !cppInProject
                            || iceTime > h.time || iceTime > cpp.time;
            && (r.Failure? <==> !outdated && project !in deps)
            && (r.Success? ==>
                  (r.value <==>
                     outdated || force ||
                     (ice in deps[project] &&
                      exists k :: 0 <= k < |deps[project][ice]| &&
                                  stamp(Combine(projectDir, deps[project][ice][k])).Written? &&
                                  (stamp(Combine(projectDir, deps[project][ice][k])).time > cpp.time ||
                                   stamp(Combine(projectDir, deps[project][ice][k])).time > h.time))))
  {
  }

  /** Forcing never turns a rebuild into none, and a newer Slice file
    * always means a rebuild. */
  lemma StaleMonotone(deps: DependencyTable, force: bool, ice: string, iceTime: int, h: FileStamp, cpp: FileStamp,
                      hInProject: bool, cppInProject: bool, project: string, projectDir: string,
                      stamp: string -> FileStamp)
    ensures Stale(deps, force, ice, iceTime, h, cpp, hInProject, cppInProject, project, projectDir, stamp)
            == Success(true) ==>
            Stale(deps, true, ice, iceTime, h, cpp, hInProject, cppInProject, project, projectDir, stamp)
            == Success(true)
    ensures h.Written? && cpp.Written? && iceTime > h.time ==>
            Stale(deps, force, ice, iceTime, h, cpp, hInProject, cppInProject, project, projectDir, stamp)
            == Success(true)
  {
  }

  // ---------------------------------------------------------------------
  // Dependency lines
  // ---------------------------------------------------------------------

  /** One line of the compiler's dependency output for `file`: a trailing
    * ` \\` is cut and the line trimmed; it is kept, with forward slashes
    * turned into backslashes, when it names a Slice file other than
    * `file`. */
  function DependencyOf(line: string, file: string): Option<string>
  {
    if line == "" then None
    else
      var cut := if EndsWith(line, " \\") then line[..|line| - 2] else line;
      var trimmed := Trim(cut);
      if EndsWith(trimmed, ".ice") && FileName(trimmed) != FileName(file) then Some(Backslashed(trimmed))
      else None
  }

  /** The dependencies read from the compiler's output, in order. */
  function DependenciesOf(lines: seq<string>, file: string): seq<string>
  {
    if lines == [] then []
    else
      var d := DependencyOf(lines[|lines| - 1], file);
      DependenciesOf(lines[..|lines| - 1], file) + (if d.Some? then [d.value] else [])
  }

  /** Turning forward slashes into backslashes keeps the file name and the
    * `.ice` ending. */
  lemma BackslashedKeepsName(s: string)
    ensures FileName(Backslashed(s)) == FileName(s)
    ensures EndsWith(s, ".ice") ==> EndsWith(Backslashed(s), ".ice")
  {
    SameShapeFileName(Backslashed(s), s);
    var b := Backslashed(s);
    if EndsWith(s, ".ice") {
      var n := |s|;
      assert s[n - 4..] == ".ice";
      assert b[n - 4] == '.' && b[n - 3] == 'i' && b[n - 2] == 'c' && b[n - 1] == 'e';
      assert b[n - 4..] == ".ice";
    }
  }

  /** Two paths that agree on where the separators are and on every other
    * character have the same file name. */
  lemma {:induction false} SameShapeFileName(a: string, b: string)
    requires |a| == |b|
    requires forall i :: 0 <= i < |a| ==> IsPathSeparator(a[i]) == IsPathSeparator(b[i])
    requires forall i :: 0 <= i < |a| && !IsPathSeparator(a[i]) ==> a[i] == b[i]
    ensures FileName(a) == FileName(b)
  {
    if a != [] && !IsPathSeparator(a[|a| - 1]) {
      SameShapeFileName(a[..|a| - 1], b[..|b| - 1]);
    }
  }

  /** A dependency kept names a Slice file, holds no forward slash and is
    * not the file itself. */
  predicate WellFormedDependency(d: string, file: string)
  {
    EndsWith(d, ".ice") && '/' !in d && FileName(d) != FileName(file)
  }

  lemma DependencyOfWellFormed(line: string, file: string)
    ensures DependencyOf(line, file).Some? ==> WellFormedDependency(DependencyOf(line, file).value, file)
  {
    if line != "" {
      var cut := if EndsWith(line, " \\") then line[..|line| - 2] else line;
      BackslashedKeepsName(Trim(cut));
    }
  }

  /** Every dependency kept is well formed. */
  lemma {:induction false} DependenciesWellFormed(lines: seq<string>, file: string)
    ensures forall d :: d in DependenciesOf(lines, file) ==> WellFormedDependency(d, file)
  {
    if lines != [] {
      DependenciesWellFormed(lines[..|lines| - 1], file);
      DependencyOfWellFormed(lines[|lines| - 1], file);
    }
  }

  /** A clean line (not empty, trimmed, without a trailing ` \\` or a
    * forward slash) is kept as it is exactly when it names another Slice
    * file. */
  lemma DependencyLineKept(line: string, file: string)
    requires line != "" && TrimmedBy(line, IsWhiteSpace) && !EndsWith(line, " \\") && '/' !in line
    ensures DependencyOf(line, file)
            == if EndsWith(line, ".ice") && FileName(line) != FileName(file) then Some(line) else None
  {
    var b := Backslashed(line);
    assert forall i :: 0 <= i < |line| ==> line[i] != '/';
    assert b == line;
  }

  lemma DependenciesStep(lines: seq<string>, i: nat, file: string)
    requires i < |lines|
    ensures var d := DependencyOf(lines[i], file);
            DependenciesOf(lines[..i + 1], file) == DependenciesOf(lines[..i], file) + (if d.Some? then [d.value] else [])
  {
    assert lines[..i + 1][..i] == lines[..i];
  }

  /** The line loop of `updateDependencies`. */
  method ParseDependencies(lines: seq<string>, file: string) returns (dependencies: seq<string>)
    ensures dependencies == DependenciesOf(lines, file)
  {
    dependencies := [];
    var i := 0;
    while i < |lines|
      invariant 0 <= i <= |lines|
      invariant dependencies == DependenciesOf(lines[..i], file)
    {
      DependenciesStep(lines, i, file);
      var line := lines[i];
      if line != "" {
        if EndsWith(line, " \\") {
          line := line[..|line| - 2];
        }
        line := Trim(line);
        if EndsWith(line, ".ice") && FileName(line) != FileName(file) {
          line := Backslashed(line);
          dependencies := dependencies + [line];
        }
      }
      i := i + 1;
    }
    assert lines[..i] == lines;
  }

  // ---------------------------------------------------------------------
  // The dependency table
  // ---------------------------------------------------------------------

  /** `cleanDependencies`: nothing without a project (or with an unnamed
    * one), without a file, or when the project or the file is not in the
    * table; otherwise the file's entry is removed. */
  function Cleaned(deps: DependencyTable, project: Option<string>, file: Option<string>): DependencyTable
  {
    if project.None? || file.None? || project.value == "" || project.value !in deps
       || file.value !in deps[project.value] then deps
    else deps[project.value := deps[project.value] - {file.value}]
  }

  /** Cleaning removes only the file's entry under its project: no project
    * appears or disappears, other projects keep their tables, and the
    * project keeps its other files. */
  lemma CleanedOnlyThatFile(deps: DependencyTable, project: Option<string>, file: Option<string>)
    ensures Cleaned(deps, project, file).Keys == deps.Keys
    ensures forall p :: p in deps && (project.None? || p != project.value) ==> Cleaned(deps, project, file)[p] == deps[p]
    ensures project.Some? && project.value != "" && project.value in deps && file.Some? ==>
              && file.value !in Cleaned(deps, project, file)[project.value]
              && forall f :: f in deps[project.value] && f != file.value ==>
                   f in Cleaned(deps, project, file)[project.value]
                   && Cleaned(deps, project, file)[project.value][f] == deps[project.value][f]
  {
  }

  /** The builder's dependency table. */
  class Builder {
    var dependenciesMap: DependencyTable

    constructor()
      ensures dependenciesMap == map[]
    {
      dependenciesMap := map[];
    }

    /** `cleanDependencies`. */
    method CleanDependencies(project: Option<string>, file: Option<string>)
      modifies this
      ensures dependenciesMap == Cleaned(old(dependenciesMap), project, file)
    {
      if project.None? || file.None? {
        return;
      }
      if project.value == "" {
        return;
      }
      if project.value !in dependenciesMap {
        return;
      }
      var projectDependencies := dependenciesMap[project.value];
      if file.value !in projectDependencies {
        return;
      }
      projectDependencies := projectDependencies - {file.value};
      dependenciesMap := dependenciesMap[project.value := projectDependencies];
    }

    /** The end of `updateDependencies` once the compiler succeeded: the
      * project gets a table if it has none, and the file's entry is the
      * dependencies read from the compiler's output. */
    method RecordDependencies(project: string, file: string, lines: seq<string>)
      modifies this
      ensures project in dependenciesMap && file in dependenciesMap[project]
      ensures dependenciesMap[project][file] == DependenciesOf(lines, file)
      ensures dependenciesMap ==
              old(dependenciesMap)[project := (if project in old(dependenciesMap) then old(dependenciesMap)[project]
                                               else map[])[file := DependenciesOf(lines, file)]]
    {
      var dependencies := ParseDependencies(lines, file);
      if project !in dependenciesMap {
        dependenciesMap := dependenciesMap[project := map[]];
      }
      var projectDeps := dependenciesMap[project];
      projectDeps := projectDeps[file := dependencies];
      dependenciesMap := dependenciesMap[project := projectDeps];
    }

    /** The decision of `buildCppProjectItem` whether to run the compiler,
      * with the file system given by `stamp`. */
    method NeedsRebuild(force: bool, ice: string, iceTime: int, h: FileStamp, cpp: FileStamp,
                        hInProject: bool, cppInProject: bool, project: string, projectDir: string,
                        stamp: string -> FileStamp) returns (r: Result<bool, BuildError>)
      ensures r == Stale(dependenciesMap, force, ice, iceTime, h, cpp, hInProject, cppInProject, project,
                         projectDir, stamp)
    {
      var updated := false;
      if force {
        updated := true;
      }
      if h.Missing? || cpp.Missing? {
        updated := true;
      } else if !hInProject || !cppInProject {
        updated := true;
      } else if iceTime > h.time || iceTime > cpp.time {
        updated := true;
      } else {
        if project !in dependenciesMap {
          return Failure(NoDependencyTable(project));
        }
        var dependenciesMap := dependenciesMap[project];
        if ice in dependenciesMap {
          var fileDependencies := dependenciesMap[ice];
          var i := 0;
          while i < |fileDependencies|
            invariant 0 <= i <= |fileDependencies|
            invariant updated == (force || AnyNewerDependency(fileDependencies[..i], projectDir, stamp, h.time, cpp.time))
          {
            assert forall k :: 0 <= k < i ==> fileDependencies[..i + 1][k] == fileDependencies[..i][k];
            var dependency := stamp(Combine(projectDir, fileDependencies[i]));
            if dependency.Missing? {
              i := i + 1;
              continue;
            }
            if dependency.time > cpp.time || dependency.time > h.time {
              updated := true;
              assert fileDependencies[..i + 1][i] == fileDependencies[i];
              assert AnyNewerDependency(fileDependencies[..i + 1], projectDir, stamp, h.time, cpp.time);
              AnyNewerDependencyGrows(fileDependencies, i + 1, projectDir, stamp, h.time, cpp.time);
              break;
            }
            i := i + 1;
          }
          assert fileDependencies[..|fileDependencies|] == fileDependencies;
        }
      }
      r := Success(updated);
    }
  }
}

