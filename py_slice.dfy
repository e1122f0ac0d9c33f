/** The argument handling of `Ice.loadSlice` (`py/modules/IcePy/Slice.cpp`):
  * the command's arguments are sorted into preprocessor options, parser
  * flags and the Slice files to load. */
module IcePySlice {
  import opened Basics

  /** What the argument loop gathers. `ice` is always set, so that the
    * parser accepts the `Ice` prefix (it is needed for `Ice::Identity`). */
  datatype Options = Options(cppArgs: string, files: seq<string>, caseSensitive: bool, all: bool,
                             ice: bool, debug: bool)

  datatype LoadError = UnknownOption(arg: string) | NoSliceFiles(cmd: string)

  /** `-I`, `-D` and `-U` options go to the preprocessor. */
  predicate IsPreprocessorArg(a: string)
  {
    |a| >= 2 && (a[..2] == "-I" || a[..2] == "-D" || a[..2] == "-U")
  }

  predicate IsFlag(a: string)
  {
    a == "--case-sensitive" || a == "--all"
  }

  /** Any other argument that starts with `-`. */
  predicate IsUnknownOption(a: string)
  {
    !IsPreprocessorArg(a) && !IsFlag(a) && |a| > 0 && a[0] == '-'
  }

  predicate IsFile(a: string)
  {
    !IsPreprocessorArg(a) && !IsFlag(a) && !IsUnknownOption(a)
  }

  /** What one preprocessor option adds: a space, then the option, in single
    * quotes when it holds a space. */
  function CppArg(a: string): (r: string)
    ensures ' ' in a ==> r == " '" + a + "'"
    ensures ' ' !in a ==> r == " " + a
  {
    " " + (if ' ' in a then "'" + a + "'" else a)
  }

  /** The preprocessor options of the arguments, each as `CppArg`, in
    * order. */
  function CppArgs(args: seq<string>): string
  {
    if args == [] then ""
    else CppArgs(args[..|args| - 1]) + (if IsPreprocessorArg(args[|args| - 1]) then CppArg(args[|args| - 1]) else "")
  }

  /** The file arguments, in order. */
  function Files(args: seq<string>): seq<string>
  {
    if args == [] then []
    else Files(args[..|args| - 1]) + (if IsFile(args[|args| - 1]) then [args[|args| - 1]] else [])
  }

  /** The files are exactly the arguments that are neither options nor
    * flags, and they keep their order. */
  lemma {:induction false} FilesAreTheFileArgs(args: seq<string>)
    ensures forall a :: a in Files(args) <==> a in args && IsFile(a)
    ensures |Files(args)| <= |args|
  {
    if args != [] {
      var init := args[..|args| - 1];
      FilesAreTheFileArgs(init);
      assert args == init + [args[|args| - 1]];
    }
  }

  /** Files keep their relative order: the files of a concatenation are the
    * files of each part, one after the other. */
  lemma {:induction false} FilesOfConcat(a: seq<string>, b: seq<string>)
    ensures Files(a + b) == Files(a) + Files(b)
    decreases |b|
  {
    if b == [] {
      assert a + b == a;
    } else {
      var init := b[..|b| - 1];
      assert (a + b)[..|a + b| - 1] == a + init;
      FilesOfConcat(a, init);
    }
  }

  /** The first unknown option among the arguments, if any. */
  function FirstUnknown(args: seq<string>): (r: Option<string>)
    ensures r.Some? ==> r.value in args && IsUnknownOption(r.value)
    ensures r.None? <==> forall k :: 0 <= k < |args| ==> !IsUnknownOption(args[k])
  {
    if args == [] then None
    else if FirstUnknown(args[..|args| - 1]).Some? then FirstUnknown(args[..|args| - 1])
    else if IsUnknownOption(args[|args| - 1]) then Some(args[|args| - 1])
    else None
  }

  /** The options before the first argument: `ice` set, the rest off. */
  const Initial := Options("", [], false, false, true, false)

  /** One turn of the argument loop. */
  function Step(o: Options, arg: string): Result<Options, LoadError>
  {
    if IsPreprocessorArg(arg) then Success(o.(cppArgs := o.cppArgs + CppArg(arg)))
    else if arg == "--case-sensitive" then Success(o.(caseSensitive := true))
    else if arg == "--all" then Success(o.(all := true))
    else if IsUnknownOption(arg) then Failure(UnknownOption(arg))
    else Success(o.(files := o.files + [arg]))
  }

  /** The argument loop over the whole command, stopping at the first
    * error. */
  function Scan(args: seq<string>): Result<Options, LoadError>
  {
    if args == [] then Success(Initial)
    else match Scan(args[..|args| - 1])
      case Failure(e) => Failure(e)
      case Success(o) => Step(o, args[|args| - 1])
  }

  /** The argument loop, then the check that some file was named. */
  function Classified(cmd: string, args: seq<string>): Result<Options, LoadError>
  {
    match Scan(args)
    case Failure(e) => Failure(e)
    case Success(o) => if o.files == [] then Failure(NoSliceFiles(cmd)) else Success(o)
  }

  /** What the loop computes: it fails exactly when some argument is an
    * unknown option, naming the first; otherwise the preprocessor
    * arguments are those of the `-I`, `-D` and `-U` options in order, the
    * files are the other non-option arguments in order, each flag is set
    * exactly when it was given, and `ice` is set. */
  lemma {:induction false} ScanMeaning(args: seq<string>)
    ensures Scan(args).Failure? <==> FirstUnknown(args).Some?
    ensures Scan(args).Failure? ==> Scan(args).error == UnknownOption(FirstUnknown(args).value)
    ensures Scan(args).Success? ==>
              Scan(args).value ==
              Options(CppArgs(args), Files(args), "--case-sensitive" in args, "--all" in args, true, false)
  {
    if args != [] {
      var init := args[..|args| - 1];
      var last := args[|args| - 1];
      ScanMeaning(init);
      assert args == init + [last];
      assert "--case-sensitive" in args <==> "--case-sensitive" in init || last == "--case-sensitive";
      assert "--all" in args <==> "--all" in init || last == "--all";
      if Scan(init).Success? && !IsUnknownOption(last) {
        var o := Scan(init).value;
        assert CppArgs(args) == CppArgs(init) + (if IsPreprocessorArg(last) then CppArg(last) else "");
        assert Files(args) == Files(init) + (if IsFile(last) then [last] else []);
        if IsPreprocessorArg(last) {
          assert Scan(args).value == o.(cppArgs := o.cppArgs + CppArg(last));
          assert !IsFlag(last) by {
            assert last[1] != '-';
          }
        } else if last == "--case-sensitive" {
          assert Scan(args).value == o.(caseSensitive := true);
          assert "--all" in args <==> "--all" in init;
        } else if last == "--all" {
          assert Scan(args).value == o.(all := true);
          assert "--case-sensitive" in args <==> "--case-sensitive" in init;
        } else {
          assert Scan(args).value == o.(files := o.files + [last]);
        }
      }
    }
  }

  /** The whole outcome: an unknown option is reported first; then a
    * command without files is refused; otherwise the options are as
    * `ScanMeaning` describes, with at least one file. */
  lemma ClassifiedMeaning(cmd: string, args: seq<string>)
    ensures FirstUnknown(args).Some? ==> Classified(cmd, args) == Failure(UnknownOption(FirstUnknown(args).value))
    ensures FirstUnknown(args).None? && Files(args) == [] ==> Classified(cmd, args) == Failure(NoSliceFiles(cmd))
    ensures FirstUnknown(args).None? && Files(args) != [] ==>
              Classified(cmd, args) ==
              Success(Options(CppArgs(args), Files(args), "--case-sensitive" in args, "--all" in args, true, false))
  {
    ScanMeaning(args);
  }

  /** Once the loop has failed on a prefix, it fails the same way on the
    * whole command. */
  lemma {:induction false} ScanFailureSticks(args: seq<string>, n: nat)
    requires n <= |args| && Scan(args[..n]).Failure?
    ensures Scan(args) == Scan(args[..n])
    decreases |args| - n
  {
    if n < |args| {
      assert args[..n + 1][..n] == args[..n];
      ScanFailureSticks(args, n + 1);
    } else {
      assert args[..n] == args;
    }
  }

  /** The loop of `Ice_loadSlice` over the split command: preprocessor
    * options are appended to `cppArgs`, flags are set, the first unknown
    * option stops it with an error, and every other argument is a file; no
    * file at all is an error too. */
  method LoadSliceArgs(cmd: string, args: seq<string>) returns (r: Result<Options, LoadError>)
    ensures r == Classified(cmd, args)
  {
    var cppArgs := "";
    var files: seq<string> := [];
    var caseSensitive := false;
    var all := false;
    var i := 0;
    while i < |args|
      invariant 0 <= i <= |args|
      invariant Scan(args[..i]) == Success(Options(cppArgs, files, caseSensitive, all, true, false))
    {
      var arg := args[i];
      assert args[..i + 1][..i] == args[..i];
      if IsPreprocessorArg(arg) {
        var quoted := if ' ' in arg then "'" + arg + "'" else arg;
        cppArgs := cppArgs + (" " + quoted);
      } else if arg == "--case-sensitive" {
        caseSensitive := true;
      } else if arg == "--all" {
        all := true;
      } else if |arg| > 0 && arg[0] == '-' {
        ScanFailureSticks(args, i + 1);
        return Failure(UnknownOption(arg));
      } else {
        files := files + [arg];
      }
      i := i + 1;
    }
    assert args[..i] == args;
    if files == [] {
      return Failure(NoSliceFiles(cmd));
    }
    r := Success(Options(cppArgs, files, caseSensitive, all, true, false));
  }
}
