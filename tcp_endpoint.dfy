/** TCP endpoints (`IceInternal.TcpEndpoint`): the options parser of the
  * string form, the printer, the timeout change, the ordering, the hash and
  * the stream form. An endpoint never changes once built, so it is a value. */
module IceTcpEndpoint {
  import opened Basics
  import opened JavaText

  /** The endpoint type written before the encapsulation. */
  const TcpType: int := 1

  datatype TcpEndpoint = TcpEndpoint(host: string, port: int32, timeout: int32)

  // ---------------------------------------------------------------------
  // Splitting on blanks
  // ---------------------------------------------------------------------

  /** The characters of the class `[ \t\n\r]`. */
  predicate IsBlank(c: char)
  {
    c == ' ' || c == '\t' || c == '\n' || c == '\r'
  }

  predicate NoBlank(s: string)
  {
    forall i :: 0 <= i < |s| ==> !IsBlank(s[i])
  }

  /** The length of the blank-free run that starts `s`. */
  function RunLength(s: string): (n: nat)
    ensures n <= |s|
    ensures forall i :: 0 <= i < n ==> !IsBlank(s[i])
    ensures n < |s| ==> IsBlank(s[n])
  {
    if s == [] || IsBlank(s[0]) then 0 else 1 + RunLength(s[1..])
  }

  /** The maximal blank-free runs of `s`, in order. */
  function Words(s: string): (w: seq<string>)
    ensures forall i :: 0 <= i < |w| ==> w[i] != [] && NoBlank(w[i])
    decreases |s|
  {
    if s == [] then []
    else if IsBlank(s[0]) then Words(s[1..])
    else
      var n := RunLength(s);
      [s[..n]] + Words(s[n..])
  }

  /** `str.split("[ \t\n\r]+")`: the empty string is one empty piece, a
    * leading blank run gives an empty first piece when something follows,
    * and trailing empty pieces are dropped. */
  function Split(s: string): (arr: seq<string>)
    ensures forall i :: 1 <= i < |arr| ==> arr[i] != []
    ensures forall i :: 0 <= i < |arr| ==> NoBlank(arr[i])
    ensures s == [] ==> arr == [[]]
  {
    if s == [] then [[]]
    else if IsBlank(s[0]) && Words(s) != [] then [[]] + Words(s)
    else Words(s)
  }

  /** Each word preceded by one blank, concatenated. */
  function Spaced(ws: seq<string>): string
  {
    if ws == [] then [] else " " + ws[0] + Spaced(ws[1..])
  }

  lemma {:induction false} RunOfWord(w: string, rest: string)
    requires NoBlank(w)
    requires rest == [] || IsBlank(rest[0])
    ensures RunLength(w + rest) == |w|
    decreases |w|
  {
    if w != [] {
      assert (w + rest)[1..] == w[1..] + rest;
      RunOfWord(w[1..], rest);
    }
  }

  /** Splitting what `Spaced` joined gives back the words. */
  lemma {:induction false} WordsOfSpaced(ws: seq<string>)
    requires forall i :: 0 <= i < |ws| ==> ws[i] != [] && NoBlank(ws[i])
    ensures Words(Spaced(ws)) == ws
    decreases |ws|
  {
    if ws != [] {
      var rest := Spaced(ws[1..]);
      var s := " " + ws[0] + rest;
      assert s[1..] == ws[0] + rest;
      assert rest == [] || rest[0] == ' ';
      RunOfWord(ws[0], rest);
      assert (ws[0] + rest)[..|ws[0]|] == ws[0];
      assert (ws[0] + rest)[|ws[0]|..] == rest;
      WordsOfSpaced(ws[1..]);
    }
  }

  // ---------------------------------------------------------------------
  // Decimal integers
  // ---------------------------------------------------------------------

  predicate IsDigit(c: char) { '0' <= c <= '9' }

  predicate AllDigits(s: string)
  {
    forall i :: 0 <= i < |s| ==> IsDigit(s[i])
  }

  function DigitChar(d: int): (c: char)
    requires 0 <= d < 10
    ensures IsDigit(c)
  {
    ('0' as int + d) as char
  }

  /** The decimal digits of `n`, without leading zeros. */
  function Digits(n: nat): (s: string)
    ensures s != [] && AllDigits(s)
  {
    if n < 10 then [DigitChar(n)] else Digits(n / 10) + [DigitChar(n % 10)]
  }

  /** How many runs of ten Unicode decimal digits (general category Nd)
    * the Basic Multilingual Plane holds, as of Unicode 7.0. A Java `char`
    * is one UTF-16 code unit, so the digits beyond the plane never reach
    * `Character.digit`. */
  const DecimalRuns: nat := 37

  /** The first code point of the `k`-th run: ASCII, Arabic-Indic, the
    * Indic scripts, Thai, Lao, Tibetan, Myanmar, Khmer, Mongolian, ...,
    * and the fullwidth digits, in code point order. */
  function DecimalZero(k: nat): int
    requires k < DecimalRuns
  {
    if k == 0 then 0x0030
    else if k == 1 then 0x0660
    else if k == 2 then 0x06f0
    else if k == 3 then 0x07c0
    else if k == 4 then 0x0966
    else if k == 5 then 0x09e6
    else if k == 6 then 0x0a66
    else if k == 7 then 0x0ae6
    else if k == 8 then 0x0b66
    else if k == 9 then 0x0be6
    else if k == 10 then 0x0c66
    else if k == 11 then 0x0ce6
    else if k == 12 then 0x0d66
    else if k == 13 then 0x0de6
    else if k == 14 then 0x0e50
    else if k == 15 then 0x0ed0
    else if k == 16 then 0x0f20
    else if k == 17 then 0x1040
    else if k == 18 then 0x1090
    else if k == 19 then 0x17e0
    else if k == 20 then 0x1810
    else if k == 21 then 0x1946
    else if k == 22 then 0x19d0
    else if k == 23 then 0x1a80
    else if k == 24 then 0x1a90
    else if k == 25 then 0x1b50
    else if k == 26 then 0x1bb0
    else if k == 27 then 0x1c40
    else if k == 28 then 0x1c50
    else if k == 29 then 0xa620
    else if k == 30 then 0xa8d0
    else if k == 31 then 0xa900
    else if k == 32 then 0xa9d0
    else if k == 33 then 0xa9f0
    else if k == 34 then 0xaa50
    else if k == 35 then 0xabf0
    else 0xff10
  }

  /** The digit value of code point `n` among the runs from the `k`-th on. */
  function DigitIn(n: int, k: nat): (r: Option<nat>)
    requires k <= DecimalRuns
    ensures r.Some? ==> r.value < 10
    decreases DecimalRuns - k
  {
    if k == DecimalRuns then None
    else if DecimalZero(k) <= n < DecimalZero(k) + 10 then Some(n - DecimalZero(k))
    else DigitIn(n, k + 1)
  }

  /** A code point has a digit value exactly when it lies in one of the
    * runs, and the value is its distance from the run's first code point. */
  lemma {:induction false} DigitInMeans(n: int, k: nat)
    requires k <= DecimalRuns
    ensures DigitIn(n, k).Some? ==> exists j :: k <= j < DecimalRuns && DecimalZero(j) <= n < DecimalZero(j) + 10
                                                 && DigitIn(n, k).value == n - DecimalZero(j)
    ensures DigitIn(n, k).None? <==> forall j :: k <= j < DecimalRuns ==> !(DecimalZero(j) <= n < DecimalZero(j) + 10)
    decreases DecimalRuns - k
  {
    if k < DecimalRuns && !(DecimalZero(k) <= n < DecimalZero(k) + 10) {
      DigitInMeans(n, k + 1);
    }
  }

  /** `Character.digit(c, 10)`: the value of a decimal digit of any script,
    * or none (-1); no digit lies below `0`, where the signs are. */
  function DigitOf(c: char): (r: Option<nat>)
    ensures r.Some? ==> r.value < 10
    ensures IsDigit(c) ==> r == Some(c as int - '0' as int)
    ensures c == '-' || c == '+' ==> r.None?
  {
    if c < '0' then None else DigitIn(c as int, 0)
  }

  /** Every character is a decimal digit of some script. */
  predicate AllDecimal(s: string)
  {
    forall i :: 0 <= i < |s| ==> DigitOf(s[i]).Some?
  }

  /** The value of a string of decimal digits. */
  function DigitsValue(s: string): nat
    requires AllDecimal(s)
  {
    if s == [] then 0 else 10 * DigitsValue(s[..|s| - 1]) + DigitOf(s[|s| - 1]).value
  }

  lemma {:induction false} DigitsValueOf(n: nat)
    ensures DigitsValue(Digits(n)) == n
  {
    if n >= 10 {
      var s := Digits(n);
      assert s[..|s| - 1] == Digits(n / 10);
      DigitsValueOf(n / 10);
    }
  }

  /** An `int` in a Java string concatenation (`Integer.toString`). */
  function Decimal(v: int): (s: string)
    ensures s != [] && NoBlank(s)
    ensures v >= 0 ==> s[0] != '-'
  {
    if v < 0 then "-" + Digits(-v) else Digits(v)
  }

  /** `Integer.parseInt`: an optional sign and at least one decimal digit
    * of any script, within the range of `int`; anything else raises
    * `NumberFormatException` (`None`). */
  function ParseInt(s: string): (r: Option<int32>)
    ensures s == [] ==> r.None?
  {
    var signed := |s| > 0 && (s[0] == '-' || s[0] == '+');
    var ds := if signed then s[1..] else s;
    if ds == [] || !AllDecimal(ds) then None
    else
      var v: int := if signed && s[0] == '-' then -(DigitsValue(ds) as int) else DigitsValue(ds);
      if IsInt32(v) then Some(v) else None
  }

  /** Digit strings whose digits have the same values, whatever their
    * scripts, have the same value. */
  lemma {:induction false} SameDigitsSameValue(a: string, b: string)
    requires |a| == |b| && AllDecimal(a) && AllDecimal(b)
    requires forall i :: 0 <= i < |a| ==> DigitOf(a[i]) == DigitOf(b[i])
    ensures DigitsValue(a) == DigitsValue(b)
  {
    if a != [] {
      SameDigitsSameValue(a[..|a| - 1], b[..|b| - 1]);
    }
  }

  /** `parseInt` sees only the values of the digits: strings that agree on
    * every character that is not a digit, and on the value of every digit,
    * parse alike. */
  lemma ParseIntSeesDigitValues(a: string, b: string)
    requires |a| == |b|
    requires forall i :: 0 <= i < |a| ==> DigitOf(a[i]) == DigitOf(b[i]) && (DigitOf(a[i]).None? ==> a[i] == b[i])
    ensures ParseInt(a) == ParseInt(b)
  {
    if a != [] {
      var signed := a[0] == '-' || a[0] == '+';
      assert signed <==> b[0] == '-' || b[0] == '+';
      var da := if signed then a[1..] else a;
      var db := if signed then b[1..] else b;
      assert forall i :: 0 <= i < |da| ==> DigitOf(da[i]) == DigitOf(db[i]);
      if da != [] && AllDecimal(da) {
        SameDigitsSameValue(da, db);
      }
    }
  }

  /** The Arabic-Indic digits one and two read as 12, and a plus sign is
    * taken. */
  lemma ParseIntScripts()
    ensures ParseInt("\U{661}\U{662}") == Some(12)
    ensures ParseInt("+5") == Some(5)
    ensures ParseInt("-") == None
  {
    var s := "\U{661}\U{662}";
    assert DigitOf(s[0]) == Some(1);
    assert DigitOf(s[1]) == Some(2);
    assert s[..1][..0] == [];
    assert DigitsValue(s[..1]) == 1;
    assert DigitsValue(s) == 12;
  }

  /** ASCII digits are decimal digits. */
  lemma AsciiDecimal(s: string)
    requires AllDigits(s)
    ensures AllDecimal(s)
  {
    forall i | 0 <= i < |s|
      ensures DigitOf(s[i]).Some?
    {
      assert IsDigit(s[i]);
    }
  }

  lemma DecimalRoundTrip(v: int32)
    ensures ParseInt(Decimal(v)) == Some(v)
  {
    var s := Decimal(v);
    var n: nat := if v < 0 then -(v as int) else v;
    var ds := Digits(n);
    AsciiDecimal(ds);
    DigitsValueOf(n);
    if v < 0 {
      assert s[1..] == ds;
    } else {
      assert IsDigit(s[0]);
    }
  }

  // ---------------------------------------------------------------------
  // The string constructor
  // ---------------------------------------------------------------------

  /** What the options set so far; `host` is unset until `-h`. */
  datatype Fields = Fields(host: Option<string>, port: int32, timeout: int32)

  /** The parser's starting point: no host, port 0, no timeout. */
  const Initial: Fields := Fields(None, 0, -1)

  /** The `switch` on the option letter: `-h`, `-p` and `-t` need an
    * argument, the port and timeout must be integers, any other letter is
    * refused; `None` is `EndpointParseException`. */
  function ApplyOption(letter: char, arg: Option<string>, f: Fields): (r: Option<Fields>)
    ensures r.Some? <==> ((letter == 'h' && arg.Some?)
                          || (letter in {'p', 't'} && arg.Some? && ParseInt(arg.value).Some?))
    ensures r.Some? && letter == 'h' ==> r.value == f.(host := arg)
    ensures r.Some? && letter == 'p' ==> r.value == f.(port := ParseInt(arg.value).value)
    ensures r.Some? && letter == 't' ==> r.value == f.(timeout := ParseInt(arg.value).value)
  {
    match letter
    case 'h' => if arg.None? then None else Some(f.(host := arg))
    case 'p' =>
      if arg.None? then None
      else (match ParseInt(arg.value)
            case None => None
            case Some(p) => Some(f.(port := p)))
    case 't' =>
      if arg.None? then None
      else (match ParseInt(arg.value)
            case None => None
            case Some(t) => Some(f.(timeout := t)))
    case _ => None
  }

  /** Whether the option at `i` takes the next piece as its argument: it
    * does unless that piece is missing or starts with `-`. */
  predicate HasArgument(arr: seq<string>, i: nat)
    requires forall j :: 1 <= j < |arr| ==> arr[j] != []
  {
    i + 1 < |arr| && arr[i + 1][0] != '-'
  }

  /** The scanning loop from piece `i` on: empty pieces are skipped, every
    * option is `-` and one letter, optionally followed by its argument. */
  function Scan(arr: seq<string>, i: nat, f: Fields): (r: Option<Fields>)
    requires forall j :: 1 <= j < |arr| ==> arr[j] != []
    decreases |arr| - i
  {
    if i >= |arr| then Some(f)
    else if arr[i] == [] then Scan(arr, i + 1, f)
    else if |arr[i]| != 2 || arr[i][0] != '-' then None
    else
      var hasArg := HasArgument(arr, i);
      match ApplyOption(arr[i][1], if hasArg then Some(arr[i + 1]) else None, f)
      case None => None
      case Some(g) => Scan(arr, if hasArg then i + 2 else i + 1, g)
  }

  /** `TcpEndpoint(instance, str)`: the options of `str`, with the default
    * host when there is no `-h`; `None` is `EndpointParseException`. */
  function Parse(str: string, defaultHost: string): (r: Option<TcpEndpoint>)
  {
    match Scan(Split(str), 0, Initial)
    case None => None
    case Some(f) => Some(TcpEndpoint(if f.host.None? then defaultHost else f.host.value, f.port, f.timeout))
  }

  /** The string constructor as written: a loop over the pieces with the
    * index `i`, assigning host, port and timeout. */
  method ParseOptions(str: string, defaultHost: string) returns (r: Option<TcpEndpoint>)
    ensures r == Parse(str, defaultHost)
  {
    var host: Option<string> := None;
    var port: int32 := 0;
    var timeout: int32 := -1;
    var arr := Split(str);
    var i := 0;
    while i < |arr|
      invariant 0 <= i <= |arr| + 1
      invariant Scan(arr, i, Fields(host, port, timeout)) == Scan(arr, 0, Initial)
      decreases |arr| - i
    {
      if |arr[i]| == 0 {
        i := i + 1;
        continue;
      }
      var option := arr[i];
      var hasArg := HasArgument(arr, i);
      i := i + 1;
      if |option| != 2 || option[0] != '-' {
        return None;
      }
      var argument: Option<string> := None;
      if i < |arr| && arr[i][0] != '-' {
        argument := Some(arr[i]);
        i := i + 1;
      }
      assert argument.Some? == hasArg;
      if option[1] == 'h' {
        if argument.None? {
          return None;
        }
        host := argument;
      } else if option[1] == 'p' {
        if argument.None? {
          return None;
        }
        var p := ParseInt(argument.value);
        if p.None? {
          return None;
        }
        port := p.value;
      } else if option[1] == 't' {
        if argument.None? {
          return None;
        }
        var t := ParseInt(argument.value);
        if t.None? {
          return None;
        }
        timeout := t.value;
      } else {
        return None;
      }
    }
    if host.None? {
      return Some(TcpEndpoint(defaultHost, port, timeout));
    }
    return Some(TcpEndpoint(host.value, port, timeout));
  }

  /** With no options at all the endpoint has the default host, port 0 and
    * no timeout. */
  lemma ParseDefaults(str: string, defaultHost: string)
    requires Words(str) == []
    ensures Parse(str, defaultHost) == Some(TcpEndpoint(defaultHost, 0, -1))
  {
    var arr := Split(str);
    assert arr == [] || arr == [[]];
    if arr == [[]] {
      assert Scan(arr, 1, Initial) == Some(Initial);
    }
  }

  // ---------------------------------------------------------------------
  // The string form
  // ---------------------------------------------------------------------

  /** The options part of `toString`: host and port, and the timeout unless
    * it is -1. */
  function OptionWords(e: TcpEndpoint): seq<string>
  {
    ["-h", e.host, "-p", Decimal(e.port)] + (if e.timeout != -1 then ["-t", Decimal(e.timeout)] else [])
  }

  /** `toString`: `tcp -h H -p P`, then ` -t T` when the timeout is not -1. */
  function ToString(e: TcpEndpoint): (s: string)
    ensures |s| > 4 && s[..3] == "tcp" && s[3] == ' ' && s[4] == '-'
  {
    "tcp -h " + e.host + " -p " + Decimal(e.port) + (if e.timeout != -1 then " -t " + Decimal(e.timeout) else "")
  }

  /** The optional timeout at the end of the string form. */
  function TimeoutText(e: TcpEndpoint): string
  {
    if e.timeout != -1 then " -t " + Decimal(e.timeout) else ""
  }

  lemma TimeoutSpaced(e: TcpEndpoint)
    ensures Spaced(OptionWords(e)[4..]) == TimeoutText(e)
  {
    var tail := OptionWords(e)[4..];
    if e.timeout != -1 {
      var d := Decimal(e.timeout);
      assert tail == ["-t", d];
      assert tail[1..][1..] == [];
      assert Spaced(tail[1..]) == " " + d;
      assert Spaced(tail) == " " + "-t" + (" " + d);
      assert " " + "-t" + (" " + d) == TimeoutText(e);
    } else {
      assert tail == [];
    }
  }

  /** The options part of the string form, one blank and one word at a time. */
  function Nested(e: TcpEndpoint): string
  {
    " " + "-h" + (" " + e.host + (" " + "-p" + (" " + Decimal(e.port) + TimeoutText(e))))
  }

  lemma SpacedOptions(e: TcpEndpoint)
    ensures Spaced(OptionWords(e)) == Nested(e)
  {
    var ws := OptionWords(e);
    var h, p, st := e.host, Decimal(e.port), TimeoutText(e);
    TimeoutSpaced(e);
    assert ws[1..][1..][1..][1..] == ws[4..];
    assert Spaced(ws[3..]) == " " + p + st;
    assert Spaced(ws[2..]) == " " + "-p" + (" " + p + st);
    assert Spaced(ws[1..]) == " " + h + (" " + "-p" + (" " + p + st));
  }

  lemma NestedPrinted(e: TcpEndpoint)
    ensures ToString(e) == "tcp" + Nested(e)
  {
  }

  lemma PrintedOptions(e: TcpEndpoint)
    ensures ToString(e)[3..] == Spaced(OptionWords(e))
  {
    SpacedOptions(e);
    NestedPrinted(e);
  }

  /** What the string form needs to read back: a host that is one word not
    * starting with `-`, and a port and timeout that are not read as options
    * (a timeout of -1 is not printed). */
  predicate Printable(e: TcpEndpoint)
  {
    && e.host != [] && NoBlank(e.host) && e.host[0] != '-'
    && e.port >= 0
    && (e.timeout == -1 || e.timeout >= 0)
  }

  lemma SplitPrinted(e: TcpEndpoint)
    requires Printable(e)
    ensures Split(ToString(e)[4..]) == OptionWords(e)
  {
    var ws := OptionWords(e);
    PrintedOptions(e);
    WordsOfSpaced(ws);
    var s := Spaced(ws);
    assert s[0] == ' ' && s[1] == '-';
    assert ToString(e)[4..] == s[1..];
  }

  /** The pieces of the printed options, one by one. */
  predicate PrintedPieces(e: TcpEndpoint, arr: seq<string>)
  {
    && |arr| == (if e.timeout != -1 then 6 else 4)
    && arr[0] == "-h" && arr[1] == e.host
    && arr[2] == "-p" && arr[3] == Decimal(e.port)
    && (e.timeout != -1 ==> arr[4] == "-t" && arr[5] == Decimal(e.timeout))
  }

  lemma PiecesOfPrinted(e: TcpEndpoint, arr: seq<string>)
    requires arr == OptionWords(e)
    ensures PrintedPieces(e, arr)
  {
  }

  /** One option with its argument, in the middle of the scan. */
  lemma ScanStep(arr: seq<string>, i: nat, f: Fields, g: Fields)
    requires forall j :: 1 <= j < |arr| ==> arr[j] != []
    requires i + 1 < |arr| && |arr[i]| == 2 && arr[i][0] == '-' && arr[i + 1][0] != '-'
    requires ApplyOption(arr[i][1], Some(arr[i + 1]), f) == Some(g)
    ensures Scan(arr, i, f) == Scan(arr, i + 2, g)
  {
  }

  lemma ScanPieces(e: TcpEndpoint, arr: seq<string>)
    requires Printable(e) && PrintedPieces(e, arr)
    ensures forall j :: 1 <= j < |arr| ==> arr[j] != []
    ensures Scan(arr, 0, Initial) == Some(Fields(Some(e.host), e.port, e.timeout))
  {
    DecimalRoundTrip(e.port);
    DecimalRoundTrip(e.timeout);
    ScanOptions(arr, e.host, e.port, if e.timeout != -1 then Some(e.timeout) else None);
  }

  /** The scan over `-h H -p P` and an optional `-t T`, for a host and
    * numbers that read back. */
  lemma ScanOptions(arr: seq<string>, host: string, port: int32, timeout: Option<int32>)
    requires |arr| == (if timeout.Some? then 6 else 4)
    requires arr[0] == "-h" && arr[1] == host
    requires arr[2] == "-p" && ParseInt(arr[3]) == Some(port)
    requires timeout.Some? ==> arr[4] == "-t" && ParseInt(arr[5]) == Some(timeout.value)
    requires host != [] && host[0] != '-' && arr[3] != [] && arr[3][0] != '-'
    requires timeout.Some? ==> arr[5] != [] && arr[5][0] != '-'
    ensures forall j :: 1 <= j < |arr| ==> arr[j] != []
    ensures Scan(arr, 0, Initial) == Some(Fields(Some(host), port, if timeout.Some? then timeout.value else -1))
  {
    forall j | 1 <= j < |arr|
      ensures arr[j] != []
    {
      assert j in {1, 2, 3, 4, 5};
    }
    var f1 := Initial.(host := Some(host));
    var f2 := f1.(port := port);
    assert arr[0][1] == 'h' && arr[2][1] == 'p';
    assert ApplyOption('h', Some(arr[1]), Initial) == Some(f1);
    assert ApplyOption('p', Some(arr[3]), f1) == Some(f2);
    ScanStep(arr, 0, Initial, f1);
    ScanStep(arr, 2, f1, f2);
    if timeout.Some? {
      var f3 := f2.(timeout := timeout.value);
      assert arr[4][1] == 't';
      assert ApplyOption('t', Some(arr[5]), f2) == Some(f3);
      ScanStep(arr, 4, f2, f3);
      assert Scan(arr, 6, f3) == Some(f3);
    } else {
      assert Scan(arr, 4, f2) == Some(f2);
    }
  }

  /** Parsing what follows the protocol name and its blank in `toString`
    * (what the factory manager passes on) gives back host, port and timeout. */
  lemma ParsePrinted(e: TcpEndpoint, defaultHost: string)
    requires Printable(e)
    ensures Parse(ToString(e)[4..], defaultHost) == Some(e)
  {
    SplitPrinted(e);
    PiecesOfPrinted(e, OptionWords(e));
    ScanPieces(e, OptionWords(e));
  }

  /** `timeout(t)`: the same endpoint when the timeout is unchanged,
    * otherwise one that differs only in the timeout. */
  function WithTimeout(e: TcpEndpoint, t: int32): (r: TcpEndpoint)
    ensures t == e.timeout ==> r == e
    ensures r.host == e.host && r.port == e.port && r.timeout == t
  {
    if t == e.timeout then e else TcpEndpoint(e.host, e.port, t)
  }

  // ---------------------------------------------------------------------
  // Ordering and hashing
  // ---------------------------------------------------------------------

  /** The address bytes of `Network.getAddress(host, port)`, as signed Java
    * bytes; the name lookup is outside the model. */
  type Resolver = (string, int32) -> seq<int>

  /** The loop over the address bytes: the first differing byte decides. */
  function CompareBytes(l: seq<int>, r: seq<int>): (c: int)
    requires |l| == |r|
    ensures c == 0 || c == 1 || c == -1
    ensures c == 0 <==> l == r
  {
    if l == [] then 0
    else if l[0] < r[0] then -1
    else if r[0] < l[0] then 1
    else
      assert l == [l[0]] + l[1..] && r == [r[0]] + r[1..];
      CompareBytes(l[1..], r[1..])
  }

  /** The assertion of `compareTo`: two different hosts resolve to
    * addresses of one length. */
  predicate Comparable(a: TcpEndpoint, b: TcpEndpoint, address: Resolver)
  {
    a.host != b.host ==> |address(a.host, a.port)| == |address(b.host, b.port)|
  }

  /** `compareTo` between two TCP endpoints: by port, then timeout, and only
    * when the host strings differ, by their addresses. */
  function Compare(a: TcpEndpoint, b: TcpEndpoint, address: Resolver): (c: int)
    requires Comparable(a, b, address)
  {
    if a.port < b.port then -1
    else if b.port < a.port then 1
    else if a.timeout < b.timeout then -1
    else if b.timeout < a.timeout then 1
    else if a.host != b.host then CompareBytes(address(a.host, a.port), address(b.host, b.port))
    else 0
  }

  /** `compareTo` as written, with the byte loop. */
  method CompareTo(a: TcpEndpoint, b: TcpEndpoint, address: Resolver) returns (c: int)
    requires Comparable(a, b, address)
    ensures c == Compare(a, b, address)
  {
    if a.port < b.port {
      return -1;
    } else if b.port < a.port {
      return 1;
    }
    if a.timeout < b.timeout {
      return -1;
    } else if b.timeout < a.timeout {
      return 1;
    }
    if a.host != b.host {
      var larr := address(a.host, a.port);
      var rarr := address(b.host, b.port);
      var i := 0;
      while i < |larr|
        invariant 0 <= i <= |larr|
        invariant CompareBytes(larr, rarr) == CompareBytes(larr[i..], rarr[i..])
      {
        if larr[i] < rarr[i] {
          return -1;
        } else if rarr[i] < larr[i] {
          return 1;
        }
        assert larr[i..][1..] == larr[i + 1..] && rarr[i..][1..] == rarr[i + 1..];
        i := i + 1;
      }
    }
    return 0;
  }

  /** `equals`: `compareTo` gives 0. */
  predicate Equal(a: TcpEndpoint, b: TcpEndpoint, address: Resolver)
    requires Comparable(a, b, address)
  {
    Compare(a, b, address) == 0
  }

  /** Two endpoints are equal exactly when port and timeout agree and the
    * hosts are the same string or resolve to the same address. */
  lemma EqualMeans(a: TcpEndpoint, b: TcpEndpoint, address: Resolver)
    requires Comparable(a, b, address)
    ensures Equal(a, b, address) <==>
              a.port == b.port && a.timeout == b.timeout
              && (a.host == b.host || address(a.host, a.port) == address(b.host, b.port))
  {
  }

  /** The ordering is antisymmetric: swapping the endpoints negates it. */
  lemma CompareAntisymmetric(a: TcpEndpoint, b: TcpEndpoint, address: Resolver)
    requires Comparable(a, b, address)
    ensures Comparable(b, a, address)
    ensures Compare(b, a, address) == -Compare(a, b, address)
  {
    if a.port == b.port && a.timeout == b.timeout && a.host != b.host {
      var l := address(a.host, a.port);
      var r := address(b.host, b.port);
      CompareBytesSwap(l, r);
    }
  }

  lemma {:induction false} CompareBytesSwap(l: seq<int>, r: seq<int>)
    requires |l| == |r|
    ensures CompareBytes(r, l) == -CompareBytes(l, r)
    decreases |l|
  {
    if l != [] && l[0] == r[0] {
      CompareBytesSwap(l[1..], r[1..]);
    }
  }

  /** The byte comparison is transitive. */
  lemma {:induction false} CompareBytesTransitive(l: seq<int>, m: seq<int>, r: seq<int>)
    requires |l| == |m| == |r|
    requires CompareBytes(l, m) == -1 && CompareBytes(m, r) == -1
    ensures CompareBytes(l, r) == -1
    decreases |l|
  {
    if l[0] == m[0] && m[0] == r[0] {
      CompareBytesTransitive(l[1..], m[1..], r[1..]);
    }
  }

  /** The ordering is transitive, as `Comparable` requires of `compareTo`. */
  lemma CompareTransitive(a: TcpEndpoint, b: TcpEndpoint, c: TcpEndpoint, address: Resolver)
    requires Comparable(a, b, address) && Comparable(b, c, address) && Comparable(a, c, address)
    requires |address(a.host, a.port)| == |address(b.host, b.port)| == |address(c.host, c.port)|
    requires Compare(a, b, address) == -1 && Compare(b, c, address) == -1
    ensures Compare(a, c, address) == -1
  {
    if a.port == b.port == c.port && a.timeout == b.timeout == c.timeout {
      var x, y, z := address(a.host, a.port), address(b.host, b.port), address(c.host, c.port);
      CompareBytesTransitive(x, y, z);
    }
  }

  /** `calcHashValue`: the host's hash, then `5 * h + port`, then
    * `5 * h + timeout`, each in `int`. */
  function HashCode(e: TcpEndpoint): int32
  {
    Wrap32(5 * Wrap32(5 * StringHash(e.host) + e.port) + e.timeout)
  }

  lemma {:induction false} ModMultiple(a: int, n: int)
    ensures (a + n * TwoTo32) % TwoTo32 == a % TwoTo32
    decreases if n < 0 then -n else n
  {
    if n > 0 {
      ModMultiple(a, n - 1);
      assert a + n * TwoTo32 == (a + (n - 1) * TwoTo32) + TwoTo32;
    } else if n < 0 {
      ModMultiple(a, n + 1);
      assert a + n * TwoTo32 == (a + (n + 1) * TwoTo32) - TwoTo32;
    }
  }

  lemma TimesFiveMod(x: int, y: int)
    requires x % TwoTo32 == y % TwoTo32
    ensures (5 * x) % TwoTo32 == (5 * y) % TwoTo32
  {
    var n := x / TwoTo32 - y / TwoTo32;
    assert x == y + n * TwoTo32;
    ModMultiple(5 * y, 5 * n);
    assert 5 * x == 5 * y + (5 * n) * TwoTo32;
  }

  lemma AddMod(x: int, y: int, k: int)
    requires x % TwoTo32 == y % TwoTo32
    ensures (x + k) % TwoTo32 == (y + k) % TwoTo32
  {
    var n := x / TwoTo32 - y / TwoTo32;
    assert x == y + n * TwoTo32;
    ModMultiple(y + k, n);
  }

  /** The hash is `25 * hash(host) + 5 * port + timeout` modulo 2^32. */
  lemma HashClosedForm(e: TcpEndpoint)
    ensures HashCode(e) % TwoTo32 == (25 * StringHash(e.host) + 5 * e.port + e.timeout) % TwoTo32
  {
    var h := StringHash(e.host);
    var inner := 5 * h + e.port;
    var w: int := Wrap32(inner);
    TimesFiveMod(w, inner);
    AddMod(5 * w, 5 * inner, e.timeout);
    assert 5 * inner + e.timeout == 25 * h + 5 * e.port + e.timeout;
  }

  // ---------------------------------------------------------------------
  // The stream form
  // ---------------------------------------------------------------------

  /** The typed values an endpoint writes to a stream. */
  datatype Value =
    | ShortValue(short: int)
    | IntValue(number: int32)
    | StringValue(text: string)
    | Encapsulation(contents: seq<Value>)

  /** `streamWrite`: the type, then host, port and timeout in an encapsulation. */
  function StreamWrite(e: TcpEndpoint): seq<Value>
  {
    [ShortValue(TcpType), Encapsulation([StringValue(e.host), IntValue(e.port), IntValue(e.timeout)])]
  }

  /** `TcpEndpoint(BasicStream)`, after the type: host, port and timeout
    * from the encapsulation, in that order; what follows them in the
    * encapsulation is skipped. A missing or mistyped value is `None`. */
  function StreamRead(v: Value): (r: Option<TcpEndpoint>)
    ensures r.Some? ==> v.Encapsulation? && |v.contents| >= 3
  {
    if !v.Encapsulation? || |v.contents| < 3 then None
    else
      var c := v.contents;
      if c[0].StringValue? && c[1].IntValue? && c[2].IntValue? then
        Some(TcpEndpoint(c[0].text, c[1].number, c[2].number))
      else None
  }

  /** What `streamWrite` writes carries the TCP type and reads back as the
    * same endpoint. */
  lemma StreamRoundTrip(e: TcpEndpoint)
    ensures StreamWrite(e)[0] == ShortValue(TcpType)
    ensures StreamRead(StreamWrite(e)[1]) == Some(e)
  {
  }
}
