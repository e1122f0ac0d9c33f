/** The stringified form of a proxy read back by the proxy parser: what
  * `Reference::toString` (cppe/src/IceE/Reference.cpp) prints and
  * `ReferenceFactory::create(const string&)` reads. */
module IceProxyString {
  import opened Basics
  import opened IceReference
  import opened IceReferenceFactory

  // ---------------------------------------------------------------------
  // Text that reads back as one token
  // ---------------------------------------------------------------------

  predicate NoneIn(x: string, cs: set<char>)
  {
    forall i :: 0 <= i < |x| ==> x[i] !in cs
  }

  /** A double quote at `i` is preceded by a backslash. */
  predicate QuoteEscapedAt(x: string, i: nat)
    requires 0 < i < |x|
  {
    x[i] == '"' ==> x[i - 1] == '\\'
  }

  /** Printed text the parser reads back whole: non-empty, no tab or line
    * break, not starting with a quote, every double quote inside it
    * escaped, and not ending in a backslash (which would escape the
    * closing quote). */
  predicate Readable(x: string)
  {
    && x != []
    && x[0] != '"' && x[0] != '\''
    && NoneIn(x, {'\t', '\n', '\r'})
    && (forall i :: 0 < i < |x| ==> QuoteEscapedAt(x, i))
    && x[|x| - 1] != '\\'
  }

  /** The closing-quote search stops at the first double quote not
    * preceded by a backslash. */
  lemma {:induction false} ClosingQuoteFinds(s: string, from: nat, e: nat)
    requires 1 <= from <= e < |s|
    requires s[e] == '"' && s[e - 1] != '\\'
    requires forall k :: from <= k < e && s[k] == '"' ==> s[k - 1] == '\\'
    ensures ClosingQuote(s, '"', from) == ClosedAt(e)
    decreases e - from
  {
    var pos := FindFirstOf(s, from, {'"'});
    FindFirstOfSkips(s, from, {'"'});
    if pos < e {
      ClosingQuoteFinds(s, pos + 1, e);
    }
  }

  /** A double quote at `b` closed by the one at `e`, with every quote
    * between them escaped, is a token. */
  lemma QuotedAt(s: string, b: nat, e: nat, stops: set<char>)
    requires b + 1 <= e < |s| && s[b] == '"' && s[e] == '"' && s[e - 1] != '\\'
    requires forall k :: b + 1 <= k < e && s[k] == '"' ==> s[k - 1] == '\\'
    ensures ReadToken(s, b, stops) == Some(Tok(s[b + 1..e], b + 1, e + 1))
  {
    ClosingQuoteFinds(s, b + 1, e);
  }

  /** The characters of a quoted token at `|pre|`. */
  lemma QuotedChars(pre: string, x: string, post: string)
    requires Readable(x)
    ensures var s := pre + ("\"" + x + "\"") + post;
            var b, e := |pre|, |pre| + 1 + |x|;
            && b + 1 <= e < |s| && s[b] == '"' && s[e] == '"' && s[e - 1] != '\\'
            && (forall k :: b + 1 <= k < e && s[k] == '"' ==> s[k - 1] == '\\')
            && s[b + 1..e] == x
  {
    var s := pre + ("\"" + x + "\"") + post;
    var b := |pre|;
    var e := b + 1 + |x|;
    assert s[b] == '"' && s[e] == '"' && s[e - 1] == x[|x| - 1];
    forall k | b + 1 <= k < e && s[k] == '"'
      ensures s[k - 1] == '\\'
    {
      assert s[k] == x[k - b - 1];
      assert s[k - 1] == x[k - b - 2];
      assert QuoteEscapedAt(x, k - b - 1);
    }
    assert s[b + 1..e] == x;
  }

  /** A quoted token at `|pre|` reads back as the text between the quotes. */
  lemma QuotedTokenAt(pre: string, x: string, post: string, stops: set<char>)
    requires Readable(x)
    ensures var s := pre + ("\"" + x + "\"") + post;
            ReadToken(s, |pre|, stops) == Some(Tok(x, |pre| + 1, |pre| + |x| + 2))
  {
    QuotedChars(pre, x, post);
    QuotedAt(pre + ("\"" + x + "\"") + post, |pre|, |pre| + 1 + |x|, stops);
  }

  /** The search for `stops` from `from` ends at `e` when nothing before
    * `e` is a stop and `e` is one or the end. */
  lemma {:induction false} FoundAt(s: string, from: nat, e: nat, stops: set<char>)
    requires from <= e <= |s| && (e == |s| || s[e] in stops)
    requires forall k :: from <= k < e ==> s[k] !in stops
    ensures FindFirstOf(s, from, stops) == e
    decreases e - from
  {
    if from < e {
      FoundAt(s, from + 1, e, stops);
    }
  }

  /** An unquoted token from `b` to the stop at `e`. */
  lemma PlainAt(s: string, b: nat, e: nat, stops: set<char>)
    requires b < e <= |s| && s[b] != '"' && s[b] != '\''
    requires (e == |s| || s[e] in stops) && forall k :: b <= k < e ==> s[k] !in stops
    ensures ReadToken(s, b, stops) == Some(Tok(s[b..e], b, e))
  {
    FoundAt(s, b, e, stops);
  }

  /** The characters of an unquoted token at `|pre|`. */
  lemma PlainChars(pre: string, x: string, post: string, stops: set<char>)
    requires Readable(x)
    requires NoneIn(x, stops) && (post == [] || post[0] in stops)
    ensures var s := pre + x + post;
            var b, e := |pre|, |pre| + |x|;
            && b < e <= |s| && s[b] != '"' && s[b] != '\''
            && (e == |s| || s[e] in stops) && (forall k :: b <= k < e ==> s[k] !in stops)
            && s[b..e] == x
  {
    var s := pre + x + post;
    var b := |pre|;
    assert s[b] == x[0];
    forall k | b <= k < b + |x|
      ensures s[k] !in stops
    {
      assert s[k] == x[k - b];
    }
    if b + |x| < |s| {
      assert s[b + |x|] == post[0];
    }
    assert s[b..b + |x|] == x;
  }

  /** An unquoted token at `|pre|` holding no stop character and followed
    * by one (or by the end) reads back as itself. */
  lemma PlainTokenAt(pre: string, x: string, post: string, stops: set<char>)
    requires Readable(x)
    requires NoneIn(x, stops) && (post == [] || post[0] in stops)
    ensures var s := pre + x + post;
            ReadToken(s, |pre|, stops) == Some(Tok(x, |pre|, |pre| + |x|))
  {
    PlainChars(pre, x, post, stops);
    PlainAt(pre + x + post, |pre|, |pre| + |x|, stops);
  }

  /** A token printed at `|pre|`, quoted when `q`, reads back as its text. */
  lemma TokenAt(pre: string, x: string, q: bool, post: string, stops: set<char>)
    requires Readable(x)
    requires !q ==> NoneIn(x, stops) && (post == [] || post[0] in stops)
    ensures var s := pre + QuoteIf(x, q) + post;
            ReadToken(s, |pre|, stops)
            == Some(Tok(x, |pre| + (if q then 1 else 0), |pre| + |QuoteIf(x, q)|))
  {
    if q {
      QuotedTokenAt(pre, x, post, stops);
    } else {
      PlainTokenAt(pre, x, post, stops);
    }
  }

  /** An endpoint the printer and the endpoint factories agree on. */
  predicate EndpointReadsBack(e: Endpoint, p: Printer, env: Env)
  {
    var es := p.endpoint(e);
    es != [] && ':' !in es && env.endpoint(es) == [e]
  }

  // ---------------------------------------------------------------------
  // One step of the parser over printed text, at an index of `s`
  // ---------------------------------------------------------------------

  /** `SkipDelims` over a single blank. */
  lemma SkipOneBlank(s: string, b: nat)
    requires b + 1 < |s| && s[b] == ' ' && s[b + 1] !in Delims
    ensures SkipDelims(s, b) == b + 1
  {
  }

  /** What may follow an option without argument: the end, the endpoint
    * list, or a blank and another option or the adapter id. */
  predicate AfterFlag(s: string, e: nat)
  {
    e == |s| || (e < |s| && s[e] == ':') || (e + 1 < |s| && s[e] == ' ' && (s[e + 1] == '-' || s[e + 1] == '@'))
  }

  /** The options loop stops at the end, at a `:` or at a `@` after a blank. */
  lemma OptionsStopAt(s: string, e: nat, str: string, opts: Options, env: Env)
    requires e == |s| || (e < |s| && s[e] == ':') || (e + 1 < |s| && s[e] == ' ' && s[e + 1] == '@')
    ensures OptionsFrom(s, str, e, opts, env) == Success((opts, if e < |s| && s[e] == ' ' then e + 1 else e))
  {
    if e < |s| && s[e] == ' ' {
      SkipOneBlank(s, e);
    }
  }

  /** An option ` -c` without argument is applied and the loop goes on
    * after it. */
  lemma FlagAt(s: string, b: nat, c: char, str: string, opts: Options, env: Env)
    requires c == 's' || ModeOption(c).Some?
    requires b + 3 <= |s| && s[b] == ' ' && s[b + 1] == '-' && s[b + 2] == c
    requires AfterFlag(s, b + 3)
    ensures ApplyOption(c, [], opts, env).Some?
    ensures OptionsFrom(s, str, b, opts, env)
            == OptionsFrom(s, str, b + 3, ApplyOption(c, [], opts, env).value, env)
  {
    SkipOneBlank(s, b);
    FindFirstOfSkips(s, b + 1, TokenStops);
    assert FindFirstOf(s, b + 1, TokenStops) == b + 3;
    assert s[b + 1..b + 3] == ['-', c];
    if b + 3 < |s| && s[b + 3] == ' ' {
      SkipOneBlank(s, b + 3);
    }
    var none: (string, nat) := ([], b + 3);
    assert Argument(s, b + 3) == Some(none);
  }

  /** ` -f ` and a facet token: the facet is the unescaped token, and the
    * loop goes on after it. */
  lemma FacetAt(s: string, b: nat, x: string, start: nat, e: nat, str: string, opts: Options, env: Env)
    requires b + 4 < |s| && s[b] == ' ' && s[b + 1] == '-' && s[b + 2] == 'f' && s[b + 3] == ' '
    requires s[b + 4] !in TokenStops && s[b + 4] != '-'
    requires ReadToken(s, b + 4, TokenStops) == Some(Tok(x, start, e))
    requires x != [] && env.unescape(x).Some?
    ensures OptionsFrom(s, str, b, opts, env) == OptionsFrom(s, str, e, opts.(facet := env.unescape(x).value), env)
  {
    SkipOneBlank(s, b);
    FindFirstOfSkips(s, b + 1, TokenStops);
    assert FindFirstOf(s, b + 1, TokenStops) == b + 3;
    assert s[b + 1..b + 3] == ['-', 'f'];
    SkipOneBlank(s, b + 3);
    var arg: (string, nat) := (x, e);
    assert Argument(s, b + 3) == Some(arg);
  }

  /** The characters of a segment `:x` followed by the end or another `:`. */
  lemma SegmentChars(pre: string, x: string, rest: string)
    requires ':' !in x && (rest == [] || rest[0] == ':')
    ensures var s := pre + (":" + x) + rest;
            var b, e := |pre|, |pre| + 1 + |x|;
            && e <= |s| && s[b] == ':' && (e == |s| || s[e] in {':'})
            && (forall k :: b + 1 <= k < e ==> s[k] !in {':'})
            && s[b + 1..e] == x
  {
    var s := pre + (":" + x) + rest;
    var b := |pre|;
    assert s[b] == ':';
    forall k | b + 1 <= k < b + 1 + |x|
      ensures s[k] !in {':'}
    {
      assert s[k] == x[k - b - 1];
    }
    if b + 1 + |x| < |s| {
      assert s[b + 1 + |x|] == rest[0];
    }
    assert s[b + 1..b + 1 + |x|] == x;
  }

  /** A segment `:x` followed by the end or another `:` is found whole. */
  lemma SegmentAt(pre: string, x: string, rest: string)
    requires ':' !in x && (rest == [] || rest[0] == ':')
    ensures var s := pre + (":" + x) + rest;
            && |pre| < |s| && s[|pre|] == ':'
            && FindFirstOf(s, |pre| + 1, {':'}) == |pre| + 1 + |x|
            && s[|pre| + 1..|pre| + 1 + |x|] == x
  {
    SegmentChars(pre, x, rest);
    FoundAt(pre + (":" + x) + rest, |pre| + 1, |pre| + 1 + |x|, {':'});
  }

  /** The endpoint list `EndpointsPart` prints reads back as the same
    * endpoints, none unknown, when each endpoint prints as a non-empty
    * string without `:` that its factory parses back to it. */
  lemma {:induction false} SegmentsOfPrinted(pre: string, eps: seq<Endpoint>, p: Printer, env: Env)
    requires forall e :: e in eps ==> EndpointReadsBack(e, p, env)
    ensures Segments(pre + EndpointsPart(eps, p), |pre|, env) == (eps, [])
    decreases |eps|
  {
    if eps == [] {
      assert pre + EndpointsPart(eps, p) == pre;
    } else {
      var es := p.endpoint(eps[0]);
      assert EndpointReadsBack(eps[0], p, env);
      var rest := EndpointsPart(eps[1..], p);
      assert EndpointsPart(eps, p) == (":" + es) + rest;
      var pre' := pre + (":" + es);
      var s := pre' + rest;
      assert pre + EndpointsPart(eps, p) == s;
      SegmentsOfPrinted(pre', eps[1..], p, env);
      if rest != [] {
        assert EndpointReadsBack(eps[1], p, env);
      }
      SegmentAt(pre, es, rest);
      assert [eps[0]] + eps[1..] == eps;
    }
  }

  /** The adapter id printed after ` @ `, quoted when `q`: `AdapterFrom`
    * gives its unescaped value. */
  lemma AdapterStep(pre: string, x: string, q: bool, str: string, env: Env)
    requires Readable(x)
    requires !q ==> NoneIn(x, Delims)
    ensures var s := pre + (" @ " + QuoteIf(x, q));
            AdapterFrom(s, str, |pre| + 1, env)
            == match env.unescape(x)
               case None => Failure(ProxyParse(str))
               case Some(a) => if a == [] then Failure(ProxyParse(str)) else Success(a)
  {
    var s := pre + (" @ " + QuoteIf(x, q));
    var b := |pre|;
    assert s == (pre + " @ ") + QuoteIf(x, q) + [];
    assert s[b + 2] == ' ' && s[b + 3] == QuoteIf(x, q)[0];
    assert SkipDelims(s, b + 2) == b + 3;
    TokenAt(pre + " @ ", x, q, [], Delims);
  }

  /** The identity printed by `IdentityPart`, followed by a blank, is the
    * identity token. */
  lemma IdentityStep(x: string, i: string, post: string, s: string)
    requires Readable(x)
    requires i == QuoteIf(x, HasAny(x, Separators)) && s == i + post
    requires post != [] && post[0] == ' '
    ensures IdentityToken(s).Some? && IdentityToken(s).value.text == x && IdentityToken(s).value.end == |i|
  {
    var q := HasAny(x, Separators);
    if !q {
      UnquotedNoStops(x);
    }
    assert s == [] + QuoteIf(x, q) + post;
    TokenAt([], x, q, post, TokenStops);
    IdentityAt(s, Tok(x, if q then 1 else 0, |i|));
  }

  /** A token at the very start is the identity token. */
  lemma IdentityAt(s: string, t: Tok)
    requires s != [] && s[0] !in Delims && ReadToken(s, 0, TokenStops) == Some(t) && t.start != t.end
    ensures IdentityToken(s) == Some(t)
  {
  }

  // ---------------------------------------------------------------------
  // The printed head: identity, facet and mode
  // ---------------------------------------------------------------------

  /** A printer and a parser environment that agree on the identity and
    * the facet of `r`, which has a non-empty name. */
  predicate HeadReadsBack(r: Reference, p: Printer, env: Env)
  {
    && r.identity.name != []
    && Readable(p.identity(r.identity))
    && env.stringToIdentity(p.identity(r.identity)) == Some(r.identity)
    && (r.facet != [] ==> Readable(p.escape(r.facet)) && env.unescape(p.escape(r.facet)) == Some(r.facet))
  }

  /** What a subclass may print after the head: nothing, endpoints, or the
    * adapter id after a blank. */
  predicate TailStart(t: string)
  {
    t == [] || t[0] == ':' || (|t| > 1 && t[0] == ' ' && t[1] == '@')
  }

  /** The groupings of four concatenated strings. */
  lemma Regroup(a: string, b: string, c: string, d: string)
    ensures a + b + c + d == a + (b + c + d) == a + b + (c + d)
  {
  }

  lemma Shift(a: string, b: string, c: string, d: string)
    ensures a + (b + c) + d == a + b + c + d
  {
  }

  /** `(a + t + c)[|a| + k] == t[k]`. */
  lemma CharsAt(a: string, t: string, c: string)
    ensures forall k :: 0 <= k < |t| ==> (a + t + c)[|a| + k] == t[k]
  {
  }

  /** Parsing goes through the identity token and the options loop to
    * what follows them. */
  lemma ParseVia(s: string, env: Env, routerInfo: nat, locatorInfo: nat, t: Tok, id: Identity,
                 opts: Options, beg: nat)
    requires s != [] && IdentityToken(s) == Some(t) && t.end <= |s|
    requires env.stringToIdentity(t.text) == Some(id) && id.name != []
    requires OptionsFrom(s, s, t.end, DefaultOptions, env) == Success((opts, beg))
    ensures beg <= |s|
    ensures Parse(s, env, routerInfo, locatorInfo) == TailFrom(s, s, beg, id, opts, env, routerInfo, locatorInfo)
  {
  }

  /** At `b` the options loop meets the facet option for `facet`, which
    * ends at `e` (no option at all, for the empty facet). */
  predicate FacetReadsAt(s: string, b: nat, e: nat, facet: string, env: Env)
  {
    if facet == [] then e == b && b <= |s|
    else
      && b + 4 < |s| && s[b] == ' ' && s[b + 1] == '-' && s[b + 2] == 'f' && s[b + 3] == ' '
      && s[b + 4] !in TokenStops && s[b + 4] != '-'
      && ReadToken(s, b + 4, TokenStops).Some?
      && ReadToken(s, b + 4, TokenStops).value.end == e
      && ReadToken(s, b + 4, TokenStops).value.text != []
      && env.unescape(ReadToken(s, b + 4, TokenStops).value.text) == Some(facet)
  }

  lemma FacetReads(s: string, b: nat, e: nat, facet: string, env: Env)
    requires FacetReadsAt(s, b, e, facet, env)
    ensures e <= |s|
    ensures OptionsFrom(s, s, b, DefaultOptions, env) == OptionsFrom(s, s, e, DefaultOptions.(facet := facet), env)
  {
    if facet == [] {
      assert DefaultOptions.(facet := facet) == DefaultOptions;
    } else {
      var t := ReadToken(s, b + 4, TokenStops).value;
      FacetAt(s, b, t.text, t.start, e, s, DefaultOptions, env);
    }
  }

  /** Unquoted printed text holds no character that ends a token. */
  lemma UnquotedNoStops(x: string)
    requires Readable(x) && !HasAny(x, Separators)
    ensures NoneIn(x, TokenStops)
  {
    forall k | 0 <= k < |x|
      ensures x[k] !in TokenStops
    {
      if x[k] in Separators {
        assert HasAny(x, Separators);
      }
    }
  }

  /** The characters of a facet option ` -f ` and its token. */
  lemma FacetOptionChars(s: string, i: string, fs: string, q: bool, rest: string)
    requires Readable(fs) && (!q ==> NoneIn(fs, TokenStops) && fs[0] != '-')
    requires s == i + (" -f " + QuoteIf(fs, q)) + rest
    requires rest != [] && rest[0] == ' '
    ensures var b := |i|;
            && b + 4 < |s| && s[b] == ' ' && s[b + 1] == '-' && s[b + 2] == 'f' && s[b + 3] == ' '
            && s[b + 4] !in TokenStops && s[b + 4] != '-'
  {
    var b := |i|;
    CharsAt(i, " -f " + QuoteIf(fs, q), rest);
    if q {
      assert s[b + 4] == '"';
    } else {
      assert s[b + 4] == fs[0];
    }
  }

  /** The token of a facet option ` -f `. */
  lemma FacetOptionToken(s: string, i: string, fs: string, q: bool, rest: string)
    requires Readable(fs) && (!q ==> NoneIn(fs, TokenStops))
    requires s == i + (" -f " + QuoteIf(fs, q)) + rest
    requires rest != [] && rest[0] == ' '
    ensures ReadToken(s, |i| + 4, TokenStops)
            == Some(Tok(fs, |i| + 4 + (if q then 1 else 0), |i| + 4 + |QuoteIf(fs, q)|))
  {
    Shift(i, " -f ", QuoteIf(fs, q), rest);
    TokenAt(i + " -f ", fs, q, rest, TokenStops);
  }

  /** The facet option `FacetPart` prints is read back as the facet. */
  lemma FacetPrinted(r: Reference, p: Printer, env: Env, s: string, i: string, f: string, rest: string)
    requires HeadReadsBack(r, p, env)
    requires f == FacetPart(r, p) && s == i + f + rest
    requires rest != [] && rest[0] == ' '
    ensures FacetReadsAt(s, |i|, |i + f|, r.facet, env)
  {
    if r.facet != [] {
      var fs := p.escape(r.facet);
      var q := HasAny(fs, Separators) || fs[0] == '-';
      if !HasAny(fs, Separators) {
        UnquotedNoStops(fs);
      }
      FacetOptionChars(s, i, fs, q, rest);
      FacetOptionToken(s, i, fs, q, rest);
    }
  }

  /** Where the options loop stops: the end, a `:`, or a blank before `@`. */
  predicate StopAt(s: string, e: nat)
  {
    e == |s| || (e < |s| && s[e] == ':') || (e + 1 < |s| && s[e] == ' ' && s[e + 1] == '@')
  }

  /** The length of what `ModePart` prints. */
  function ModeLength(r: Reference): nat
  {
    if r.secure then 6 else 3
  }

  /** At `b` the text `ModePart` prints for `r`, and then a place where the
    * options loop stops, which leaves it at `stop`. */
  predicate ModeAt(s: string, b: nat, r: Reference, stop: nat)
  {
    var e := b + ModeLength(r);
    && e <= |s|
    && s[b] == ' ' && s[b + 1] == '-' && s[b + 2] == ModeLetter(r.mode)
    && (r.secure ==> s[b + 3] == ' ' && s[b + 4] == '-' && s[b + 5] == 's')
    && StopAt(s, e)
    && stop == e + (if e < |s| && s[e] == ' ' then 1 else 0)
  }

  /** The characters `ModePart` prints, followed by the subclass's part. */
  lemma ModeChars(r: Reference, h: string, m: string, t: string)
    requires m == ModePart(r) && TailStart(t)
    ensures |m| == ModeLength(r) && ModeAt(h + m + t, |h|, r, |h + m| + (if t != [] && t[0] == ' ' then 1 else 0))
  {
    var s := h + m + t;
    var b := |h|;
    var e := b + |m|;
    assert m[0] == ' ' && m[1] == '-' && m[2] == ModeLetter(r.mode);
    assert s[b] == m[0] && s[b + 1] == m[1] && s[b + 2] == m[2];
    if r.secure {
      assert m[3] == ' ' && m[4] == '-' && m[5] == 's';
      assert s[b + 3] == m[3] && s[b + 4] == m[4] && s[b + 5] == m[5];
    }
    if t != [] {
      assert s[e] == t[0];
      if |t| > 1 {
        assert s[e + 1] == t[1];
      }
    }
  }

  /** The mode and secure options set the mode and the secure flag, and the
    * options loop stops after them. */
  lemma ModeOptionsAt(s: string, b: nat, r: Reference, stop: nat, opts: Options, env: Env)
    requires ModeAt(s, b, r, stop)
    ensures OptionsFrom(s, s, b, opts, env) == Success((opts.(mode := r.mode, secure := r.secure || opts.secure), stop))
  {
    var letter := ModeLetter(r.mode);
    ModeLettersAgree(r.mode, letter);
    if r.secure {
      FlagAt(s, b, letter, s, opts, env);
      FlagAt(s, b + 3, 's', s, opts.(mode := r.mode), env);
    } else {
      FlagAt(s, b, letter, s, opts, env);
    }
    OptionsStopAt(s, b + ModeLength(r), s, opts.(mode := r.mode, secure := r.secure || opts.secure), env);
  }

  /** From the end of the identity token at `b`, a facet option ending at
    * `e` and the mode options give the reference's options, and the loop
    * stops where the subclass's part begins. */
  lemma HeadOptions(r: Reference, env: Env, s: string, b: nat, e: nat, stop: nat)
    requires FacetReadsAt(s, b, e, r.facet, env) && ModeAt(s, e, r, stop)
    ensures b <= stop <= |s|
    ensures OptionsFrom(s, s, b, DefaultOptions, env) == Success((Options(r.facet, r.mode, r.secure), stop))
  {
    FacetReads(s, b, e, r.facet, env);
    var opts := DefaultOptions.(facet := r.facet);
    ModeOptionsAt(s, e, r, stop, opts, env);
    assert opts.(mode := r.mode, secure := r.secure || opts.secure) == Options(r.facet, r.mode, r.secure);
  }

  // ---------------------------------------------------------------------
  // The round trip
  // ---------------------------------------------------------------------

  /** A printer and a parser environment that agree on everything
    * `toString` prints for `r`, and a reference of the shape the parser
    * builds: no context, no timeout override, the default router and
    * locator, and endpoints when it is direct. */
  predicate ReadsBack(r: Reference, p: Printer, env: Env, routerInfo: nat, locatorInfo: nat)
  {
    && HeadReadsBack(r, p, env)
    && r.context == [] && !r.overrideTimeout && r.timeout == -1
    && match r.kind
       case Fixed(_) => false
       case Direct(eps, ri) =>
         eps != [] && ri == routerInfo && forall e :: e in eps ==> EndpointReadsBack(e, p, env)
       case Indirect(a, ri, li) =>
         && ri == routerInfo && li == locatorInfo
         && (a != [] ==> Readable(p.escape(a)) && env.unescape(p.escape(a)) == Some(a))
  }

  /** The printed head of `r` after the identity: the facet option and
    * the mode options, up to where the subclass's part begins. */
  lemma OptionsOfPrinted(r: Reference, p: Printer, env: Env, s: string, i: string, f: string, m: string,
                         t: string)
    requires HeadReadsBack(r, p, env) && TailStart(t)
    requires i == IdentityPart(r, p) && f == FacetPart(r, p) && m == ModePart(r) && s == i + f + m + t
    ensures FacetReadsAt(s, |i|, |i + f|, r.facet, env)
    ensures ModeAt(s, |i + f|, r, |i + f + m| + (if t != [] && t[0] == ' ' then 1 else 0))
  {
    Regroup(i, f, m, t);
    FacetPrinted(r, p, env, s, i, f, m + t);
    ModeChars(r, i + f, m, t);
  }

  /** What `ToString` prints after the head. */
  function TailPart(r: Reference, p: Printer): string
  {
    match r.kind
    case Direct(eps, _) => EndpointsPart(eps, p)
    case Indirect(ad, _, _) => AdapterPart(ad, p)
    case Fixed(_) => []
  }

  lemma ToStringParts(r: Reference, p: Printer)
    requires !r.kind.Fixed?
    ensures ToString(r, p).value == IdentityPart(r, p) + FacetPart(r, p) + ModePart(r) + TailPart(r, p)
  {
  }

  /** The printed identity, followed by the options, is the identity token. */
  lemma IdentityPrinted(r: Reference, p: Printer, env: Env, s: string, i: string, rest: string)
    returns (tok: Tok)
    requires HeadReadsBack(r, p, env) && i == IdentityPart(r, p) && s == i + rest
    requires rest != [] && rest[0] == ' '
    ensures IdentityToken(s) == Some(tok) && tok.end == |i| <= |s|
    ensures env.stringToIdentity(tok.text) == Some(r.identity)
  {
    IdentityStep(p.identity(r.identity), i, rest, s);
    tok := IdentityToken(s).value;
  }

  /** The endpoint list printed after the head reads back. */
  lemma EndpointsPrinted(r: Reference, p: Printer, env: Env, s: string, h: string, t: string)
    requires r.kind.Direct? && r.kind.endpoints != []
    requires forall e :: e in r.kind.endpoints ==> EndpointReadsBack(e, p, env)
    requires t == EndpointsPart(r.kind.endpoints, p) && s == h + t
    ensures t != [] && t[0] == ':'
    ensures |h| < |s| && s[|h|] == ':' && Segments(s, |h|, env) == (r.kind.endpoints, [])
  {
    assert EndpointReadsBack(r.kind.endpoints[0], p, env);
    assert t[0] == ':';
    SegmentsOfPrinted(h, r.kind.endpoints, p, env);
    assert s[|h|] == t[0];
  }

  /** The adapter id `AdapterPart` prints after the head reads back. */
  lemma AdapterTail(a: string, p: Printer, env: Env, s: string, h: string, t: string)
    requires a != [] && Readable(p.escape(a)) && env.unescape(p.escape(a)) == Some(a)
    requires t == AdapterPart(a, p) && s == h + t
    ensures |t| > 1 && t[0] == ' ' && t[1] == '@'
    ensures |h| + 1 < |s| && s[|h| + 1] == '@' && AdapterFrom(s, s, |h| + 1, env) == Success(a)
  {
    var x := p.escape(a);
    assert x[0] != '\t' && x[0] != '\n' && x[0] != '\r';
    if ' ' !in x {
      forall k | 0 <= k < |x|
        ensures x[k] !in Delims
      {
        assert x[k] != ' ';
      }
    }
    AdapterStep(h, x, ' ' in x, s, env);
    assert s[|h| + 1] == t[1];
  }

  /** Where the options loop stops in the string `ToString` prints: after
    * the head, and past the blank before an adapter id. */
  function OptionsEnd(r: Reference, p: Printer): nat
  {
    |IdentityPart(r, p) + FacetPart(r, p) + ModePart(r)| + (if r.kind.Indirect? && r.kind.adapterId != [] then 1 else 0)
  }

  /** The identity token of the string `ToString` prints. */
  lemma IdentityOf(r: Reference, p: Printer, env: Env, s: string) returns (tok: Tok)
    requires HeadReadsBack(r, p, env) && !r.kind.Fixed? && s == ToString(r, p).value
    ensures IdentityToken(s) == Some(tok) && tok.end == |IdentityPart(r, p)| <= |s|
    ensures env.stringToIdentity(tok.text) == Some(r.identity)
  {
    var i, f, m, t := IdentityPart(r, p), FacetPart(r, p), ModePart(r), TailPart(r, p);
    ToStringParts(r, p);
    Regroup(i, f, m, t);
    tok := IdentityPrinted(r, p, env, s, i, f + m + t);
  }

  /** The options the parser reads from the string `ToString` prints. */
  lemma OptionsOf(r: Reference, p: Printer, env: Env, routerInfo: nat, locatorInfo: nat, s: string)
    requires ReadsBack(r, p, env, routerInfo, locatorInfo) && s == ToString(r, p).value
    ensures FacetReadsAt(s, |IdentityPart(r, p)|, |IdentityPart(r, p) + FacetPart(r, p)|, r.facet, env)
    ensures ModeAt(s, |IdentityPart(r, p) + FacetPart(r, p)|, r, OptionsEnd(r, p))
  {
    ToStringParts(r, p);
    TailStartOf(r, p, env, routerInfo, locatorInfo);
    OptionsOfPrinted(r, p, env, s, IdentityPart(r, p), FacetPart(r, p), ModePart(r), TailPart(r, p));
  }

  /** What `ToString` prints after the head starts as the options loop
    * expects, which stops at `OptionsEnd`. */
  lemma TailStartOf(r: Reference, p: Printer, env: Env, routerInfo: nat, locatorInfo: nat)
    requires ReadsBack(r, p, env, routerInfo, locatorInfo)
    ensures var t := TailPart(r, p);
            && TailStart(t)
            && OptionsEnd(r, p)
               == |IdentityPart(r, p) + FacetPart(r, p) + ModePart(r)| + (if t != [] && t[0] == ' ' then 1 else 0)
  {
    var t := TailPart(r, p);
    if r.kind.Direct? {
      EndpointsPrinted(r, p, env, t, [], t);
    } else if r.kind.adapterId != [] {
      AdapterTail(r.kind.adapterId, p, env, t, [], t);
    }
  }

  /** The endpoint list in the string `ToString` prints for a direct
    * reference. */
  lemma EndpointsOf(r: Reference, p: Printer, env: Env, routerInfo: nat, locatorInfo: nat, s: string)
    requires ReadsBack(r, p, env, routerInfo, locatorInfo) && r.kind.Direct? && s == ToString(r, p).value
    ensures OptionsEnd(r, p) < |s| && s[OptionsEnd(r, p)] == ':'
    ensures Segments(s, OptionsEnd(r, p), env) == (r.kind.endpoints, [])
  {
    ToStringParts(r, p);
    EndpointsPrinted(r, p, env, s, IdentityPart(r, p) + FacetPart(r, p) + ModePart(r), TailPart(r, p));
  }

  /** The adapter id in the string `ToString` prints for an indirect
    * reference. */
  lemma AdapterOf(r: Reference, p: Printer, env: Env, routerInfo: nat, locatorInfo: nat, s: string)
    requires ReadsBack(r, p, env, routerInfo, locatorInfo) && r.kind.Indirect? && s == ToString(r, p).value
    ensures r.kind.adapterId == [] ==> OptionsEnd(r, p) == |s|
    ensures r.kind.adapterId != [] ==>
              && OptionsEnd(r, p) < |s| && s[OptionsEnd(r, p)] == '@'
              && AdapterFrom(s, s, OptionsEnd(r, p), env) == Success(r.kind.adapterId)
  {
    ToStringParts(r, p);
    if r.kind.adapterId != [] {
      AdapterTail(r.kind.adapterId, p, env, s, IdentityPart(r, p) + FacetPart(r, p) + ModePart(r),
                  TailPart(r, p));
    }
  }

  /** Parsing a string with those facts gives the direct reference. */
  lemma ParseDirect(s: string, env: Env, routerInfo: nat, locatorInfo: nat, tok: Tok, id: Identity,
                    opts: Options, beg: nat, eps: seq<Endpoint>)
    requires s != [] && IdentityToken(s) == Some(tok) && tok.end <= |s|
    requires env.stringToIdentity(tok.text) == Some(id) && id.name != []
    requires OptionsFrom(s, s, tok.end, DefaultOptions, env) == Success((opts, beg))
    requires beg < |s| && s[beg] == ':' && Segments(s, beg, env) == (eps, []) && eps != []
    ensures Parse(s, env, routerInfo, locatorInfo) == Success(Some(MakeDirect(id, opts, eps, routerInfo)))
  {
    ParseVia(s, env, routerInfo, locatorInfo, tok, id, opts, beg);
  }

  /** Parsing a string with those facts gives the indirect reference. */
  lemma ParseIndirect(s: string, env: Env, routerInfo: nat, locatorInfo: nat, tok: Tok, id: Identity,
                      opts: Options, beg: nat, adapterId: string)
    requires s != [] && IdentityToken(s) == Some(tok) && tok.end <= |s|
    requires env.stringToIdentity(tok.text) == Some(id) && id.name != []
    requires OptionsFrom(s, s, tok.end, DefaultOptions, env) == Success((opts, beg))
    requires adapterId == [] ==> beg == |s|
    requires adapterId != [] ==> beg < |s| && s[beg] == '@' && AdapterFrom(s, s, beg, env) == Success(adapterId)
    ensures Parse(s, env, routerInfo, locatorInfo)
            == Success(Some(MakeIndirect(id, opts, adapterId, routerInfo, locatorInfo)))
  {
    ParseVia(s, env, routerInfo, locatorInfo, tok, id, opts, beg);
  }

  /** Every reference the parser can build prints as a string it reads
    * back as the same reference. */
  lemma RoundTrip(r: Reference, p: Printer, env: Env, routerInfo: nat, locatorInfo: nat)
    requires ReadsBack(r, p, env, routerInfo, locatorInfo)
    ensures ToString(r, p).Success?
    ensures Parse(ToString(r, p).value, env, routerInfo, locatorInfo) == Success(Some(r))
  {
    var s := ToString(r, p).value;
    var tok := IdentityOf(r, p, env, s);
    OptionsOf(r, p, env, routerInfo, locatorInfo, s);
    HeadOptions(r, env, s, |IdentityPart(r, p)|, |IdentityPart(r, p) + FacetPart(r, p)|, OptionsEnd(r, p));
    var opts := Options(r.facet, r.mode, r.secure);
    if r.kind.Direct? {
      EndpointsOf(r, p, env, routerInfo, locatorInfo, s);
      ParseDirect(s, env, routerInfo, locatorInfo, tok, r.identity, opts, OptionsEnd(r, p), r.kind.endpoints);
    } else {
      AdapterOf(r, p, env, routerInfo, locatorInfo, s);
      ParseIndirect(s, env, routerInfo, locatorInfo, tok, r.identity, opts, OptionsEnd(r, p), r.kind.adapterId);
    }
  }

  // ---------------------------------------------------------------------
  // What `toString` as written prints and the parser does not read back
  // ---------------------------------------------------------------------

  /** ` -f ` followed by `-`: the parser takes the `-` for the next option,
    * so `-f` has no argument and the string is refused. */
  lemma DashAfterFacetOption(s: string, b: nat, str: string, opts: Options, env: Env)
    requires b + 4 < |s| && s[b] == ' ' && s[b + 1] == '-' && s[b + 2] == 'f' && s[b + 3] == ' ' && s[b + 4] == '-'
    ensures OptionsFrom(s, str, b, opts, env) == Failure(ProxyParse(str))
  {
    SkipOneBlank(s, b);
    FindFirstOfSkips(s, b + 1, TokenStops);
    assert FindFirstOf(s, b + 1, TokenStops) == b + 3;
    assert s[b + 1..b + 3] == ['-', 'f'];
    SkipOneBlank(s, b + 3);
    var none: (string, nat) := ([], b + 3);
    assert Argument(s, b + 3) == Some(none);
  }

  /** What `toString` as written prints after the head. */
  function TailAsWritten(r: Reference, p: Printer): string
  {
    match r.kind
    case Direct(eps, _) => EndpointsPart(eps, p)
    case Indirect(ad, _, _) => AdapterPartAsWritten(ad, p)
    case Fixed(_) => []
  }

  lemma AsWrittenParts(r: Reference, p: Printer)
    requires !r.kind.Fixed?
    ensures ToStringAsWritten(r, p).value
            == IdentityPart(r, p) + (FacetPartAsWritten(r, p) + (ModePart(r) + TailAsWritten(r, p)))
  {
    Regroup(IdentityPart(r, p), FacetPartAsWritten(r, p), ModePart(r), TailAsWritten(r, p));
  }

  /** The identity token of a string printed as an identity `i` and a
    * facet option `f` whose argument starts with `-`, and the characters
    * after it. */
  lemma DashFacetPrinted(x: string, i: string, f: string, rest: string, s: string) returns (tok: Tok)
    requires Readable(x) && i == QuoteIf(x, HasAny(x, Separators))
    requires |f| > 4 && f[..5] == " -f -" && s == i + (f + rest)
    ensures IdentityToken(s) == Some(tok) && tok.text == x
    ensures var b := tok.end;
            b + 4 < |s| && s[b] == ' ' && s[b + 1] == '-' && s[b + 2] == 'f' && s[b + 3] == ' ' && s[b + 4] == '-'
  {
    IdentityStep(x, i, f + rest, s);
    tok := IdentityToken(s).value;
    assert f[0] == ' ' && f[1] == '-' && f[2] == 'f' && f[3] == ' ' && f[4] == '-';
    CharsAt(i, f, rest);
    assert s == i + f + rest;
  }

  /** A string whose options hold `-f` followed by another option is
    * refused. */
  lemma ParseDashFacet(s: string, env: Env, routerInfo: nat, locatorInfo: nat, tok: Tok, id: Identity)
    requires IdentityToken(s) == Some(tok) && env.stringToIdentity(tok.text) == Some(id) && id.name != []
    requires var b := tok.end;
             b + 4 < |s| && s[b] == ' ' && s[b + 1] == '-' && s[b + 2] == 'f' && s[b + 3] == ' ' && s[b + 4] == '-'
    ensures Parse(s, env, routerInfo, locatorInfo) == Failure(ProxyParse(s))
  {
    DashAfterFacetOption(s, tok.end, s, DefaultOptions, env);
  }

  /** `toString` as written leaves a facet such as `-x` unquoted, and the
    * parser refuses the string it prints; `ToString` quotes it and
    * `RoundTrip` reads it back. */
  lemma DashFacetAsWrittenRefused(r: Reference, p: Printer, env: Env, routerInfo: nat, locatorInfo: nat)
    requires HeadReadsBack(r, p, env) && !r.kind.Fixed? && r.facet != []
    requires p.escape(r.facet)[0] == '-' && !HasAny(p.escape(r.facet), Separators)
    ensures var s := ToStringAsWritten(r, p).value;
            Parse(s, env, routerInfo, locatorInfo) == Failure(ProxyParse(s))
  {
    var s := ToStringAsWritten(r, p).value;
    AsWrittenParts(r, p);
    var f := FacetPartAsWritten(r, p);
    assert f[..5] == " -f -";
    var tok := DashFacetPrinted(p.identity(r.identity), IdentityPart(r, p), f, ModePart(r) + TailAsWritten(r, p), s);
    ParseDashFacet(s, env, routerInfo, locatorInfo, tok, r.identity);
  }

  /** What `toString` as written prints for an adapter id whose escaped
    * form holds no blank: the raw id after ` @ `, where the options loop
    * stops. */
  lemma RawAdapterPrinted(r: Reference, p: Printer, env: Env, s: string) returns (tok: Tok, beg: nat)
    requires HeadReadsBack(r, p, env) && r.kind.Indirect? && r.kind.adapterId != []
    requires ' ' !in p.escape(r.kind.adapterId) && FacetPartAsWritten(r, p) == FacetPart(r, p)
    requires s == ToStringAsWritten(r, p).value
    ensures IdentityToken(s) == Some(tok) && tok.end <= |s|
    ensures env.stringToIdentity(tok.text) == Some(r.identity)
    ensures tok.end == |IdentityPart(r, p)|
    ensures FacetReadsAt(s, tok.end, |IdentityPart(r, p) + FacetPart(r, p)|, r.facet, env)
    ensures ModeAt(s, |IdentityPart(r, p) + FacetPart(r, p)|, r, beg)
    ensures beg == |IdentityPart(r, p) + FacetPart(r, p) + ModePart(r)| + 1
  {
    var i, f, m := IdentityPart(r, p), FacetPart(r, p), ModePart(r);
    var t := AdapterPartAsWritten(r.kind.adapterId, p);
    assert t == " @ " + r.kind.adapterId;
    assert t[0] == ' ' && t[1] == '@';
    Regroup(i, f, m, t);
    tok := IdentityPrinted(r, p, env, s, i, f + m + t);
    beg := |i + f + m| + 1;
    OptionsOfPrinted(r, p, env, s, i, f, m, t);
  }

  /** After those options the parser reads the raw id and unescapes it. */
  lemma RawAdapterReads(r: Reference, p: Printer, env: Env, s: string, beg: nat)
    requires r.kind.Indirect? && r.kind.adapterId != [] && ' ' !in p.escape(r.kind.adapterId)
    requires Readable(r.kind.adapterId) && ' ' !in r.kind.adapterId
    requires s == ToStringAsWritten(r, p).value && beg == |IdentityPart(r, p) + FacetPartAsWritten(r, p) + ModePart(r)| + 1
    ensures beg < |s| && s[beg] == '@'
    ensures AdapterFrom(s, s, beg, env)
            == match env.unescape(r.kind.adapterId)
               case None => Failure(ProxyParse(s))
               case Some(a) => if a == [] then Failure(ProxyParse(s)) else Success(a)
  {
    var x := r.kind.adapterId;
    var h := IdentityPart(r, p) + FacetPartAsWritten(r, p) + ModePart(r);
    assert s == h + (" @ " + QuoteIf(x, false));
    forall k | 0 <= k < |x|
      ensures x[k] !in Delims
    {
      assert x[k] != ' ';
    }
    AdapterStep(h, x, false, s, env);
  }

  /** `toString` as written prints an adapter id whose escaped form holds
    * no blank unescaped, and the parser unescapes what it reads: an id the
    * unescaping changes, such as one holding a backslash, does not read
    * back. `ToString` prints the escaped form and `RoundTrip` reads it
    * back. */
  lemma RawAdapterAsWrittenMisread(r: Reference, p: Printer, env: Env, routerInfo: nat, locatorInfo: nat)
    requires HeadReadsBack(r, p, env) && r.kind.Indirect? && r.kind.adapterId != []
    requires ' ' !in p.escape(r.kind.adapterId) && FacetPartAsWritten(r, p) == FacetPart(r, p)
    requires Readable(r.kind.adapterId) && ' ' !in r.kind.adapterId
    requires env.unescape(r.kind.adapterId) != Some(r.kind.adapterId)
    ensures Parse(ToStringAsWritten(r, p).value, env, routerInfo, locatorInfo) != Success(Some(r))
  {
    var s := ToStringAsWritten(r, p).value;
    var tok, beg := RawAdapterPrinted(r, p, env, s);
    RawAdapterReads(r, p, env, s, beg);
    HeadOptions(r, env, s, tok.end, |IdentityPart(r, p) + FacetPart(r, p)|, beg);
    ParseVia(s, env, routerInfo, locatorInfo, tok, r.identity, Options(r.facet, r.mode, r.secure), beg);
  }
}
