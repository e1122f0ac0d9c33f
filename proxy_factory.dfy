/** The proxy factory (`IceInternal.ProxyFactory`): proxies from and to
  * strings and streams, with null handled on every path, the retry
  * intervals read from `Ice.RetryIntervals`, and the retry rule applied
  * after a local exception. A proxy is modelled by the reference it holds;
  * the proxy grammar, printer and stream form of the references are those
  * of the reference modules. */
module IceProxyFactory {
  import opened Basics
  import opened IceReference
  import opened IceReferenceFactory
  import IceProxyString
  import IceTcpEndpoint
  import IceEndpointFactories

  /** An `Ice.ObjectPrxHelper` set up with a reference. */
  datatype ObjectProxy = ObjectProxy(reference: Reference)

  // ---------------------------------------------------------------------
  // Null handling and the conversions
  // ---------------------------------------------------------------------

  /** `referenceToProxy`: no proxy for no reference, otherwise a proxy set
    * up with the reference. */
  function ReferenceToProxy(ref: Option<Reference>): (p: Option<ObjectProxy>)
    ensures p.None? <==> ref.None?
    ensures p.Some? ==> p.value.reference == ref.value
  {
    match ref
    case None => None
    case Some(r) => Some(ObjectProxy(r))
  }

  /** `stringToProxy`: the reference factory's parse, then
    * `referenceToProxy`. */
  function StringToProxy(str: string, env: Env, routerInfo: nat, locatorInfo: nat)
    : (r: Result<Option<ObjectProxy>, ParseError>)
    ensures str == [] ==> r == Success(None)
  {
    match Parse(str, env, routerInfo, locatorInfo)
    case Failure(e) => Failure(e)
    case Success(ref) => Success(ReferenceToProxy(ref))
  }

  /** `proxyToString`: the empty string for no proxy, otherwise the
    * reference's string form (which refuses fixed references). */
  function ProxyToString(proxy: Option<ObjectProxy>, p: Printer): (s: Result<string, RefError>)
    ensures proxy.None? ==> s == Success("")
    ensures proxy.Some? ==> (s.Success? <==> !proxy.value.reference.kind.Fixed?)
  {
    match proxy
    case None => Success("")
    case Some(px) => ToString(px.reference, p)
  }

  /** Printing a proxy and parsing the text gives the proxy back, and no
    * proxy prints as the empty string, which parses as no proxy. */
  lemma StringRoundTrip(proxy: Option<ObjectProxy>, p: Printer, env: Env,
                        routerInfo: nat, locatorInfo: nat)
    requires proxy.Some? ==> IceProxyString.ReadsBack(proxy.value.reference, p, env, routerInfo, locatorInfo)
    ensures ProxyToString(proxy, p).Success?
    ensures StringToProxy(ProxyToString(proxy, p).value, env, routerInfo, locatorInfo) == Success(proxy)
  {
    if proxy.Some? {
      IceProxyString.RoundTrip(proxy.value.reference, p, env, routerInfo, locatorInfo);
    }
  }

  /** The identity as `Ice.Identity.__write` puts it: the name, then the
    * category. */
  function IdentityTokens(id: Identity): (ts: seq<Token>)
    ensures |ts| == 2 && ts[0] == StringToken(id.name) && ts[1] == StringToken(id.category)
  {
    [StringToken(id.name), StringToken(id.category)]
  }

  /** `proxyToStream`: the identity and the reference's stream form, or
    * an empty identity alone for no proxy. */
  function ProxyToStream(proxy: Option<ObjectProxy>): (ts: Result<seq<Token>, RefError>)
    ensures proxy.None? ==> ts == Success(IdentityTokens(Identity("", "")))
    ensures proxy.Some? ==> (ts.Success? <==> !proxy.value.reference.kind.Fixed?)
    ensures proxy.Some? && ts.Success? ==>
              |ts.value| >= 2 && ts.value[..2] == IdentityTokens(proxy.value.reference.identity)
  {
    match proxy
    case None => Success(IdentityTokens(Identity("", "")))
    case Some(px) =>
      match StreamWrite(px.reference)
      case Failure(e) => Failure(e)
      case Success(body) => Success(IdentityTokens(px.reference.identity) + body)
  }

  /** `Ice.Identity.__read`: two strings, or an unmarshalling error when
    * the stream has no two strings left. */
  function ReadIdentity(ts: seq<Token>): (r: Result<(Identity, seq<Token>), ParseError>)
    ensures r.Success? ==> |ts| >= 2 && IdentityTokens(r.value.0) == ts[..2] && r.value.1 == ts[2..]
    ensures r.Failure? ==> r.error == UnmarshalOutOfBounds
  {
    if |ts| >= 2 && ts[0].StringToken? && ts[1].StringToken? then
      Success((Identity(ts[0].text, ts[1].text), ts[2..]))
    else Failure(UnmarshalOutOfBounds)
  }

  /** `streamToProxy`: the identity, then the reference factory's stream
    * read, then `referenceToProxy`; the tokens after the proxy are
    * returned unread. */
  function StreamToProxy(ts: seq<Token>, routerInfo: nat, locatorInfo: nat)
    : (r: Result<(Option<ObjectProxy>, seq<Token>), ParseError>)
    ensures r.Success? && r.value.0.Some? ==> |ts| >= 2 && ts[..2] == IdentityTokens(r.value.0.value.reference.identity)
    ensures r.Success? ==> (r.value.0.None? <==> |ts| >= 2 && ts[0] == StringToken("") && ts[1] == StringToken(""))
  {
    match ReadIdentity(ts)
    case Failure(e) => Failure(e)
    case Success((id, after)) =>
      match ReadFromStream(id, after, routerInfo, locatorInfo)
      case Failure(e) => Failure(e)
      case Success((ref, rest)) => Success((ReferenceToProxy(ref), rest))
  }

  /** Writing a proxy and reading it back gives the proxy and leaves what
    * follows unread; the same holds for no proxy. */
  lemma StreamRoundTrip(proxy: Option<ObjectProxy>, rest: seq<Token>, routerInfo: nat, locatorInfo: nat)
    requires proxy.Some? ==>
      var r := proxy.value.reference;
      && !IsNullIdentity(r.identity) && !r.kind.Fixed?
      && r.context == [] && !r.overrideTimeout && r.timeout == -1
      && (r.kind.Direct? ==> r.kind.endpoints != [] && r.kind.routerInfo == routerInfo)
      && (r.kind.Indirect? ==> r.kind.routerInfo == routerInfo && r.kind.locatorInfo == locatorInfo)
    ensures ProxyToStream(proxy).Success?
    ensures StreamToProxy(ProxyToStream(proxy).value + rest, routerInfo, locatorInfo) == Success((proxy, rest))
  {
    var ts := ProxyToStream(proxy).value + rest;
    match proxy
    case None =>
      assert ts[2..] == rest;
      assert ReadIdentity(ts) == Success((Identity("", ""), rest));
    case Some(px) =>
      var r := px.reference;
      IceReferenceFactory.StreamRoundTrip(r, rest, routerInfo, locatorInfo);
      var body := StreamWrite(r).value;
      assert ts == IdentityTokens(r.identity) + (body + rest);
      assert ts[2..] == body + rest;
      assert ReadIdentity(ts) == Success((r.identity, body + rest));
  }

  // ---------------------------------------------------------------------
  // The retry intervals
  // ---------------------------------------------------------------------

  /** The property's value, `"0"` when it is not set. */
  function RetryProperty(property: Option<string>): string
  {
    match property
    case None => "0"
    case Some(s) => s
  }

  /** The pieces of `str.trim().split("[ \t\n\r]+")`. */
  function Pieces(str: string): seq<string>
  {
    IceTcpEndpoint.Split(IceEndpointFactories.Trim(str, IceEndpointFactories.JavaSpace))
  }

  /** The pieces are never empty: a trimmed string is either empty (one
    * empty piece) or starts with a word. */
  lemma PiecesNotEmpty(str: string)
    ensures |Pieces(str)| > 0
  {
    var t := IceEndpointFactories.Trim(str, IceEndpointFactories.JavaSpace);
    if t != [] {
      assert !IceTcpEndpoint.IsBlank(t[0]);
      var n := IceTcpEndpoint.RunLength(t);
      assert IceTcpEndpoint.Words(t) == [t[..n]] + IceTcpEndpoint.Words(t[n..]);
    }
  }

  /** One piece as a number: `Integer.parseInt`, and 0 when it is not one. */
  function PieceValue(piece: string): int32
  {
    match IceTcpEndpoint.ParseInt(piece)
    case None => 0
    case Some(v) => v
  }

  /** The interval a piece stands for: its value, or 0 when negative. */
  function Interval(piece: string): (v: int32)
    ensures v >= 0
    ensures PieceValue(piece) >= 0 ==> v == PieceValue(piece)
  {
    if PieceValue(piece) > 0 then PieceValue(piece) else 0
  }

  /** `Integer.parseInt` reads digits of any script: the Arabic-Indic
    * `100` is an interval of 100 ms. */
  lemma IntervalOfArabicIndic()
    ensures Interval("\U{661}\U{660}\U{660}") == 100
  {
    var s := "\U{661}\U{660}\U{660}";
    assert IceTcpEndpoint.DigitOf(s[0]) == Some(1);
    assert IceTcpEndpoint.DigitOf(s[1]) == Some(0);
    assert IceTcpEndpoint.DigitOf(s[2]) == Some(0);
    assert s[..2][..1][..0] == [];
    assert IceTcpEndpoint.DigitsValue(s[..2][..1]) == 1;
    assert IceTcpEndpoint.DigitsValue(s[..2]) == 10;
    assert IceTcpEndpoint.DigitsValue(s) == 100;
  }

  /** The retry intervals of a property value: none when the first value
    * is -1, otherwise one interval per piece. */
  function RetryIntervals(str: string): (iv: seq<int32>)
    ensures PieceValue(Pieces(str)[0]) == -1 ==> iv == []
    ensures PieceValue(Pieces(str)[0]) != -1 ==>
              |iv| == |Pieces(str)| && forall i :: 0 <= i < |iv| ==> iv[i] == Interval(Pieces(str)[i])
  {
    PiecesNotEmpty(str);
    var arr := Pieces(str);
    if PieceValue(arr[0]) == -1 then []
    else seq(|arr|, i requires 0 <= i < |arr| => Interval(arr[i]))
  }

  /** The default property gives one interval of 0 ms: one retry, at once. */
  lemma DefaultIntervals()
    ensures RetryIntervals(RetryProperty(None)) == [0]
  {
    IceEndpointFactories.TrimUnchanged("0", IceEndpointFactories.JavaSpace);
    assert IceTcpEndpoint.RunLength("0") == 1;
    assert IceTcpEndpoint.Words("0") == ["0"];
    assert "0"[1..] == [];
    assert IceTcpEndpoint.DigitsValue("0") == 0;
  }

  /** Every interval is non-negative and none is longer than the values
    * the property names. */
  lemma IntervalsBounded(str: string)
    ensures forall i :: 0 <= i < |RetryIntervals(str)| ==> RetryIntervals(str)[i] >= 0
    ensures |RetryIntervals(str)| <= |Pieces(str)|
  {
    PiecesNotEmpty(str);
  }

  // ---------------------------------------------------------------------
  // The retry rule
  // ---------------------------------------------------------------------

  /** A local exception, and whether it derives from
    * `RequestFailedException` (the `*NotExistException`s). */
  datatype LocalException = LocalException(name: string, requestFailed: bool)

  /** What `checkRetryAfterException` does: return the new count, after
    * sleeping `sleep` ms when the count is positive, or rethrow. */
  datatype RetryOutcome = Retry(count: int32, sleep: Option<int32>) | Rethrow(ex: LocalException)

  /** The retry rule on the intervals `iv`; `destroyed` stands for the
    * communicator having dropped its trace levels or logger. The count is
    * a Java `int`, so `++cnt` wraps. */
  function CheckRetry(iv: seq<int32>, destroyed: bool, ex: LocalException, cnt: int32): (r: RetryOutcome)
    ensures ex.requestFailed || destroyed ==> r == Rethrow(ex)
    ensures r.Rethrow? ==> r.ex == ex
    ensures r.Retry? ==> r.count as int <= |iv| && (r.sleep.Some? <==> r.count > 0)
    ensures r.Retry? && r.count > 0 ==> r.sleep == Some(iv[r.count - 1])
  {
    if ex.requestFailed then Rethrow(ex)
    else
      var c := Wrap32(cnt as int + 1);
      if destroyed then Rethrow(ex)
      else if c as int > |iv| then Rethrow(ex)
      else Retry(c, if c > 0 then Some(iv[c - 1]) else None)
  }

  /** From a count below the limit, the rule retries exactly when the
    * exception is not a request failure and the communicator is alive,
    * and the count grows by one with the matching interval slept. */
  lemma RetryCounts(iv: seq<int32>, destroyed: bool, ex: LocalException, cnt: int32)
    requires 0 <= cnt as int < MaxInt32
    ensures CheckRetry(iv, destroyed, ex, cnt).Retry? <==> !ex.requestFailed && !destroyed && cnt as int < |iv|
    ensures CheckRetry(iv, destroyed, ex, cnt).Retry? ==>
              CheckRetry(iv, destroyed, ex, cnt) == Retry(cnt + 1, Some(iv[cnt]))
  {
  }

  /** The calls of one invocation, counting from 0: after `k` retries the
    * count is `k`, so an invocation is retried at most once per interval. */
  function Retries(iv: seq<int32>, exs: seq<LocalException>, cnt: int32): (n: nat)
    requires 0 <= cnt as int <= |iv| < MaxInt32
    ensures cnt as int + n <= |iv|
    decreases |exs|
  {
    if exs == [] then 0
    else match CheckRetry(iv, false, exs[0], cnt)
      case Rethrow(_) => 0
      case Retry(c, _) => 1 + Retries(iv, exs[1..], c)
  }

  // ---------------------------------------------------------------------
  // The factory
  // ---------------------------------------------------------------------

  class ProxyFactory {
    /** The retry intervals in ms, fixed when the factory is built. */
    const retryIntervals: array<int32>

    /** Reads `Ice.RetryIntervals` (`property`, `None` when not set) into
      * the intervals, piece by piece. */
    constructor(property: Option<string>)
      ensures retryIntervals[..] == RetryIntervals(RetryProperty(property))
      ensures fresh(retryIntervals)
    {
      var str := RetryProperty(property);
      var arr := Pieces(str);
      PiecesNotEmpty(str);
      var a := new int32[|arr|];
      var i := 0;
      while i < |arr|
        invariant 0 <= i <= |arr| && a.Length == |arr|
        invariant i > 0 ==> PieceValue(arr[0]) != -1
        invariant forall j :: 0 <= j < i ==> a[j] == Interval(arr[j])
      {
        var v := PieceValue(arr[i]);
        if i == 0 && v == -1 {
          a := new int32[0];
          break;
        }
        a[i] := if v > 0 then v else 0;
        i := i + 1;
      }
      if PieceValue(arr[0]) != -1 {
        assert a[..] == RetryIntervals(str);
      }
      retryIntervals := a;
    }

    /** `checkRetryAfterException` on this factory's intervals. */
    method CheckRetryAfterException(ex: LocalException, cnt: int32, destroyed: bool) returns (r: RetryOutcome)
      ensures r == CheckRetry(retryIntervals[..], destroyed, ex, cnt)
    {
      if ex.requestFailed {
        return Rethrow(ex);
      }
      var c := Wrap32(cnt as int + 1);
      if destroyed || c as int > retryIntervals.Length {
        return Rethrow(ex);
      }
      var sleep := None;
      if c > 0 {
        sleep := Some(retryIntervals[c - 1]);
      }
      return Retry(c, sleep);
    }
  }
}
