# A verified model of the core of Ice

Ice is an object-oriented RPC middleware. This project models, in Dafny, the parts of its run times and tools that decide how requests, proxies and generated code behave. It proves properties of that model.

- **Connections** (`IceConnection`). This is the per-connection protocol state machine of the Java run time. It covers:
  - the client's validation handshake;
  - request-id allocation with 32-bit wrap-around;
  - the classification of inbound messages;
  - the batch buffer;
  - idle (ACM) monitoring;
  - the state transitions that record the first exception.

  Each synchronized section is one atomic step of the class `ConnectionI`. Its state is tied to specification functions over a `Snapshot`, and an invariant holds across every step.
- **Marshalling** (`Stream`, `IcePyTypes`).
  - The C++ output stream covers sizes, little-endian ints, placeholders patched later and nested encapsulations.
  - IcePy's type descriptions validate, marshal and unmarshal Python values. The round trip is proved for every type description whose sequences hold non-primitive elements and whose dictionaries have primitive or enumeration keys. A dictionary read back merges keys that Python finds equal, and a string travels up to its first NUL.
- **Proxies and references** (`IceReference`, `IceReferenceFactory`, `IceProxyString`, `IceProxy`, `IceProxyFactory`, `IceProxyIdentityKey`, `Ordering`).
  - The stringified-proxy grammar and printer, with the round trip "print, then parse" proved.
  - The stream form of a reference.
  - Copy-on-change setters, hashing with a memo, and comparison.
  - The proxy's argument checks and retry rule, and the proxy factory's retry intervals.
- **Java text** (`JavaText`). A Java string is a sequence of UTF-16 code units, so `String.hashCode`, which the TCP endpoint and the proxy identity key hash with, folds a character beyond the Basic Multilingual Plane as its two surrogates.
- **Endpoints and registries** (`IceTcpEndpoint`, `IceEndpointFactories`, `IceObjectAdapterFactories`, `IceLocatorTable`, `IceRouters`, `IcePatchers`). This covers:
  - the TCP endpoint parser, printer, ordering and stream form;
  - the endpoint factory managers;
  - the object adapter factories and their shutdown lifecycle;
  - the locator cache;
  - router memos;
  - the patchers that fill in unmarshalled objects.
- **The Freeze evictor** (`IceEvictor`, `FreezeEvictor`). This is the cache of persistent servants. It covers the element status machine (clean, created, modified, destroyed, dead), usage and keep counts, the modified queue, and the least-recently-used eviction list.
- **Tools.**
  - `Ice.loadSlice` argument handling (`IcePySlice`).
  - The parts of the C++ code generator that do not walk the Slice syntax tree (`SliceCppGen`).
  - The Visual Studio plugin's list, path, dependency and generated-file bookkeeping (`VsUtil`, `VsBuilder`, `VsFileTracker`).

**How the model is built.**
- Code that changes state in place is a class. Each of its methods states the whole new state through a specification function.
- Code that only computes is a function, with lemmas about what it means.
- Services outside the core are parameters of the operations that use them:
  - the transceiver, clocks and DNS;
  - `stringToIdentity` and string unescaping;
  - the endpoint factories;
  - the Visual Studio project.
- Where a row of "## Findings" corrects a helper, the operations are built on the corrected member, and the as-written member stands beside it with the lemma that exhibits the defect. So these operations model the intended program, not the cited lines as written:
  - `IceConnection.CheckValidationHeader`, and through it `ValidateSpec` and `ConnectionI.Validate`, report versions with `ReportedVersion` (`b + 256`), where ConnectionI.java reports `b + 255`;
  - `IceReference.ToString`, and through it `IceProxyFactory.ProxyToString` and `IceProxyString.RoundTrip`, quote a facet that starts with `-` and print an adapter id escaped;
  - `IcePyTypes.Validate`, `IcePyTypes.Marshaled` and `IcePyTypes.OutputStream.Marshal` use `ValidatePrimitive` and `EnumMarshal`, which refuse a long beyond the C `long` range and an enumerator value beyond the C `int` range;
  - `VsBuilder.CSharpGeneratedFileName` uses `NormalizePath`, which keeps a parent reference `..\`, where Builder.cs calls the written `Util.normalizePath`.

## Model

| member | source | states |
|---|---|---|
| Stream.IntBytes | cpp/include/Ice/OutputStream.h:330-351 | an `Int` always occupies exactly four bytes on the wire |
| Stream.IntRoundTrip | cpp/include/Ice/OutputStream.h:330-351 | reading back the four bytes written for any 32-bit int gives that int |
| Stream.IntBytesInjective | cpp/include/Ice/OutputStream.h:330-351 | two different ints never share an encoding |
| Stream.SizeBytes | cpp/include/Ice/OutputStream.h:200-212 | a size takes one byte up to 254 and five bytes (marker 255 plus an int) above |
| Stream.DecodeSize | cpp/include/Ice/OutputStream.h:200-212 | the reading rule for sizes never yields a negative size nor consumes more bytes than given |
| Stream.SizeRoundTrip | cpp/include/Ice/OutputStream.h:200-212 | every non-negative 32-bit size reads back, with the number of bytes it took, whatever follows it |
| Stream.IntSeqBytes | cpp/include/Ice/OutputStream.h:276-294 | a marshalled int sequence is its size followed by four bytes per element |
| Stream.IntsBody | cpp/include/Ice/OutputStream.h:287-294 | the element part of a sequence is four bytes per element |
| Stream.IntsBodyAt | cpp/include/Ice/OutputStream.h:287-294 | element i sits at bytes 4i to 4i+4 of the element part, in order |
| Stream.StringBytes | cpp/include/Ice/OutputStream.h:374-391 | an unconverted string is its size followed by its raw bytes |
| Stream.HostLayout | cpp/include/Ice/OutputStream.h:336-351 | the in-memory image of an `Int` on either host byte order is four bytes |
| Stream.OutputStream.constructor | cpp/include/Ice/OutputStream.h:41 | a new stream has an empty buffer and no open encapsulation |
| Stream.OutputStream.WriteByte | cpp/include/Ice/OutputStream.h:311-314 | the byte is appended and nothing else changes |
| Stream.OutputStream.WriteBool | cpp/include/Ice/OutputStream.h:318-321 | a bool is appended as the byte 1 or 0 |
| Stream.OutputStream.WriteIntAt | cpp/include/Ice/OutputStream.h:336-351 | on either host byte order the four bytes at the destination become the little-endian encoding; all other bytes are kept |
| Stream.OutputStream.WriteInt | cpp/include/Ice/OutputStream.h:330-335 | the buffer grows by exactly the int's four-byte encoding |
| Stream.OutputStream.Rewrite | cpp/include/Ice/OutputStream.h:475-478 | only the four bytes at the position change, to the int's encoding |
| Stream.OutputStream.WriteSize | cpp/include/Ice/OutputStream.h:200-212 | the appended bytes are the size's encoding and read back as that size |
| Stream.OutputStream.RewriteSize | cpp/include/Ice/OutputStream.h:213-225 | the size's encoding overwrites the bytes at the destination and nothing else |
| Stream.OutputStream.StartSize | cpp/include/Ice/OutputStream.h:227-232 | a zero placeholder is appended and its position returned |
| Stream.OutputStream.EndSize | cpp/include/Ice/OutputStream.h:234-237 | the placeholder is patched with the number of bytes written after it, which reads back when it fits in an int |
| Stream.OutputStream.WriteEncoding | cpp/include/Ice/OutputStream.h:141-142 | an encoding version is appended as its major then minor byte |
| Stream.OutputStream.StartEncapsulation | cpp/include/Ice/OutputStream.h:123-143 | an unsupported encoding is refused with nothing written; otherwise a zero size and the version are appended and a new innermost encapsulation starts where they begin |
| Stream.OutputStream.EndEncapsulation | cpp/include/Ice/OutputStream.h:144-162 | the innermost encapsulation is closed and its size field patched with its whole length, size and version included, which reads back |
| Stream.OutputStream.WriteEmptyEncapsulation | cpp/include/Ice/OutputStream.h:164-169 | an unsupported encoding is refused; otherwise the size 6 and the version are appended |
| Stream.OutputStream.WriteEncapsulation | cpp/include/Ice/OutputStream.h:170-180 | an encapsulation shorter than 6 bytes is refused with nothing written; otherwise its bytes are copied |
| Stream.OutputStream.WriteBlob | cpp/include/Ice/OutputStream.h:241-249 | the raw bytes are appended |
| Stream.OutputStream.WriteIntSeq | cpp/include/Ice/OutputStream.h:276-294 | the buffer grows by exactly the sequence's encoding (size, then each element in order) |
| Stream.OutputStream.WriteString | cpp/include/Ice/OutputStream.h:374-391 | without a converter the buffer grows by the size and the raw bytes |
| Stream.OutputStream.WriteOptionalInt | cpp/include/Ice/OutputStream.h:256-271 | an unset optional or a tag the encoder refuses writes nothing; otherwise the optional's header (tag and format F4) and then the value's four bytes are appended |
| Stream.DecodeOptionalHeader | cpp/include/Ice/OutputStream.h:297-306 | the reading of an optional's header: the tag and format packed in one byte, or, for tags from 30 on, a marker byte followed by the tag as a size; reports the header's length |
| Stream.OptionalHeaderRoundTrip | cpp/include/Ice/OutputStream.h:297-306 | every header written for a non-negative tag and a format below 8 decodes back to that tag and format, and its length is the number of bytes written |
| Stream.OptionalIntRoundTrip | cpp/include/Ice/OutputStream.h:256-271 | the bytes an accepted optional int appends decode to its tag, format F4 and, after the header, the int itself |
| Stream.IntSeqReadsBack | cpp/include/Ice/OutputStream.h:287-294 | every element of a marshalled sequence reads back from its slot |
| Stream.IntSeqSizeReadsBack | cpp/include/Ice/OutputStream.h:276-285 | the size prefix of a marshalled sequence reads back as its length |
| Ordering.SeqLessIrreflexive | cppe/src/IceE/Reference.cpp:352-359 | the lexicographic comparison of sequences used for contexts and endpoint lists is irreflexive when the element order is a strict total order |
| Ordering.SeqLessTransitive | cppe/src/IceE/Reference.cpp:352-359 | that comparison is transitive |
| Ordering.SeqLessTotal | cppe/src/IceE/Reference.cpp:352-359 | any two different sequences are ordered one way or the other |
| Ordering.SeqLessAsymmetric | cppe/src/IceE/Reference.cpp:352-359 | never both `a < b` and `b < a` |
| Ordering.StringLessStrictTotal | cppe/src/IceE/Reference.cpp:361-368 | string comparison (used for facets, adapter ids and identity fields) is a strict total order |
| Basics.Wrap32 | cppe/src/IceE/Reference.cpp:126-129 | an unbounded result is reduced to the 32-bit value a C++ or Java `int` overflows to, and in-range values are kept |
| IceReference.ModeOrdinal | cppe/src/IceE/Reference.cpp:179 | the mode byte a reference writes is never beyond the last mode |
| IceReference.ModeOfOrdinal | cppe/src/IceE/ReferenceFactory.cpp:655-662 | a mode byte stands for a mode exactly when it is in range, and that mode writes the same byte back |
| IceReference.ModeOrdinalRoundTrip | cppe/src/IceE/Reference.cpp:179 | every mode read back from the byte it is written as is that mode |
| IceReference.Endpoints | cppe/src/IceE/Reference.cpp:731-734 | fixed and indirect references have no endpoints of their own |
| IceReference.ChangeMode | cppe/src/IceE/Reference.cpp:63-72 | the reference itself comes back exactly when the mode is unchanged; otherwise a copy differing only in the mode |
| IceReference.ChangeIdentity | cppe/src/IceE/Reference.cpp:75-84 | the reference itself comes back exactly when the identity is unchanged; otherwise a copy differing only in the identity |
| IceReference.ChangeFacet | cppe/src/IceE/Reference.cpp:87-96 | the reference itself comes back exactly when the facet is unchanged; otherwise a copy differing only in the facet |
| IceReference.ChangeContext | cppe/src/IceE/Reference.cpp:55-60 | a new context always yields a copy differing only in the context |
| IceReference.EndpointsWithTimeout | cppe/src/IceE/Reference.cpp:760-773 | every endpoint, in order, with only its timeout replaced |
| IceReference.ApplyOverrides | cppe/src/IceE/Reference.cpp:434-446 | with an overridden timeout every endpoint takes it; otherwise the endpoints are kept as they are |
| IceReference.ChangeTimeoutOutcome | cppe/src/IceE/Reference.cpp:99-109 | a fixed reference or an unchanged override yields the reference itself; otherwise the copy overrides the timeout, and a direct one's endpoints all carry it |
| IceReference.ChangeEndpoints | cppe/src/IceE/Reference.cpp:737-747 | the same endpoints yield the reference itself; new endpoints are stored with the timeout override applied |
| IceReference.ChangeRouter | cppe/src/IceE/Reference.cpp:635-645 | a fixed reference or the same router yields the reference itself; otherwise only the router changes |
| IceReference.ChangeLocator | cppe/src/IceE/Reference.cpp:940-950 | only an indirect reference with a different locator is copied, with only the locator changed |
| IceReference.ChangesPreserveWellFormed | cppe/src/IceE/Reference.cpp:55-109 | every change operation keeps a reference well formed (timeout -1 until overridden, fixed references never secure, overridden timeouts on every direct endpoint) |
| IceReference.SignedChar | cppe/src/IceE/Reference.cpp:126-129 | a character enters the hash as a signed C++ `char`, between -128 and 127 |
| IceReference.HashFoldAppend | cppe/src/IceE/Reference.cpp:126-134 | hashing two strings one after the other is hashing their concatenation |
| IceReference.EqualReferencesHashAlike | cppe/src/IceE/Reference.cpp:112-159 | references that `operator==` finds equal have the same hash |
| IceReference.HashIgnoresTimeoutAndRouting | cppe/src/IceE/Reference.cpp:112-159 | changing the timeout, router or locator never changes the hash |
| IceReference.FoldChars | cppe/src/IceE/Reference.cpp:126-129 | the character loop yields the 32-bit fold of `h = 5h + c` over the string |
| IceReference.FoldContext | cppe/src/IceE/Reference.cpp:136-146 | the context loop folds every key and then its value, in order |
| IceReference.MemoReference.constructor | cppe/src/IceE/Reference.cpp:404-417 | a new reference has no memoised hash |
| IceReference.MemoReference.BaseHashMemo | cppe/src/IceE/Reference.cpp:112-159 | the computed hash is the base hash and is memoised |
| IceReference.MemoReference.Hash | cppe/src/IceE/Reference.cpp:1072-1091 | the hash is the reference's hash value; a second call returns the memo and changes nothing |
| IceReference.IdentityLessStrictTotal | cppe/src/IceE/Reference.cpp:343-350 | identities are strictly and totally ordered by name, then category |
| IceReference.EntryLessStrictTotal | cppe/src/IceE/Reference.cpp:352-359 | context entries are strictly and totally ordered |
| IceReference.EndpointLessStrictTotal | cppe/src/IceE/Reference.cpp:871-888 | endpoints are strictly and totally ordered |
| IceReference.ContextLessFacts | cppe/src/IceE/Reference.cpp:352-359 | the lexicographic order of contexts is irreflexive, transitive and total |
| IceReference.EqualIsSameValue | cppe/src/IceE/Reference.cpp:276-318 | between well-formed references `operator==` holds exactly for equal values |
| IceReference.LessIrreflexive | cppe/src/IceE/Reference.cpp:321-402 | no reference is less than itself |
| IceReference.LessTrichotomy | cppe/src/IceE/Reference.cpp:321-402 | for well-formed references exactly one of less, greater or equal holds |
| IceReference.LessTransitive | cppe/src/IceE/Reference.cpp:321-402 | `operator<` is transitive across all kinds of references |
| IceReference.ToStringAsWritten | cppe/src/IceE/Reference.cpp:189-273 | as written, only a fixed reference fails to stringify |
| IceReference.ToString | cppe/src/IceE/Reference.cpp:189-273 | the corrected printer fails exactly for fixed references |
| IceReference.EndpointTokens | cppe/src/IceE/Reference.cpp:776-793 | one endpoint token per endpoint, in order |
| IceReference.StreamWrite | cppe/src/IceE/Reference.cpp:162-186 | a fixed reference refuses to marshal; otherwise the facet (as a path of zero or one element), the mode byte and the secure flag come first |
| IceReference.Known | cppe/src/IceE/Reference.cpp:1152-1203 | the kept endpoints are exactly those of a known transport |
| IceReference.FilterEndpoints | cppe/src/IceE/Reference.cpp:1152-1203 | an unsupported mode or security is refused naming the feature; otherwise the result is a permutation of the known endpoints |
| IceReference.FixedConnection | cppe/src/IceE/Reference.cpp:515-567 | no connections gives `NoEndpoint`, an unsupported feature is refused, and otherwise the chosen connection is one of the fixed connections |
| IceReferenceFactory.SkipDelims | cppe/src/IceE/ReferenceFactory.cpp:251 | the scan stops at the end or at the first non-blank character |
| IceReferenceFactory.SkipDelimsSkips | cppe/src/IceE/ReferenceFactory.cpp:251 | everything the scan passes over is a blank |
| IceReferenceFactory.FindFirstOf | cppe/src/IceE/ReferenceFactory.cpp:262-266 | the search stops at the end or at a stop character |
| IceReferenceFactory.FindFirstOfSkips | cppe/src/IceE/ReferenceFactory.cpp:262-266 | nothing the search passes over is a stop character |
| IceReferenceFactory.ClosingQuote | cppe/src/IceE/ReferenceFactory.cpp:179 | a closing quote found is the quote character and is not escaped by a backslash |
| IceReferenceFactory.CheckQuote | cppe/src/IceE/ReferenceFactory.cpp:179-200 | a token is quoted exactly when it starts with a single or double quote, and then closes on the same quote later |
| IceReferenceFactory.ReadToken | cppe/src/IceE/ReferenceFactory.cpp:179-200 | a token lies within the string, is non-empty when it does not start at a stop, and unquoted runs up to the first stop |
| IceReferenceFactory.ModeLettersAgree | cppe/src/IceE/ReferenceFactory.cpp:322-422 | the mode letters `toString` prints are exactly the mode options the parser accepts, distinct from `-s` and `-f` |
| IceReferenceFactory.ApplyOption | cppe/src/IceE/ReferenceFactory.cpp:322-430 | `-f` needs an argument that unescapes to the facet; every other accepted option takes no argument; an unknown letter is refused |
| IceReferenceFactory.Argument | cppe/src/IceE/ReferenceFactory.cpp:286-316 | scanning resumes at or after the option's end |
| IceReferenceFactory.OptionsFrom | cppe/src/IceE/ReferenceFactory.cpp:249-431 | the options loop stops at the end, a `:` or a `@`, and every error it raises is a parse error naming the whole string |
| IceReferenceFactory.Segments | cppe/src/IceE/ReferenceFactory.cpp:459-484 | an endpoint list that starts with `:` yields at least one endpoint or unknown segment |
| IceReferenceFactory.AdapterFrom | cppe/src/IceE/ReferenceFactory.cpp:512-559 | an adapter id read after `@` is non-empty, and every failure is a parse error naming the whole string |
| IceReferenceFactory.Parse | cppe/src/IceE/ReferenceFactory.cpp:153-593 | a blank string is refused; an empty string, or an empty identity with nothing after it, is the null proxy; an empty name with a category is an illegal identity; every reference built is well formed, non-fixed, without context or timeout override, with at least one endpoint when direct, and carries the default router and locator |
| IceReferenceFactory.EndpointsAt | cppe/src/IceE/ReferenceFactory.cpp:676-683 | the endpoints read are exactly the next `sz` ones |
| IceReferenceFactory.ReadFromStream | cppe/src/IceE/ReferenceFactory.cpp:628-705 | the null identity reads as the null proxy; a facet path of more than one element or a bad mode byte is refused; a reference read has the given identity, no context or override, and is direct only with endpoints; what follows is left unread |
| IceReferenceFactory.StreamRoundTrip | cppe/src/IceE/ReferenceFactory.cpp:628-705 | what `streamWrite` writes for any reference the factory could have built reads back as that reference, leaving what follows unread |
| IceReferenceFactory.EmptyDirectReadsIndirect | cppe/src/IceE/ReferenceFactory.cpp:690-699 | a direct reference without endpoints is written as an empty adapter id and reads back as an indirect reference |
| IceReferenceFactory.Checked | cppe/src/IceE/ReferenceFactory.cpp:36-52 | a destroyed factory raises; otherwise the null identity gives the null proxy and any other the reference |
| IceReferenceFactory.ReferenceFactory.constructor | cppe/src/IceE/ReferenceFactory.cpp:743-748 | a new factory is live and has no default router or locator |
| IceReferenceFactory.ReferenceFactory.Copy | cppe/src/IceE/ReferenceFactory.cpp:36-52 | a clone, unless destroyed (raises) or the identity is null (null proxy) |
| IceReferenceFactory.ReferenceFactory.CreateDirect | cppe/src/IceE/ReferenceFactory.cpp:55-86 | a direct reference of exactly the given parts, with the destroyed and null-identity cases as for `copy` |
| IceReferenceFactory.ReferenceFactory.CreateIndirect | cppe/src/IceE/ReferenceFactory.cpp:91-123 | an indirect reference of exactly the given parts, with the same error cases |
| IceReferenceFactory.ReferenceFactory.CreateFixed | cppe/src/IceE/ReferenceFactory.cpp:128-150 | a fixed reference over the connections, never secure, with the same error cases |
| IceReferenceFactory.ReferenceFactory.SetDefaultRouter | cppe/src/IceE/ReferenceFactory.cpp:710-714 | only the default router changes |
| IceReferenceFactory.ReferenceFactory.SetDefaultLocator | cppe/src/IceE/ReferenceFactory.cpp:728-732 | only the default locator changes |
| IceReferenceFactory.ReferenceFactory.Destroy | cppe/src/IceE/ReferenceFactory.cpp:751-768 | a second destroy raises and changes nothing; the first clears the defaults |
| IceReferenceFactory.ReferenceFactory.Create | cppe/src/IceE/ReferenceFactory.cpp:153-593 | the scanning code computes exactly the grammar `Parse` states |
| IceReferenceFactory.ReferenceFactory.ScanOptions | cppe/src/IceE/ReferenceFactory.cpp:249-431 | the options loop computes exactly `OptionsFrom` |
| IceReferenceFactory.ReferenceFactory.ScanEndpoints | cppe/src/IceE/ReferenceFactory.cpp:459-484 | the endpoint loop yields exactly the created endpoints and the unknown segments, in order |
| IceReferenceFactory.ReferenceFactory.ScanAdapter | cppe/src/IceE/ReferenceFactory.cpp:512-559 | the `@` branch computes exactly `AdapterFrom` |
| IceReferenceFactory.ReferenceFactory.CreateFromStream | cppe/src/IceE/ReferenceFactory.cpp:628-705 | the unmarshalling code, endpoint by endpoint, computes exactly `ReadFromStream` |
| IceProxyString.ClosingQuoteFinds | cppe/src/IceE/ReferenceFactory.cpp:179 | the closing-quote search stops at the first double quote not preceded by a backslash |
| IceProxyString.QuotedTokenAt | cppe/src/IceE/ReferenceFactory.cpp:195-200 | a quoted token whose inner quotes are escaped reads back as the text between the quotes |
| IceProxyString.PlainTokenAt | cppe/src/IceE/ReferenceFactory.cpp:186-194 | an unquoted token without stop characters, followed by a stop or the end, reads back as itself |
| IceProxyString.TokenAt | cppe/src/IceE/Reference.cpp:198-208 | text printed quoted or unquoted as `toString` does reads back as that text |
| IceProxyString.OptionsStopAt | cppe/src/IceE/ReferenceFactory.cpp:251-260 | the options loop stops at the end, at a `:`, or at a `@` after a blank |
| IceProxyString.FlagAt | cppe/src/IceE/ReferenceFactory.cpp:352-422 | an option without argument is applied and the loop goes on after it |
| IceProxyString.FacetAt | cppe/src/IceE/ReferenceFactory.cpp:324-349 | ` -f ` and a facet token set the facet to the unescaped token |
| IceProxyString.SegmentAt | cppe/src/IceE/ReferenceFactory.cpp:463-473 | a segment `:x` followed by the end or another `:` is read whole |
| IceProxyString.SegmentsOfPrinted | cppe/src/IceE/Reference.cpp:796-811 | the endpoint list `toString` prints reads back as the same endpoints, none unknown, when each endpoint prints without `:` and parses back |
| IceProxyString.AdapterStep | cppe/src/IceE/ReferenceFactory.cpp:512-559 | the adapter id printed escaped after ` @ ` reads back as its unescaped value |
| IceProxyString.IdentityStep | cppe/src/IceE/Reference.cpp:198-208 | the printed identity followed by a blank is read as the identity token |
| IceProxyString.IdentityAt | cppe/src/IceE/ReferenceFactory.cpp:166-200 | a token at the very start is the identity token |
| IceProxyString.ParseVia | cppe/src/IceE/ReferenceFactory.cpp:153-593 | parsing goes through the identity token, then the options loop, then what follows them |
| IceProxyString.UnquotedNoStops | cppe/src/IceE/Reference.cpp:219-229 | text printed unquoted holds no character that ends a token |
| IceProxyString.FacetPrinted | cppe/src/IceE/Reference.cpp:210-230 | the corrected facet option reads back as the facet |
| IceProxyString.ModeOptionsAt | cppe/src/IceE/Reference.cpp:232-268 | the printed mode and secure options set the same mode and secure flag, and the loop stops after them |
| IceProxyString.HeadOptions | cppe/src/IceE/Reference.cpp:189-273 | the printed head of a reference reads back as its facet, mode and secure flag |
| IceProxyString.OptionsOfPrinted | cppe/src/IceE/Reference.cpp:189-273 | the options loop over a printed reference stops exactly where the subclass's part begins |
| IceProxyString.IdentityPrinted | cppe/src/IceE/Reference.cpp:198-208 | the printed identity is the identity token |
| IceProxyString.EndpointsPrinted | cppe/src/IceE/Reference.cpp:796-811 | the endpoint list printed after the head reads back |
| IceProxyString.AdapterTail | cppe/src/IceE/Reference.cpp:962-989 | the corrected adapter id printed after the head reads back |
| IceProxyString.RoundTrip | cppe/src/IceE/ReferenceFactory.cpp:153-593 | every reference the parser can build prints (corrected) as a string that parses back to the same reference |
| IceProxyString.DashAfterFacetOption | cppe/src/IceE/ReferenceFactory.cpp:290 | after ` -f `, a `-` is taken for the next option, so `-f` has no argument |
| IceProxyString.DashFacetPrinted | cppe/src/IceE/Reference.cpp:210-230 | the shape of a string printed as written for a facet starting with `-` |
| IceProxyString.ParseDashFacet | cppe/src/IceE/ReferenceFactory.cpp:324-331 | a string whose `-f` is followed by another option is refused |
| IceProxyString.DashFacetAsWrittenRefused | cppe/src/IceE/Reference.cpp:210-230 | as written, a facet such as `-x` is printed unquoted and the parser refuses the string; the corrected printer quotes it and reads back |
| IceProxyString.RawAdapterPrinted | cppe/src/IceE/Reference.cpp:984-987 | as written, an adapter id whose escaped form holds no blank is printed raw after ` @ ` |
| IceProxyString.RawAdapterReads | cppe/src/IceE/ReferenceFactory.cpp:554 | the parser reads that raw id and unescapes it |
| IceProxyString.RawAdapterAsWrittenMisread | cppe/src/IceE/Reference.cpp:977-987 | as written, an adapter id holding a backslash is printed unescaped and reads back changed; the corrected printer prints the escaped form and reads back |
| IceConnection.Header | java/src/Ice/ConnectionI.java:1636-1646 | a message header is always 14 bytes: magic, versions, type, compression 0, size |
| IceConnection.RequestBatchHeader | java/src/Ice/ConnectionI.java:624-638 | the batch header is the 14-byte header followed by a four-byte request count placeholder |
| IceConnection.ReadInt | java/src/Ice/ConnectionI.java:1086 | an int is read exactly when four bytes are there, and is their little-endian value |
| IceConnection.Ordinal | java/src/Ice/ConnectionI.java:1444-1448 | the five states are numbered 0 to 4 as the source numbers them |
| IceConnection.AllocatedIdPositive | java/src/Ice/ConnectionI.java:442-447 | every request id handed out is positive and the counter stays a valid Java int |
| IceConnection.IdsCountUpFromOne | java/src/Ice/ConnectionI.java:442-447 | starting from 1, the k-th allocation hands out k: ids 1 to MaxInt32 are each used once and 0 never |
| IceConnection.IdsWrapToOne | java/src/Ice/ConnectionI.java:442-447 | after MaxInt32 allocations the counter wraps to a negative value and the next id handed out is 1 again |
| IceConnection.JavaByte | java/src/Ice/ConnectionI.java:86-87 | a wire byte read as a Java byte lies between -128 and 127 |
| IceConnection.ReportedVersionAsWrittenCollides | java/src/Ice/ConnectionI.java:112-113 | as written, the version bytes 0x80 and 0x7f are both reported as 127, and 0xff as 254 |
| IceConnection.ReportedVersion | java/src/Ice/ConnectionI.java:112-113 | the corrected conversion yields an unsigned byte value |
| IceConnection.ReportedVersionIsWireByte | java/src/Ice/ConnectionI.java:130-131 | the corrected report is exactly the byte on the wire |
| IceConnection.ServerFrameValidatesClient | java/src/Ice/ConnectionI.java:44-55 | the validation frame a server writes is accepted by a client |
| IceConnection.ValidationAcceptsExactly | java/src/Ice/ConnectionI.java:74-149 | a client accepts a header exactly when its magic, both major versions, its type and its size are the expected ones |
| IceConnection.ValidationIgnoresMinors | java/src/Ice/ConnectionI.java:86-143 | acceptance does not depend on the minor versions or the compression byte |
| IceConnection.NextStateActiveOnlyFrom | java/src/Ice/ConnectionI.java:1529-1531 | a connection becomes Active only from Holding or NotValidated |
| IceConnection.NextStateHoldingOnlyFrom | java/src/Ice/ConnectionI.java:1543-1546 | a connection becomes Holding only from Active or NotValidated |
| IceConnection.NextStateIdempotent | java/src/Ice/ConnectionI.java:1510-1513 | re-entering a state changes nothing, and asking for a state twice is asking once |
| IceConnection.SetStateFrame | java/src/Ice/ConnectionI.java:1498-1619 | a transition changes only the state, the exception, the transceiver and the close frame, and keeps an exception already recorded |
| IceConnection.ShutdownFrame | java/src/Ice/ConnectionI.java:1621-1656 | starting the shutdown changes only the same parts and keeps the recorded exception |
| IceConnection.ClosedIsAbsorbing | java/src/Ice/ConnectionI.java:1556-1559 | no request, with or without an exception, moves a Closed connection or changes anything |
| IceConnection.FirstExceptionKept | java/src/Ice/ConnectionI.java:1464-1467 | once an exception is recorded it is never replaced |
| IceConnection.DatagramNeverClosing | java/src/Ice/ConnectionI.java:1505-1508 | a datagram connection never ends up Closing |
| IceConnection.ClosedKeepsFlags | java/src/Ice/ConnectionI.java:1564-1600 | a transition to Closed always ends Closed, sends nothing and never starts a graceful shutdown |
| IceConnection.ShutdownExactlyOnEnteringClosing | java/src/Ice/ConnectionI.java:1608-1617 | a transition attempts the close frame exactly when it enters Closing with no dispatch in progress |
| IceConnection.SetStatePreservesInv | java/src/Ice/ConnectionI.java:1498-1619 | every transition keeps the connection invariant (exception recorded exactly when Closing or Closed, closed transceiver only when Closed, positive request ids, close frame once no dispatch remains) |
| IceConnection.SetStateExPreservesInv | java/src/Ice/ConnectionI.java:1450-1496 | a transition with an exception keeps the invariant |
| IceConnection.ShutdownPreservesInv | java/src/Ice/ConnectionI.java:1621-1656 | starting the shutdown keeps the invariant |
| IceConnection.RequestFrame | java/src/Ice/ConnectionI.java:431-453 | the request frame is the caller's stream with the size and id patched in, same length |
| IceConnection.BatchFrame | java/src/Ice/ConnectionI.java:738-744 | the batch frame is the batch with the size and count patched in, same length |
| IceConnection.ValidatePreservesInv | java/src/Ice/ConnectionI.java:27-171 | validation keeps the invariant |
| IceConnection.DestroyPreservesInv | java/src/Ice/ConnectionI.java:189-206 | destroy keeps the invariant |
| IceConnection.MonitorPreservesInv | java/src/Ice/ConnectionI.java:347-384 | monitor keeps the invariant |
| IceConnection.BeginRequestPreservesInv | java/src/Ice/ConnectionI.java:416-465 | the locked section of sendRequest keeps the invariant |
| IceConnection.BeginAsyncRequestPreservesInv | java/src/Ice/ConnectionI.java:529-572 | the locked section of sendAsyncRequest keeps the invariant |
| IceConnection.TransmitPreservesInv | java/src/Ice/ConnectionI.java:469-482 | a write under the send mutex keeps the invariant |
| IceConnection.RequestFailedPreservesInv | java/src/Ice/ConnectionI.java:484-521 | the failure handler of sendRequest keeps the invariant |
| IceConnection.AsyncRequestFailedPreservesInv | java/src/Ice/ConnectionI.java:592-621 | the failure handler of sendAsyncRequest keeps the invariant |
| IceConnection.PrepareBatchPreservesInv | java/src/Ice/ConnectionI.java:640-682 | prepareBatchRequest keeps the invariant |
| IceConnection.FinishBatchPreservesInv | java/src/Ice/ConnectionI.java:684-704 | finishBatchRequest keeps the invariant |
| IceConnection.BeginFlushPreservesInv | java/src/Ice/ConnectionI.java:709-756 | the first locked section of a flush keeps the invariant |
| IceConnection.FlushDonePreservesInv | java/src/Ice/ConnectionI.java:791-801 | resetting the batch after a flush keeps the invariant |
| IceConnection.FlushFailedPreservesInv | java/src/Ice/ConnectionI.java:776-789 | the failure handler of a flush keeps the invariant |
| IceConnection.EndDispatchPreservesInv | java/src/Ice/ConnectionI.java:838-863 | ending a dispatch keeps the invariant |
| IceConnection.SendResponsePreservesInv | java/src/Ice/ConnectionI.java:804-864 | sendResponse keeps the invariant |
| IceConnection.SendNoResponsePreservesInv | java/src/Ice/ConnectionI.java:866-887 | sendNoResponse keeps the invariant |
| IceConnection.ClassifyShape | java/src/Ice/ConnectionI.java:1030-1117 | only a connection that is not Closed acts on a message, and only one neither Closing nor Closed dispatches, a non-negative number of invocations |
| IceConnection.ApplyPreservesInv | java/src/Ice/ConnectionI.java:1057-1163 | the effects of the message switch keep the invariant |
| IceConnection.MessagePreservesInv | java/src/Ice/ConnectionI.java:1019-1165 | the locked section of message keeps the invariant |
| IceConnection.DispatchFailedPreservesInv | java/src/Ice/ConnectionI.java:1224-1279 | the handler of a failed invocation keeps the invariant |
| IceConnection.FinishedPreservesInv | java/src/Ice/ConnectionI.java:1282-1363 | finished keeps the invariant |
| IceConnection.SetStateExFrame | java/src/Ice/ConnectionI.java:1450-1496 | a transition with an exception changes only the state, the exception, the transceiver and the close frame |
| IceConnection.CheckValidationHeader | java/src/Ice/ConnectionI.java:74-149 | an unsupported protocol is reported only after the magic matched, and an unsupported encoding only after the protocol major matched too; each carries the version bytes as they came off the wire (the corrected report of "## Findings") and the versions this side supports |
| IceConnection.ValidateOutcome | java/src/Ice/ConnectionI.java:27-171 | validation succeeds exactly when no failure is found and then the connection is Holding; a failure closes the connection (an unvalidated one closes its transceiver at once) and is what is thrown |
| IceConnection.ClientAcceptsServerFrame | java/src/Ice/ConnectionI.java:61-152 | a client validates against a peer that sends exactly the server's validation frame |
| IceConnection.DestroyStartsClosing | java/src/Ice/ConnectionI.java:189-206 | destroying an Active or Holding connection starts a graceful close with the reason as its exception (a datagram one closes at once), attempting the close frame when nothing is being dispatched |
| IceConnection.DestroyDetail | java/src/Ice/ConnectionI.java:189-206 | destroy records the reason and, over a stream, closes only after the close frame was attempted |
| IceConnection.MonitorClosesOnlyWhen | java/src/Ice/ConnectionI.java:347-384 | monitor changes only an Active connection, and then either closes it for a timed-out asynchronous request or starts a graceful close for an idle one past its deadline |
| IceConnection.NeverThrownAndCompleted | java/src/Ice/ConnectionI.java:491-515 | a twoway request whose write failed is either thrown by the send path or completed by finished, never both, whichever runs first |
| IceConnection.ThrownThenNotDrained | java/src/Ice/ConnectionI.java:509-514 | a request thrown by the send path is no longer there for finished to complete |
| IceConnection.DrainedThenNotThrown | java/src/Ice/ConnectionI.java:1321-1328 | a request taken by finished is not thrown by the send path afterwards |
| IceConnection.NeverThrownAndCompletedAsync | java/src/Ice/ConnectionI.java:614-619 | the same exclusion for asynchronous requests |
| IceConnection.AsyncDrainedThenNotThrown | java/src/Ice/ConnectionI.java:1321-1328 | an asynchronous request taken by finished is not thrown afterwards |
| IceConnection.OnewayFailureAlwaysThrown | java/src/Ice/ConnectionI.java:516-519 | a failed oneway request or flush is always reported, with the connection's first exception |
| IceConnection.BeginRequestRegisters | java/src/Ice/ConnectionI.java:437-459 | a twoway request is registered under a fresh positive id, which is written into the frame together with the frame's size |
| IceConnection.RequestFrameReadsBack | java/src/Ice/ConnectionI.java:431-453 | the size and the request id read back from a request frame |
| IceConnection.BatchFrameReadsBack | java/src/Ice/ConnectionI.java:738-744 | the size and the request count read back from a batch frame |
| IceConnection.BatchSwapRoundTrip | java/src/Ice/ConnectionI.java:640-704 | preparing then finishing a batch request hands out the batch (headed by a batch header when empty), takes back what the caller appended, returns the caller's stream and counts one request |
| IceConnection.FlushOutcome | java/src/Ice/ConnectionI.java:706-802 | a successful flush leaves an empty batch; a failed one closes the connection and leaves the batch in use, so later batch requests fail with the connection's exception |
| IceConnection.EndDispatchShutdownExactly | java/src/Ice/ConnectionI.java:844-852 | ending a dispatch attempts the close frame exactly when the connection is Closing and this was the last dispatch |
| IceConnection.ClosedIgnoresMessages | java/src/Ice/ConnectionI.java:1030-1033 | a message on a Closed connection changes nothing and is ignored |
| IceConnection.MessageErrorsClose | java/src/Ice/ConnectionI.java:1160-1164 | every protocol error closes the connection and the first exception recorded is kept |
| IceConnection.CloseWithCloses | java/src/Ice/ConnectionI.java:1450-1496 | closing with an exception always ends Closed with the first exception recorded |
| IceConnection.RequestsDroppedWhileClosing | java/src/Ice/ConnectionI.java:1076-1105 | requests and batches arriving while Closing are dropped and not counted |
| IceConnection.DispatchCounts | java/src/Ice/ConnectionI.java:1086-1116 | a dispatch adds exactly its number of invocations to the count; a single request carries the id from the message, a batch id 0 |
| IceConnection.ReplyCompletesItsRequest | java/src/Ice/ConnectionI.java:1123-1137 | a reply completes exactly the request registered under its id, which leaves its table; all others stay registered |
| IceConnection.UnknownReplyCloses | java/src/Ice/ConnectionI.java:1131-1135 | a reply whose id matches no waiting request closes the connection |
| IceConnection.FinishedDrains | java/src/Ice/ConnectionI.java:1282-1363 | on a Closing or Closed connection finished hands every waiting request over to be completed with the connection's exception, leaving both tables empty, and a Closed one also closes the transceiver, reporting the close's failure; on any other state it changes nothing and completes nothing |
| IceConnection.ConnectionI.constructor | java/src/Ice/ConnectionI.java:1395-1428 | a new connection is NotValidated with no pending request and hands out id 1 first; a datagram connection has no idle timeout |
| IceConnection.ConnectionI.Write | java/src/Ice/ConnectionI.java:481 | one write attempt on the transceiver; the frame reaches the peer only if the write succeeds |
| IceConnection.ConnectionI.Transmit | java/src/Ice/ConnectionI.java:469-482 | a write under the send mutex is refused once the transceiver is closed, and keeps the invariant |
| IceConnection.ConnectionI.NoteActivity | java/src/Ice/ConnectionI.java:461-464 | the idle deadline moves forward only when idle timeouts are on |
| IceConnection.ConnectionI.SetState | java/src/Ice/ConnectionI.java:1498-1619 | the connection takes the transition of `setState(state)` |
| IceConnection.ConnectionI.SetStateEx | java/src/Ice/ConnectionI.java:1450-1496 | the connection takes the transition of `setState(state, ex)` |
| IceConnection.ConnectionI.InitiateShutdown | java/src/Ice/ConnectionI.java:1621-1656 | the close frame is written and the transceiver shut down, over a stream only; a failed write is returned |
| IceConnection.ConnectionI.Validate | java/src/Ice/ConnectionI.java:27-171 | the connection takes the validation step and keeps the invariant; a version it reports is the byte on the wire, from the corrected `ReportedVersion` |
| IceConnection.ConnectionI.Activate | java/src/Ice/ConnectionI.java:173-177 | the connection takes the transition to Active and keeps the invariant |
| IceConnection.ConnectionI.Hold | java/src/Ice/ConnectionI.java:179-183 | the connection takes the transition to Holding and keeps the invariant |
| IceConnection.ConnectionI.Destroy | java/src/Ice/ConnectionI.java:189-206 | the connection takes the destroy step and keeps the invariant |
| IceConnection.ConnectionI.IsValidated | java/src/Ice/ConnectionI.java:208-212 | true exactly when the connection is past NotValidated |
| IceConnection.ConnectionI.IsDestroyed | java/src/Ice/ConnectionI.java:214-218 | true exactly when the connection is Closing or Closed |
| IceConnection.ConnectionI.IsFinished | java/src/Ice/ConnectionI.java:220-244 | true exactly when the connection is Closed, its transceiver closed and no dispatch left |
| IceConnection.ConnectionI.Monitor | java/src/Ice/ConnectionI.java:347-384 | the connection takes the monitor step and keeps the invariant |
| IceConnection.ConnectionI.NewRequestId | java/src/Ice/ConnectionI.java:442-447 | the id and the new counter are the wrapping allocation; nothing else changes |
| IceConnection.ConnectionI.BeginRequest | java/src/Ice/ConnectionI.java:416-465 | the first locked section of sendRequest, keeping the invariant |
| IceConnection.ConnectionI.RequestFailed | java/src/Ice/ConnectionI.java:484-521 | the failure handler of sendRequest, keeping the invariant |
| IceConnection.ConnectionI.BeginAsyncRequest | java/src/Ice/ConnectionI.java:529-572 | the first locked section of sendAsyncRequest, keeping the invariant |
| IceConnection.ConnectionI.AsyncRequestFailed | java/src/Ice/ConnectionI.java:592-621 | the failure handler of sendAsyncRequest, keeping the invariant |
| IceConnection.ConnectionI.PrepareBatchRequest | java/src/Ice/ConnectionI.java:640-682 | prepareBatchRequest once its wait is over, keeping the invariant |
| IceConnection.ConnectionI.FinishBatchRequest | java/src/Ice/ConnectionI.java:684-704 | finishBatchRequest, keeping the invariant |
| IceConnection.ConnectionI.BeginFlush | java/src/Ice/ConnectionI.java:709-756 | the first locked section of a flush: the frame to write, or nothing when the batch is empty |
| IceConnection.ConnectionI.FlushDone | java/src/Ice/ConnectionI.java:791-801 | the batch is reset after a successful flush |
| IceConnection.ConnectionI.FlushFailed | java/src/Ice/ConnectionI.java:776-789 | a failed flush closes the connection and is reported |
| IceConnection.ConnectionI.EndDispatchStep | java/src/Ice/ConnectionI.java:844-852 | the dispatch count drops by one and the shutdown starts when it was the last dispatch while Closing |
| IceConnection.ConnectionI.SendResponse | java/src/Ice/ConnectionI.java:804-864 | the reply is written with its size, then the dispatch ends; a failed write closes the connection |
| IceConnection.ConnectionI.SendNoResponse | java/src/Ice/ConnectionI.java:866-887 | the dispatch ends without a reply |
| IceConnection.ConnectionI.ClassifyMessage | java/src/Ice/ConnectionI.java:1048-1158 | the message switch classifies exactly as the specification `Classify` |
| IceConnection.ConnectionI.Message | java/src/Ice/ConnectionI.java:1019-1165 | the locked section of message: the classification it acts on and the new state, keeping the invariant |
| IceConnection.ConnectionI.ApplyInbound | java/src/Ice/ConnectionI.java:1057-1163 | the effects of the switch in message |
| IceConnection.ConnectionI.DispatchFailed | java/src/Ice/ConnectionI.java:1224-1279 | a failed invocation closes the connection and removes the remaining invocations from the count |
| IceConnection.ConnectionI.Finished | java/src/Ice/ConnectionI.java:1282-1363 | finished, handing over the waiting requests, keeping the invariant |
| IceConnection.ConnectionI.Exception | java/src/Ice/ConnectionI.java:1365-1369 | a failure reported by the thread pool closes the connection with that exception, unless one is recorded |
| IceTcpEndpoint.RunLength | java/src/IceInternal/TcpEndpoint.java:35 | the run at the start of a string is as long as possible without a blank |
| IceTcpEndpoint.Words | java/src/IceInternal/TcpEndpoint.java:35 | the words are non-empty and blank-free |
| IceTcpEndpoint.Split | java/src/IceInternal/TcpEndpoint.java:35 | splitting on blank runs gives blank-free pieces, all non-empty but possibly the first, and one empty piece for the empty string |
| IceTcpEndpoint.WordsOfSpaced | java/src/IceInternal/TcpEndpoint.java:35 | splitting words joined by blanks gives back the words |
| IceTcpEndpoint.Digits | java/src/IceInternal/TcpEndpoint.java:154-165 | the decimal digits of a natural number are a non-empty digit string |
| IceTcpEndpoint.DigitsValueOf | java/src/IceInternal/TcpEndpoint.java:154-165 | the digits of a number have that number as their value |
| IceTcpEndpoint.Decimal | java/src/IceInternal/TcpEndpoint.java:154-165 | an int printed in decimal is non-empty, blank-free and has a minus sign only when negative |
| IceTcpEndpoint.DigitOf | java/src/IceInternal/TcpEndpoint.java:80 | `Character.digit(c, 10)`, which `Integer.parseInt` applies to each character: an ASCII digit has its own value, a sign is no digit, and every digit's value is below 10 |
| IceTcpEndpoint.DigitInMeans | java/src/IceInternal/TcpEndpoint.java:80 | a code point is a decimal digit exactly when it lies in one of the runs of ten decimal digits of the Basic Multilingual Plane, and its value is its distance from the run's zero |
| IceTcpEndpoint.SameDigitsSameValue | java/src/IceInternal/TcpEndpoint.java:80 | digit strings whose digits have the same values, in whatever scripts, have the same value |
| IceTcpEndpoint.ParseInt | java/src/IceInternal/TcpEndpoint.java:78-85 | the empty string is not a number |
| IceTcpEndpoint.ParseIntSeesDigitValues | java/src/IceInternal/TcpEndpoint.java:78-85 | strings that agree on every character that is not a digit, and on the value of every digit, parse alike: digits of any script count |
| IceTcpEndpoint.ParseIntScripts | java/src/IceInternal/TcpEndpoint.java:78-85 | the Arabic-Indic digits `١٢` read as 12, `+5` reads as 5, and a lone `-` is refused |
| IceTcpEndpoint.DecimalRoundTrip | java/src/IceInternal/TcpEndpoint.java:78-85 | every int printed in decimal parses back to itself |
| IceTcpEndpoint.ApplyOption | java/src/IceInternal/TcpEndpoint.java:58-112 | an option is accepted exactly when it is `-h` with an argument, or `-p`/`-t` with an integer argument, and then sets only that field |
| IceTcpEndpoint.ParseOptions | java/src/IceInternal/TcpEndpoint.java:27-121 | the loop over the pieces computes exactly the parsing function |
| IceTcpEndpoint.ParseDefaults | java/src/IceInternal/TcpEndpoint.java:30-33 | with no options the endpoint has the default host, port 0 and timeout -1 |
| IceTcpEndpoint.ToString | java/src/IceInternal/TcpEndpoint.java:153-165 | the printed form starts with `tcp -` |
| IceTcpEndpoint.SplitPrinted | java/src/IceInternal/TcpEndpoint.java:153-165 | splitting the printed options gives exactly the option words `-h`, host, `-p`, port and, if set, `-t` and the timeout |
| IceTcpEndpoint.ScanStep | java/src/IceInternal/TcpEndpoint.java:46-56 | an option followed by an argument that does not start with `-` consumes both |
| IceTcpEndpoint.ScanPieces | java/src/IceInternal/TcpEndpoint.java:37-112 | the scan over the printed pieces yields the endpoint's host, port and timeout |
| IceTcpEndpoint.ScanOptions | java/src/IceInternal/TcpEndpoint.java:37-112 | the scan over `-h H -p P` and an optional `-t T` yields that host, port and timeout |
| IceTcpEndpoint.ParsePrinted | java/src/IceInternal/TcpEndpoint.java:27-121 | parsing the options of the printed form gives back the endpoint, for any host without blanks that does not start with `-` |
| IceTcpEndpoint.WithTimeout | java/src/IceInternal/TcpEndpoint.java:188-202 | an unchanged timeout gives the endpoint itself; otherwise only the timeout differs |
| IceTcpEndpoint.CompareBytes | java/src/IceInternal/TcpEndpoint.java:360-374 | the byte loop yields -1, 0 or 1, and 0 exactly for equal addresses |
| IceTcpEndpoint.CompareTo | java/src/IceInternal/TcpEndpoint.java:317-380 | the method computes the ordering by port, then timeout, then (for different host strings) address bytes |
| IceTcpEndpoint.EqualMeans | java/src/IceInternal/TcpEndpoint.java:311-315 | two endpoints are equal exactly when port and timeout agree and the hosts are the same string or resolve to the same address |
| IceTcpEndpoint.CompareAntisymmetric | java/src/IceInternal/TcpEndpoint.java:317-380 | swapping the endpoints negates the comparison |
| IceTcpEndpoint.CompareBytesSwap | java/src/IceInternal/TcpEndpoint.java:360-374 | swapping the addresses negates the byte comparison |
| IceTcpEndpoint.CompareBytesTransitive | java/src/IceInternal/TcpEndpoint.java:360-374 | the byte comparison is transitive |
| IceTcpEndpoint.CompareTransitive | java/src/IceInternal/TcpEndpoint.java:317-380 | the ordering is transitive, as `Comparable` requires |
| IceTcpEndpoint.HashClosedForm | java/src/IceInternal/TcpEndpoint.java:382-388 | the hash is `25 hash(host) + 5 port + timeout` modulo 2^32, where `hash(host)` is Java's `String.hashCode` over the host's UTF-16 code units |
| JavaText.StringHash | java/src/IceInternal/TcpEndpoint.java:385 | `String.hashCode` taken character by character is the fold `h = 31 h + u` over the string's UTF-16 code units, so a character beyond the Basic Multilingual Plane counts as its two surrogates |
| JavaText.FoldAppend | java/src/IceInternal/TcpEndpoint.java:385 | folding two runs of code units in turn is folding their concatenation |
| JavaText.StringHashOfSupplementary | java/src/IceInternal/TcpEndpoint.java:385 | the host U+1F600 hashes as its surrogate pair does, to 1772899, not as its code point |
| JavaText.StringHashOfBmp | java/src/IceInternal/TcpEndpoint.java:385 | a character of the Basic Multilingual Plane is one step `31 h + c` of the hash |
| JavaText.Units | java/src/IceInternal/TcpEndpoint.java:385 | a character is one code unit below U+10000 and otherwise a high surrogate followed by a low one |
| JavaText.Utf16 | java/src/IceInternal/TcpEndpoint.java:385 | a string has at least one and at most two code units per character |
| JavaText.Utf16RoundTrip | java/src/IceInternal/TcpEndpoint.java:385 | a string's code units read back as that string, so two strings never share their code units |
| JavaText.Utf16OfBmp | java/src/IceInternal/TcpEndpoint.java:385 | a string of the Basic Multilingual Plane is one code unit per character, each its character's code |
| JavaText.Utf16Append | java/src/IceInternal/TcpEndpoint.java:385 | the code units of a concatenation are the concatenated code units |
| IceTcpEndpoint.StreamRead | java/src/IceInternal/TcpEndpoint.java:124-134 | a value is read only from an encapsulation holding at least host, port and timeout |
| IceTcpEndpoint.StreamRoundTrip | java/src/IceInternal/TcpEndpoint.java:139-150 | what `streamWrite` writes carries the TCP type and reads back as the same endpoint |
| IceEndpointFactories.FindType | java/src/IceInternal/EndpointFactoryManager.java:38-50 | the factory found has the asked type and comes first among those of that type; nothing is found exactly when no factory has the type |
| IceEndpointFactories.FindProtocol | java/src/IceInternal/EndpointFactoryManager.java:75-82 | the factory found serves the protocol and is the first that does; nothing is found exactly when no factory serves it |
| IceEndpointFactories.FindTypeUnique | java/src/IceInternal/EndpointFactoryManager.java:24-50 | while types are unique (what `add` keeps), the factory found for a type is the only one in the list with that type |
| IceEndpointFactories.AddThenGet | java/src/IceInternal/EndpointFactoryManager.java:24-50 | after adding a factory of a new type, `get` of that type returns it, `get` of every other type returns what it returned before, and types stay unique |
| IceEndpointFactories.Trim | java/src/IceInternal/EndpointFactoryManager.java:55 | the trimmed string neither starts nor ends with a trimmed character, and it is empty exactly when the whole string is trimmed characters |
| IceEndpointFactories.TrimUnchanged | cs/src/Ice/EndpointFactoryManager.cs:70 | a string whose first and last characters are not trimmed is its own trim |
| IceEndpointFactories.ProtocolMatch | java/src/IceInternal/EndpointFactoryManager.java:63-68 | the first match of `([ \t\n\r]+)\|$` in the trimmed string: no blank before its start and only blanks inside it; it is non-empty exactly when it starts at a blank, and then no blank follows it; an empty match inside the string sits just before a last character that `$` matches before (a Java line terminator such as U+2028); an empty match at the end means the last character is not one |
| IceEndpointFactories.CreateTrimmed | java/src/IceInternal/EndpointFactoryManager.java:52-87 | every failure is `EndpointParseException` carrying the untrimmed string, an empty trimmed string always fails, and a success is delegated to a registered factory |
| IceEndpointFactories.CreateBlank | java/src/IceInternal/EndpointFactoryManager.java:55-61 | a string made only of trimmed characters is refused with `EndpointParseException` whose text is the string itself |
| IceEndpointFactories.CreateMeans | cs/src/Ice/EndpointFactoryManager.cs:65-102 | a successful create hands the factory for the first word of the trimmed string (the default protocol when that word is `default`) the remainder after the blanks that end the word; a word that runs up to a last line terminator hands on that terminator |
| IceEndpointFactories.JavaLineEndHandedOn | java/src/IceInternal/EndpointFactoryManager.java:55-80 | `String.trim` keeps a final U+2028 and `$` matches before it, so the Java manager hands the TCP factory of `tcp` followed by U+2028 the text U+2028 |
| IceEndpointFactories.DotNetLineEndTrimmed | cs/src/Ice/EndpointFactoryManager.cs:70-92 | `String.Trim` drops that U+2028, so the C# manager hands the TCP factory the empty string |
| IceEndpointFactories.TcpMatch | java/src/IceInternal/EndpointFactoryManager.java:63-68 | in a string `tcp -...` the protocol is the first three characters and the factory's text starts at the `-` |
| IceEndpointFactories.TrimPrinted | java/src/IceInternal/EndpointFactoryManager.java:55 | the string form of a TCP endpoint has no leading or trailing blanks, so trimming leaves it as it is |
| IceEndpointFactories.CreateOfTcp | java/src/IceInternal/EndpointFactoryManager.java:70-81 | a string `tcp -...` is handed, from its `-` on, to the first factory serving `tcp` |
| IceEndpointFactories.CreateTcpPrinted | java/src/IceInternal/EndpointFactoryManager.java:52-87 | creating from the string form of a TCP endpoint reaches the `tcp` factory with text that the TCP endpoint parser reads back as the same endpoint |
| IceEndpointFactories.EndpointFactoryManager.ForJava | java/src/IceInternal/EndpointFactoryManager.java:19-22 | a new Java manager has no factories, trims with `String.trim` (every character up to U+0020) and matches `$` before a last Java line terminator |
| IceEndpointFactories.EndpointFactoryManager.ForCSharp | cs/src/Ice/EndpointFactoryManager.cs:24-29 | a new C# manager has no factories, trims with `String.Trim` (white space) and matches `$` before a last `\n` |
| IceEndpointFactories.EndpointFactoryManager.Add | java/src/IceInternal/EndpointFactoryManager.java:24-36 | a factory whose type is not yet registered goes at the end of the list and type uniqueness is kept |
| IceEndpointFactories.EndpointFactoryManager.Get | cs/src/Ice/EndpointFactoryManager.cs:48-63 | returns the first factory of the type, or none when no factory has that type; nothing changes |
| IceEndpointFactories.EndpointFactoryManager.Create | cs/src/Ice/EndpointFactoryManager.cs:65-102 | the result is the trimmed-string create of the current list (whose properties are the lemmas above); nothing changes |
| IceEndpointFactories.EndpointFactoryManager.Read | java/src/IceInternal/EndpointFactoryManager.java:89-105 | the factory of the type read reads the rest of the stream, and an unregistered type gives an `UnknownEndpoint` of that type |
| IceEndpointFactories.EndpointFactoryManager.Destroy | java/src/IceInternal/EndpointFactoryManager.java:107-116 | every registered factory is destroyed, in list order, and the list is left empty |
| IceProxyFactory.ReferenceToProxy | java/src/IceInternal/ProxyFactory.java:50-63 | there is a proxy exactly when there is a reference, and the proxy holds that reference |
| IceProxyFactory.StringToProxy | java/src/IceInternal/ProxyFactory.java:19-24 | the empty string gives no proxy; otherwise the reference factory's parse decides |
| IceProxyFactory.ProxyToString | java/src/IceInternal/ProxyFactory.java:26-38 | no proxy prints as the empty string; a proxy prints exactly when its reference is not fixed |
| IceProxyFactory.StringRoundTrip | java/src/IceInternal/ProxyFactory.java:19-38 | for every proxy the reference printer reads back (and for no proxy), parsing the printed string gives the same proxy |
| IceProxyFactory.IdentityTokens | java/src/IceInternal/ProxyFactory.java:72 | the identity goes on the stream as two strings, name then category |
| IceProxyFactory.ProxyToStream | java/src/IceInternal/ProxyFactory.java:65-82 | no proxy is written as the empty identity alone; a proxy is written exactly when its reference is not fixed, and its stream form starts with its identity |
| IceProxyFactory.ReadIdentity | java/src/IceInternal/ProxyFactory.java:43-44 | a read identity is the first two strings of the stream and the rest is left unread; otherwise the read fails with an unmarshalling error |
| IceProxyFactory.StreamToProxy | java/src/IceInternal/ProxyFactory.java:40-48 | a proxy read from a stream has the identity the stream starts with, and no proxy is read exactly when that identity is empty |
| IceProxyFactory.StreamRoundTrip | java/src/IceInternal/ProxyFactory.java:40-82 | writing a proxy (or no proxy) and reading it back gives it back and leaves whatever followed on the stream unread |
| IceProxyFactory.PiecesNotEmpty | java/src/IceInternal/ProxyFactory.java:161-163 | splitting the trimmed property value always yields at least one piece, so the `arr.length == 0` branch cannot be taken |
| IceProxyFactory.IntervalOfArabicIndic | java/src/IceInternal/ProxyFactory.java:169-189 | `Integer.parseInt` reads digits of any script: the Arabic-Indic `١٠٠` is an interval of 100 ms |
| IceProxyFactory.Interval | java/src/IceInternal/ProxyFactory.java:189 | an interval is never negative, and a non-negative parsed value is kept as it is |
| IceProxyFactory.RetryIntervals | java/src/IceInternal/ProxyFactory.java:159-196 | a first value of -1 means no retries; otherwise there is one interval per piece, each the piece's clamped value |
| IceProxyFactory.DefaultIntervals | java/src/IceInternal/ProxyFactory.java:159 | when `Ice.RetryIntervals` is not set there is one retry, with no wait |
| IceProxyFactory.IntervalsBounded | java/src/IceInternal/ProxyFactory.java:163-190 | every interval is non-negative and there are no more intervals than pieces in the property |
| IceProxyFactory.CheckRetry | java/src/IceInternal/ProxyFactory.java:84-150 | a request failure or a destroyed communicator always rethrows the same exception; a retry count never exceeds the number of intervals, and a positive count sleeps the interval it indexes |
| IceProxyFactory.RetryCounts | java/src/IceInternal/ProxyFactory.java:91-141 | from a count below the limit, a retry happens exactly when the exception is not a request failure, the communicator is alive and intervals remain, and it increments the count and sleeps that count's interval |
| IceProxyFactory.Retries | java/src/IceInternal/ProxyFactory.java:96-141 | over any run of exceptions the count never passes the number of intervals, so an invocation is retried at most once per interval |
| IceProxyFactory.ProxyFactory.constructor | java/src/IceInternal/ProxyFactory.java:155-197 | the intervals array the loop fills is exactly the retry intervals of `Ice.RetryIntervals` (default `"0"`) |
| IceProxyFactory.ProxyFactory.CheckRetryAfterException | java/src/IceInternal/ProxyFactory.java:84-150 | the outcome is the retry rule on the factory's own intervals |
| IceProxy.Check | cpp/src/Ice/Proxy.cpp:804-1294 | a setter's argument is accepted exactly when an identity has a name, a locator cache timeout is at least -1, an invocation timeout is positive, -1 or -2, and a timeout is positive or -1 |
| IceProxy.Apply | cpp/src/Ice/Proxy.cpp:804-1310 | a setter fails exactly when its argument check fails, and on success the new setting is in effect |
| IceProxy.ApplyUnchanged | cpp/src/Ice/Proxy.cpp:804-826 | a setter leaves the reference as it is exactly when the argument is accepted and the value is already in effect, which is when the source returns the proxy itself |
| IceProxy.ApplyIdempotent | cpp/src/Ice/Proxy.cpp:926-945 | applying the same setter twice gives what applying it once gives |
| IceProxy.HandleDecision | cpp/src/Ice/Proxy.cpp:1379-1401 | an exception that may not be retried is rethrown; otherwise the call is retried exactly when the proxy factory's check retries, with its count, and a `CommunicatorDestroyedException` from that check rethrows the original exception |
| IceProxy.AtMostOnce | cpp/src/Ice/Proxy.cpp:1364-1383 | a request already sent for a normal operation is retried only after a local `CloseConnectionException` or `ObjectNotExistException` |
| IceProxy.ObjectPrx.Setup | cpp/src/Ice/Proxy.cpp:1340-1353 | a new proxy holds the given reference and no request handler |
| IceProxy.ObjectPrx.Set | cpp/src/Ice/Proxy.cpp:804-1310 | a setter fails with its check's error exactly when the check fails; otherwise it returns this proxy when the value is already in effect (never for `ice_context`), and else a fresh proxy on the changed reference with no request handler |
| IceProxy.ObjectPrx.CheckTwowayOnly | cpp/src/Ice/Proxy.cpp:756-767 | a two-way proxy passes, and any other proxy raises `TwowayOnlyException` naming the operation |
| IceProxy.ObjectPrx.CheckAsyncTwowayOnly | cpp/src/Ice/Proxy.cpp:784-796 | a two-way proxy passes, and any other proxy raises `IllegalArgumentException` naming the operation |
| IceProxy.ObjectPrx.GetRequestHandler | cpp/src/Ice/Proxy.cpp:1404-1417 | with connection caching and a cached handler, that handler is returned; otherwise the one the reference makes |
| IceProxy.ObjectPrx.SetRequestHandler | cpp/src/Ice/Proxy.cpp:1430-1443 | with connection caching the first handler ever set stays cached and is returned; without caching the handler given is returned and nothing is cached |
| IceProxy.ObjectPrx.UpdateRequestHandler | cpp/src/Ice/Proxy.cpp:1445-1464 | the cached handler is replaced by its own update only with connection caching, a previous handler, and a cached handler that differs from the new one; otherwise it is unchanged |
| IceProxy.ObjectPrx.HandleException | cpp/src/Ice/Proxy.cpp:1355-1402 | the request handler of the failed call is cleared as `__updateRequestHandler(handler, 0)` says, and the outcome is the retry decision above |
| IceProxy.ProxyIdentityOrder | cpp/src/Ice/Proxy.cpp:1504-1544 | `proxyIdentityLess` is irreflexive and transitive, and `proxyIdentityEqual` holds exactly when neither proxy is less than the other (null first) |
| IceProxy.ProxyIdentityAndFacetOrder | cpp/src/Ice/Proxy.cpp:1546-1624 | `proxyIdentityAndFacetLess` is irreflexive and transitive, and `proxyIdentityAndFacetEqual` holds exactly when neither proxy is less than the other |
| IceProxy.IdentityAndFacetRefines | cpp/src/Ice/Proxy.cpp:1504-1624 | equal by identity and facet implies equal by identity, and less by identity implies less by identity and facet |
| IceObjectAdapterFactories.ObjectAdapter.constructor | java/src/IceInternal/ObjectAdapterFactory.java:156-170 | an adapter carries the name it was created under (a UUID for an unnamed one) |
| IceObjectAdapterFactories.Each | java/src/IceInternal/ObjectAdapterFactory.java:43-46 | one call per adapter, on each adapter of the list in list order |
| IceObjectAdapterFactories.FirstLocalIndex | java/src/IceInternal/ObjectAdapterFactory.java:189-204 | no adapter before the position found is local to the proxy (a deactivated adapter counts as not local), and the adapter at that position is local, unless the position is past the end |
| IceObjectAdapterFactories.FirstLocalIs | java/src/IceInternal/ObjectAdapterFactory.java:189-204 | a position with no local adapter before it and a local adapter at it (or the end) is exactly the first local position |
| IceObjectAdapterFactories.RemoveFirst | java/src/IceInternal/ObjectAdapterFactory.java:215 | removing an adapter that is absent changes nothing; removing one that is present drops exactly one occurrence of it |
| IceObjectAdapterFactories.JavaObjectAdapterFactory.constructor | java/src/IceInternal/ObjectAdapterFactory.java:242-247 | a new factory is alive, with no names in use, an empty adapter list, and nobody waiting |
| IceObjectAdapterFactories.JavaObjectAdapterFactory.Shutdown | java/src/IceInternal/ObjectAdapterFactory.java:14-48 | afterwards the factory is shut down; the first call deactivates every adapter in list order, and a later call makes no call at all |
| IceObjectAdapterFactories.JavaObjectAdapterFactory.WaitForShutdown | java/src/IceInternal/ObjectAdapterFactory.java:50-107 | the wait completes exactly when the factory is shut down and no other thread is waiting, and then every adapter is waited for in list order; the waiting flag is back to false and nothing else changes |
| IceObjectAdapterFactories.JavaObjectAdapterFactory.Destroy | java/src/IceInternal/ObjectAdapterFactory.java:115-146 | once the wait completes the adapter list is gone, and every adapter it held was waited for and then destroyed, both in list order |
| IceObjectAdapterFactories.JavaObjectAdapterFactory.CreateObjectAdapter | java/src/IceInternal/ObjectAdapterFactory.java:148-173 | after shutdown it raises `ObjectAdapterDeactivatedException`; a name in use raises `AlreadyRegisteredException`; otherwise a fresh adapter (under the UUID when the name is empty) is appended, and only a non-empty name is recorded as in use |
| IceObjectAdapterFactories.JavaObjectAdapterFactory.FindObjectAdapter | java/src/IceInternal/ObjectAdapterFactory.java:175-205 | after shutdown null, otherwise the first adapter in list order that is local to the proxy, or null when none is |
| IceObjectAdapterFactories.JavaObjectAdapterFactory.RemoveObjectAdapter | java/src/IceInternal/ObjectAdapterFactory.java:207-217 | after shutdown nothing changes; otherwise the adapter's first occurrence leaves the list and its name is free again |
| IceObjectAdapterFactories.JavaObjectAdapterFactory.FlushBatchRequests | java/src/IceInternal/ObjectAdapterFactory.java:219-237 | once destroyed nothing is flushed; otherwise every adapter is flushed in list order, and the factory's state is unchanged |
| IceObjectAdapterFactories.CSharpObjectAdapterFactory.constructor | cs/src/Ice/ObjectAdapterFactory.cs:181-187 | a new factory is alive, with an empty table and nobody waiting |
| IceObjectAdapterFactories.CSharpObjectAdapterFactory.CallEach | cs/src/Ice/ObjectAdapterFactory.cs:37-40 | the earlier calls are kept, and the new calls are made exactly once on each adapter of the table |
| IceObjectAdapterFactories.CSharpObjectAdapterFactory.Shutdown | cs/src/Ice/ObjectAdapterFactory.cs:23-47 | afterwards the factory is shut down; the first call deactivates each adapter of the table once, and a later call makes no call |
| IceObjectAdapterFactories.CSharpObjectAdapterFactory.WaitForShutdown | cs/src/Ice/ObjectAdapterFactory.cs:49-106 | the wait completes exactly when the factory is shut down and no other thread is waiting; then each adapter is waited for once and the table is emptied |
| IceObjectAdapterFactories.CSharpObjectAdapterFactory.CreateObjectAdapter | cs/src/Ice/ObjectAdapterFactory.cs:108-128 | after shutdown it raises `ObjectAdapterDeactivatedException`; a registered name returns the adapter already registered; otherwise a fresh adapter is registered under the name |
| IceObjectAdapterFactories.CSharpObjectAdapterFactory.FindObjectAdapter | cs/src/Ice/ObjectAdapterFactory.cs:130-159 | after shutdown null; otherwise the adapter returned is in the table and local to the proxy, and null means no adapter of the table is local |
| IceObjectAdapterFactories.CSharpObjectAdapterFactory.FlushBatchRequests | cs/src/Ice/ObjectAdapterFactory.cs:161-176 | each adapter of the table is flushed exactly once, and the factory's state is unchanged |
| IceEvictor.AddStep | java/src/Freeze/EvictorI.java:316-350 | `addFacet` succeeds exactly on a facet that is not registered, leaves it registered without leaving its change unsaved, and makes it `created` exactly when it was dead |
| IceEvictor.CreateStep | java/src/Freeze/EvictorI.java:450-497 | `createObject` always leaves the facet registered with its change saved or queued; it queues exactly a clean or dead element, and the result is `created` exactly when it was created or dead |
| IceEvictor.RemoveStep | java/src/Freeze/EvictorI.java:564-600 | `removeFacet` succeeds exactly on a registered facet, leaves it unregistered with its change saved or queued, and a facet created since the last save becomes dead |
| IceEvictor.FinishStep | java/src/Freeze/EvictorI.java:1033-1047 | `finished` queues exactly a clean element after an operation that is not `Nonmutating`, marking it modified; otherwise the status is unchanged, and registration never changes |
| IceEvictor.AddRemoveCycle | java/src/Freeze/EvictorI.java:316-600 | after a successful remove the facet can be added again and after a successful add it can be removed again; add succeeds exactly when remove fails |
| IceEvictor.Pinned | java/src/Freeze/EvictorI.java:546-550 | pinning returns the cached element when there is one; otherwise there is an element exactly when the database holds the object, and it is loaded clean and brand-new |
| IceEvictor.Installed | java/src/Freeze/EvictorI.java:280-297 | `putIfAbsent` returns the cached element when there is one; otherwise a brand-new element that is not kept and is registered exactly when the database holds the object |
| IceEvictor.Without | java/src/Freeze/EvictorI.java:1600-1603 | removing an entry through its list position keeps every other key, keeps the list free of repeats, and shortens it by one when the key was there |
| IceEvictor.Idle | java/src/Freeze/EvictorI.java:1552-1556 | an element with no dispatch in progress and no modified-queue entry is one `evict` may drop |
| IceEvictor.Dropped | java/src/Freeze/EvictorI.java:1545-1584 | when the list is not too long, `evict` drops nothing |
| IceEvictor.Kept | java/src/Freeze/EvictorI.java:1545-1584 | when the list is not too long, `evict` keeps the whole list |
| IceEvictor.EvictReachesTarget | java/src/Freeze/EvictorI.java:1545-1584 | `evict` drops exactly as many entries as the list is too long, or every idle entry if there are fewer, and each walked entry is either kept or dropped |
| IceEvictor.EvictDropsOnlyIdle | java/src/Freeze/EvictorI.java:1552-1559 | every dropped entry is idle and comes from the walked part of the list, as do the kept ones |
| IceEvictor.EvictPartition | java/src/Freeze/EvictorI.java:1545-1584 | on a list without repeats, each walked entry is kept exactly when it is not dropped, and the kept entries stay free of repeats |
| IceEvictor.EvictKeepsFront | java/src/Freeze/EvictorI.java:1545-1549 | eviction starts at the least recently used end: when the idle entries behind a position already cover the excess, the entries in front of it are kept, in place |
| IceEvictor.HalvingProgress | java/src/Freeze/EvictorI.java:1409 | after a deadlock the halved transaction size stays at least 1 and shrinks until it reaches 1 |
| IceEvictor.FirstTxSize | java/src/Freeze/EvictorI.java:1343-1347 | the first transaction saves no more objects than are queued and no more than `maxTxSize`, and at least one when any are queued |
| IceEvictor.ListUpdate | java/src/Freeze/EvictorI.java:1588-1619 | changing an element without changing whether it is listed keeps the list consistent with the cache |
| IceEvictor.ListMoveFront | java/src/Freeze/EvictorI.java:1595-1617 | moving an element to the front of the list keeps it consistent, and the list grows by one only when the element was not on it |
| IceEvictor.ListTakeOut | java/src/Freeze/EvictorI.java:733-750 | taking a kept element off the list keeps the list consistent and shortens it by one when the element was on it |
| IceEvictor.ListDrop | java/src/Freeze/EvictorI.java:1621-1633 | dropping an element from the cache and from the list keeps them consistent and shortens the list by one when it was listed |
| IceEvictor.QueueStep | java/src/Freeze/EvictorI.java:1636-1648 | a status step whose element is queued when the step says so keeps every queue entry backed by a usage count and every unsaved change on the queue |
| IceEvictor.QueueRelease | java/src/Freeze/EvictorI.java:1055-1060 | giving back a dispatch's usage count keeps every queue entry backed by a usage count |
| IceEvictor.QueueDrop | java/src/Freeze/EvictorI.java:1552-1559 | an idle element is not on the modified queue and holds no unsaved change, so dropping it keeps the queue consistent |
| IceEvictor.EvictValid | java/src/Freeze/EvictorI.java:1540-1585 | the list and the cache that `evict` leaves are consistent with each other |
| IceEvictor.Fixed | java/src/Freeze/EvictorI.java:1588-1619 | after `fixEvictPosition` an element that is not kept is listed, and its status, servant and keep count are unchanged |
| IceEvictor.Dispatched | java/src/Freeze/EvictorI.java:1012-1013 | `locate` leaves the status, servant and keep count unchanged and adds one usage count to the fixed element |
| IceEvictor.FixKeepsValid | java/src/Freeze/EvictorI.java:1588-1619 | `fixEvictPosition` keeps the list, the queue and the elements consistent, and the list grows only for a brand-new element |
| IceEvictor.StepKeepsValid | java/src/Freeze/EvictorI.java:316-350 | a status step that keeps an element on or off the list and queues a new change keeps the list, the queue and the elements consistent |
| IceEvictor.Removed | java/src/Freeze/EvictorI.java:564-622 | after `removeFacet` the element has the step's status, no servant and no keep count, and one more usage count when it was queued |
| IceEvictor.Returned | java/src/Freeze/EvictorI.java:1033-1072 | after `finished` the element has the step's status and the same servant and keep count; the dispatch's usage count is given back unless it passes to the modified queue |
| IceEvictor.ReturnKeepsValid | java/src/Freeze/EvictorI.java:1055-1072 | `finished` keeps the list, the queue and the elements consistent |
| IceEvictor.UseKeepsValid | java/src/Freeze/EvictorI.java:1012-1013 | the usage count `locate` takes keeps the list, the queue and the elements consistent |
| IceEvictor.RemovedFacet | java/src/Freeze/EvictorI.java:563-622 | a successful `removeFacet` leaves an unregistered element with no servant and no keep count, dead exactly when it had been created since the last save |
| IceEvictor.RemoveKeepsValid | java/src/Freeze/EvictorI.java:563-622 | `removeFacet` keeps the list, the queue and the elements consistent, putting a kept element back on the front of the list |
| IceEvictor.KeptOnce | java/src/Freeze/EvictorI.java:733-754 | `keepFacet` adds one keep count and leaves a brand-new element with usage count 0, with status and servant unchanged |
| IceEvictor.ReleasedOnce | java/src/Freeze/EvictorI.java:798-800 | `releaseFacet` takes one keep count away and changes nothing else |
| IceEvictor.KeepKeepsValid | java/src/Freeze/EvictorI.java:733-754 | `keepFacet` takes the element off the list and keeps the list, the queue and the elements consistent |
| IceEvictor.ReleaseKeepsValid | java/src/Freeze/EvictorI.java:798-816 | `releaseFacet` keeps the list, the queue and the elements consistent, putting the element back on the front of the list when its last keep count goes |
| FreezeEvictor.Scan | java/src/Freeze/EvictorI.java:1545-1584 | the walk from the least recently used end leaves exactly the survivors and drops exactly the victims that the eviction lemmas describe |
| FreezeEvictor.Evictor.constructor | java/src/Freeze/EvictorI.java:100-145 | a new evictor is consistent, not deactivated, has a store for every facet plus the default one, evictor size 10, and an empty cache, list and queue |
| FreezeEvictor.Evictor.Pin | java/src/Freeze/EvictorI.java:546-550 | pinning finds an element exactly when the cache or the database has one, loads a missing one into the cache, and keeps the evictor consistent |
| FreezeEvictor.Evictor.PutIfAbsent | java/src/Freeze/EvictorI.java:280-297 | the cache afterwards holds the installed element for the key, and the evictor stays consistent |
| FreezeEvictor.Evictor.FixEvictPosition | java/src/Freeze/EvictorI.java:1588-1619 | an element that is not kept moves to the front of the evictor list and is no longer brand-new; a kept one stays off the list; consistency is kept |
| FreezeEvictor.Evictor.Evict | java/src/Freeze/EvictorI.java:1540-1585 | the list becomes the survivors of the walk, the victims leave the cache, every element that leaves was unused and held no unsaved change, and consistency is kept |
| FreezeEvictor.Evictor.EvictElement | java/src/Freeze/EvictorI.java:1621-1633 | an unused element that is not kept leaves both the cache and the list, and consistency is kept |
| FreezeEvictor.Evictor.ApplyStep | java/src/Freeze/EvictorI.java:1636-1648 | the element takes the step's status and servant, and when the step queues it, it is appended to the modified queue with one more usage count; consistency is kept |
| FreezeEvictor.Evictor.AddFacet | java/src/Freeze/EvictorI.java:222-380 | after deactivation nothing changes and `EvictorDeactivatedException` is raised; otherwise the facet's store exists, only the key's entry changes, a registered facet raises `AlreadyRegisteredException`, and a successful add installs the servant with the add step's status and queueing |
| FreezeEvictor.Evictor.AddInstalled | java/src/Freeze/EvictorI.java:312-350 | the add succeeds exactly when the element was not registered; then it holds the servant with the add step's status and queueing; an element that is not kept moves to the front of the list |
| FreezeEvictor.Evictor.CreateObject | java/src/Freeze/EvictorI.java:399-511 | after deactivation nothing changes and `EvictorDeactivatedException` is raised; otherwise the default facet's entry always ends up holding the servant, with the create step's status and queueing |
| FreezeEvictor.Evictor.RemoveFacet | java/src/Freeze/EvictorI.java:520-654 | after deactivation nothing changes; otherwise the remove succeeds exactly when the store exists and the element found is registered, else `NotRegisteredException`; a success leaves the removed element at the front of the list and queues it when the step says so |
| FreezeEvictor.Evictor.RemovePinned | java/src/Freeze/EvictorI.java:563-622 | the remove succeeds exactly when the pinned element is registered, and then leaves it removed, at the front of the list, and queued when the step says so |
| FreezeEvictor.Evictor.Remove | java/src/Freeze/EvictorI.java:566-622 | the element takes the removal step, a kept element goes back on the front of the list, and the queue grows when the step says so; consistency is kept |
| FreezeEvictor.Evictor.KeepFacet | java/src/Freeze/EvictorI.java:683-771 | after deactivation nothing changes; otherwise the keep succeeds exactly when the store exists and the element found is registered, else `NotRegisteredException`; a success adds one keep count and takes the element off the evictor list |
| FreezeEvictor.Evictor.Keep | java/src/Freeze/EvictorI.java:733-754 | the element gets one more keep count and leaves the evictor list; consistency is kept |
| FreezeEvictor.Evictor.ReleaseFacet | java/src/Freeze/EvictorI.java:779-834 | after deactivation nothing changes; otherwise the release succeeds exactly when the store exists and the cached element is kept, else `NotRegisteredException` with nothing changed; the last keep count puts the element on the front of the list |
| FreezeEvictor.Evictor.Release | java/src/Freeze/EvictorI.java:798-816 | the element loses one keep count, and the last one puts it back on the front of the list; consistency is kept |
| FreezeEvictor.Evictor.Locate | java/src/Freeze/EvictorI.java:958-1019 | after deactivation nothing changes and `EvictorDeactivatedException` is raised; otherwise a servant is returned exactly when the store exists and the element found is registered, and the dispatch then owns one more usage count than the queue does |
| FreezeEvictor.Evictor.Dispatch | java/src/Freeze/EvictorI.java:1012-1017 | the element is fixed on the list and gains one usage count, and its servant is returned |
| FreezeEvictor.Evictor.Use | java/src/Freeze/EvictorI.java:1013 | the element gains one usage count and the evictor stays consistent |
| FreezeEvictor.Evictor.Finished | java/src/Freeze/EvictorI.java:1022-1075 | the dispatch gives back its usage count and the queue grows exactly when the finish step queues; on the element's last use the evictor shrinks to the survivors of an eviction, otherwise the list is unchanged |
| FreezeEvictor.Evictor.GiveBack | java/src/Freeze/EvictorI.java:1055-1067 | the element takes the finish step and one usage count less, the queue grows when the step queues it, and consistency is kept |
| FreezeEvictor.Evictor.SetSize | java/src/Freeze/EvictorI.java:176-201 | after deactivation `EvictorDeactivatedException` and nothing changes; a negative size is ignored; otherwise the size is set and the list shrinks to the survivors of an eviction to that size |
| FreezeEvictor.Evictor.Deactivate | java/src/Freeze/EvictorI.java:1077-1106 | the first call sets the size to 0, evicts everything that can go and deactivates; a later call changes nothing |
| IceLocatorTable.Lookup | java/src/IceInternal/LocatorTable.java:30-34 | a lookup answers a value exactly when the key has an entry, and then it is that entry's value |
| IceLocatorTable.RemoveUndoesPut | java/src/IceInternal/LocatorTable.java:36-46 | after a put the key answers the value put, a removal then leaves the table as removing before the put would, and other keys are not affected |
| IceLocatorTable.LocatorTable.constructor | java/src/IceInternal/LocatorTable.java:19-21 | both tables start empty |
| IceLocatorTable.LocatorTable.Clear | java/src/IceInternal/LocatorTable.java:23-28 | both tables are empty afterwards |
| IceLocatorTable.LocatorTable.GetAdapterEndpoints | java/src/IceInternal/LocatorTable.java:30-34 | endpoints are returned exactly when the adapter id has an entry, and they are that entry |
| IceLocatorTable.LocatorTable.AddAdapterEndpoints | java/src/IceInternal/LocatorTable.java:36-40 | the adapter id maps to the new endpoints, every other entry is kept, and the object table is not touched |
| IceLocatorTable.LocatorTable.RemoveAdapterEndpoints | java/src/IceInternal/LocatorTable.java:42-46 | the earlier entry (or none) is returned and the adapter id no longer has one |
| IceLocatorTable.LocatorTable.GetProxy | java/src/IceInternal/LocatorTable.java:48-52 | a proxy is returned exactly when the identity has an entry, and it is that entry |
| IceLocatorTable.LocatorTable.AddProxy | java/src/IceInternal/LocatorTable.java:54-58 | the identity maps to the new proxy, every other entry is kept, and the endpoint table is not touched |
| IceLocatorTable.LocatorTable.RemoveProxy | java/src/IceInternal/LocatorTable.java:60-64 | the earlier entry (or none) is returned and the identity no longer has one |
| IceRouters.Unrouted | cs/src/Ice/RouterInfo.cs:70 | the proxy without its router carries no router, keeps its mode, security, identity, context, facet, timeout and kind, and a proxy with no router is its own result |
| IceRouters.UnroutedIdempotent | cs/src/Ice/RouterInfo.cs:171 | taking the router away twice is taking it away once, and proxies that differ only in their router lose it to the same proxy |
| IceRouters.RouterInfo.constructor | cs/src/Ice/RouterInfo.cs:20-26 | a new memo holds the router and has no cached proxies, no adapter and an empty routing table |
| IceRouters.RouterInfo.Destroy | cs/src/Ice/RouterInfo.cs:28-37 | both cached proxies and the adapter are dropped and the routing table is empty |
| IceRouters.RouterInfo.Equals | cs/src/Ice/RouterInfo.cs:39-43 | a memo equals another exactly when the other is not null and has the same router |
| IceRouters.RouterInfo.HashCode | cs/src/Ice/RouterInfo.cs:45-48 | the memo hashes as its router's reference does |
| IceRouters.RouterInfo.GetClientProxy | cs/src/Ice/RouterInfo.cs:58-75 | a cached client proxy is returned unchanged; otherwise a null answer from the router raises `NoEndpointException` and caches nothing, and any other answer is cached and returned without its router; whatever is returned is cached and not routed |
| IceRouters.RouterInfo.SetClientProxy | cs/src/Ice/RouterInfo.cs:77-83 | the cached client proxy is the given proxy without its router |
| IceRouters.RouterInfo.GetServerProxy | cs/src/Ice/RouterInfo.cs:85-98 | a cached server proxy is returned unchanged; otherwise a null answer raises `NoEndpointException` and caches nothing, and any other answer is cached and returned without its router |
| IceRouters.RouterInfo.SetServerProxy | cs/src/Ice/RouterInfo.cs:100-103 | the cached server proxy is the given proxy without its router |
| IceRouters.RouterInfo.AddProxy | cs/src/Ice/RouterInfo.cs:105-116 | the proxy is in the routing table afterwards, and the router is told exactly when the table did not hold it before |
| IceRouters.RouterInfo.SetAdapter | cs/src/Ice/RouterInfo.cs:118-124 | the adapter is the one given |
| IceRouters.RouterInfo.GetAdapter | cs/src/Ice/RouterInfo.cs:126-132 | the adapter returned is the one last set, or none |
| IceRouters.SameRouterSameHash | cs/src/Ice/RouterInfo.cs:39-48 | memos that are equal by router have equal hash codes |
| IceRouters.RouterManager.constructor | cs/src/Ice/RouterInfo.cs:143-146 | the manager's table starts empty |
| IceRouters.RouterManager.Get | java/src/IceInternal/RouterManager.java:35-56 | no router gives no memo and changes nothing; otherwise the memo returned is for the router without its own router, the stored one when there is one, or else a fresh empty memo that is stored; every memo stays stored under its own unrouted router |
| IceRouters.RouterManager.Destroy | cs/src/Ice/RouterInfo.cs:148-158 | every memo the table held is destroyed and the table is empty afterwards |
| IcePatchers.ListPatched | java/src/IceInternal/ListPatcher.java:23-41 | an object of the wrong class raises `ClassCastException`; an index outside the list raises `IndexOutOfBoundsException`; otherwise the patch succeeds, and the list keeps its length, holds the object at the index and is unchanged elsewhere |
| IcePatchers.ListPatchIdempotentAndCommutes | java/src/IceInternal/ListPatcher.java:40 | patching the same hole twice with the same object is patching it once, and patches of two different holes commute |
| IcePatchers.ListPatcher.constructor | java/src/IceInternal/ListPatcher.java:14-21 | the patcher remembers the list, the class, the type id and the index |
| IcePatchers.ListPatcher.Patch | java/src/IceInternal/ListPatcher.java:23-41 | on success the list becomes the patched list; on either exception the exception is the one described above and the list is unchanged |
| IcePatchers.ListPatcher.Type | java/src/IceInternal/ListPatcher.java:43-47 | the type id is the one given at construction |
| IcePatchers.ParamPatcher.constructor | cs/src/Ice/Patcher.cs:40-42 | the patcher expects the given type and holds no value yet |
| IcePatchers.ParamPatcher.Patch | cs/src/Ice/Patcher.cs:44-53 | the patch succeeds exactly when the object is of the expected type, and then the object is the value; otherwise `InvalidCastException` is raised and the old value is kept |
| IcePatchers.ParamPatcher.Type | cs/src/Ice/Patcher.cs:29-33 | the type name is the expected type's |
| IcePatchers.Fillers | cs/src/Ice/Patcher.cs:76-79 | the padding is the asked number of copies of the filler object |
| IcePatchers.Padded | cs/src/Ice/Patcher.cs:74-80 | a list too short for the index grows with filler until the index is its last position, and its earlier elements are unchanged; a long enough list is not grown |
| IcePatchers.SequencePatched | cs/src/Ice/Patcher.cs:68-93 | every failure is `InvalidCastException` naming the expected type and the received class, whatever the container raised |
| IcePatchers.SequencePatchedFacts | cs/src/Ice/Patcher.cs:68-93 | a list always reaches past the index and an array keeps its length; a store succeeds exactly when the index is valid (any non-negative one for a list) and the object fits the element type; then the object is at the index, the other old elements are unchanged and the added ones are filler; a failed store into an array changes nothing |
| IcePatchers.SequencePatcher.constructor | cs/src/Ice/Patcher.cs:60-64 | the patcher remembers the collection, the expected type and the index |
| IcePatchers.SequencePatcher.Patch | cs/src/Ice/Patcher.cs:68-93 | the collection's new contents and the outcome are those the patch specification gives |
| IcePatchers.SequencePatcher.Type | cs/src/Ice/Patcher.cs:29-33 | the type name is the expected type's |
| IceProxyIdentityKey.MakeKey | java/src/Ice/ProxyIdentityKey.java:24-34 | a key wraps the proxy, caches the proxy's identity and caches that identity's hash, built on `String.hashCode` over UTF-16 code units |
| IceProxyIdentityKey.GetProxy | java/src/Ice/ProxyIdentityKey.java:49-53 | the proxy returned is the wrapped one |
| IceProxyIdentityKey.KeyEqualsIffSameIdentity | java/src/Ice/ProxyIdentityKey.java:36-47 | keys made from two proxies are equal exactly when the proxies have the same identity, equal keys have equal hash codes, and a key gives back the proxy it was made from |
| IceProxyIdentityKey.KeyEqualsIsEquivalence | java/src/Ice/ProxyIdentityKey.java:42-47 | `equals` on keys is reflexive, symmetric and transitive |
| IceProxyIdentityKey.KeyIgnoresAllButIdentity | java/src/Ice/ProxyIdentityKey.java:24-47 | two proxies with the same identity give keys that are equal and hash alike, whatever else differs in their references |
| IcePyTypes.AsLong | py/modules/IcePy/Types.cpp:241-249 | the integer a Python int or long hands on is the number itself whenever it lies in the C `long` range |
| IcePyTypes.CString | py/modules/IcePy/Types.cpp:482 | the C string a Python string hands on: the longest prefix without NUL, ending where the first NUL stood, and the whole string when it holds none |
| IcePyTypes.ParseLong | py/modules/IcePy/Types.cpp:429-438 | a long given as text is accepted only when its number lies in the 64-bit range |
| IcePyTypes.ValidatePrimitiveRange | py/modules/IcePy/Types.cpp:225-336 | what the intended validation accepts the written one accepts too; the two agree except on Python longs beyond the C `long` range; a byte, short or int is accepted exactly when it is an integer within 0..255, the 16-bit or the 32-bit range |
| IcePyTypes.OverflowingLongValidates | py/modules/IcePy/Types.cpp:282-303 | the Python long 2^64 passes the written validation for `int`, fails the intended one, and is marshalled as -1 |
| IcePyTypes.MarshalPrimitiveWritesValue | py/modules/IcePy/Types.cpp:339-490 | under the intended validation a byte, short, int or long value is written as the number itself |
| IcePyTypes.EnumWrite | py/modules/IcePy/Types.cpp:1086-1097 | an enumerator travels as a byte for up to 127 enumerators, a short for up to 32767 and an int beyond |
| IcePyTypes.EnumMarshal | py/modules/IcePy/Types.cpp:1061-1098 | marshalling succeeds exactly when the `value` attribute exists, is an int and lies in 0..count-1, and the value then goes out in the width the count calls for |
| IcePyTypes.TruncatedEnumValueAccepted | py/modules/IcePy/Types.cpp:1078-1084 | an enumerator whose value is 2^32+1 passes the written range check of a two-enumerator enum and goes out as enumerator 1, while the intended marshalling refuses it |
| IcePyTypes.EnumMarshalAgrees | py/modules/IcePy/Types.cpp:1078-1084 | within the C `int` range the written and the intended marshalling are the same |
| IcePyTypes.EnumUnmarshal | py/modules/IcePy/Types.cpp:1101-1127 | a successful read yields an enumerator of the enum's own type and consumes input |
| IcePyTypes.EnumRoundTrip | py/modules/IcePy/Types.cpp:1061-1127 | reading back a marshalled enumerator gives the enumerator with the same value and leaves the rest of the stream |
| IcePyTypes.UnmarshalPrimitive | py/modules/IcePy/Types.cpp:496-583 | a successful primitive read consumes input; a string read is cut at its first NUL |
| IcePyTypes.Unmarshaled | py/modules/IcePy/Types.cpp:1274-1298 | a successful read of any type description consumes input, so nested reads terminate; a sequence reads back as a list and a dictionary as a dictionary |
| IcePyTypes.DictionaryReadUnique | py/modules/IcePy/Types.cpp:1383-1420 | a dictionary read never holds two keys Python finds equal |
| IcePyTypes.UnmarshalEntry | py/modules/IcePy/Types.cpp:1384-1408 | reading one dictionary key and its value consumes input, and the key read is one Python can hash |
| IcePyTypes.UnmarshalEntriesUnique | py/modules/IcePy/Types.cpp:1383-1420 | the entry loop adds at most one entry per key read and, started on a dictionary without equal keys, ends on one |
| IcePyTypes.KeyIndexFound | py/modules/IcePy/Types.cpp:1398-1417 | the entry found has a key equal to the one looked up, and none is found exactly when no key is equal |
| IcePyTypes.SetItemCases | py/modules/IcePy/Types.cpp:1398-1417 | the first entry with an equal key keeps its key and position and takes the new value, every other entry is kept; with no equal key the entry is appended |
| IcePyTypes.SetItemKeepsUnique | py/modules/IcePy/Types.cpp:1398-1417 | setting an item keeps the keys distinct, and the dictionary then maps the key to the value set |
| IcePyTypes.KeyIndexUnique | py/modules/IcePy/Types.cpp:1398-1417 | in a dictionary without equal keys the entry found for a key is the only one equal to it |
| IcePyTypes.ListKeyRefused | py/modules/IcePy/Types.cpp:1391-1400 | a dictionary whose key type is a sequence or a dictionary is never read back once it has an entry, because the key cannot be hashed |
| IcePyTypes.EqualKeysMerge | py/modules/IcePy/Types.cpp:1346-1420 | `{1: 7, 2: 8}` under `bool` keys goes out with the key `True` twice and reads back as `{True: 8}` |
| IcePyTypes.EqualKeysNormal | py/modules/IcePy/Types.cpp:1383-1420 | the normal form of `{1: 7, 2: 8}` under `bool` keys is `{True: 8}`: the second setting keeps the first key and takes the value 8 |
| IcePyTypes.NulCutsString | py/modules/IcePy/Types.cpp:478-578 | a string holding a NUL goes out, and comes back, cut at the NUL |
| IcePyTypes.RoundTrip | py/modules/IcePy/Types.cpp:1233-1411 | marshalling a validated value of any type description whose sequences hold non-primitive elements and whose dictionaries have primitive or enumeration keys, then reading it back, gives the value's normal form (strings cut at their first NUL, equal keys merged) and leaves whatever followed on the stream |
| IcePyTypes.PrimitiveRoundTrip | py/modules/IcePy/Types.cpp:339-583 | a primitive value read back gives its normal form (ints as ints, booleans by truth, a long given as text as its number, a string up to its first NUL) |
| IcePyTypes.SequenceRoundTrip | py/modules/IcePy/Types.cpp:1233-1298 | a sequence read back gives the list of its elements' normal forms, in order |
| IcePyTypes.DictionaryRoundTrip | py/modules/IcePy/Types.cpp:1333-1411 | a dictionary read back is the dictionary made by setting the entries' normal forms one after the other, in order, so that keys Python finds equal merge into the first key with the last value; `None` comes back empty |
| IcePyTypes.NoneIsEmpty | py/modules/IcePy/Types.cpp:1235-1239 | `None` goes out as size 0 and size 0 comes back as an empty list or dictionary |
| IcePyTypes.OutputStream.Marshal | py/modules/IcePy/Types.cpp:339-490 | the stream gains exactly the writes of the marshalled value (a string cut at its first NUL), and the outcome is the specification's outcome |
| IcePyTypes.OutputStream.MarshalSequence | py/modules/IcePy/Types.cpp:1255-1271 | the size, then each element validated and written in turn; the first invalid element stops the writing with an error naming its index |
| IcePyTypes.OutputStream.MarshalDictionary | py/modules/IcePy/Types.cpp:1346-1368 | the size, then each entry; the first invalid key or value stops the writing |
| IcePyTypes.OutputStream.MarshalEntry | py/modules/IcePy/Types.cpp:1353-1367 | the key is validated and written, then the value |
| IcePyTypes.ObjectSliceTail | py/modules/IcePy/Types.cpp:1743-1754 | the `Ice::Object` slice is accepted exactly when it starts with size 0, which is consumed |
| IcePyTypes.InputStream.ReadEnum | py/modules/IcePy/Types.cpp:1101-1127 | the stream advances past the enumerator read, and a failed read reports the error |
| IcePyTypes.InputStream.ReadObjectSlice | py/modules/IcePy/Types.cpp:1743-1754 | succeeds exactly when the next item is size 0 and consumes it; otherwise raises `MarshalException` |
| IcePyTypes.ProxyInfo.constructor | py/modules/IcePy/Types.cpp:2288-2291 | a new proxy description carries its id and no Python class |
| IcePyTypes.ProxyId | py/modules/IcePy/Types.cpp:2284-2285 | the id of a proxy type is the type id followed by `Prx` |
| IcePyTypes.TypeTables.constructor | py/modules/IcePy/Types.cpp:20-27 | the class, proxy and exception tables start empty |
| IcePyTypes.TypeTables.AddClassInfo | py/modules/IcePy/Types.cpp:127-133 | an id not yet registered is added with its description |
| IcePyTypes.TypeTables.AddExceptionInfo | py/modules/IcePy/Types.cpp:163-169 | an id not yet registered is added with its description |
| IcePyTypes.TypeTables.LookupClassInfo | py/modules/IcePy/Types.cpp:1906-1915 | found exactly when the id is registered, with its description |
| IcePyTypes.TypeTables.LookupExceptionInfo | py/modules/IcePy/Types.cpp:1920-1929 | found exactly when the id is registered, with its description |
| IcePyTypes.TypeTables.LookupProxyInfo | py/modules/IcePy/Types.cpp:149-158 | found exactly when the id is registered, with its description |
| IcePyTypes.TypeTables.DeclareProxy | py/modules/IcePy/Types.cpp:2274-2297 | returns the description under id+`Prx`; an existing one is returned and the table is unchanged, otherwise a fresh one is registered; every description stays under its own id |
| IcePyTypes.TypeTables.DefineProxy | py/modules/IcePy/Types.cpp:2300-2327 | as `DeclareProxy`, and the returned description's Python class is set while every other description keeps its class |
| IcePySlice.CppArg | py/modules/IcePy/Slice.cpp:53-65 | a preprocessor option is added after a space, in single quotes exactly when it holds a space |
| IcePySlice.FilesAreTheFileArgs | py/modules/IcePy/Slice.cpp:80-83 | an argument is a file exactly when it is neither an option nor a flag, and there are no more files than arguments |
| IcePySlice.FilesOfConcat | py/modules/IcePy/Slice.cpp:50-84 | files keep the command's order: the files of two stretches of arguments are those of the first, then those of the second |
| IcePySlice.FirstUnknown | py/modules/IcePy/Slice.cpp:75-79 | the option reported is an unknown option among the arguments, and none is reported exactly when no argument is one |
| IcePySlice.ScanMeaning | py/modules/IcePy/Slice.cpp:42-84 | the loop fails exactly when some argument is an unknown option, naming the first; otherwise the preprocessor arguments are those of the `-I`, `-D` and `-U` options in order, the files are the other non-option arguments in order, each flag is set exactly when given, and `ice` is set |
| IcePySlice.ClassifiedMeaning | py/modules/IcePy/Slice.cpp:42-90 | an unknown option is reported first, then a command without files is refused with its text, otherwise the options of `ScanMeaning` with at least one file |
| IcePySlice.ScanFailureSticks | py/modules/IcePy/Slice.cpp:75-79 | once the loop has failed on a prefix of the command it returns that same failure for the whole command |
| IcePySlice.LoadSliceArgs | py/modules/IcePy/Slice.cpp:42-90 | the imperative loop computes exactly the classification of the command's arguments |
| SliceCppGen.OctalEscape | cpp/src/slice2cpp/Gen.cpp:131-141 | a byte outside the basic source set becomes a backslash and three octal digits whose value is the byte |
| SliceCppGen.EscapeCharRoundTrip | cpp/src/slice2cpp/Gen.cpp:129-155 | the C++ reading of one escaped character gives back that character, whatever follows it |
| SliceCppGen.EscapedRoundTrip | cpp/src/slice2cpp/Gen.cpp:129-155 | the C++ compiler reads the escaped body of a string constant back as the original bytes |
| SliceCppGen.EscapedIsBasic | cpp/src/slice2cpp/Gen.cpp:117-155 | every character of the escaped body is in the basic source character set, and no quote in it can end the literal early |
| SliceCppGen.StringLiteral | cpp/src/slice2cpp/Gen.cpp:123-157 | a string constant is its escaped body between double quotes, preceded by `L` exactly in a wide-string context |
| SliceCppGen.LastScope | cpp/src/slice2cpp/Gen.cpp:193 | the position found holds `::` and no later position does; none is found exactly when the value holds no `::` |
| SliceCppGen.ScopedEnumerator | cpp/src/slice2cpp/Gen.cpp:189-201 | in C++11 mode an enumerator is the value's scope, then the enumeration's name and `::`, then the enumerator's own name |
| SliceCppGen.FloatLiteralFacts | cpp/src/slice2cpp/Gen.cpp:170-178 | a float constant starts with its value, always holds a decimal point and ends in `F`; `.0` is added exactly when the value has no point |
| SliceCppGen.LongLiteral | cpp/src/slice2cpp/Gen.cpp:159-169 | a long constant is the value followed by `LL` in C++11 mode, otherwise the value inside `ICE_INT64(` and `)` |
| SliceCppGen.WriteConstantValue | cpp/src/slice2cpp/Gen.cpp:100-209 | the output gains exactly the constant's spelling: a named constant, a string, a long, a float, an enumerator or the value as given |
| SliceCppGen.WriteStringLiteral | cpp/src/slice2cpp/Gen.cpp:123-157 | the output gains exactly the string literal, written one character at a time |
| SliceCppGen.WriteEscapedChar | cpp/src/slice2cpp/Gen.cpp:131-154 | the output gains exactly the escape of one character |
| SliceCppGen.ConstexprIffNoNonConstexprLeaf | cpp/src/slice2cpp/Gen.cpp:32-80 | a type is constexpr exactly when no string, local object, sequence or dictionary is reachable from it through struct members |
| SliceCppGen.AllConstexprIffMembers | cpp/src/slice2cpp/Gen.cpp:69-76 | the member loop succeeds exactly when no remaining member holds a non-constexpr type |
| SliceCppGen.DeprecateSymbol | cpp/src/slice2cpp/Gen.cpp:82-97 | the attribute is empty exactly when neither the symbol nor its container carries `deprecate` metadata |
| SliceCppGen.DeprecateSymbolMessage | cpp/src/slice2cpp/Gen.cpp:86-94 | the attribute carries the text after `deprecate:`, or "is deprecated" for a bare `deprecate`; the symbol's own metadata wins over its container's |
| SliceCppGen.UseWstringFor | cpp/src/slice2cpp/Gen.cpp:4991-5000 | `cpp:type:wstring` turns wide strings on, otherwise `cpp:type:string` turns them off, otherwise the enclosing context stays |
| SliceCppGen.WstringHistory.SetUseWstring | cpp/src/slice2cpp/Gen.cpp:4987-5001 | the current context is pushed on the history and the context the metadata asks for is returned |
| SliceCppGen.WstringHistory.ResetUseWstring | cpp/src/slice2cpp/Gen.cpp:5003-5009 | the last remembered context is popped and returned |
| SliceCppGen.WstringHistory.EnterAndLeave | cpp/src/slice2cpp/Gen.cpp:4987-5009 | a set on entry and a reset on exit leave the history as it was and restore the enclosing context |
| SliceCppGen.LastIndexOf | cpp/src/slice2cpp/Gen.cpp:742 | the position found holds the character and none after it does; none is found exactly when the character is absent |
| SliceCppGen.SplitHeader | cpp/src/slice2cpp/Gen.cpp:740-747 | with a comma, the header and the guard joined by a comma give the option back and the guard holds no comma; without one, the whole option is the header and there is no guard |
| SliceCppGen.ExtraHeaderUnguarded | cpp/src/slice2cpp/Gen.cpp:753-754 | a header given without a guard is written as one `#include` line |
| SliceCppGen.ExtraHeaderGuarded | cpp/src/slice2cpp/Gen.cpp:748-758 | a header given with a guard is included between `#ifndef`/`#define` of the guard and `#endif` |
| SliceCppGen.SplitHeaderOf | cpp/src/slice2cpp/Gen.cpp:742-747 | an option whose guard holds no comma splits back into that header and that guard |
| SliceCppGen.WriteExtraHeaders | cpp/src/slice2cpp/Gen.cpp:735-760 | the output gains exactly the lines of each extra header option, in order |
| SliceCppGen.WriteExtraHeader | cpp/src/slice2cpp/Gen.cpp:740-758 | the output gains exactly the lines of one option |
| SliceCppGen.WriteHeaderLines | cpp/src/slice2cpp/Gen.cpp:748-758 | the output gains exactly the guarded or unguarded include lines |
| SliceCppGen.WriteGuardOpening | cpp/src/slice2cpp/Gen.cpp:748-752 | the output gains the `#ifndef` and `#define` lines exactly when there is a guard |
| SliceCppGen.HeaderExtGiven | cpp/src/slice2cpp/Gen.cpp:5012-5024 | the extension after `cpp:header-ext:` is the one used; an absent or empty one gives no extension |
| SliceCppGen.BaseName | cpp/src/slice2cpp/Gen.cpp:293-297 | the base name is the longest suffix without `/` or `\`: it holds no separator, it ends the given name, a name without separators is kept whole, and the character before it is a separator |
| SliceCppGen.BaseNameIdempotent | cpp/src/slice2cpp/Gen.cpp:293-297 | stripping the directory twice is stripping it once |
| VsUtil.TrimBy | vsplugin/src/Util.cs:884-887 | trimming leaves no dropped character at either end, keeps a string that has none there, and adds no character |
| VsUtil.Trim | vsplugin/src/Util.cs:132 | the white-space trim leaves no white space at either end, keeps an already trimmed string, and adds no character |
| VsUtil.TrimSkipsLeadingSpace | vsplugin/src/Util.cs:176-179 | a leading space is trimmed away from a string whose ends are not white space |
| VsUtil.Split | vsplugin/src/Util.cs:173 | splitting always gives at least one piece and no piece holds the separator |
| VsUtil.SplitWhole | vsplugin/src/Util.cs:173 | a string without the separator is a single piece |
| VsUtil.SplitAt | vsplugin/src/Util.cs:173 | the pieces around one separator are the pieces of each side, in order |
| VsUtil.Added | vsplugin/src/Util.cs:130-137 | after `Add` the trimmed value is listed; the list is unchanged exactly when that trimmed value was already there, and otherwise it is appended at the end |
| VsUtil.AddedKeepsDistinct | vsplugin/src/Util.cs:130-137 | adding keeps a list free of repeats and of untrimmed entries, and adding the same value twice is adding it once |
| VsUtil.FindIgnoreCase | vsplugin/src/Util.cs:141-144 | the position found is the first entry equal to the value ignoring case; none is found exactly when no entry is |
| VsUtil.ContainsMeaning | vsplugin/src/Util.cs:139-146 | `Contains` holds exactly when the value is not empty and some entry equals it ignoring case |
| VsUtil.RemoveFirst | vsplugin/src/Util.cs:157 | removing a string that is not listed leaves the list as it is |
| VsUtil.RemovedIsFirstMatch | vsplugin/src/Util.cs:148-159 | `Remove` takes out exactly the first entry that equals the value ignoring case, keeping the others in order, and changes nothing when there is none |
| VsUtil.InitJoinedRoundTrip | vsplugin/src/Util.cs:171-205 | reading back the text `ToString(separator)` writes, with the string constructor and the same separator, gives the same list |
| VsUtil.ValuesJoinedRoundTrip | vsplugin/src/Util.cs:122-128 | reading back the text `ToString(' ')` writes, split at spaces, with the `string[]` constructor gives the same list |
| VsUtil.ComponentList.constructor | vsplugin/src/Util.cs:118-120 | a new list is empty |
| VsUtil.ComponentList.FromValues | vsplugin/src/Util.cs:122-128 | the list is each value added in turn |
| VsUtil.ComponentList.FromString | vsplugin/src/Util.cs:161-182 | the list is each non-empty piece of the split text, trimmed and added in turn |
| VsUtil.ComponentList.Add | vsplugin/src/Util.cs:130-137 | the list becomes `Added` of the old list and the value |
| VsUtil.ComponentList.Contains | vsplugin/src/Util.cs:139-146 | the answer is the case-insensitive, never-for-empty membership of `ContainsMeaning` |
| VsUtil.ComponentList.Remove | vsplugin/src/Util.cs:148-159 | the list loses its first case-insensitive match, as `RemovedIsFirstMatch` describes |
| VsUtil.ComponentList.ToString | vsplugin/src/Util.cs:189-205 | the entries joined by the separator, with a space after it unless it is a space |
| VsUtil.Backslashed | vsplugin/src/Util.cs:869 | every `/` becomes `\` and every other character stays where it was |
| VsUtil.WithoutDotBackslash | vsplugin/src/Util.cs:870 | removing `.\` adds no character |
| VsUtil.TrimEnds | vsplugin/src/Util.cs:871-878 | dropping one leading `\` and a trailing `\.` adds no character, and a path not starting with `\` keeps all but its last two characters |
| VsUtil.NormalizePathAsWritten | vsplugin/src/Util.cs:867-880 | the normalised path holds no `/` |
| VsUtil.ParentReferenceBroken | vsplugin/src/Util.cs:870 | as written, `../foo` normalises to `.foo`: the removal of `.\` eats part of the parent reference |
| VsUtil.ParentReferenceKept | vsplugin/src/Util.cs:867-880 | the intended normalisation turns `../foo` into `..\foo` |
| VsUtil.WithoutCurrentDirs | vsplugin/src/Util.cs:870 | removing only whole `.\` components adds no character |
| VsUtil.NormalizePath | vsplugin/src/Util.cs:867-880 | the intended normalised path holds no `/` |
| VsUtil.NormalizePathKeepsParents | vsplugin/src/Util.cs:867-880 | a path that starts with a parent reference still starts with `..` after normalisation |
| VsUtil.NormalizePathSkipsCurrentDir | vsplugin/src/Util.cs:867-880 | a leading `./` is dropped: the rest normalises the same with or without it |
| VsUtil.CommonCount | vsplugin/src/Util.cs:889-897 | the count of shared leading components fits both paths, each counted component matches ignoring case, and the next one does not (or a path has ended) |
| VsUtil.Parts | vsplugin/src/Util.cs:884-887 | a path has at least one component and no component holds a backslash |
| VsUtil.RelativePathComponents | vsplugin/src/Util.cs:882-925 | with no shared leading component the file's path comes back unchanged; otherwise the result, read component by component, climbs one `..` per remaining directory component (or is `.`) and then goes down the file's remaining components |
| VsUtil.CountCommon | vsplugin/src/Util.cs:889-897 | the first loop computes the count of shared leading components |
| VsUtil.ClimbUp | vsplugin/src/Util.cs:904-912 | the second loop yields one `..` per component left in the directory, separated by backslashes |
| VsUtil.GoDown | vsplugin/src/Util.cs:919-923 | the third loop appends each remaining component behind a backslash |
| VsUtil.RelativePath | vsplugin/src/Util.cs:882-925 | the method computes the relative path `RelativePathComponents` describes |
| VsUtil.AddCppLib | vsplugin/src/Util.cs:513-550 | with a linker tool, its dependencies become the text with the component's library added when the component is an Ice component and the library not yet listed; otherwise nothing changes |
| VsUtil.IsKnownComponent | vsplugin/src/Util.cs:564-568 | true exactly when an Ice component name equals the given one ignoring case |
| VsUtil.RemoveCppLib | vsplugin/src/Util.cs:552-589 | with a linker tool and dependencies, the component's library is removed when the component is an Ice component and the library listed; otherwise nothing changes |
| VsUtil.LibNameFacts | vsplugin/src/Util.cs:530-535 | a component's library name is not empty, holds no space and is already trimmed |
| VsUtil.ValuesItemsWellFormed | vsplugin/src/Util.cs:122-137 | a list built from space-free values has no repeats, no untrimmed entry and no space, and is not empty when there were values |
| VsUtil.DependencyItemsWellFormed | vsplugin/src/Util.cs:537-543 | the list read from any dependency string is not empty and well formed |
| VsUtil.AddCppLibIdempotent | vsplugin/src/Util.cs:513-550 | after `addCppLib` of an Ice component its library is listed, and a second `addCppLib` changes nothing |
| VsUtil.AddedDependencies | vsplugin/src/Util.cs:543-548 | adding an unlisted library rewrites the dependencies with the library at the end, and reading the new text gives back that list |
| VsUtil.RemoveCppLibUndoesAdd | vsplugin/src/Util.cs:513-589 | removing a library just added gives back the dependency list as it was read, written out again |
| VsUtil.RemovedAppended | vsplugin/src/Util.cs:148-159 | removing a value just appended to a list that did not contain it gives back the list |
| VsBuilder.FileName | vsplugin/src/Builder.cs:740 | the file name ends the path and holds no separator |
| VsBuilder.ExtensionDot | vsplugin/src/Builder.cs:738 | the position found holds the dot that starts the extension |
| VsBuilder.ChangeIceExtension | vsplugin/src/Builder.cs:738 | a path ending in `.ice` gets that ending replaced by a dot and the new extension |
| VsBuilder.FileNameOfCombine | vsplugin/src/Builder.cs:740 | a non-empty name without separators placed in a directory keeps its name as the file name |
| VsBuilder.DirectoryName | vsplugin/src/Builder.cs:760-761 | the directory name is a prefix of the path |
| VsBuilder.Upper | vsplugin/src/Builder.cs:736 | upper-casing keeps the length |
| VsBuilder.CppGeneratedFileNameMeaning | vsplugin/src/Builder.cs:724-741 | no name without a project directory, a path, or the `.ice` ending; otherwise the generated file is named after the Slice file with the new extension, next to it when its path holds the project directory ignoring case, and in the project directory otherwise |
| VsBuilder.IceFileName | vsplugin/src/Builder.cs:731-740 | the file name of a path ending in `.ice` ends in `.ice` too |
| VsBuilder.CombineIce | vsplugin/src/Builder.cs:740 | renaming a Slice file placed in a directory is placing the renamed file there |
| VsBuilder.CSharpGeneratedFileNameMeaning | vsplugin/src/Builder.cs:743-764 | no name without a project, an item, or the `.ice` ending; otherwise the generated file is named after the item with the new extension |
| VsBuilder.QuoteArg | vsplugin/src/Builder.cs:849-852 | the argument between double quotes, unchanged inside |
| VsBuilder.UndoubledRoundTrip | vsplugin/src/Builder.cs:921 | halving the doubled backslashes gives back the original directory |
| VsBuilder.WithDot | vsplugin/src/Builder.cs:916-920 | a directory is kept or gets one `.` appended |
| VsBuilder.IncludeArgRoundTrip | vsplugin/src/Builder.cs:915-922 | reading an include argument back, unquoting it and undoubling its backslashes, gives the directory, with the `.` added to a single-component one |
| VsBuilder.WithDotSingle | vsplugin/src/Builder.cs:916-920 | a drive root such as `C:\` gets a `.` so the closing quote is not escaped |
| VsBuilder.WithDotDouble | vsplugin/src/Builder.cs:916-920 | a path of two components keeps its trailing backslash unchanged |
| VsBuilder.AddIncludeArgs | vsplugin/src/Builder.cs:909-923 | the loop appends an include argument for each non-empty directory, in order |
| VsBuilder.StaleMeaning | vsplugin/src/Builder.cs:603-653 | a rebuild is needed exactly when forced, a generated file is missing or not in the project, the Slice file is newer than a generated file, or a listed dependency that exists is newer than a generated file; the decision fails only when none of the first checks fired and the project has no dependency table |
| VsBuilder.StaleMonotone | vsplugin/src/Builder.cs:603-625 | forcing never turns a rebuild into none, and a Slice file newer than the header always means a rebuild |
| VsBuilder.BackslashedKeepsName | vsplugin/src/Builder.cs:1088 | turning slashes into backslashes keeps the file name and the `.ice` ending |
| VsBuilder.SameShapeFileName | vsplugin/src/Builder.cs:1086 | two paths that agree on where the separators are and on every other character have the same file name |
| VsBuilder.DependenciesWellFormed | vsplugin/src/Builder.cs:1076-1092 | every dependency kept is trimmed, ends in `.ice`, holds no `/` and names another Slice file than the one compiled |
| VsBuilder.DependencyLineKept | vsplugin/src/Builder.cs:1078-1090 | a clean line is kept unchanged exactly when it ends in `.ice` and names another Slice file |
| VsBuilder.ParseDependencies | vsplugin/src/Builder.cs:1076-1092 | the line loop collects exactly the dependencies of the compiler's output lines, in order |
| VsBuilder.CleanedOnlyThatFile | vsplugin/src/Builder.cs:960-982 | cleaning removes only the file's entry under its project: no project appears or disappears, other projects keep their tables, and the project keeps its other files |
| VsBuilder.Builder.CleanDependencies | vsplugin/src/Builder.cs:960-982 | the table becomes the cleaned table |
| VsBuilder.Builder.RecordDependencies | vsplugin/src/Builder.cs:1066-1094 | the project gets a table if it has none, the file's entry becomes the dependencies read from the output, and nothing else changes |
| VsBuilder.Builder.NeedsRebuild | vsplugin/src/Builder.cs:600-653 | the decision is the one `StaleMeaning` describes, over the builder's own dependency table |
| VsFileTracker.TrackedMeaning | vsplugin/src/FileTracker.cs:31-47 | tracking records the generated file under its project and Slice file, keeps the earlier list as a prefix and adds at most one entry, leaves every other project and Slice file alone, is idempotent, and keeps lists free of repeats |
| VsFileTracker.FileTracker.constructor | vsplugin/src/FileTracker.cs:21-24 | a new tracker records nothing and is not reaping |
| VsFileTracker.FileTracker.Clear | vsplugin/src/FileTracker.cs:26-29 | all tracking is dropped |
| VsFileTracker.FileTracker.TrackFile | vsplugin/src/FileTracker.cs:31-47 | the table becomes `Tracked` of the old table |
| VsFileTracker.FileTracker.Reap | vsplugin/src/FileTracker.cs:49-137 | a reap already running changes nothing and deletes nothing; otherwise the table becomes the reaped table and the files deleted are those `ReapedMeaning` describes; the reaping flag is restored |
| VsFileTracker.CollectGone | vsplugin/src/FileTracker.cs:74-116 | the first loop collects the Slice files no longer in the project and the generated files of those that the project still holds |
| VsFileTracker.WithoutSlices | vsplugin/src/FileTracker.cs:118-125 | the second loop removes the entries of the removed Slice files, except an empty name |
| VsFileTracker.ReapedMeaning | vsplugin/src/FileTracker.cs:62-125 | after a reap no project appears or disappears, other projects are untouched, every Slice file left in the project's entry is still in the project (or has an empty name) and keeps its generated files, and every file deleted is still in the project and was generated from a Slice file that left |

## Left out

- Socket and transport I/O: the transceiver is an oracle. `Config.writeFails` says whether each write fails, and the validation header read is a parameter. The connect and accept loops are not modelled.
- Concurrency: each synchronized section is one atomic step. `wait`/`notifyAll`, `waitUntilHolding`, `waitUntilFinished`, `waitForShutdown` and the thread pool's promotion and registration are not modelled. A wait is modelled as the state it waits for.
- The connection's `Incoming` free list is not modelled, because it only saves allocations.
- Clocks: the ACM monitor and the retry sleep take the current time or the sleep as values; nothing sleeps.
- Floating point: IcePy floats and doubles are opaque handles that travel unchanged.
- IcePy struct, class, proxy and exception marshalling, `ObjectWriter` and the slices of user classes are not modelled. Only the size check on the `Ice::Object` slice in `ObjectReader::read` is.
- IcePyTypes.ParseLong: the text form of a long is taken to be an optional minus sign and decimal digits. `IceUtil::stringToInt64`, which reads it, is not part of this model, so white space, a plus sign or other bases it may accept are not modelled.
- IcePyTypes.SetItem: a Python 2 dictionary's iteration order is modelled as insertion order. Float keys, which Slice does not allow, are compared by handle rather than by value.
- IcePyTypes.RoundTrip: dictionaries whose keys are sequences or dictionaries are excluded, because they never read back (see `ListKeyRefused`).
- IcePyTypes.Marshaled: a sequence of primitive elements is written as one opaque write. `PrimitiveInfo::marshalSequence` and `unmarshalSequence` are not modelled, so the round trip covers only sequences of non-primitive elements.
- IcePy class and exception descriptions are opaque handles in the type tables. Creating their Python type objects is not modelled.
- `Ice.loadSlice`: splitting the command (`Slice::Python::splitString`) and everything from line 92 of py/modules/IcePy/Slice.cpp onward (preprocessing, parsing, generating and running the code) are not modelled. The command's pieces are the input.
- slice2cpp: the visitors that walk the Slice syntax tree are not modelled.
- slice2cpp: `fixKwd` and `findMetaData` are parameters.
- slice2cpp: the value 16 of `TypeContextUseWstring` comes from CPlusPlusUtil.h, which is not part of this model.
- The remote-invocation wrappers of the C++ proxy (`ice_isA`, `ice_ping`, `ice_invoke` and the like) are not modelled, because they only drive an outgoing request.
- `ReferenceFactory::createFromProperties` (cppe/src/IceE/ReferenceFactory.cpp:596-625) is not modelled, because it only reads communicator properties.
- The run-time services the proxy parser and printer call are parameters: `stringToIdentity`, `identityToString`, `escapeString`, `unescapeString` and the endpoint factories.
- Hashing an identity follows the hash the Slice compiler generates for `Identity`, which is not part of this model.
- IceReference.EndpointLess: endpoints are compared field by field, as a stand-in for the endpoint classes' own `operator<`.
- IceReference.FilterEndpoints: the random shuffle is left out. The result is stated only as a permutation of the known endpoints.
- IceReference.FixedConnection: which connection the shuffle puts first is a `choice` parameter.
- IceTcpEndpoint: name resolution when two endpoints compare different hosts is a resolver parameter.
- IceTcpEndpoint.ParseInt: `Integer.parseInt` is modelled as a current JVM runs it (Java 9 and later): the decimal digits are those of the Basic Multilingual Plane as of Unicode 7.0, and a leading `+` is taken. A JVM of Java 6 or earlier knows fewer digit scripts and refuses `+`.
- Warnings and trace output are not modelled. This covers the unknown-endpoint warning, the retry tracing in the proxy factory and the evictor's trace levels.
- Freeze evictor: Berkeley DB is a `stored` parameter giving the servant the database holds. The following are not modelled: the saving thread (`run`), `saveNow`, streaming, save statistics, `getIterator`, `hasObject`, `hasFacet` and `initialize`.
- Freeze evictor: `getSize` is a field read, and `destroyObject` is `remove` with `NotRegisteredException` ignored. Neither is modelled separately.
- Freeze evictor: `add`, `remove`, `keep` and `release` are the facet operations applied to the empty facet.
- FreezeEvictor.Evictor.Locate: when the servant is missing, the search of the other facets' stores that turns the answer into `FacetNotExistException` (java/src/Freeze/EvictorI.java:896-953) is not modelled; the lookup simply misses.
- FreezeEvictor.Evictor.Deactivate: the final `saveNowNoSync` (java/src/Freeze/EvictorI.java:1093) that flushes modified servants to the database is not modelled, because the database is a parameter.
- IceConnection.ConnectionI.InitiateShutdown: a failure of `_transceiver.shutdown()` (java/src/Ice/ConnectionI.java:1653) is not modelled; only a failure of the close-connection write is.
- FreezeEvictor.Evictor: `_currentEvictorSize` is not a field, because it always equals the length of the evictor list.
- IceObjectAdapterFactories.CSharpObjectAdapterFactory.CallEach: the enumeration order of the C# `Hashtable` is left open. Each adapter is called once, in some order.
- Object adapters are not modelled. A factory's calls on them are recorded, and `isLocal` is a parameter.
- Router and locator remote calls are answers passed in.
- .NET culture-sensitive comparison: `EndsWith(string)` and `IndexOf(string)` called without a `StringComparison` compare by the current culture. That comparison ignores characters such as the soft hyphen U+00AD and joins a combining mark to the character before it. The model compares these ordinally, code point by code point, because the culture's collation tables are not part of this model. So `"a.ice\u00AD".EndsWith(".ice")` holds in the plugin but not in the model. Each member this affects is named on the lines below.
- VsUtil.TrimEnds: the tests `IndexOf("\\") == 0` and `EndsWith("\\.")` at vsplugin/src/Util.cs:871-875 are modelled ordinally, not by culture.
- VsUtil.NormalizePathAsWritten: built on the ordinal `TrimEnds`, so a path whose ends pass only the culture tests is not trimmed in the model.
- VsUtil.NormalizePath: built on the same ordinal `TrimEnds`.
- VsBuilder.CppGeneratedFileNameMeaning: the `.ice` test at vsplugin/src/Builder.cs:731 is modelled ordinally, so a name that ends in `.ice` only by culture gets no generated file name in the model.
- VsBuilder.CSharpGeneratedFileNameMeaning: the `.ice` test at vsplugin/src/Builder.cs:755 is modelled ordinally, in the same way.
- VsBuilder.WithDot: the test `EndsWith("\\")` at vsplugin/src/Builder.cs:916 is modelled ordinally.
- VsBuilder.DependenciesWellFormed: "ends in `.ice`" is the ordinal ending. The plugin also keeps a line that ends in `.ice` only by culture.
- VsBuilder.DependencyLineKept: the tests `EndsWith(" \\")` and `EndsWith(".ice")` at vsplugin/src/Builder.cs:1080-1085 are modelled ordinally.
- VsBuilder.ParseDependencies: keeps the lines that end in `.ice` ordinally. A line that ends so only by culture is dropped by the model but kept by the plugin.
- VsUtil: case-insensitive comparison folds ASCII letters only. `Trim()` removes a fixed set of white-space characters, not the full .NET set.
- VsBuilder.Upper: folds ASCII letters only, while .NET `ToUpper` also folds letters outside ASCII.
- VsUtil and VsBuilder: a null string is modelled as `""` wherever the source tests null and empty alike.
- VsBuilder.DirectoryName: only the part before the last separator is modelled. Root and UNC path rules are not.
- VsBuilder: `getPathRelativeToProject` is a parameter, and the unused `relativeName` of `buildCppProjectItem` is not computed.
- Visual Studio automation (DTE, project items, the error list) and spawning the Slice compiler are not modelled. The compiler's output lines and the project's file set are the input.
- VsFileTracker.FileTracker.Reap: deleting project items and files is returned as the set of files to delete. The order of deletion and I/O errors, which the source ignores, are not modelled.

## Findings

| source | as written | input that shows it | evidently intended | confidence | as-written member | corrected member |
|---|---|---|---|---|---|---|
| java/src/Ice/ConnectionI.java:112-113 | a negative Java byte is reported as `b + 255` | the version bytes 0x80 and 0x7f are both reported as 127, and 0xff as 254 | `b + 256`, the unsigned byte | not executed | IceConnection.ReportedVersionAsWritten, IceConnection.ReportedVersionAsWrittenCollides | IceConnection.ReportedVersion, IceConnection.ReportedVersionIsWireByte |
| cppe/src/IceE/Reference.cpp:210-230 | the facet is quoted only when it holds a space, `:` or `@` | the facet `-x` is printed as ` -f -x`, and the parser refuses it | quote a facet that starts with `-` too, so the string reads back | not executed | IceReference.ToStringAsWritten, IceProxyString.DashFacetAsWrittenRefused | IceReference.ToString, IceProxyString.RoundTrip |
| cppe/src/IceE/Reference.cpp:977-987 | an adapter id whose escaped form has no space is printed raw, unescaped | an adapter id holding a backslash is printed raw; the parser unescapes it and reads a different id | print the escaped form | not executed | IceReference.ToStringAsWritten, IceProxyString.RawAdapterAsWrittenMisread | IceReference.ToString, IceProxyString.RoundTrip |
| py/modules/IcePy/Types.cpp:282-303 | `PyLong_AsLong` returns -1 on overflow, and the error result is not checked | the Python long 2^64 passes validation for `int` and is marshalled as -1 | refuse a long beyond the C `long` range | not executed | IcePyTypes.ValidatePrimitiveAsWritten, IcePyTypes.OverflowingLongValidates | IcePyTypes.ValidatePrimitive, IcePyTypes.ValidatePrimitiveRange |
| py/modules/IcePy/Types.cpp:1078-1084 | the enumerator's value is cast to `int` before the range check | the value 2^32+1 on a two-enumerator enum passes and is written as 1 | check the range on the value itself | not executed | IcePyTypes.EnumMarshalAsWritten, IcePyTypes.TruncatedEnumValueAccepted | IcePyTypes.EnumMarshal, IcePyTypes.EnumRoundTrip |
| vsplugin/src/Util.cs:867-880 | `Replace(".\\", "")` also removes the `.\` inside a parent reference `..\` | `../foo` normalises to `.foo` | remove only whole `.\` components | not executed | VsUtil.NormalizePathAsWritten, VsUtil.ParentReferenceBroken | VsUtil.NormalizePath, VsUtil.NormalizePathKeepsParents |
