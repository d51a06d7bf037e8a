# SharpBrake notice building and response decoding, in Dafny

SharpBrake reports .NET exceptions to the Airbrake service. This project models
the core of that library:

- **turning an exception into a notice.** ExceptionInformation summarises the
  exception: its message, its class, its trace lines, and the method and file
  where it was caught. The core AirbrakeNoticeBuilder assembles the notice
  from that summary, the configuration and the notifier description. The web
  builder specialises the builder's overridable steps to read the HTTP
  request, the session and the machine environment.
- **filtering name/value collections into notice vars.** ToAirbrakeVars and the
  BuildVars overloads drop every entry whose key or value is null or empty and
  keep the rest in order.
- **decoding Airbrake's XML reply.** AirbrakeResponse covers the `<errors>` and
  `<notice>` documents, the XmlReader operations the decoder uses and the
  integer conversion of `ReadElementContentAsInt`.
- **the configuration record** and its default server URI.

Modules follow the source files:

- `Common`: Option, Result, faults, string null-or-empty.
- `Reflection`: types, methods, stack frames, assemblies, exceptions.
- `Serialization`: the notice and response records.
- `Extensions`: ToAirbrakeVars, TryGet.
- `AirbrakeConfiguration`.
- `ExceptionInformation`.
- `AirbrakeNoticeBuilder`: the core builder.
- `WebNoticeBuilder`.
- `XmlReader`: the node stream and the reader operations.
- `XmlConvert`: 32-bit integer conversion.
- `AirbrakeResponse`.
- `ResponseExamples`: concrete replies.

Modelling choices:

- A `null` reference is `None`. A thrown `ArgumentNullException` or
  `XmlException` is a `Failure` carrying the fault.
- The builder's virtual methods (Url, Session, Params, CgiData) are
  function-valued fields of the builder value. The web builder replaces them.
- A collection (NameValueCollection, HttpCookieCollection, HttpSessionState) is
  a sequence of its keys in order, each paired with what the indexer returns
  for that key.
- The XML text is given as the node stream the reader would produce. A
  `Malformed` node marks where XmlReader throws.

The decoder's read loops call `Read()` right after `ReadElementContentAs*`. That
read skips the node the content read had already moved to. This is modelled
as written (`ScanAsWritten`, used by `Deserialize` and by the `AirbrakeResponse`
constructor), next to the loop as intended (`ScanFrom`). The two are proved
equal on every stream where no start tag directly follows an end tag or an
empty element, as in a document indented with white space between elements. See "## Findings" for
inputs where they differ.

## Model

| member | source | states |
|---|---|---|
| `Extensions.SelectVars` | src/app/SharpBrakeCore/Extensions.cs:14-21 | the filtered vars never outnumber the entries, and every emitted key and value is non-empty |
| `Extensions.SelectVarsAppend` | src/app/SharpBrakeCore/Extensions.cs:14-21 | filtering a concatenation gives the filtered parts, concatenated in order |
| `Extensions.SelectVarsSelects` | src/app/SharpBrakeCore/Extensions.cs:14-21 | the output is exactly the kept entries, at strictly increasing positions, with no kept entry missed, so order is preserved |
| `Extensions.SelectVarsMembership` | src/app/SharpBrakeCore/Extensions.cs:14-21 | a var is in the output if and only if some entry with a non-empty key and value produces it |
| `Extensions.ToAirbrakeVars` | src/app/SharpBrakeCore/Extensions.cs:14-21 | the result is the key-ordered filter `SelectVars` over the raw values, so order and multiplicity follow `SelectVarsSelects`; a var (k, v) is produced if and only if k and v are non-empty and the collection maps k to v |
| `Extensions.SelectVarsKeepsCleanVars` | src/app/SharpBrakeCore/Extensions.cs:14-21 | a collection whose entries all have non-empty keys and values passes through unchanged |
| `Extensions.SelectVarsIdempotent` | src/app/SharpBrakeCore/Extensions.cs:14-21 | filtering the vars a filter produced changes nothing |
| `Extensions.TryGet` | src/app/SharpBrakeCore/Extensions.cs:35-45 | a getter that returns gives its value; a getter that throws gives the type's default |
| `AirbrakeConfiguration.DefaultConfiguration` | src/app/SharpBrakeCore/AirbrakeConfiguration.cs:7-13 | a new configuration points at the default Airbrake endpoint, has the current directory as its project root, and has no API key, environment name or application version |
| `ExceptionInformation.ExceptionMessage` | src/app/SharpBrakeCore/ExceptionInformation.cs:16-17 | the message is the type's short name, then ": ", then the exception's message, with the length of the three parts |
| `ExceptionInformation.EntryPoint` | src/app/SharpBrakeCore/ExceptionInformation.cs:68-81 | the entry point is missing exactly when the executing, calling and entry assemblies all lack one |
| `ExceptionInformation.EntryPointIsFirstPresent` | src/app/SharpBrakeCore/ExceptionInformation.cs:68-81 | the entry point is the first one present, in the order executing, calling, entry assembly |
| `ExceptionInformation.TraceLineForFrame` | src/app/SharpBrakeCore/ExceptionInformation.cs:53-66 | a trace line carries the method's name; the file line, or the IL offset when the file line is 0; and the file name, or the reflected type's full name when it is null or empty, or "(unknown)" when there is no reflected type |
| `ExceptionInformation.TraceLineNumberZeroOnlyIfUnknown` | src/app/SharpBrakeCore/ExceptionInformation.cs:57-59 | a trace line's number is 0 if and only if both the file line and the IL offset are 0 |
| `ExceptionInformation.Describe` | src/app/SharpBrakeCore/ExceptionInformation.cs:12-51 | without frames: the entry point is the catching method, the catching file is its declaring type's full name or empty, and the trace is the single empty line. With frames: the top frame's method is the catching method, the catching file is its declaring type's full name or else the frame's file, and there is one trace line per frame in order. |
| `ExceptionInformation.TraceStartsAtCatchingMethod` | src/app/SharpBrakeCore/ExceptionInformation.cs:30-51 | the trace is never empty, and with frames its first line names the catching method |
| `AirbrakeNoticeBuilder.NewBuilder` | src/app/SharpBrakeCore/AirbrakeNoticeBuilder.cs:22-36 | a null configuration is rejected with ArgumentNull("configuration"); otherwise the builder keeps the configuration, identifies itself as SharpBrakeCore, and takes its server environment from the configuration |
| `AirbrakeNoticeBuilder.ErrorOf` | src/app/SharpBrakeCore/AirbrakeNoticeBuilder.cs:57-67 | the error reports the exception class's full name, the summary's message, the catching method and the whole trace |
| `AirbrakeNoticeBuilder.RequestOf` | src/app/SharpBrakeCore/AirbrakeNoticeBuilder.cs:96-105 | the request's component is the catching file and its action the catching method's name; url, cgi-data, params and session come from the builder's overridable steps |
| `AirbrakeNoticeBuilder.NoticeOf` | src/app/SharpBrakeCore/AirbrakeNoticeBuilder.cs:77-94 | a null exception is rejected with ArgumentNull("exception"); otherwise the notice carries the builder's notifier and server environment, the configured API key, the error and the request |
| `AirbrakeNoticeBuilder.CoreNotice` | src/app/SharpBrakeCore/AirbrakeNoticeBuilder.cs:107-125 | with the default steps, a notice's request url is the catching file and its cgi-data, params and session are empty; the backtrace is never empty, starts at the top frame's method, and has a positive line number when the top frame has a positive file line, or a file line of 0 and a positive IL offset |
| `AirbrakeNoticeBuilder.BuildVars` | src/app/SharpBrakeCore/AirbrakeNoticeBuilder.cs:127-136 | a null or empty collection yields no vars; any other yields the filtered vars of ToAirbrakeVars |
| `AirbrakeNoticeBuilder.BuildVarsDropsEmptyEntries` | src/app/SharpBrakeCore/AirbrakeNoticeBuilder.cs:127-136 | in a collection with an empty value, an empty key and a full entry, only the full entry survives |
| `WebNoticeBuilder.NewWebBuilder` | src/app/SharpBrakeWeb/AirbrakeNoticeBuilder.cs:13-21 | the web builder still rejects a null configuration, and identifies itself as SharpBrakeWeb with the core builder's URL and server environment |
| `WebNoticeBuilder.BrowserData` | src/app/SharpBrakeWeb/AirbrakeNoticeBuilder.cs:52-71 | no browser gives no vars; otherwise there are exactly ten vars, the i-th pairing the i-th browser key with the i-th property, unfiltered |
| `WebNoticeBuilder.EnvironmentData` | src/app/SharpBrakeWeb/AirbrakeNoticeBuilder.cs:91-100 | exactly three vars carry the machine name, OS version and runtime version under their fixed keys |
| `WebNoticeBuilder.CookieVars` | src/app/SharpBrakeWeb/AirbrakeNoticeBuilder.cs:102-116 | a null or empty cookie collection gives no vars; otherwise the result is the key-ordered filter `SelectVars` over the cookies' values, and (k, v) is produced if and only if k and v are non-empty and k maps to a cookie whose value is v |
| `WebNoticeBuilder.SessionVars` | src/app/SharpBrakeWeb/AirbrakeNoticeBuilder.cs:118-132 | a null or empty session gives no vars; otherwise the result is the key-ordered filter `SelectVars` over the items' texts, and (k, v) is produced if and only if k and v are non-empty and k maps to an item whose text is v |
| `WebNoticeBuilder.CgiData` | src/app/SharpBrakeWeb/AirbrakeNoticeBuilder.cs:43-50 | cgi-data is the environment block, then headers, then cookies, then browser, each block whole and in that order |
| `WebNoticeBuilder.WebNotice` | src/app/SharpBrakeWeb/AirbrakeNoticeBuilder.cs:33-89 | a web notice's url is the HTTP request's URL; its params and session hold only non-empty pairs; its cgi-data is exactly the web CgiData of the machine environment and request (environment, headers, cookies, browser), opening with the three environment vars; component and action still come from the catching method |
| `XmlConvert.ParseInt32` | src/app/SharpBrakeCore/AirbrakeResponse.cs:208-214 | a converted integer always lies in the 32-bit signed range |
| `XmlConvert.ParseFormatRoundTrip` | src/app/SharpBrakeCore/AirbrakeResponse.cs:208-214 | every integer's decimal rendering converts back to that integer when it fits in 32 bits, and fails when it does not |
| `XmlReader.MoveToContent` | src/app/SharpBrakeCore/AirbrakeResponse.cs:149-151 | on success the reader stands on a well-formed content node and every node before it is white space or another skippable node; it fails only when no content node exists or an ill-formed node comes before the first one |
| `XmlReader.SkipFailsOnlyOnMalformed` | src/app/SharpBrakeCore/AirbrakeResponse.cs:149-151 | skipping from any position fails only when every later content node is preceded by an ill-formed node, or there is none |
| `XmlReader.ReadElementContent` | src/app/SharpBrakeCore/AirbrakeResponse.cs:182 | reading an element's content returns the text of the nodes up to the first end tag, finds no child element, and leaves the reader just past that end tag, or just past the element itself when it is empty |
| `AirbrakeResponse.ScanAsWritten` | src/app/SharpBrakeCore/AirbrakeResponse.cs:176-185 | the loop as written yields only fields with wanted names |
| `AirbrakeResponse.ScanAsWrittenReadsWanted` | src/app/SharpBrakeCore/AirbrakeResponse.cs:176-185 | every field the loop as written yields is the content of a wanted element after the start position, at strictly increasing positions |
| `AirbrakeResponse.ScanFromReadsEveryWanted` | src/app/SharpBrakeCore/AirbrakeResponse.cs:176-185 | the intended loop, when it succeeds, yields one field per wanted element in document order, with that element's content |
| `AirbrakeResponse.AsWrittenMatchesIntendedWhenSeparated` | src/app/SharpBrakeCore/AirbrakeResponse.cs:176-185 | when no start tag directly follows an end tag or empty element, the loop as written equals the intended loop started one node later |
| `AirbrakeResponse.BuildErrorsIntended` | src/app/SharpBrakeCore/AirbrakeResponse.cs:174-186 | one error per `error` element after the root, in document order, each carrying that element's content |
| `AirbrakeResponse.AssignAllLastWins` | src/app/SharpBrakeCore/AirbrakeResponse.cs:197-229 | the assignments succeed if and only if every id and error-id converts; then the last occurrence of each field wins and an absent field keeps 0, 0 or null |
| `AirbrakeResponse.BuildNotice` | src/app/SharpBrakeCore/AirbrakeResponse.cs:195-230 | the notice's id, error id and url are the last converted values the loop as written reads, or 0, 0, null; it fails if and only if the scan fails or some id or error-id read does not convert |
| `AirbrakeResponse.BuildNoticeIntended` | src/app/SharpBrakeCore/AirbrakeResponse.cs:195-230 | the same, over every element after the root |
| `AirbrakeResponse.Deserialize` | src/app/SharpBrakeCore/AirbrakeResponse.cs:145-165 | a notice appears if and only if the root is `notice`, and it is the notice BuildNotice builds; errors appear only under an `errors` root, one per `error` element read; decoding fails if and only if there is no root, or the errors scan or BuildNotice fails under the matching root |
| `AirbrakeResponse.DeserializeMatchesIntendedWhenSeparated` | src/app/SharpBrakeCore/AirbrakeResponse.cs:145-165 | on streams with separated siblings, decoding as written and as intended agree |
| `AirbrakeResponse.NewResponse` | src/app/SharpBrakeCore/AirbrakeResponse.cs:32-60 | the content is kept as given. Without a web response the metadata take their defaults; with one, each of the six metadata is its getter's value, or the default when that getter throws. A failed decoding is swallowed and leaves no errors and no notice. Errors and a notice never both appear. |
| `ResponseExamples.InvalidKeyReplyDecodes` | src/app/SharpBrakeCore/AirbrakeResponse.cs:174-186 | the one-error reply decodes to exactly that error and no notice |
| `ResponseExamples.AdjacentErrorsAsWritten` | src/app/SharpBrakeCore/AirbrakeResponse.cs:176-185 | as written, two adjacent `error` elements decode to the first error only |
| `ResponseExamples.AdjacentErrorsIntended` | src/app/SharpBrakeCore/AirbrakeResponse.cs:176-185 | as intended, the same reply decodes to both errors in order |
| `ResponseExamples.UnindentedNoticeAsWritten` | src/app/SharpBrakeCore/AirbrakeResponse.cs:201-222 | as written, an unindented notice with id 7 and error-id 42 decodes with error id 0 |
| `ResponseExamples.UnindentedNoticeIntended` | src/app/SharpBrakeCore/AirbrakeResponse.cs:201-222 | as intended, the same notice decodes to id 7, error id 42 and its url |

## Left out

- AirbrakeClient (sending over HTTP, the asynchronous callbacks), the XML serialization of the notice, the notice's API version marker, loading configuration from application settings, and all logging. These are I/O or formatting, not decisions the core makes.
- Tokenising XML text into nodes is not modelled. The decoder starts from the node stream, with `Malformed` standing for every way XmlReader throws. That includes a document type declaration, which a reader created with default settings refuses. Namespaces are ignored, and an element's local name is its name.
- The notifier's version, read from the assembly by reflection, is a parameter. The machine environment and the current HTTP context are plain values fixed when the web builder is made, not read from process-wide state at each call.
- The stack trace is given as its frames, and the executing, calling and entry assemblies as values. Walking the real call stack is not modelled.
- The AirbrakeServerEnvironment, AirbrakeRequest and AirbrakeVar classes are not part of this model. The server environment is taken to copy the project root, environment name and application version from the configuration. The request's URL is taken to be the one the Url step sets.
- Browser properties and environment values are text that is already rendered. Browser.Cookies and similar are reported through ToString.
- WebResponse header collections are modelled as name/value collections. ContentLength is an unbounded integer, not a 64-bit one.
- The web hooks assume a current HTTP context. When `HttpContext.Current` is null, the source's Url step throws NullReferenceException; the model has no null context to pass and does not model that throw.
- ExceptionInformation.Describe: requires that the exception has frames or that some assembly has an entry point. Without both, the source dereferences a null catching method and throws NullReferenceException; that throw is not modelled.
- AirbrakeNoticeBuilder.NoticeOf: carries the same requirement for a non-null exception, for the same reason.
- XmlConvert.ParseInt32: does not accept the trailing NUL characters that Int32.Parse tolerates; otherwise it follows the white space, sign and range rules of XmlConvert.ToInt32.

## Findings

| source | as written | input that shows it | evidently intended | confidence | as-written member | corrected member |
|---|---|---|---|---|---|---|
| src/app/SharpBrakeCore/AirbrakeResponse.cs:176-185 | after `ReadElementContentAsString` leaves the reader on the next node, `Read()` moves past it unexamined | `<errors><error>a</error><error>b</error></errors>`: only "a" is reported | every `error` element is reported | high, not executed | `ResponseExamples.AdjacentErrorsAsWritten` | `AirbrakeResponse.BuildErrorsIntended` (instance: `ResponseExamples.AdjacentErrorsIntended`) |
| src/app/SharpBrakeCore/AirbrakeResponse.cs:201-222 | the same skip after `ReadElementContentAsInt` for `id` | `<notice><id>7</id><error-id>42</error-id><url>http://x/notices/7</url></notice>`: error id is 0 | id 7, error id 42 and the url are all read | high, not executed | `ResponseExamples.UnindentedNoticeAsWritten` | `AirbrakeResponse.BuildNoticeIntended` (instance: `ResponseExamples.UnindentedNoticeIntended`) |

The decoder used by `AirbrakeResponse.NewResponse` is the one as written. On
replies with white space between sibling elements it agrees with the intended
decoder (`AirbrakeResponse.DeserializeMatchesIntendedWhenSeparated`). Whether
the service's replies have that form cannot be told from the library's code.
