/**
 The decoded reply of the notice endpoint (SharpBrakeCore/AirbrakeResponse.cs):
 the raw content, the response metadata read through TryGet, and either the
 validation errors or the accepted notice's identifiers, depending on the
 root element of the reply.
 */
module AirbrakeResponse {
  import opened Common
  import opened Serialization
  import opened Extensions
  import opened XmlReader
  import opened XmlConvert

  /** One element the decoder read: its local name and its text content. */
  datatype Field = Field(name: string, text: string)

  /**
   The read loop as written: each iteration calls Read(), which moves one node
   on; a wanted element's content is read, which leaves the reader on the node
   after the element's end tag, and the next Read() steps past that node
   unexamined. pos is where the reader sits.
   */
  function ScanAsWritten(nodes: seq<Node>, pos: nat, wanted: set<string>): (r: Result<seq<Field>>)
    requires pos <= |nodes|
    ensures r.Success? ==> forall k :: 0 <= k < |r.value| ==> r.value[k].name in wanted
    decreases |nodes| - pos
  {
    var next := pos + 1;
    if next >= |nodes| then Success([])
    else
      match nodes[next]
      case Malformed => Failure(XmlError)
      case Element(name, _) =>
        if name in wanted then
          match ReadElementContent(nodes, next)
          case Failure(f) => Failure(f)
          case Success((text, after)) =>
            (match ScanAsWritten(nodes, after, wanted)
             case Failure(f) => Failure(f)
             case Success(rest) => Success([Field(name, text)] + rest))
        else ScanAsWritten(nodes, next, wanted)
      case _ => ScanAsWritten(nodes, next, wanted)
  }

  /**
   Everything the loop as written yields is real: each field is the content of
   a wanted element after pos, and the fields follow document order.
   */
  lemma ScanAsWrittenReadsWanted(nodes: seq<Node>, pos: nat, wanted: set<string>) returns (ps: seq<nat>)
    requires pos <= |nodes|
    requires ScanAsWritten(nodes, pos, wanted).Success?
    ensures
      var fs := ScanAsWritten(nodes, pos, wanted).value;
      && |ps| == |fs|
      && (forall k, l :: 0 <= k < l < |ps| ==> ps[k] < ps[l])
      && forall k :: 0 <= k < |ps| ==>
           && pos < ps[k] < |nodes|
           && nodes[ps[k]].Element? && nodes[ps[k]].name in wanted
           && ReadElementContent(nodes, ps[k]).Success?
           && fs[k] == Field(nodes[ps[k]].name, ReadElementContent(nodes, ps[k]).value.0)
  {
    ps := AsWrittenPositions(nodes, pos, wanted);
  }

  /** Positions in strictly increasing order. */
  predicate Increasing(ps: seq<nat>)
  {
    forall k, l :: 0 <= k < l < |ps| ==> ps[k] < ps[l]
  }

  /** Positions all after pos. */
  predicate Above(ps: seq<nat>, pos: nat)
  {
    forall k :: 0 <= k < |ps| ==> pos < ps[k]
  }

  lemma PositionsCons(pos: nat, next: nat, ps: seq<nat>)
    requires pos < next && Increasing(ps) && Above(ps, next)
    ensures Increasing([next] + ps) && Above([next] + ps, pos)
  {
    var ps' := [next] + ps;
    assert forall k :: 1 <= k < |ps'| ==> ps'[k] == ps[k - 1];
  }

  /** The fields are the contents of the elements at increasing positions after pos. */
  predicate ReadsAfter(nodes: seq<Node>, pos: nat, fs: seq<Field>, ps: seq<nat>)
  {
    FieldsAt(nodes, fs, ps) && Increasing(ps) && Above(ps, pos)
  }

  lemma {:induction false} AsWrittenPositions(nodes: seq<Node>, pos: nat, wanted: set<string>) returns (ps: seq<nat>)
    requires pos <= |nodes|
    requires ScanAsWritten(nodes, pos, wanted).Success?
    ensures ReadsAfter(nodes, pos, ScanAsWritten(nodes, pos, wanted).value, ps)
    decreases |nodes| - pos
  {
    var next := pos + 1;
    if next >= |nodes| {
      ps := [];
    } else if nodes[next].Element? && nodes[next].name in wanted {
      var (text, after) := ReadElementContent(nodes, next).value;
      var rest := AsWrittenPositions(nodes, after, wanted);
      var later := ScanAsWritten(nodes, after, wanted).value;
      assert ScanAsWritten(nodes, pos, wanted).value == [Field(nodes[next].name, text)] + later;
      FieldsAtCons(nodes, next, text, later, rest);
      PositionsCons(pos, next, rest);
      ps := [next] + rest;
    } else {
      ps := AsWrittenPositions(nodes, next, wanted);
    }
  }

  /**
   The read loop as intended: every node from position i on is examined, the
   one a content read leaves the reader on included.
   */
  function ScanFrom(nodes: seq<Node>, i: nat, wanted: set<string>): (r: Result<seq<Field>>)
    requires i <= |nodes|
    ensures r.Success? ==> forall k :: 0 <= k < |r.value| ==> r.value[k].name in wanted
    decreases |nodes| - i
  {
    if i == |nodes| then Success([])
    else
      match nodes[i]
      case Malformed => Failure(XmlError)
      case Element(name, _) =>
        if name in wanted then
          match ReadElementContent(nodes, i)
          case Failure(f) => Failure(f)
          case Success((text, after)) =>
            (match ScanFrom(nodes, after, wanted)
             case Failure(f) => Failure(f)
             case Success(rest) => Success([Field(name, text)] + rest))
        else ScanFrom(nodes, i + 1, wanted)
      case _ => ScanFrom(nodes, i + 1, wanted)
  }

  /** The positions, from i on and in document order, of the elements whose name is wanted. */
  function WantedPositions(nodes: seq<Node>, i: nat, wanted: set<string>): (ps: seq<nat>)
    requires i <= |nodes|
    ensures forall k :: 0 <= k < |ps| ==> i <= ps[k] < |nodes| && nodes[ps[k]].Element? && nodes[ps[k]].name in wanted
    ensures forall k, l :: 0 <= k < l < |ps| ==> ps[k] < ps[l]
    decreases |nodes| - i
  {
    if i == |nodes| then []
    else if nodes[i].Element? && nodes[i].name in wanted then [i] + WantedPositions(nodes, i + 1, wanted)
    else WantedPositions(nodes, i + 1, wanted)
  }

  /** A stretch without elements holds no wanted position. */
  lemma {:induction false} WantedPositionsSkip(nodes: seq<Node>, lo: nat, hi: nat, wanted: set<string>)
    requires lo <= hi <= |nodes|
    requires forall k :: lo <= k < hi ==> !nodes[k].Element?
    ensures WantedPositions(nodes, lo, wanted) == WantedPositions(nodes, hi, wanted)
    decreases hi - lo
  {
    if lo < hi {
      WantedPositionsSkip(nodes, lo + 1, hi, wanted);
    }
  }

  /** Each field is the content of the element at the matching position. */
  predicate FieldsAt(nodes: seq<Node>, fs: seq<Field>, ps: seq<nat>)
  {
    && |fs| == |ps|
    && forall k :: 0 <= k < |fs| ==>
         && ps[k] < |nodes| && nodes[ps[k]].Element?
         && ReadElementContent(nodes, ps[k]).Success?
         && fs[k] == Field(nodes[ps[k]].name, ReadElementContent(nodes, ps[k]).value.0)
  }

  lemma FieldsAtCons(nodes: seq<Node>, i: nat, text: string, fs: seq<Field>, ps: seq<nat>)
    requires i < |nodes| && nodes[i].Element?
    requires ReadElementContent(nodes, i).Success? && ReadElementContent(nodes, i).value.0 == text
    requires FieldsAt(nodes, fs, ps)
    ensures FieldsAt(nodes, [Field(nodes[i].name, text)] + fs, [i] + ps)
  {
    var fs' := [Field(nodes[i].name, text)] + fs;
    var ps' := [i] + ps;
    forall k | 1 <= k < |fs'|
      ensures fs'[k] == fs[k - 1] && ps'[k] == ps[k - 1]
    {
    }
  }

  /**
   When the intended loop completes, it has read every wanted element from i
   on, one field each, in document order, with that element's text content.
   */
  lemma {:induction false} ScanFromReadsEveryWanted(nodes: seq<Node>, i: nat, wanted: set<string>)
    requires i <= |nodes|
    requires ScanFrom(nodes, i, wanted).Success?
    ensures
      var fs := ScanFrom(nodes, i, wanted).value;
      var ps := WantedPositions(nodes, i, wanted);
      && |fs| == |ps|
      && forall k :: 0 <= k < |fs| ==>
           && ReadElementContent(nodes, ps[k]).Success?
           && fs[k] == Field(nodes[ps[k]].name, ReadElementContent(nodes, ps[k]).value.0)
    decreases |nodes| - i
  {
    FieldsFromScan(nodes, i, wanted);
  }

  lemma {:induction false} FieldsFromScan(nodes: seq<Node>, i: nat, wanted: set<string>)
    requires i <= |nodes|
    requires ScanFrom(nodes, i, wanted).Success?
    ensures FieldsAt(nodes, ScanFrom(nodes, i, wanted).value, WantedPositions(nodes, i, wanted))
    decreases |nodes| - i
  {
    if i < |nodes| {
      if nodes[i].Element? && nodes[i].name in wanted {
        var (text, after) := ReadElementContent(nodes, i).value;
        FieldsFromScan(nodes, after, wanted);
        WantedPositionsSkip(nodes, i + 1, after, wanted);
        assert ScanFrom(nodes, i, wanted).value == [Field(nodes[i].name, text)] + ScanFrom(nodes, after, wanted).value;
        assert WantedPositions(nodes, i, wanted) == [i] + WantedPositions(nodes, after, wanted);
        FieldsAtCons(nodes, i, text, ScanFrom(nodes, after, wanted).value, WantedPositions(nodes, after, wanted));
      } else {
        FieldsFromScan(nodes, i + 1, wanted);
      }
    }
  }

  /**
   Sibling elements are separated: no start tag follows an end tag or an empty
   element directly, as in any indented document, where white space lies
   between them.
   */
  predicate Separated(nodes: seq<Node>)
  {
    forall k :: 0 < k < |nodes| && nodes[k].Element? ==> !nodes[k - 1].EndElement? && !(nodes[k - 1].Element? && nodes[k - 1].isEmpty)
  }

  /** On a separated stream the node the loop as written steps over is never an element, so it reads what was intended. */
  lemma {:induction false} AsWrittenMatchesIntendedWhenSeparated(nodes: seq<Node>, pos: nat, wanted: set<string>)
    requires pos < |nodes|
    requires Separated(nodes)
    ensures ScanAsWritten(nodes, pos, wanted) == ScanFrom(nodes, pos + 1, wanted)
    decreases |nodes| - pos
  {
    var next := pos + 1;
    if next < |nodes| {
      match nodes[next]
      case Malformed =>
      case Element(name, _) =>
        if name in wanted {
          match ReadElementContent(nodes, next)
          case Failure(_) =>
          case Success((text, after)) =>
            if after < |nodes| {
              assert !nodes[after].Element?;
              AsWrittenMatchesIntendedWhenSeparated(nodes, after, wanted);
            }
        } else {
          AsWrittenMatchesIntendedWhenSeparated(nodes, next, wanted);
        }
      case _ =>
        AsWrittenMatchesIntendedWhenSeparated(nodes, next, wanted);
    }
  }

  /** The response errors carrying each field's text, in order. */
  function Messages(fields: seq<Field>): (es: seq<ResponseError>)
    ensures |es| == |fields|
    ensures forall k :: 0 <= k < |es| ==> es[k].message == fields[k].text
  {
    seq(|fields|, k requires 0 <= k < |fields| => ResponseError(fields[k].text))
  }

  /** BuildErrors as written: one error per `error` element the loop examines, the reader starting on the root. */
  function BuildErrors(nodes: seq<Node>, root: nat): Result<seq<ResponseError>>
    requires root < |nodes|
  {
    match ScanAsWritten(nodes, root, {"error"})
    case Failure(f) => Failure(f)
    case Success(fields) => Success(Messages(fields))
  }

  /**
   BuildErrors as intended: each `error` element after the root yields one
   error carrying its text, in document order; other elements are ignored.
   */
  function BuildErrorsIntended(nodes: seq<Node>, root: nat): (r: Result<seq<ResponseError>>)
    requires root < |nodes|
    ensures r.Success? ==>
      var ps := WantedPositions(nodes, root + 1, {"error"});
      && |r.value| == |ps|
      && forall k :: 0 <= k < |ps| ==>
           && nodes[ps[k]] == Element("error", nodes[ps[k]].isEmpty)
           && ReadElementContent(nodes, ps[k]).Success?
           && r.value[k].message == ReadElementContent(nodes, ps[k]).value.0
  {
    match ScanFrom(nodes, root + 1, {"error"})
    case Failure(f) => Failure(f)
    case Success(fields) =>
      ScanFromReadsEveryWanted(nodes, root + 1, {"error"});
      Success(Messages(fields))
  }

  /** The names BuildNotice reads. */
  const NoticeFieldNames: set<string> := {"id", "error-id", "url"}

  /** One assignment of BuildNotice's loop; a non-integer id or error-id throws. */
  function Assign(n: ResponseNotice, f: Field): Result<ResponseNotice>
  {
    if f.name == "id" then
      (match ParseInt32(f.text)
       case None => Failure(XmlError)
       case Some(v) => Success(n.(id := v)))
    else if f.name == "error-id" then
      (match ParseInt32(f.text)
       case None => Failure(XmlError)
       case Some(v) => Success(n.(errorId := v)))
    else if f.name == "url" then Success(n.(url := Some(f.text)))
    else Success(n)
  }

  /** The assignments of BuildNotice's loop, in document order, from id 0, error id 0 and a null url. */
  function AssignAll(fields: seq<Field>): Result<ResponseNotice>
  {
    if |fields| == 0 then Success(ResponseNotice(0, 0, None))
    else
      match AssignAll(fields[..|fields| - 1])
      case Failure(f) => Failure(f)
      case Success(n) => Assign(n, fields[|fields| - 1])
  }

  /** The text of the last field with the given name, if any. */
  function LastText(fields: seq<Field>, name: string): Option<string>
  {
    if |fields| == 0 then None
    else if fields[|fields| - 1].name == name then Some(fields[|fields| - 1].text)
    else LastText(fields[..|fields| - 1], name)
  }

  /** An id or error-id field whose text does not convert to a 32-bit integer. */
  predicate Unconvertible(f: Field)
  {
    (f.name == "id" || f.name == "error-id") && ParseInt32(f.text).None?
  }

  predicate AnyUnconvertible(fields: seq<Field>)
  {
    exists k :: 0 <= k < |fields| && Unconvertible(fields[k])
  }

  /** The integer a field's text converts to, 0 when there is no such field. */
  function IntOrZero(text: Option<string>): int
  {
    if text.None? then 0
    else match ParseInt32(text.value)
      case None => 0
      case Some(v) => v
  }

  /**
   The assignments succeed exactly when every id and error-id converts to an
   integer; then the last occurrence of each name wins, and a name that never
   occurs keeps its default (0, 0, null).
   */
  lemma {:induction false} AssignAllLastWins(fields: seq<Field>)
    ensures AssignAll(fields).Success? <==>
      forall k :: 0 <= k < |fields| && (fields[k].name == "id" || fields[k].name == "error-id") ==> ParseInt32(fields[k].text).Some?
    ensures AssignAll(fields).Success? ==>
      && AssignAll(fields).value.id == IntOrZero(LastText(fields, "id"))
      && AssignAll(fields).value.errorId == IntOrZero(LastText(fields, "error-id"))
      && AssignAll(fields).value.url == LastText(fields, "url")
  {
    if |fields| > 0 {
      var init := fields[..|fields| - 1];
      AssignAllLastWins(init);
      assert forall k :: 0 <= k < |init| ==> init[k] == fields[k];
    }
  }

  /** BuildNotice as written: the assignments for the fields the loop as written examines. */
  function BuildNotice(nodes: seq<Node>, root: nat): (r: Result<ResponseNotice>)
    requires root < |nodes|
    ensures r.Success? ==>
      && ScanAsWritten(nodes, root, NoticeFieldNames).Success?
      && var fs := ScanAsWritten(nodes, root, NoticeFieldNames).value;
      && r.value.id == IntOrZero(LastText(fs, "id"))
      && r.value.errorId == IntOrZero(LastText(fs, "error-id"))
      && r.value.url == LastText(fs, "url")
    ensures r.Failure? <==>
      || ScanAsWritten(nodes, root, NoticeFieldNames).Failure?
      || AnyUnconvertible(ScanAsWritten(nodes, root, NoticeFieldNames).value)
  {
    match ScanAsWritten(nodes, root, NoticeFieldNames)
    case Failure(f) => Failure(f)
    case Success(fields) =>
      AssignAllLastWins(fields);
      AssignAll(fields)
  }

  /**
   BuildNotice as intended: the assignments for every id, error-id and url
   element after the root, the last of each winning.
   */
  function BuildNoticeIntended(nodes: seq<Node>, root: nat): (r: Result<ResponseNotice>)
    requires root < |nodes|
    ensures r.Success? ==>
      && ScanFrom(nodes, root + 1, NoticeFieldNames).Success?
      && var fs := ScanFrom(nodes, root + 1, NoticeFieldNames).value;
      && r.value.id == IntOrZero(LastText(fs, "id"))
      && r.value.errorId == IntOrZero(LastText(fs, "error-id"))
      && r.value.url == LastText(fs, "url")
    ensures r.Failure? <==>
      || ScanFrom(nodes, root + 1, NoticeFieldNames).Failure?
      || AnyUnconvertible(ScanFrom(nodes, root + 1, NoticeFieldNames).value)
  {
    match ScanFrom(nodes, root + 1, NoticeFieldNames)
    case Failure(f) => Failure(f)
    case Success(fields) =>
      AssignAllLastWins(fields);
      AssignAll(fields)
  }

  /** What Deserialize assigns: the errors and the notice. */
  datatype Parsed = Parsed(errors: seq<ResponseError>, notice: Option<ResponseNotice>)

  /** The local name of the root element, when MoveToContent reaches one. */
  function RootName(nodes: seq<Node>): Option<string>
  {
    match MoveToContent(nodes)
    case Failure(_) => None
    case Success(root) => Some(LocalName(nodes[root]))
  }

  /**
   Deserialize: dispatch on the root's local name; `errors` yields the errors,
   `notice` the notice, any other root neither.
   */
  function Deserialize(nodes: seq<Node>): (r: Result<Parsed>)
    ensures r.Success? ==> RootName(nodes).Some?
    ensures r.Success? && r.value.errors != [] ==> RootName(nodes) == Some("errors")
    ensures r.Success? ==> (r.value.notice.Some? <==> RootName(nodes) == Some("notice"))
    ensures r.Success? && RootName(nodes) == Some("errors") ==>
      && ScanAsWritten(nodes, MoveToContent(nodes).value, {"error"}).Success?
      && r.value.errors == Messages(ScanAsWritten(nodes, MoveToContent(nodes).value, {"error"}).value)
    ensures r.Success? && RootName(nodes) == Some("notice") ==>
      && BuildNotice(nodes, MoveToContent(nodes).value).Success?
      && r.value.notice == Some(BuildNotice(nodes, MoveToContent(nodes).value).value)
    ensures r.Failure? <==>
      || MoveToContent(nodes).Failure?
      || (RootName(nodes) == Some("errors") && ScanAsWritten(nodes, MoveToContent(nodes).value, {"error"}).Failure?)
      || (RootName(nodes) == Some("notice") && BuildNotice(nodes, MoveToContent(nodes).value).Failure?)
  {
    match MoveToContent(nodes)
    case Failure(f) => Failure(f)
    case Success(root) =>
      match LocalName(nodes[root])
      case "errors" =>
        (match BuildErrors(nodes, root)
         case Failure(f) => Failure(f)
         case Success(errors) => Success(Parsed(errors, None)))
      case "notice" =>
        (match BuildNotice(nodes, root)
         case Failure(f) => Failure(f)
         case Success(notice) => Success(Parsed([], Some(notice))))
      case _ => Success(Parsed([], None))
  }

  /** The same dispatch over the intended read loops. */
  function DeserializeIntended(nodes: seq<Node>): Result<Parsed>
  {
    match MoveToContent(nodes)
    case Failure(f) => Failure(f)
    case Success(root) =>
      match LocalName(nodes[root])
      case "errors" =>
        (match BuildErrorsIntended(nodes, root)
         case Failure(f) => Failure(f)
         case Success(errors) => Success(Parsed(errors, None)))
      case "notice" =>
        (match BuildNoticeIntended(nodes, root)
         case Failure(f) => Failure(f)
         case Success(notice) => Success(Parsed([], Some(notice))))
      case _ => Success(Parsed([], None))
  }

  /** On a separated stream the decoder as written and as intended agree. */
  lemma DeserializeMatchesIntendedWhenSeparated(nodes: seq<Node>)
    requires Separated(nodes)
    ensures Deserialize(nodes) == DeserializeIntended(nodes)
  {
    if MoveToContent(nodes).Success? {
      var root := MoveToContent(nodes).value;
      AsWrittenMatchesIntendedWhenSeparated(nodes, root, {"error"});
      AsWrittenMatchesIntendedWhenSeparated(nodes, root, NoticeFieldNames);
    }
  }

  /** The response's metadata getters; any of them may throw, as WebResponse's defaults do. */
  datatype WebResponse = WebResponse(
    contentLength: Getter<int>,
    contentType: Getter<Option<string>>,
    headers: Getter<Option<NameValueCollection>>,
    isFromCache: Getter<bool>,
    isMutuallyAuthenticated: Getter<bool>,
    responseUri: Getter<Option<string>>)

  /** A constructed AirbrakeResponse. */
  datatype Response = Response(
    content: string,
    contentLength: int,
    contentType: Option<string>,
    headers: Option<NameValueCollection>,
    isFromCache: bool,
    isMutuallyAuthenticated: bool,
    responseUri: Option<string>,
    errors: seq<ResponseError>,
    notice: Option<ResponseNotice>)

  /**
   The constructor, given the web response (possibly null), the body text, and
   the node stream the reader yields for that text. Content is the body,
   whatever happens; without a response the metadata keep their defaults, and
   a throwing getter gives its default; a failed decoding is swallowed and
   leaves no errors and no notice; errors and notice never both appear.
   */
  function NewResponse(response: Option<WebResponse>, content: string, nodes: seq<Node>): (r: Response)
    ensures r.content == content
    ensures response.None? ==>
      r.contentLength == 0 && r.contentType.None? && r.headers.None? &&
      !r.isFromCache && !r.isMutuallyAuthenticated && r.responseUri.None?
    ensures response.Some? ==>
      && r.contentLength == (if response.value.contentLength.Returns? then response.value.contentLength.value else 0)
      && r.contentType == (if response.value.contentType.Returns? then response.value.contentType.value else None)
      && r.headers == (if response.value.headers.Returns? then response.value.headers.value else None)
      && r.isFromCache == (response.value.isFromCache.Returns? && response.value.isFromCache.value)
      && r.isMutuallyAuthenticated == (response.value.isMutuallyAuthenticated.Returns? && response.value.isMutuallyAuthenticated.value)
      && r.responseUri == (if response.value.responseUri.Returns? then response.value.responseUri.value else None)
    ensures Deserialize(nodes).Failure? ==> r.errors == [] && r.notice.None?
    ensures Deserialize(nodes).Success? ==> r.errors == Deserialize(nodes).value.errors && r.notice == Deserialize(nodes).value.notice
    ensures !(r.errors != [] && r.notice.Some?)
    ensures r.notice.Some? ==> RootName(nodes) == Some("notice")
    ensures r.errors != [] ==> RootName(nodes) == Some("errors")
  {
    var (contentLength, contentType, headers, isFromCache, isMutuallyAuthenticated, responseUri) :=
      if response.None? then (0, None, None, false, false, None)
      else
        var w := response.value;
        (TryGet(w, (x: WebResponse) => x.contentLength, 0),
         TryGet(w, (x: WebResponse) => x.contentType, None),
         TryGet(w, (x: WebResponse) => x.headers, None),
         TryGet(w, (x: WebResponse) => x.isFromCache, false),
         TryGet(w, (x: WebResponse) => x.isMutuallyAuthenticated, false),
         TryGet(w, (x: WebResponse) => x.responseUri, None));
    var parsed := match Deserialize(nodes)
      case Failure(_) => Parsed([], None)
      case Success(p) => p;
    Response(content, contentLength, contentType, headers, isFromCache, isMutuallyAuthenticated, responseUri,
             parsed.errors, parsed.notice)
  }
}
