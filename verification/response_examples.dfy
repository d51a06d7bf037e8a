/**
 Concrete replies and what the decoder yields for them: a validation-error
 reply, and the unindented replies on which the read loop as written skips an
 element.
 */
module ResponseExamples {
  import opened Common
  import opened Serialization
  import opened XmlReader
  import opened XmlConvert
  import opened AirbrakeResponse

  /** <errors><error>API key is invalid</error></errors> */
  const InvalidKeyReply: seq<Node> := [
    Element("errors", false), Element("error", false), Text("API key is invalid"),
    EndElement("error"), EndElement("errors")]

  /** <errors><error>a</error><error>b</error></errors>: two errors with nothing between them. */
  const AdjacentErrorsReply: seq<Node> := [
    Element("errors", false),
    Element("error", false), Text("a"), EndElement("error"),
    Element("error", false), Text("b"), EndElement("error"),
    EndElement("errors")]

  /** <notice><id>7</id><error-id>42</error-id><url>http://x/notices/7</url></notice>, unindented. */
  const UnindentedNoticeReply: seq<Node> := [
    Element("notice", false),
    Element("id", false), Text("7"), EndElement("id"),
    Element("error-id", false), Text("42"), EndElement("error-id"),
    Element("url", false), Text("http://x/notices/7"), EndElement("url"),
    EndElement("notice")]

  // Single steps of the read loops and of the content reader.

  lemma ContentOfTextElement(nodes: seq<Node>, i: nat, text: string)
    requires i + 3 <= |nodes|
    requires nodes[i].Element? && !nodes[i].isEmpty && nodes[i + 1] == Text(text) && nodes[i + 2].EndElement?
    requires i + 3 == |nodes| || !nodes[i + 3].Malformed?
    ensures ReadElementContent(nodes, i) == Success((text, i + 3))
  {
    assert Arrive(nodes, i + 3) == Success(i + 3);
    assert ReadContent(nodes, i + 2, "" + text) == Success(("" + text, i + 3));
    assert "" + text == text;
  }

  lemma AsWrittenPasses(nodes: seq<Node>, pos: nat, wanted: set<string>)
    requires pos + 1 < |nodes|
    requires !nodes[pos + 1].Malformed? && !(nodes[pos + 1].Element? && nodes[pos + 1].name in wanted)
    ensures ScanAsWritten(nodes, pos, wanted) == ScanAsWritten(nodes, pos + 1, wanted)
  {
  }

  lemma AsWrittenReads(nodes: seq<Node>, pos: nat, wanted: set<string>, text: string, after: nat, rest: seq<Field>)
    requires pos + 1 < |nodes| && nodes[pos + 1].Element? && nodes[pos + 1].name in wanted
    requires ReadElementContent(nodes, pos + 1) == Success((text, after))
    requires ScanAsWritten(nodes, after, wanted) == Success(rest)
    ensures ScanAsWritten(nodes, pos, wanted) == Success([Field(nodes[pos + 1].name, text)] + rest)
  {
  }

  lemma AsWrittenEnds(nodes: seq<Node>, pos: nat, wanted: set<string>)
    requires |nodes| <= pos + 1 && pos <= |nodes|
    ensures ScanAsWritten(nodes, pos, wanted) == Success([])
  {
  }

  lemma IntendedPasses(nodes: seq<Node>, i: nat, wanted: set<string>)
    requires i < |nodes|
    requires !nodes[i].Malformed? && !(nodes[i].Element? && nodes[i].name in wanted)
    ensures ScanFrom(nodes, i, wanted) == ScanFrom(nodes, i + 1, wanted)
  {
  }

  lemma IntendedReads(nodes: seq<Node>, i: nat, wanted: set<string>, text: string, after: nat, rest: seq<Field>)
    requires i < |nodes| && nodes[i].Element? && nodes[i].name in wanted
    requires ReadElementContent(nodes, i) == Success((text, after))
    requires ScanFrom(nodes, after, wanted) == Success(rest)
    ensures ScanFrom(nodes, i, wanted) == Success([Field(nodes[i].name, text)] + rest)
  {
  }

  lemma ParseSmallNumbers()
    ensures ParseInt32("7") == Some(7)
    ensures ParseInt32("42") == Some(42)
  {
  }

  lemma DecodesErrors(nodes: seq<Node>, es: seq<ResponseError>)
    requires MoveToContent(nodes) == Success(0) && nodes[0].Element? && nodes[0].name == "errors"
    requires BuildErrors(nodes, 0) == Success(es)
    ensures Deserialize(nodes) == Success(Parsed(es, None))
  {
  }

  lemma DecodesErrorsIntended(nodes: seq<Node>, es: seq<ResponseError>)
    requires MoveToContent(nodes) == Success(0) && nodes[0].Element? && nodes[0].name == "errors"
    requires BuildErrorsIntended(nodes, 0) == Success(es)
    ensures DeserializeIntended(nodes) == Success(Parsed(es, None))
  {
  }

  lemma DecodesNotice(nodes: seq<Node>, n: ResponseNotice)
    requires MoveToContent(nodes) == Success(0) && nodes[0].Element? && nodes[0].name == "notice"
    requires BuildNotice(nodes, 0) == Success(n)
    ensures Deserialize(nodes) == Success(Parsed([], Some(n)))
  {
  }

  lemma DecodesNoticeIntended(nodes: seq<Node>, n: ResponseNotice)
    requires MoveToContent(nodes) == Success(0) && nodes[0].Element? && nodes[0].name == "notice"
    requires BuildNoticeIntended(nodes, 0) == Success(n)
    ensures DeserializeIntended(nodes) == Success(Parsed([], Some(n)))
  {
  }

  /** A validation-error reply yields exactly its one error and no notice. */
  lemma InvalidKeyReplyDecodes()
    ensures Deserialize(InvalidKeyReply) == Success(Parsed([ResponseError("API key is invalid")], None))
  {
    var n := InvalidKeyReply;
    var w := {"error"};
    var f := Field("error", "API key is invalid");
    assert MoveToContent(n) == Success(0);
    ContentOfTextElement(n, 1, "API key is invalid");
    AsWrittenEnds(n, 4, w);
    AsWrittenReads(n, 0, w, "API key is invalid", 4, []);
    assert [f] + [] == [f];
    assert Messages([f]) == [ResponseError("API key is invalid")];
    DecodesErrors(n, [ResponseError("API key is invalid")]);
  }

  lemma AdjacentErrorsFieldsAsWritten()
    ensures ScanAsWritten(AdjacentErrorsReply, 0, {"error"}) == Success([Field("error", "a")])
  {
    var n := AdjacentErrorsReply;
    var w := {"error"};
    assert "error" in w;
    ContentOfTextElement(n, 1, "a");
    AsWrittenEnds(n, 7, w);
    assert n[7].EndElement?;
    AsWrittenPasses(n, 6, w);
    assert n[6].EndElement?;
    AsWrittenPasses(n, 5, w);
    assert n[5].Text?;
    AsWrittenPasses(n, 4, w);
    AsWrittenReads(n, 0, w, "a", 4, []);
    assert n[1].name == "error";
    assert [Field("error", "a")] + [] == [Field("error", "a")];
  }

  /** As written, the second of two adjacent errors is stepped over. */
  lemma AdjacentErrorsAsWritten()
    ensures Deserialize(AdjacentErrorsReply) == Success(Parsed([ResponseError("a")], None))
  {
    var n := AdjacentErrorsReply;
    assert MoveToContent(n) == Success(0);
    AdjacentErrorsFieldsAsWritten();
    assert Messages([Field("error", "a")]) == [ResponseError("a")];
    assert BuildErrors(n, 0) == Success([ResponseError("a")]);
    DecodesErrors(n, [ResponseError("a")]);
  }

  lemma AdjacentErrorsFieldsIntended()
    ensures ScanFrom(AdjacentErrorsReply, 1, {"error"}) == Success([Field("error", "a"), Field("error", "b")])
  {
    var n := AdjacentErrorsReply;
    var w := {"error"};
    assert "error" in w;
    ContentOfTextElement(n, 1, "a");
    ContentOfTextElement(n, 4, "b");
    assert ScanFrom(n, 8, w) == Success([]);
    IntendedPasses(n, 7, w);
    IntendedReads(n, 4, w, "b", 7, []);
    assert [Field("error", "b")] + [] == [Field("error", "b")];
    assert ScanFrom(n, 4, w) == Success([Field("error", "b")]);
    IntendedReads(n, 1, w, "a", 4, [Field("error", "b")]);
    assert n[1].name == "error";
    assert [Field("error", "a")] + [Field("error", "b")] == [Field("error", "a"), Field("error", "b")];
  }

  /** As intended, both adjacent errors are reported, in order. */
  lemma AdjacentErrorsIntended()
    ensures DeserializeIntended(AdjacentErrorsReply) == Success(Parsed([ResponseError("a"), ResponseError("b")], None))
  {
    var n := AdjacentErrorsReply;
    assert MoveToContent(n) == Success(0);
    AdjacentErrorsFieldsIntended();
    var fs := [Field("error", "a"), Field("error", "b")];
    assert Messages(fs) == [ResponseError("a"), ResponseError("b")];
    assert BuildErrorsIntended(n, 0) == Success(Messages(fs));
    DecodesErrorsIntended(n, [ResponseError("a"), ResponseError("b")]);
  }

  lemma UnindentedNoticeTailAsWritten()
    ensures ScanAsWritten(UnindentedNoticeReply, 4, NoticeFieldNames) == Success([Field("url", "http://x/notices/7")])
  {
    var n := UnindentedNoticeReply;
    var w := NoticeFieldNames;
    var url := "http://x/notices/7";
    assert "url" in w;
    ContentOfTextElement(n, 7, url);
    AsWrittenEnds(n, 10, w);
    AsWrittenReads(n, 6, w, url, 10, []);
    assert n[7].name == "url";
    assert [Field("url", url)] + [] == [Field("url", url)];
    assert n[6].EndElement?;
    AsWrittenPasses(n, 5, w);
    assert n[5].Text?;
    AsWrittenPasses(n, 4, w);
  }

  lemma UnindentedNoticeFieldsAsWritten()
    ensures ScanAsWritten(UnindentedNoticeReply, 0, NoticeFieldNames) == Success([Field("id", "7"), Field("url", "http://x/notices/7")])
  {
    var n := UnindentedNoticeReply;
    var w := NoticeFieldNames;
    var url := "http://x/notices/7";
    assert "id" in w;
    ContentOfTextElement(n, 1, "7");
    UnindentedNoticeTailAsWritten();
    AsWrittenReads(n, 0, w, "7", 4, [Field("url", url)]);
    assert n[1].name == "id";
    assert [Field("id", "7")] + [Field("url", url)] == [Field("id", "7"), Field("url", url)];
  }

  lemma UnindentedNoticeFieldsIntended()
    ensures ScanFrom(UnindentedNoticeReply, 1, NoticeFieldNames)
            == Success([Field("id", "7"), Field("error-id", "42"), Field("url", "http://x/notices/7")])
  {
    var n := UnindentedNoticeReply;
    var w := NoticeFieldNames;
    var url := "http://x/notices/7";
    assert "id" in w && "error-id" in w && "url" in w;
    ContentOfTextElement(n, 1, "7");
    ContentOfTextElement(n, 4, "42");
    ContentOfTextElement(n, 7, url);
    assert ScanFrom(n, 11, w) == Success([]);
    IntendedPasses(n, 10, w);
    IntendedReads(n, 7, w, url, 10, []);
    assert [Field("url", url)] + [] == [Field("url", url)];
    assert ScanFrom(n, 7, w) == Success([Field("url", url)]);
    IntendedReads(n, 4, w, "42", 7, [Field("url", url)]);
    assert n[4].name == "error-id";
    assert [Field("error-id", "42")] + [Field("url", url)] == [Field("error-id", "42"), Field("url", url)];
    assert ScanFrom(n, 4, w) == Success([Field("error-id", "42"), Field("url", url)]);
    IntendedReads(n, 1, w, "7", 4, [Field("error-id", "42"), Field("url", url)]);
    assert n[1].name == "id";
    assert [Field("id", "7")] + [Field("error-id", "42"), Field("url", url)]
        == [Field("id", "7"), Field("error-id", "42"), Field("url", url)];
  }

  lemma AssignSmallNotice(url: string)
    ensures AssignAll([Field("id", "7"), Field("url", url)]) == Success(ResponseNotice(7, 0, Some(url)))
    ensures AssignAll([Field("id", "7"), Field("error-id", "42"), Field("url", url)]) == Success(ResponseNotice(7, 42, Some(url)))
  {
    ParseSmallNumbers();
    var id := [Field("id", "7")];
    assert id[..0] == [];
    assert AssignAll(id[..0]) == Success(ResponseNotice(0, 0, None));
    assert Assign(ResponseNotice(0, 0, None), Field("id", "7")) == Success(ResponseNotice(7, 0, None));
    assert AssignAll(id) == Success(ResponseNotice(7, 0, None));
    var a := [Field("id", "7"), Field("url", url)];
    assert a[..1] == id;
    assert AssignAll(a) == Assign(ResponseNotice(7, 0, None), Field("url", url));
    var ie := [Field("id", "7"), Field("error-id", "42")];
    assert ie[..1] == id;
    assert AssignAll(ie) == Success(ResponseNotice(7, 42, None));
    var b := [Field("id", "7"), Field("error-id", "42"), Field("url", url)];
    assert b[..2] == ie;
    assert AssignAll(b) == Assign(ResponseNotice(7, 42, None), Field("url", url));
  }

  /** As written, the unindented notice loses its error id: the element right after id is stepped over. */
  lemma UnindentedNoticeAsWritten()
    ensures Deserialize(UnindentedNoticeReply) == Success(Parsed([], Some(ResponseNotice(7, 0, Some("http://x/notices/7")))))
  {
    var url := "http://x/notices/7";
    assert MoveToContent(UnindentedNoticeReply) == Success(0);
    UnindentedNoticeFieldsAsWritten();
    AssignSmallNotice(url);
    assert BuildNotice(UnindentedNoticeReply, 0) == AssignAll([Field("id", "7"), Field("url", url)]);
    DecodesNotice(UnindentedNoticeReply, ResponseNotice(7, 0, Some(url)));
  }

  /** As intended, the unindented notice yields all three identifiers. */
  lemma UnindentedNoticeIntended()
    ensures DeserializeIntended(UnindentedNoticeReply) == Success(Parsed([], Some(ResponseNotice(7, 42, Some("http://x/notices/7")))))
  {
    var url := "http://x/notices/7";
    assert MoveToContent(UnindentedNoticeReply) == Success(0);
    UnindentedNoticeFieldsIntended();
    AssignSmallNotice(url);
    assert BuildNoticeIntended(UnindentedNoticeReply, 0) == AssignAll([Field("id", "7"), Field("error-id", "42"), Field("url", url)]);
    DecodesNoticeIntended(UnindentedNoticeReply, ResponseNotice(7, 42, Some(url)));
  }
}
