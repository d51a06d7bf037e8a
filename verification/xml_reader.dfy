/**
 The forward-only XML reader the response decoder drives, over an abstract
 node stream: the nodes the reader visits one Read() at a time, in document
 order. Turning text into nodes is not part of this model; a Malformed node
 marks where the reader finds the input ill-formed and throws.
 */
module XmlReader {
  import opened Common

  datatype Node =
    | Element(name: string, isEmpty: bool)  // a start tag, or an empty element when isEmpty; name is the local name
    | EndElement(name: string)
    | Text(value: string)                   // text or CDATA
    | Whitespace(value: string)
    | Other                                 // comment, processing instruction, XML declaration
    | Malformed

  /** LocalName of the node the reader is on: element names, and "" for nodes without one. */
  function LocalName(n: Node): string
  {
    match n
    case Element(name, _) => name
    case EndElement(name) => name
    case _ => ""
  }

  /** Nodes MoveToContent passes over. */
  predicate Skippable(n: Node)
  {
    n.Whitespace? || n.Other?
  }

  /** Moving the reader onto position p (p == |nodes| is the end of the stream) throws on an ill-formed node. */
  function Arrive(nodes: seq<Node>, p: nat): (r: Result<nat>)
    requires p <= |nodes|
    ensures r.Success? <==> p == |nodes| || !nodes[p].Malformed?
    ensures r.Success? ==> r.value == p
  {
    if p < |nodes| && nodes[p].Malformed? then Failure(XmlError) else Success(p)
  }

  function SkipToContent(nodes: seq<Node>, i: nat): (r: Result<nat>)
    requires i <= |nodes|
    ensures r.Success? ==> i <= r.value < |nodes| && !Skippable(nodes[r.value]) && !nodes[r.value].Malformed?
    ensures r.Success? ==> forall j :: i <= j < r.value ==> Skippable(nodes[j])
    decreases |nodes| - i
  {
    if i == |nodes| then Failure(XmlError)
    else if Skippable(nodes[i]) then SkipToContent(nodes, i + 1)
    else if nodes[i].Malformed? then Failure(XmlError)
    else Success(i)
  }

  /**
   MoveToContent on a fresh reader: the position of the first node that is
   neither white space nor markup such as a comment or declaration; a stream
   without one ("root element is missing") or ill-formed before it throws.
   */
  function MoveToContent(nodes: seq<Node>): (r: Result<nat>)
    ensures r.Success? ==> r.value < |nodes| && !Skippable(nodes[r.value]) && !nodes[r.value].Malformed?
    ensures r.Success? ==> forall j :: 0 <= j < r.value ==> Skippable(nodes[j])
    ensures r.Failure? ==> forall j :: 0 <= j < |nodes| && !Skippable(nodes[j]) ==> exists k :: 0 <= k <= j && nodes[k].Malformed?
  {
    SkipFailsOnlyOnMalformed(nodes, 0);
    SkipToContent(nodes, 0)
  }

  lemma {:induction false} SkipFailsOnlyOnMalformed(nodes: seq<Node>, i: nat)
    requires i <= |nodes|
    ensures SkipToContent(nodes, i).Failure? ==>
      forall j :: i <= j < |nodes| && !Skippable(nodes[j]) ==> exists k :: i <= k <= j && nodes[k].Malformed?
    decreases |nodes| - i
  {
    if i < |nodes| && Skippable(nodes[i]) {
      SkipFailsOnlyOnMalformed(nodes, i + 1);
    }
  }

  /** The character content a node contributes to its element's text. */
  function NodeText(n: Node): string
  {
    match n
    case Text(v) => v
    case Whitespace(v) => v
    case _ => ""
  }

  /** The text of the nodes in [lo, hi), concatenated in order. */
  function TextBetween(nodes: seq<Node>, lo: nat, hi: nat): string
    requires lo <= hi <= |nodes|
    decreases hi - lo
  {
    if lo == hi then "" else NodeText(nodes[lo]) + TextBetween(nodes, lo + 1, hi)
  }

  /**
   The content loop of ReadElementContentAsString after the start tag: text and
   white space accumulate, comments and processing instructions are skipped, the
   end tag finishes and the reader moves past it; a child element, an
   ill-formed node or the end of the stream throws.
   */
  function ReadContent(nodes: seq<Node>, j: nat, acc: string): (r: Result<(string, nat)>)
    requires j <= |nodes|
    ensures r.Success? ==>
      var (text, after) := r.value;
      && j < after <= |nodes|
      && nodes[after - 1].EndElement?
      && (forall k :: j <= k < after - 1 ==> !nodes[k].EndElement?)
      && (forall k :: j <= k < after ==> !nodes[k].Element?)
      && (after < |nodes| ==> !nodes[after].Malformed?)
      && text == acc + TextBetween(nodes, j, after)
    decreases |nodes| - j
  {
    if j == |nodes| then Failure(XmlError)
    else
      match nodes[j]
      case Text(v) => ReadContent(nodes, j + 1, acc + v)
      case Whitespace(v) => ReadContent(nodes, j + 1, acc + v)
      case Other => ReadContent(nodes, j + 1, acc)
      case EndElement(_) =>
        (match Arrive(nodes, j + 1)
         case Failure(f) => Failure(f)
         case Success(p) => Success((acc, p)))
      case Element(_, _) => Failure(XmlError)
      case Malformed => Failure(XmlError)
  }

  /**
   ReadElementContentAsString on the element at i: its text content and the
   position the reader is left on, the node right after the element's end.
   An empty element has empty content.
   */
  function ReadElementContent(nodes: seq<Node>, i: nat): (r: Result<(string, nat)>)
    requires i < |nodes| && nodes[i].Element?
    ensures r.Success? ==>
      var (text, after) := r.value;
      && i < after <= |nodes|
      && (forall k :: i < k < after ==> !nodes[k].Element?)
      && (after < |nodes| ==> !nodes[after].Malformed?)
      && (if nodes[i].isEmpty then after == i + 1 else nodes[after - 1].EndElement?)
      && (forall k :: i < k < after - 1 ==> !nodes[k].EndElement?)
      && text == TextBetween(nodes, i + 1, after)
  {
    if nodes[i].isEmpty then
      match Arrive(nodes, i + 1)
      case Failure(f) => Failure(f)
      case Success(p) => Success(("", p))
    else
      ReadContent(nodes, i + 1, "")
  }
}
