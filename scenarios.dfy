/** Concrete listings and what the collector takes from them. */
module Scenarios {
  import opened Html
  import opened FileName
  import opened Classify
  import opened Listing
  import opened Paths

  function Anchor(href: string, children: seq<Node>): Node
  {
    Node(ElementNode, "a", [Attribute("", "href", href)], children)
  }

  function Text(t: string): Node
  {
    Node(TextNode, t, [], [])
  }

  /** A document whose body holds `nodes`. */
  function Document(nodes: seq<Node>): Node
  {
    var body := Node(ElementNode, "body", [], nodes);
    var html := Node(ElementNode, "html", [], [Node(ElementNode, "head", [], []), body]);
    Node(DocumentNode, "", [], [html])
  }

  /** A text leaf, or any other node without children and attributes, contributes nothing. */
  lemma LeafCollectsNothing(n: Node)
    requires n.attr == [] && n.children == []
    ensures Collect(n) == []
  {
  }

  lemma ForestOfOne(a: Node)
    ensures CollectForest([a]) == Collect(a)
  {
    CollectForestSnoc([], a);
    assert [] + [a] == [a];
  }

  lemma ForestOfTwo(a: Node, b: Node)
    ensures CollectForest([a, b]) == Collect(a) + Collect(b)
  {
    ForestOfOne(a);
    CollectForestSnoc([a], b);
    assert [a] + [b] == [a, b];
  }

  lemma ForestOfThree(a: Node, b: Node, c: Node)
    ensures CollectForest([a, b, c]) == Collect(a) + Collect(b) + Collect(c)
  {
    ForestOfTwo(a, b);
    CollectForestSnoc([a, b], c);
    assert [a, b] + [c] == [a, b, c];
  }

  lemma ForestOfFour(a: Node, b: Node, c: Node, d: Node)
    ensures CollectForest([a, b, c, d]) == Collect(a) + Collect(b) + Collect(c) + Collect(d)
  {
    ForestOfThree(a, b, c);
    CollectForestSnoc([a, b, c], d);
    assert [a, b, c] + [d] == [a, b, c, d];
  }

  /** The entries of a document are the entries of its body's nodes. */
  lemma DocumentCollects(nodes: seq<Node>)
    ensures Collect(Document(nodes)) == CollectForest(nodes)
  {
    var body := Node(ElementNode, "body", [], nodes);
    var head := Node(ElementNode, "head", [], []);
    var html := Node(ElementNode, "html", [], [head, body]);
    LeafCollectsNothing(head);
    ForestOfTwo(head, body);
    ForestOfOne(html);
  }

  /** What one link contributes on its own. */
  function Kept(href: string): seq<string>
  {
    if Accept(href) then [href] else []
  }

  /** An anchor with a single `href` contributes that link, then its children's. */
  lemma AnchorCollects(href: string, children: seq<Node>)
    ensures Collect(Anchor(href, children)) == Kept(href) + CollectForest(children)
  {
    var a := Attribute("", "href", href);
    AcceptedHrefsSnoc([], a);
    assert [] + [a] == [a];
  }

  /** A listing of four text-labelled anchors yields the kept links in order. */
  lemma FourAnchors(h0: string, h1: string, h2: string, h3: string, t0: string, t1: string, t2: string, t3: string)
    ensures Collect(Document([Anchor(h0, [Text(t0)]), Anchor(h1, [Text(t1)]), Anchor(h2, [Text(t2)]), Anchor(h3, [Text(t3)])]))
         == Kept(h0) + Kept(h1) + Kept(h2) + Kept(h3)
  {
    var a0, a1, a2, a3 := Anchor(h0, [Text(t0)]), Anchor(h1, [Text(t1)]), Anchor(h2, [Text(t2)]), Anchor(h3, [Text(t3)]);
    TextAnchorCollects(h0, t0);
    TextAnchorCollects(h1, t1);
    TextAnchorCollects(h2, t2);
    TextAnchorCollects(h3, t3);
    ForestOfFour(a0, a1, a2, a3);
    DocumentCollects([a0, a1, a2, a3]);
  }

  /** An anchor whose only child is a text node contributes its own accepted href. */
  lemma TextAnchorCollects(href: string, t: string)
    ensures Collect(Anchor(href, [Text(t)])) == Kept(href)
  {
    AnchorCollects(href, [Text(t)]);
    ForestOfOne(Text(t));
    LeafCollectsNothing(Text(t));
  }

  /** Parent link, a file, a sub-directory and an external link: only the file is kept. */
  lemma ParentFileDirectoryExternal()
    ensures Collect(Document([
        Anchor("../", [Text("..")]),
        Anchor("report.pdf", [Text("report.pdf")]),
        Anchor("sub/", [Text("sub/")]),
        Anchor("https://x.com/a.zip", [Text("a.zip")])])) == ["report.pdf"]
  {
    RejectsParent();
    AcceptsReportPdf();
    RejectsSubdirectory();
    RejectsExternal();
    FourAnchors("../", "report.pdf", "sub/", "https://x.com/a.zip", "..", "report.pdf", "sub/", "a.zip");
  }

  lemma RejectsParent()
    ensures !Accept("../")
  {
    Rejects("../", 2);
  }

  lemma RejectsSubdirectory()
    ensures !Accept("sub/")
  {
    Rejects("sub/", 3);
  }

  lemma RejectsExternal()
    ensures !Accept("https://x.com/a.zip")
  {
    Rejects("https://x.com/a.zip", 5);
  }

  /** A character outside the name characters gets a link rejected. */
  lemma Rejects(s: string, i: nat)
    requires i < |s| && !IsNameChar(s[i])
    ensures !Accept(s)
  {
    RejectsNonNameChar(s, i);
    AcceptIsPattern(s);
  }

  lemma AcceptsReportPdf()
    ensures Accept("report.pdf")
  {
    AcceptsSplit("report.pdf", 6);
  }

  /**
   * An anchor nested in an anchor is visited after it, every `href` of one
   * anchor is read in attribute order, and an `href` on another element is ignored.
   */
  lemma NestedAndRepeated(h0: string, h1: string, h2: string, h3: string, h4: string, t: string)
    ensures Collect(Document([
        Anchor(h0, [Anchor(h1, [])]),
        Node(ElementNode, "a", [Attribute("", "href", h2), Attribute("", "title", t), Attribute("", "href", h3)], []),
        Node(ElementNode, "link", [Attribute("", "href", h4)], [])]))
      == Kept(h0) + Kept(h1) + Kept(h2) + Kept(h3)
  {
    var a0 := Anchor(h0, [Anchor(h1, [])]);
    var a1 := Node(ElementNode, "a", [Attribute("", "href", h2), Attribute("", "title", t), Attribute("", "href", h3)], []);
    var link := Node(ElementNode, "link", [Attribute("", "href", h4)], []);
    AnchorInAnchor(h0, h1);
    TwoHrefs(h2, t, h3);
    LinkIgnored(h4);
    ForestOfThree(a0, a1, link);
    DocumentCollects([a0, a1, link]);
  }

  lemma AnchorInAnchor(h0: string, h1: string)
    ensures Collect(Anchor(h0, [Anchor(h1, [])])) == Kept(h0) + Kept(h1)
  {
    AnchorCollects(h1, []);
    AnchorCollects(h0, [Anchor(h1, [])]);
    ForestOfOne(Anchor(h1, []));
  }

  lemma TwoHrefs(h2: string, t: string, h3: string)
    ensures Collect(Node(ElementNode, "a", [Attribute("", "href", h2), Attribute("", "title", t), Attribute("", "href", h3)], []))
         == Kept(h2) + Kept(h3)
  {
    TwoHrefAttributes(h2, t, h3);
  }

  lemma TwoHrefAttributes(h2: string, t: string, h3: string)
    ensures AcceptedHrefs([Attribute("", "href", h2), Attribute("", "title", t), Attribute("", "href", h3)]) == Kept(h2) + Kept(h3)
  {
    var x, y, z := Attribute("", "href", h2), Attribute("", "title", t), Attribute("", "href", h3);
    HrefStep([], x);
    assert [] + [x] == [x];
    OtherStep([x], y);
    assert [x] + [y] == [x, y];
    HrefStep([x, y], z);
    assert [x, y] + [z] == [x, y, z];
  }

  /** One more `href` attribute adds what its value keeps. */
  lemma HrefStep(attrs: seq<Attribute>, a: Attribute)
    requires a.key == "href"
    ensures AcceptedHrefs(attrs + [a]) == AcceptedHrefs(attrs) + Kept(a.val)
  {
    AcceptedHrefsSnoc(attrs, a);
  }

  /** One more attribute with another key adds nothing. */
  lemma OtherStep(attrs: seq<Attribute>, a: Attribute)
    requires a.key != "href"
    ensures AcceptedHrefs(attrs + [a]) == AcceptedHrefs(attrs)
  {
    AcceptedHrefsSnoc(attrs, a);
  }

  /** An `href` on an element other than `a` is not read. */
  lemma LinkIgnored(h4: string)
    ensures Collect(Node(ElementNode, "link", [Attribute("", "href", h4)], [])) == []
  {
  }

  /** A name part of name characters, a dot, and 1 to 10 alphanumerics is accepted. */
  lemma AcceptsSplit(s: string, k: nat)
    requires 1 <= k < |s| && s[k] == '.' && 1 <= |s| - k - 1 <= MaxExtension
    requires forall i :: 0 <= i < k ==> IsNameChar(s[i])
    requires forall i :: k < i < |s| ==> IsAlnum(s[i])
    ensures Accept(s)
  {
    assert AllNameChars(s[..k]) by {
      forall i | 0 <= i < k ensures IsNameChar(s[..k][i]) {
        assert s[..k][i] == s[i];
      }
    }
    var ext := s[k + 1..];
    assert AllAlnum(ext) by {
      forall i | 0 <= i < |ext| ensures IsAlnum(ext[i]) {
        assert ext[i] == s[k + 1 + i];
      }
    }
    AcceptIsPattern(s);
  }

  /** Names the grammar refuses: no name part, an over-long extension, a query string. */
  lemma RejectedNames()
    ensures !Accept(".bashrc")
    ensures !Accept("archive.abcdefghijk")
    ensures !Accept("file.txt?C=M")
  {
    RejectsByLastDot(".bashrc", 0);
    AcceptIsPattern(".bashrc");
    RejectsByLastDot("archive.abcdefghijk", 7);
    AcceptIsPattern("archive.abcdefghijk");
    Rejects("file.txt?C=M", 8);
  }

  /** The file name of a download URL is its last element. */
  lemma FileNameOfUrl()
    ensures LocalFileName("http://host/dir/report.pdf") == "report.pdf"
  {
    assert "http://host/dir/report.pdf" == "http://host/dir" + "/" + "report.pdf";
    AcceptsReportPdf();
    LocalFileNameOfEntry("http://host/dir", "report.pdf");
  }

  /** Trailing slashes are dropped before the last element is taken. */
  lemma BaseOfDirectoryPath()
    ensures Base("dir/sub//") == "sub"
  {
    assert "dir/sub//" == "dir/" + "sub" + "//";
    BaseOfLastElement("dir/", "sub", "//");
  }

  /** The two fallback cases: the empty URL and a URL made only of slashes. */
  lemma FallbackFileNames()
    ensures LocalFileName("") == FallbackName
    ensures LocalFileName("///") == FallbackName
  {
    var s := "///";
    assert forall i :: 0 <= i < |s| ==> s[i] == '/';
    assert Base(s) == "/";
  }
}
