/**
 * The directory-listing link collector (sanny.go, parseHTML).
 *
 * The source walks the parsed document depth-first with a recursive closure
 * that appends to a captured slice. `Collector` is that closure and its slice;
 * `Collect` is the pure pre-order filter it computes, and the lemmas relate
 * `Collect` to an independent reference: the accepted `href` values of the
 * anchors, listed node by node in pre-order, attribute by attribute.
 */
module Listing {
  import opened Html
  import opened FileName
  import opened Classify

  /** The outcome of the HTML parser (an input here) and of `ParseHTML`. */
  datatype Result<T> = Ok(value: T) | Err(msg: string)

  // ---------------------------------------------------------------------------
  // What the traversal computes, in the shape of the source's two loops
  // ---------------------------------------------------------------------------

  /** The accepted `href` values among `attrs`, in list order. */
  function AcceptedHrefs(attrs: seq<Attribute>): seq<string>
  {
    if attrs == [] then []
    else
      var last := attrs[|attrs| - 1];
      AcceptedHrefs(attrs[..|attrs| - 1]) + (if last.key == "href" && Accept(last.val) then [last.val] else [])
  }

  /** What visiting `n` appends: its own entries, if it is an anchor, then its descendants'. */
  function Collect(n: Node): seq<string>
    decreases n
  {
    (if IsAnchor(n) then AcceptedHrefs(n.attr) else []) + CollectForest(n.children)
  }

  /** What visiting the nodes `ns` one after another appends. */
  function CollectForest(ns: seq<Node>): seq<string>
    decreases ns
  {
    if ns == [] then [] else CollectForest(ns[..|ns| - 1]) + Collect(ns[|ns| - 1])
  }

  // ---------------------------------------------------------------------------
  // The reference: filter the href values of the anchors in pre-order
  // ---------------------------------------------------------------------------

  /** The nodes of the tree rooted at `n`, each before its children, children in sibling order. */
  function PreOrder(n: Node): (r: seq<Node>)
    ensures |r| >= 1 && r[0] == n
    decreases n
  {
    [n] + PreOrderForest(n.children)
  }

  function PreOrderForest(ns: seq<Node>): seq<Node>
    decreases ns
  {
    if ns == [] then [] else PreOrder(ns[0]) + PreOrderForest(ns[1..])
  }

  /** The values of the `href` attributes in `attrs`, in list order, whatever their namespace. */
  function HrefValues(attrs: seq<Attribute>): seq<string>
  {
    if attrs == [] then []
    else (if attrs[0].key == "href" then [attrs[0].val] else []) + HrefValues(attrs[1..])
  }

  /** The link candidates of one node: the href values of an anchor, nothing for any other node. */
  function Candidates(n: Node): seq<string>
  {
    if IsAnchor(n) then HrefValues(n.attr) else []
  }

  /** The link candidates of a sequence of nodes, node by node. */
  function CandidatesOf(ns: seq<Node>): seq<string>
  {
    if ns == [] then [] else Candidates(ns[0]) + CandidatesOf(ns[1..])
  }

  /**
   * The accepted elements of `s`, in order: exactly the accepted ones, each
   * occurrence kept.
   */
  function KeepAccepted(s: seq<string>): (r: seq<string>)
    ensures |r| <= |s|
    ensures forall x :: x in r <==> x in s && Accept(x)
  {
    if s == [] then []
    else
      var rest := KeepAccepted(s[1..]);
      assert s == [s[0]] + s[1..];
      if Accept(s[0]) then [s[0]] + rest else rest
  }

  /** `KeepAccepted` keeps every occurrence of an accepted value and none of a rejected one. */
  lemma {:induction false} KeepAcceptedCount(s: seq<string>, x: string)
    ensures multiset(KeepAccepted(s))[x] == if Accept(x) then multiset(s)[x] else 0
  {
    if s != [] {
      assert s == [s[0]] + s[1..];
      KeepAcceptedCount(s[1..], x);
    }
  }

  // ---------------------------------------------------------------------------
  // Distribution lemmas
  // ---------------------------------------------------------------------------

  lemma {:induction false} KeepAcceptedAppend(a: seq<string>, b: seq<string>)
    ensures KeepAccepted(a + b) == KeepAccepted(a) + KeepAccepted(b)
  {
    if a == [] {
      assert a + b == b;
    } else {
      assert (a + b)[1..] == a[1..] + b;
      KeepAcceptedAppend(a[1..], b);
    }
  }

  lemma {:induction false} HrefValuesAppend(a: seq<Attribute>, b: seq<Attribute>)
    ensures HrefValues(a + b) == HrefValues(a) + HrefValues(b)
  {
    if a == [] {
      assert a + b == b;
    } else {
      assert (a + b)[1..] == a[1..] + b;
      HrefValuesAppend(a[1..], b);
    }
  }

  lemma {:induction false} CandidatesOfAppend(a: seq<Node>, b: seq<Node>)
    ensures CandidatesOf(a + b) == CandidatesOf(a) + CandidatesOf(b)
  {
    if a == [] {
      assert a + b == b;
    } else {
      assert (a + b)[1..] == a[1..] + b;
      CandidatesOfAppend(a[1..], b);
    }
  }

  lemma {:induction false} PreOrderForestSnoc(ns: seq<Node>, last: Node)
    ensures PreOrderForest(ns + [last]) == PreOrderForest(ns) + PreOrder(last)
  {
    if ns == [] {
      assert ns + [last] == [last];
      assert [last][1..] == [];
    } else {
      assert (ns + [last])[1..] == ns[1..] + [last];
      PreOrderForestSnoc(ns[1..], last);
    }
  }

  /** The attribute loop keeps exactly the accepted href values, in list order. */
  lemma {:induction false} AcceptedHrefsIsFilter(attrs: seq<Attribute>)
    ensures AcceptedHrefs(attrs) == KeepAccepted(HrefValues(attrs))
  {
    if attrs != [] {
      var init, last := attrs[..|attrs| - 1], attrs[|attrs| - 1];
      assert attrs == init + [last];
      AcceptedHrefsIsFilter(init);
      HrefValuesAppend(init, [last]);
      KeepAcceptedAppend(HrefValues(init), HrefValues([last]));
      assert [last][1..] == [];
      var tail := if last.key == "href" then [last.val] else [];
      assert HrefValues([last]) == tail + [];
      assert KeepAccepted(tail) == if last.key == "href" && Accept(last.val) then [last.val] else [];
    }
  }

  /** One more attribute: the step of the attribute loop. */
  lemma AcceptedHrefsSnoc(attrs: seq<Attribute>, a: Attribute)
    ensures AcceptedHrefs(attrs + [a]) == AcceptedHrefs(attrs) + (if a.key == "href" && Accept(a.val) then [a.val] else [])
  {
    assert (attrs + [a])[..|attrs|] == attrs;
  }

  /** One more sibling: the step of the children loop. */
  lemma CollectForestSnoc(ns: seq<Node>, m: Node)
    ensures CollectForest(ns + [m]) == CollectForest(ns) + Collect(m)
  {
    assert (ns + [m])[..|ns|] == ns;
  }

  // ---------------------------------------------------------------------------
  // The traversal equals the reference
  // ---------------------------------------------------------------------------

  /** Visiting `n` appends the accepted href values of the anchors of its tree, in pre-order. */
  lemma {:induction false} CollectIsFilteredPreOrder(n: Node)
    ensures Collect(n) == KeepAccepted(CandidatesOf(PreOrder(n)))
    decreases n
  {
    var own := if IsAnchor(n) then AcceptedHrefs(n.attr) else [];
    AcceptedHrefsIsFilter(n.attr);
    assert own == KeepAccepted(Candidates(n));
    CollectForestIsFilteredPreOrder(n.children);
    CandidatesOfAppend([n], PreOrderForest(n.children));
    assert [n][1..] == [];
    assert CandidatesOf([n]) == Candidates(n);
    KeepAcceptedAppend(Candidates(n), CandidatesOf(PreOrderForest(n.children)));
  }

  lemma {:induction false} CollectForestIsFilteredPreOrder(ns: seq<Node>)
    ensures CollectForest(ns) == KeepAccepted(CandidatesOf(PreOrderForest(ns)))
    decreases ns
  {
    if ns != [] {
      var init, last := ns[..|ns| - 1], ns[|ns| - 1];
      assert ns == init + [last];
      CollectForestIsFilteredPreOrder(init);
      CollectIsFilteredPreOrder(last);
      PreOrderForestSnoc(init, last);
      CandidatesOfAppend(PreOrderForest(init), PreOrder(last));
      KeepAcceptedAppend(CandidatesOf(PreOrderForest(init)), CandidatesOf(PreOrder(last)));
    }
  }

  // ---------------------------------------------------------------------------
  // Properties of the collected entries
  // ---------------------------------------------------------------------------

  /** Every collected entry is a word of the file-name grammar and passed every early filter. */
  lemma CollectSound(n: Node)
    ensures forall p :: p in Collect(n) ==> FileNamePattern(p) && Accept(p)
    ensures forall p :: p in Collect(n) ==> p != "../" && p != "" && p != "./" && !IsExternal(p) && !IsDirectory(p)
  {
    CollectIsFilteredPreOrder(n);
    forall p | p in Collect(n) ensures FileNamePattern(p) && !IsExternal(p) && !IsDirectory(p) {
      AcceptIsPattern(p);
    }
  }

  lemma {:induction false} CandidatesOfContains(ns: seq<Node>, i: nat, x: string)
    requires i < |ns| && x in Candidates(ns[i])
    ensures x in CandidatesOf(ns)
  {
    if i > 0 {
      CandidatesOfContains(ns[1..], i - 1, x);
    }
  }

  lemma {:induction false} HrefValuesContains(attrs: seq<Attribute>, j: nat)
    requires j < |attrs| && attrs[j].key == "href"
    ensures attrs[j].val in HrefValues(attrs)
  {
    if j > 0 {
      HrefValuesContains(attrs[1..], j - 1);
    }
  }

  /**
   * Every `href` attribute of every anchor in the tree (descendants of anchors
   * included) whose value is in the grammar is collected.
   */
  lemma CollectComplete(n: Node, i: nat, j: nat)
    requires i < |PreOrder(n)| && IsAnchor(PreOrder(n)[i])
    requires j < |PreOrder(n)[i].attr| && PreOrder(n)[i].attr[j].key == "href"
    requires FileNamePattern(PreOrder(n)[i].attr[j].val)
    ensures PreOrder(n)[i].attr[j].val in Collect(n)
  {
    var m := PreOrder(n)[i];
    AcceptIsPattern(m.attr[j].val);
    HrefValuesContains(m.attr, j);
    CandidatesOfContains(PreOrder(n), i, m.attr[j].val);
    CollectIsFilteredPreOrder(n);
  }

  /** Duplicates are kept: an accepted value occurs as often as it occurs among the candidates. */
  lemma CollectKeepsEveryOccurrence(n: Node, x: string)
    requires Accept(x)
    ensures multiset(Collect(n))[x] == multiset(CandidatesOf(PreOrder(n)))[x]
  {
    CollectIsFilteredPreOrder(n);
    KeepAcceptedCount(CandidatesOf(PreOrder(n)), x);
  }

  lemma {:induction false} NoAnchorNoCandidates(ns: seq<Node>)
    requires forall k :: 0 <= k < |ns| ==> !IsAnchor(ns[k])
    ensures CandidatesOf(ns) == []
  {
    if ns != [] {
      NoAnchorNoCandidates(ns[1..]);
    }
  }

  /** A tree without anchors yields no entries. */
  lemma NoAnchorsNoEntries(n: Node)
    requires forall k :: 0 <= k < |PreOrder(n)| ==> !IsAnchor(PreOrder(n)[k])
    ensures Collect(n) == []
  {
    NoAnchorNoCandidates(PreOrder(n));
    CollectIsFilteredPreOrder(n);
  }

  // ---------------------------------------------------------------------------
  // The imperative traversal
  // ---------------------------------------------------------------------------

  /** The recursive closure of parseHTML together with the slice it appends to. */
  class Collector {
    var paths: seq<string>

    constructor ()
      ensures paths == []
    {
      paths := [];
    }

    /** The loop over an anchor's attributes: append each accepted `href` value, in list order. */
    method VisitAttributes(attrs: seq<Attribute>)
      modifies this
      ensures paths == old(paths) + AcceptedHrefs(attrs)
    {
      for i := 0 to |attrs|
        invariant paths == old(paths) + AcceptedHrefs(attrs[..i])
      {
        var attr := attrs[i];
        if attr.key == "href" && Accept(attr.val) {
          paths := paths + [attr.val];
        }
        assert attrs[..i + 1][..i] == attrs[..i];
      }
      assert attrs[..|attrs|] == attrs;
    }

    /** Visit `n` and its descendants, appending the accepted hrefs in document order. */
    method Visit(n: Node)
      modifies this
      ensures paths == old(paths) + Collect(n)
      decreases n
    {
      if n.kind == ElementNode && n.data == "a" {
        VisitAttributes(n.attr);
      }
      ghost var own := paths;
      var i := 0;
      while i < |n.children|
        invariant 0 <= i <= |n.children|
        invariant paths == own + CollectForest(n.children[..i])
      {
        Visit(n.children[i]);
        assert n.children[..i + 1][..i] == n.children[..i];
        i := i + 1;
      }
      assert n.children[..|n.children|] == n.children;
      assert own == old(paths) + (if IsAnchor(n) then AcceptedHrefs(n.attr) else []);
    }
  }

  /**
   * parseHTML on the parser's outcome: a parse error is returned as is;
   * otherwise the entries of the whole document, with no error.
   */
  method ParseHTML(parsed: Result<Node>) returns (r: Result<seq<string>>)
    ensures parsed.Err? ==> r == Err(parsed.msg)
    ensures parsed.Ok? ==> r == Ok(KeepAccepted(CandidatesOf(PreOrder(parsed.value))))
  {
    if parsed.Err? {
      return Err(parsed.msg);
    }
    var c := new Collector();
    c.Visit(parsed.value);
    assert c.paths == [] + Collect(parsed.value) == Collect(parsed.value);
    CollectIsFilteredPreOrder(parsed.value);
    return Ok(c.paths);
  }
}
