// The document tree of the browser: a fixed pool of nodes linked by first child and next sibling.
module Dom {
  const MAX_NODES: nat := 512
  const MAX_TEXT: nat := 256
  const MAX_ATTR: nat := 256

  datatype Tag =
    | Html | Head | Body | Title | Div | Span | H1 | H2 | H3 | H4 | H5 | H6 | P | Br | Hr | B | I | U | S
    | Code | Mark | Small | Pre | Blockquote | A | Img | Ul | Ol | Li | Dl | Dt | Dd | Table | Thead | Tbody
    | Tfoot | Caption | Tr | Th | Td | Header | Nav | Main | Section | Article | Aside | Footer | Text
    | Unknown

  // The table of tag names (dom_tag_from_name), for a name in lower case: the
  // first entry of the same length and the same characters.
  function Lookup(n: string): Tag {
    if |n| == 4 && n == "html" then Html
    else if |n| == 4 && n == "head" then Head
    else if |n| == 4 && n == "body" then Body
    else if |n| == 5 && n == "title" then Title
    else if |n| == 3 && n == "div" then Div
    else if |n| == 4 && n == "span" then Span
    else if |n| == 2 && n == "h1" then H1
    else if |n| == 2 && n == "h2" then H2
    else if |n| == 2 && n == "h3" then H3
    else if |n| == 2 && n == "h4" then H4
    else if |n| == 2 && n == "h5" then H5
    else if |n| == 2 && n == "h6" then H6
    else if |n| == 1 && n == "p" then P
    else if |n| == 2 && n == "br" then Br
    else if |n| == 2 && n == "hr" then Hr
    else if |n| == 1 && n == "b" then B
    else if |n| == 6 && n == "strong" then B
    else if |n| == 1 && n == "i" then I
    else if |n| == 2 && n == "em" then I
    else if |n| == 1 && n == "u" then U
    else if |n| == 1 && n == "s" then S
    else if |n| == 3 && n == "del" then S
    else if |n| == 6 && n == "strike" then S
    else if |n| == 4 && n == "code" then Code
    else if |n| == 3 && n == "kbd" then Code
    else if |n| == 4 && n == "samp" then Code
    else if |n| == 2 && n == "tt" then Code
    else if |n| == 4 && n == "mark" then Mark
    else if |n| == 5 && n == "small" then Small
    else if |n| == 3 && n == "pre" then Pre
    else if |n| == 10 && n == "blockquote" then Blockquote
    else if |n| == 1 && n == "q" then Blockquote
    else if |n| == 1 && n == "a" then A
    else if |n| == 3 && n == "img" then Img
    else if |n| == 2 && n == "ul" then Ul
    else if |n| == 2 && n == "ol" then Ol
    else if |n| == 2 && n == "li" then Li
    else if |n| == 2 && n == "dl" then Dl
    else if |n| == 2 && n == "dt" then Dt
    else if |n| == 2 && n == "dd" then Dd
    else if |n| == 5 && n == "table" then Table
    else if |n| == 5 && n == "thead" then Thead
    else if |n| == 5 && n == "tbody" then Tbody
    else if |n| == 5 && n == "tfoot" then Tfoot
    else if |n| == 7 && n == "caption" then Caption
    else if |n| == 2 && n == "tr" then Tr
    else if |n| == 2 && n == "th" then Th
    else if |n| == 2 && n == "td" then Td
    else if |n| == 6 && n == "header" then Header
    else if |n| == 3 && n == "nav" then Nav
    else if |n| == 4 && n == "main" then Main
    else if |n| == 7 && n == "section" then Section
    else if |n| == 7 && n == "article" then Article
    else if |n| == 5 && n == "aside" then Aside
    else if |n| == 6 && n == "footer" then Footer
    else if |n| == 4 && n == "meta" then Unknown
    else if |n| == 4 && n == "link" then Unknown
    else if |n| == 5 && n == "input" then Unknown
    else if |n| == 6 && n == "source" then Unknown
    else if |n| == 3 && n == "wbr" then Br
    else Unknown
  }

  // tag_name_str
  function TagName(t: Tag): string {
    match t
    case Html => "html"
    case Head => "head"
    case Body => "body"
    case Title => "title"
    case Div => "div"
    case Span => "span"
    case H1 => "h1"
    case H2 => "h2"
    case H3 => "h3"
    case H4 => "h4"
    case H5 => "h5"
    case H6 => "h6"
    case P => "p"
    case Br => "br"
    case Hr => "hr"
    case B => "b"
    case I => "i"
    case U => "u"
    case S => "s"
    case Code => "code"
    case Mark => "mark"
    case Small => "small"
    case Pre => "pre"
    case Blockquote => "blockquote"
    case A => "a"
    case Img => "img"
    case Ul => "ul"
    case Ol => "ol"
    case Li => "li"
    case Dl => "dl"
    case Dt => "dt"
    case Dd => "dd"
    case Table => "table"
    case Thead => "thead"
    case Tbody => "tbody"
    case Tfoot => "tfoot"
    case Caption => "caption"
    case Tr => "tr"
    case Th => "th"
    case Td => "td"
    case Header => "header"
    case Nav => "nav"
    case Main => "main"
    case Section => "section"
    case Article => "article"
    case Aside => "aside"
    case Footer => "footer"
    case Text => "TEXT"
    case Unknown => "?"
  }

  predicate IsVoid(t: Tag) { t in {Br, Hr, Img} }

  // The tags that stand for an element.
  predicate Known(t: Tag) { t != Text && t != Unknown }

  lemma LookupOne(t: Tag)
    requires t in {P, B, I, U, S, A}
    ensures Lookup(TagName(t)) == t
  {
  }

  lemma LookupTwoBlock(t: Tag)
    requires t in {H1, H2, H3, H4, H5, H6, Br, Hr}
    ensures Lookup(TagName(t)) == t
  {
  }

  // The two-letter names further down the table, one at a time.
  lemma LookupUl() ensures Lookup("ul") == Ul {}
  lemma LookupOl() ensures Lookup("ol") == Ol {}
  lemma LookupLi() ensures Lookup("li") == Li {}
  lemma LookupDl() ensures Lookup("dl") == Dl {}
  lemma LookupDt() ensures Lookup("dt") == Dt {}
  lemma LookupDd() ensures Lookup("dd") == Dd {}
  lemma LookupTr() ensures Lookup("tr") == Tr {}
  lemma LookupTh() ensures Lookup("th") == Th {}
  lemma LookupTd() ensures Lookup("td") == Td {}

  lemma LookupTwo(t: Tag)
    requires t in {Ul, Ol, Li, Dl, Dt, Dd, Tr, Th, Td}
    ensures Lookup(TagName(t)) == t
  {
    hide Lookup;
    match t
    case Ul => LookupUl();
    case Ol => LookupOl();
    case Li => LookupLi();
    case Dl => LookupDl();
    case Dt => LookupDt();
    case Dd => LookupDd();
    case Tr => LookupTr();
    case Th => LookupTh();
    case _ => LookupTd();
  }

  lemma LookupThree(t: Tag)
    requires t in {Div, Pre, Img, Nav}
    ensures Lookup(TagName(t)) == t
  {
  }

  lemma LookupFour(t: Tag)
    requires t in {Html, Head, Body, Span, Code, Mark, Main}
    ensures Lookup(TagName(t)) == t
  {
  }

  lemma LookupFive(t: Tag)
    requires t in {Title, Small, Table, Thead, Tbody, Tfoot, Aside}
    ensures Lookup(TagName(t)) == t
  {
  }

  lemma LookupSix(t: Tag)
    requires t in {Header, Footer}
    ensures Lookup(TagName(t)) == t
  {
  }

  lemma LookupLong(t: Tag)
    requires t in {Caption, Section, Article, Blockquote}
    ensures Lookup(TagName(t)) == t
  {
  }

  // The name of a tag leads back to it.
  lemma LookupName(t: Tag)
    requires Known(t)
    ensures Lookup(TagName(t)) == t
  {
    hide Lookup, TagName;
    if t in {P, B, I, U, S, A} {
      LookupOne(t);
    } else if t in {H1, H2, H3, H4, H5, H6, Br, Hr} {
      LookupTwoBlock(t);
    } else if t in {Ul, Ol, Li, Dl, Dt, Dd, Tr, Th, Td} {
      LookupTwo(t);
    } else if t in {Div, Pre, Img, Nav} {
      LookupThree(t);
    } else if t in {Html, Head, Body, Span, Code, Mark, Main} {
      LookupFour(t);
    } else if t in {Title, Small, Table, Thead, Tbody, Tfoot, Aside} {
      LookupFive(t);
    } else if t in {Header, Footer} {
      LookupSix(t);
    } else {
      LookupLong(t);
    }
  }

  // The other names of a tag.
  ghost function Aliases(t: Tag): set<string> {
    match t
    case B => {"strong"}
    case I => {"em"}
    case S => {"del", "strike"}
    case Code => {"kbd", "samp", "tt"}
    case Blockquote => {"q"}
    case Br => {"wbr"}
    case _ => {}
  }

  ghost predicate Spelled(n: string, t: Tag) { t == Unknown || (t != Text && (n == TagName(t) || n in Aliases(t))) }

  // Looking a name up gives an element's tag exactly for its name and its other names; no name
  // gives a text node.
  lemma LookupExactly(n: string, t: Tag)
    ensures Known(t) ==> (Lookup(n) == t <==> n == TagName(t) || n in Aliases(t))
    ensures Lookup(n) != Text
  {
    hide Lookup, TagName;
    LookupSpelled(n);
    if Known(t) && n in Aliases(t) { AliasFound(n, t); }
    if Known(t) { LookupName(t); }
  }

  lemma LookupSpelled(n: string)
    ensures Spelled(n, Lookup(n))
  {
    hide Lookup, Spelled;
    if |n| <= 1 {
      SpelledShort(n);
    } else if |n| == 2 {
      if n[0] in {'h', 't'} { SpelledWithHOrT(n); } else { SpelledTwoLetters(n); }
    } else if |n| == 3 {
      SpelledThreeLetters(n);
    } else if |n| == 4 {
      SpelledFourLetters(n);
    } else if |n| == 5 {
      SpelledFiveLetters(n);
    } else {
      SpelledLong(n);
    }
  }

  lemma SpelledShort(n: string)
    requires |n| <= 1
    ensures Spelled(n, Lookup(n))
  {
  }

  lemma SpelledWithHOrT(n: string)
    requires |n| == 2 && n[0] in {'h', 't'}
    ensures Spelled(n, Lookup(n))
  {
  }

  lemma SpelledTwoLetters(n: string)
    requires |n| == 2 && n[0] !in {'h', 't'}
    ensures Spelled(n, Lookup(n))
  {
  }

  lemma SpelledThreeLetters(n: string)
    requires |n| == 3
    ensures Spelled(n, Lookup(n))
  {
  }

  lemma SpelledFourLetters(n: string)
    requires |n| == 4
    ensures Spelled(n, Lookup(n))
  {
  }

  lemma SpelledFiveLetters(n: string)
    requires |n| == 5
    ensures Spelled(n, Lookup(n))
  {
  }

  lemma SpelledLong(n: string)
    requires |n| >= 6
    ensures Spelled(n, Lookup(n))
  {
  }

  lemma AliasFound(n: string, t: Tag)
    requires n in Aliases(t)
    ensures Lookup(n) == t
  {
    hide Lookup;
    LookupStrong();
    LookupEm();
    LookupDel();
    LookupStrike();
    LookupKbd();
    LookupSamp();
    LookupTt();
    LookupQ();
    LookupWbr();
  }

  lemma LookupStrong() ensures Lookup("strong") == B {}
  lemma LookupEm() ensures Lookup("em") == I {}
  lemma LookupDel() ensures Lookup("del") == S {}
  lemma LookupStrike() ensures Lookup("strike") == S {}
  lemma LookupKbd() ensures Lookup("kbd") == Code {}
  lemma LookupSamp() ensures Lookup("samp") == Code {}
  lemma LookupTt() ensures Lookup("tt") == Code {}
  lemma LookupQ() ensures Lookup("q") == Blockquote {}
  lemma LookupWbr() ensures Lookup("wbr") == Br {}

  // ---------- Abstract documents ----------

  // Everything a node carries besides its links.
  datatype Info = Info(tag: Tag, text: string, attr: string, attr2: string, w: int, h: int, listIndex: nat)

  function Blank(tag: Tag): Info { Info(tag, "", "", "", 0, 0, 0) }

  // A document: the nodes in the order they were made, each with its parent (-1 for none).
  datatype Item = Item(info: Info, parent: int)

  type Document = seq<Item>

  // The first node from index k on whose parent is p; -1 if there is none.
  function NextWith(d: Document, k: nat, p: int): (r: int)
    ensures r == -1 || (k <= r < |d| && d[r].parent == p)
    decreases |d| - k
  {
    if k >= |d| then -1 else if d[k].parent == p then k else NextWith(d, k + 1, p)
  }

  function FirstChild(d: Document, i: nat): int { NextWith(d, i + 1, i) }

  function NextSibling(d: Document, i: nat): int
    requires i < |d|
  {
    if d[i].parent < 0 then -1 else NextWith(d, i + 1, d[i].parent)
  }

  // A proper tree: one root, and every other node made after its parent.
  ghost predicate IsTree(d: Document) {
    d != [] && d[0].parent == -1 && forall i :: 1 <= i < |d| ==> 0 <= d[i].parent < i
  }

  // ---------- The pool ----------

  datatype Node = Node(info: Info, firstChild: int, nextSibling: int, parent: int)

  // The node that stands for the i-th of the document.
  function Linked(d: Document, i: nat): Node
    requires i < |d|
  {
    Node(d[i].info, FirstChild(d, i), NextSibling(d, i), d[i].parent)
  }

  ghost predicate Shows(nodes: seq<Node>, d: Document) {
    |d| <= |nodes| && forall i: nat :: i < |d| ==> nodes[i] == Linked(d, i)
  }

  lemma {:induction false} NextWithAppend(d: Document, x: Item, k: nat, p: int)
    requires k <= |d|
    ensures NextWith(d + [x], k, p) ==
            if NextWith(d, k, p) != -1 then NextWith(d, k, p) else if x.parent == p then |d| else -1
    decreases |d| - k
  {
    if k < |d| && d[k].parent != p { NextWithAppend(d, x, k + 1, p); }
  }

  // From a child on, the next one with the same parent.
  lemma {:induction false} NextWithFrom(d: Document, k: nat, m: nat, p: int)
    requires k <= m <= |d| && forall j :: k <= j < m ==> d[j].parent != p
    ensures NextWith(d, k, p) == NextWith(d, m, p)
    decreases m - k
  {
    if k < m { NextWithFrom(d, k + 1, m, p); }
  }

  // A new node without parent disturbs no link.
  lemma NodeAdded(nodes: seq<Node>, nodes': seq<Node>, d: Document, x: Item)
    requires Shows(nodes, d) && x.parent == -1 && |d| < |nodes| == |nodes'|
    requires forall i :: 0 <= i < |d| ==> d[i].parent >= -1 && d[i].parent < |d|
    requires nodes' == nodes[|d| := Node(x.info, -1, -1, -1)]
    ensures Shows(nodes', d + [x])
  {
    forall i: nat | i < |d| + 1 ensures nodes'[i] == Linked(d + [x], i) {
      if i < |d| {
        NextWithAppend(d, x, i + 1, i);
        if d[i].parent >= 0 { NextWithAppend(d, x, i + 1, d[i].parent); }
      }
    }
  }

  lemma {:induction false} NextWithLeast(d: Document, k: nat, p: int)
    ensures forall j :: k <= j < |d| && d[j].parent == p ==> k <= NextWith(d, k, p) <= j
    decreases |d| - k
  {
    if k < |d| && d[k].parent != p { NextWithLeast(d, k + 1, p); }
  }

  // The last node gets a parent: one link leads to it, from the parent or from its last child so far.
  lemma ChildAppended(nodes: seq<Node>, nodes': seq<Node>, d: Document, x: Item, p: nat, l: nat)
    requires Shows(nodes, d + [x.(parent := -1)]) && p < |d| < |nodes| == |nodes'| && x.parent == p
    requires forall i :: 0 <= i < |d| ==> -1 <= d[i].parent < i
    requires if FirstChild(d, p) == -1 then l == p else p < l < |d| && d[l].parent == p && NextWith(d, l + 1, p) == -1
    requires var c := |d|;
             var child := nodes[c := Node(x.info, nodes[c].firstChild, -1, p)];
             nodes' ==
             if l == p then child[p := child[p].(firstChild := c)] else child[l := child[l].(nextSibling := c)]
    ensures Shows(nodes', d + [x])
  {
    forall i: nat | i <= |d| ensures nodes'[i] == Linked(d + [x], i) {
      ChildLinks(nodes, d, x, p, l, i);
    }
  }

  lemma ChildLinks(nodes: seq<Node>, d: Document, x: Item, p: nat, l: nat, i: nat)
    requires Shows(nodes, d + [x.(parent := -1)]) && p < |d| < |nodes| && x.parent == p && i <= |d|
    requires forall i :: 0 <= i < |d| ==> -1 <= d[i].parent < i
    requires if FirstChild(d, p) == -1 then l == p else p < l < |d| && d[l].parent == p && NextWith(d, l + 1, p) == -1
    ensures var c := |d|;
            && Linked(d + [x], i).firstChild == (if i == p && l == p then c else nodes[i].firstChild)
            && Linked(d + [x], i).nextSibling ==
               (if i == l && l != p then c else if i == c then -1 else nodes[i].nextSibling)
            && Linked(d + [x], i).info == (if i == c then x.info else nodes[i].info)
            && Linked(d + [x], i).parent == (if i == c then p else nodes[i].parent)
  {
    hide NextWith;
    var y := x.(parent := -1);
    assert nodes[i] == Linked(d + [y], i);
    NextWithEnd(d + [x], |d| + 1, i);
    NextWithEnd(d + [y], |d| + 1, i);
    NextWithEnd(d + [x], |d| + 1, p);
    if i < |d| {
      FirstLink(d, x, p, l, i);
      NextLink(d, x, p, l, i);
    }
  }

  lemma FirstLink(d: Document, x: Item, p: nat, l: nat, i: nat)
    requires p < |d| && x.parent == p && i < |d|
    requires if FirstChild(d, p) == -1 then l == p else p < l
    ensures FirstChild(d + [x], i) == if i == p && l == p then |d| else FirstChild(d + [x.(parent := -1)], i)
  {
    hide NextWith;
    NextWithAppend(d, x, i + 1, i);
    NextWithAppend(d, x.(parent := -1), i + 1, i);
  }

  lemma NextLink(d: Document, x: Item, p: nat, l: nat, i: nat)
    requires p < |d| && x.parent == p && i < |d| && forall j :: 0 <= j < |d| ==> -1 <= d[j].parent < j
    requires if FirstChild(d, p) == -1 then l == p else p < l < |d| && d[l].parent == p && NextWith(d, l + 1, p) == -1
    ensures NextSibling(d + [x], i) == if i == l && l != p then |d| else NextSibling(d + [x.(parent := -1)], i)
  {
    hide NextWith;
    var q := d[i].parent;
    if q >= 0 {
      NextWithAppend(d, x, i + 1, q);
      NextWithAppend(d, x.(parent := -1), i + 1, q);
      if q == p {
        NextWithLeast(d, i + 1, p);
        NextWithLeast(d, l + 1, p);
        NextWithLeast(d, p + 1, p);
      }
    }
  }

  lemma NextWithEnd(d: Document, k: nat, p: int)
    requires k >= |d|
    ensures NextWith(d, k, p) == -1
  {
  }

  class Pool {
    const nodes: array<Node>
    var count: nat

    // The nodes in use are the document d.
    ghost predicate Holds(d: Document)
      reads this, nodes
    {
      nodes.Length == MAX_NODES && count == |d| && Shows(nodes[..], d)
    }

    // dom_reset
    constructor ()
      ensures Holds([]) && fresh(nodes)
    {
      nodes := new Node[MAX_NODES](_ => Node(Blank(Unknown), -1, -1, -1));
      count := 0;
    }

    // dom_new_node, with the fields the caller then sets; -1 when the pool is full.
    method NewNode(info: Info, ghost d: Document) returns (n: int)
      requires Holds(d) && forall i :: 0 <= i < |d| ==> -1 <= d[i].parent < i
      modifies this, nodes
      ensures n == -1 <==> |d| == 512
      ensures n == -1 ==> Holds(d)
      ensures n != -1 ==> n == |d| && Holds(d + [Item(info, -1)])
    {
      hide Linked;
      if count >= MAX_NODES { return -1; }
      n := count;
      ghost var was := nodes[..];
      nodes[count] := Node(info, -1, -1, -1);
      count := count + 1;
      NodeAdded(was, nodes[..], d, Item(info, -1));
    }

    // dom_append_child for the newest node.
    method AppendChild(parent: nat, child: nat, ghost d: Document, ghost info: Info)
      requires parent < child == |d| && Holds(d + [Item(info, -1)])
      requires forall i :: 0 <= i < |d| ==> -1 <= d[i].parent < i
      modifies nodes
      ensures Holds(d + [Item(info, parent)])
    {
      hide Linked, Shows, NextWith;
      ghost var was, x := nodes[..], Item(info, parent);
      NodeAt(was, d + [Item(info, -1)], parent);
      NodeAt(was, d + [Item(info, -1)], child);
      SameLinks(d, Item(info, -1), parent);
      nodes[child] := nodes[child].(parent := parent, nextSibling := -1);
      if nodes[parent].firstChild == -1 {
        nodes[parent] := nodes[parent].(firstChild := child);
        ChildAppended(was, nodes[..], d, x, parent, parent);
        return;
      }
      var last := nodes[parent].firstChild;
      while nodes[last].nextSibling != -1
        invariant parent < last < child && d[last].parent == parent
        invariant nodes[..] == was[child := Node(info, was[child].firstChild, -1, parent)]
        decreases child - last
      {
        NodeAt(was, d + [Item(info, -1)], last);
        SameLinks(d, Item(info, -1), last);
        last := nodes[last].nextSibling;
      }
      NodeAt(was, d + [Item(info, -1)], last);
      SameLinks(d, Item(info, -1), last);
      nodes[last] := nodes[last].(nextSibling := child);
      ChildAppended(was, nodes[..], d, x, parent, last);
    }
  }

  lemma NodeAt(nodes: seq<Node>, d: Document, i: nat)
    requires Shows(nodes, d) && i < |d|
    ensures i < |nodes| && nodes[i].info == d[i].info && nodes[i].parent == d[i].parent
    ensures nodes[i].firstChild == FirstChild(d, i) && nodes[i].nextSibling == NextSibling(d, i)
  {
  }

  // A node without parent is nobody's child or sibling.
  lemma SameLinks(d: Document, y: Item, i: nat)
    requires y.parent == -1 && i < |d| && -1 <= d[i].parent < i
    ensures FirstChild(d + [y], i) == FirstChild(d, i) && NextSibling(d + [y], i) == NextSibling(d, i)
    ensures FirstChild(d, i) == -1 || (i < FirstChild(d, i) < |d| && d[FirstChild(d, i)].parent == i)
    ensures NextSibling(d, i) == -1 || (i < NextSibling(d, i) < |d| && d[NextSibling(d, i)].parent == d[i].parent)
    ensures d[i].parent >= 0 ==> NextSibling(d, i) == NextWith(d, i + 1, d[i].parent)
  {
    hide NextWith;
    NextWithAppend(d, y, i + 1, i);
    if d[i].parent >= 0 { NextWithAppend(d, y, i + 1, d[i].parent); }
  }
}
