// Printing a tree of elements and parsing the result gives the tree back.
module HtmlRoundTrip {
  import opened Dom
  import opened HtmlScan
  import opened HtmlParse

  // ---------- Trees and how they are printed ----------

  // What an element carries: nothing, the target of a link, or what an image shows and how large.
  datatype Attrs = None | Link(href: string) | Picture(src: string, alt: string, w: nat, h: nat)

  datatype Tree = Elem(tag: Tag, attrs: Attrs, kids: seq<Tree>) | Words(text: string)

  function EscapeChar(c: char): (e: string)
    ensures e != ""
  {
    if c == '&' then "&amp;" else if c == '<' then "&lt;" else [c]
  }

  function Escape(s: string): string { if s == "" then "" else EscapeChar(s[0]) + Escape(s[1..]) }

  // Attributes in the order in which they are printed, each name with its value.
  function Pairs(a: Attrs): seq<(string, string)> {
    match a
    case None => []
    case Link(href) => [("href", href)]
    case Picture(src, alt, w, h) => [("src", src), ("alt", alt), ("width", Decimal(w)), ("height", Decimal(h))]
  }

  function PairText(p: (string, string)): string { " " + (p.0 + ("=\"" + (p.1 + "\""))) }

  function PairsText(ps: seq<(string, string)>): string {
    if ps == [] then "" else PairText(ps[0]) + PairsText(ps[1..])
  }

  function AttrsText(a: Attrs): string { PairsText(Pairs(a)) }

  function OpenOf(tag: Tag, a: Attrs): string {
    "<" + (TagName(tag) + (AttrsText(a) + ">"))
  }

  function CloseOf(tag: Tag): string { if IsVoid(tag) then "" else "</" + TagName(tag) + ">" }

  function Print(t: Tree): string {
    match t
    case Words(text) => Escape(text)
    case Elem(tag, a, kids) => OpenOf(tag, a) + PrintAll(kids) + CloseOf(tag)
  }

  function PrintAll(ts: seq<Tree>): string { if ts == [] then "" else Print(ts[0]) + PrintAll(ts[1..]) }

  // ---------- The document a tree stands for ----------

  // The fields of an element, but for its number in a list.
  function InfoOf(tag: Tag, a: Attrs): Info {
    match a
    case None => Blank(tag)
    case Link(href) => Blank(tag).(attr := href)
    case Picture(src, alt, w, h) => Info(tag, "", src, alt, w, h, 0)
  }

  // How many items the innermost open ordered list has so far is k; no list is open if k is negative.
  // The number an element gets, and the count after it.
  function Number(tag: Tag, k: int): nat { if tag == Li && k >= 0 then k + 1 else 0 }

  function Next(tag: Tag, k: int): int { if tag == Li && k >= 0 then k + 1 else k }

  // The count for the children of an element.
  function Inner(tag: Tag, k: int): int { if tag == Ol then 0 else Next(tag, k) }

  // The count after a whole tree: a list counts for itself, other elements for the list around them.
  function Counted(t: Tree, k: int): int {
    match t
    case Words(_) => k
    case Elem(tag, _, kids) => if tag == Ol then k else CountedAll(kids, Next(tag, k))
  }

  function CountedAll(ts: seq<Tree>, k: int): int {
    if ts == [] then k else CountedAll(ts[1..], Counted(ts[0], k))
  }

  // How many list items a row of trees has, but for those of lists in it.
  function ListItems(ts: seq<Tree>): nat {
    if ts == [] then 0
    else
      (match ts[0]
       case Words(_) => 0
       case Elem(tag, _, kids) => if tag == Ol then 0 else (if tag == Li then 1 else 0) + ListItems(kids))
      + ListItems(ts[1..])
  }

  // So the number of an item is one more than that of the items before it in its list.
  lemma {:induction false} CountedItems(ts: seq<Tree>, k: int)
    ensures CountedAll(ts, k) == if k < 0 then k else k + ListItems(ts)
    decreases ts
  {
    if ts != [] {
      if ts[0].Elem? && ts[0].tag != Ol { CountedItems(ts[0].kids, Next(ts[0].tag, k)); }
      CountedItems(ts[1..], Counted(ts[0], k));
    }
  }

  // The node of an element.
  function NodeOf(tag: Tag, a: Attrs, k: int, parent: nat): Item {
    Item(InfoOf(tag, a).(listIndex := Number(tag, k)), parent)
  }

  // The nodes of the tree in the order in which they are made, the first of them as number n.
  function Items(t: Tree, parent: nat, n: nat, k: int): (d: Document)
    ensures d != []
  {
    match t
    case Words(text) => [Item(Blank(Text).(text := text), parent)]
    case Elem(tag, a, kids) => [NodeOf(tag, a, k, parent)] + ItemsAll(kids, n, n + 1, Inner(tag, k))
  }

  function ItemsAll(ts: seq<Tree>, parent: nat, n: nat, k: int): Document {
    if ts == [] then []
    else Items(ts[0], parent, n, k) + ItemsAll(ts[1..], parent, n + |Items(ts[0], parent, n, k)|, Counted(ts[0], k))
  }

  // ---------- Trees that survive ----------

  lemma Limits()
    ensures STACK_MAX == 48 && MAX_NODES == 512 && MAX_TEXT == MAX_ATTR == 256
  {
  }

  // Text of 1 to 255 characters, not all blank, with single blanks as its only white space.
  predicate FineText(s: string) {
    && 1 <= |s| <= 255 && (exists k :: 0 <= k < |s| && s[k] != ' ')
    && (forall k :: 0 <= k < |s| ==> s[k] !in {'\0', '\t', '\r', '\n'})
    && (forall j, k :: 0 <= j && k == j + 1 < |s| ==> s[j] != ' ' || s[k] != ' ')
  }

  predicate FineValue(v: string) { |v| <= 255 && forall k :: 0 <= k < |v| ==> v[k] != '"' && v[k] != '>' }

  // Only links have a target and only images a picture, if any; sizes fit 32 bits.
  predicate FineAttrs(tag: Tag, a: Attrs) {
    match a
    case None => true
    case Link(href) => tag == A && href != "" && FineValue(href)
    case Picture(src, alt, w, h) =>
      && tag == Img && FineValue(src) && FineValue(alt) && w < 0x8000_0000 && h < 0x8000_0000
      && !(src == "" && alt == "" && w == 0 && h == 0)
  }

  // Known tags, void ones without children, no deeper than the stack of open elements holds (height
  // counts those around the tree), and no two texts side by side.
  predicate Fine(t: Tree, height: nat) {
    match t
    case Words(text) => FineText(text)
    case Elem(tag, a, kids) =>
      && Known(tag) && FineAttrs(tag, a)
      && (if IsVoid(tag) then kids == [] else height < 48 && FineAll(kids, height + 1))
  }

  predicate FineAll(ts: seq<Tree>, height: nat) {
    ts != [] ==> Fine(ts[0], height) && FineAll(ts[1..], height) && (|ts| > 1 ==> !(ts[0].Words? && ts[1].Words?))
  }

  // ---------- Words in the input ----------

  // The input has w at position i.
  ghost predicate At(html: string, i: nat, w: string) { i + |w| <= |html| && html[i..i + |w|] == w }

  lemma AtSplit(html: string, i: nat, a: string, b: string)
    requires At(html, i, a + b)
    ensures At(html, i, a) && At(html, i + |a|, b)
  {
    assert html[i..i + |a|] == html[i..i + |a + b|][..|a|];
    assert html[i + |a|..i + |a| + |b|] == html[i..i + |a + b|][|a|..];
  }

  lemma AtChar(html: string, i: nat, w: string, k: nat)
    requires At(html, i, w) && k < |w|
    ensures i + k < |html| && html[i + k] == w[k]
  {
    assert html[i..i + |w|][k] == html[i + k];
  }

  // ---------- Names ----------

  predicate LowerName(n: string) { n != "" && forall k :: 0 <= k < |n| ==> ('a' <= n[k] <= 'z' || '0' <= n[k] <= '9') }

  lemma NameLowerShort(t: Tag)
    requires t in {P, B, I, U, S, A, H1, H2, H3, H4, H5, H6, Br, Hr}
    ensures LowerName(TagName(t))
  {
  }

  lemma NameLowerLists(t: Tag)
    requires t in {Ul, Ol, Li, Dl, Dt, Dd, Tr, Th, Td, Div, Pre, Img, Nav}
    ensures LowerName(TagName(t))
  {
  }

  lemma NameLowerFour(t: Tag)
    requires t in {Html, Head, Body, Span, Code, Mark, Main, Title, Small}
    ensures LowerName(TagName(t))
  {
  }

  lemma NameLowerFive(t: Tag)
    requires t in {Table, Thead, Tbody, Tfoot, Aside, Header, Footer}
    ensures LowerName(TagName(t))
  {
  }

  lemma TagNameLower(t: Tag)
    requires Known(t)
    ensures LowerName(TagName(t))
  {
    if t in {P, B, I, U, S, A, H1, H2, H3, H4, H5, H6, Br, Hr} {
      NameLowerShort(t);
    } else if t in {Ul, Ol, Li, Dl, Dt, Dd, Tr, Th, Td, Div, Pre, Img, Nav} {
      NameLowerLists(t);
    } else if t in {Html, Head, Body, Span, Code, Mark, Main, Title, Small} {
      NameLowerFour(t);
    } else if t in {Table, Thead, Tbody, Tfoot, Aside, Header, Footer} {
      NameLowerFive(t);
    }
  }

  lemma {:induction false} NameEndAt(html: string, i: nat, n: string)
    requires At(html, i, n) && LowerName(n) && i + |n| < |html| && !IsNameChar(html[i + |n|])
    ensures NameEnd(html, i) == i + |n|
    decreases |n|
  {
    AtChar(html, i, n, 0);
    if |n| > 1 {
      AtSplit(html, i, n[..1], n[1..]);
      assert n == n[..1] + n[1..];
      NameEndAt(html, i + 1, n[1..]);
    }
  }

  lemma {:induction false} NameIs(html: string, i: nat, n: string)
    requires At(html, i, n) && LowerName(n)
    ensures LowerAll(html[i..i + |n|]) == n
  {
  }

  // No name of a known tag starts a raw block.
  lemma NotRaw(html: string, i: nat, tag: Tag)
    requires Known(tag) && At(html, i, TagName(tag))
    ensures var to := i + |TagName(tag)|; !IsRaw(html, i, to, "script") && !IsRaw(html, i, to, "style")
  {
    hide TagName, Lookup;
    TagNameLower(tag);
    LookupName(tag);
    RawNames();
    RawName(html, i, TagName(tag), "script");
    RawName(html, i, TagName(tag), "style");
  }

  lemma RawNames()
    ensures Lookup("script") == Unknown && Lookup("style") == Unknown
  {
  }

  lemma {:induction false} RawName(html: string, i: nat, n: string, w: string)
    requires At(html, i, n) && LowerName(n) && LowerName(w)
    ensures IsRaw(html, i, i + |n|, w) ==> n == w
  {
    if IsRaw(html, i, i + |n|, w) {
      forall k | 0 <= k < |n| ensures n[k] == w[k] {
        AtChar(html, i, n, k);
        assert Lower(w[k]) == Lower(html[i + k]);
      }
    }
  }

  // ---------- Text ----------

  lemma EntityAmp(html: string, i: nat)
    requires At(html, i, "&amp;")
    ensures CharAt(html, i) == ('&', 5)
  {
    AtChar(html, i, "&amp;", 0);
    AtChar(html, i, "&amp;", 1);
    assert Entities()[0] == ("&amp;", '&');
    assert Matches(html, i, |html|, "&amp;") by {
      forall k | 0 <= k < 5 ensures Lower("&amp;"[k]) == Lower(html[i + k]) { AtChar(html, i, "&amp;", k); }
    }
  }

  // An entity whose character at position j differs is passed over.
  lemma NotEntity(html: string, i: nat, k: nat, j: nat)
    requires i + j < |html| && k < |Entities()| && j < |Entities()[k].0|
    requires Lower(Entities()[k].0[j]) != Lower(html[i + j])
    ensures NamedFrom(html, i, k) == NamedFrom(html, i, k + 1)
  {
    hide Entities;
    if Matches(html, i, |html|, Entities()[k].0) { MatchesChar(html, i, Entities()[k].0, j); }
  }

  // The entities tried before "&lt;" differ from it in the second or third character.
  lemma BeforeLt(k: nat)
    requires k < 12
    ensures |Entities()| == 35 && Entities()[12] == ("&lt;", '<')
    ensures |Entities()[k].0| > 2 && (Entities()[k].0[1] != 'l' || Entities()[k].0[2] != 't')
    ensures 'a' <= Entities()[k].0[1] <= 'z' && 'a' <= Entities()[k].0[2] <= 'z'
  {
  }

  lemma {:induction false} EntityLtFrom(html: string, i: nat, k: nat)
    requires At(html, i, "&lt;") && k <= 12
    ensures |Entities()| == 35 && NamedFrom(html, i, k) == ('<', 4)
    decreases 12 - k
  {
    hide Entities;
    AtChar(html, i, "&lt;", 1);
    AtChar(html, i, "&lt;", 2);
    BeforeLt(if k < 12 then k else 0);
    if k < 12 {
      EntityLtFrom(html, i, k + 1);
      NotEntity(html, i, k, if Entities()[k].0[1] != 'l' then 1 else 2);
    } else {
      assert Matches(html, i, |html|, "&lt;") by {
        forall j | 0 <= j < 4 ensures Lower("&lt;"[j]) == Lower(html[i + j]) { AtChar(html, i, "&lt;", j); }
      }
    }
  }

  // An escaped character is read as that character.
  lemma CharBack(html: string, i: nat, c: char)
    requires At(html, i, EscapeChar(c))
    ensures i < |html| && html[i] != '<' && CharAt(html, i) == (c, |EscapeChar(c)|)
  {
    hide Entities, NamedFrom;
    AtChar(html, i, EscapeChar(c), 0);
    if c == '&' {
      EntityAmp(html, i);
    } else if c == '<' {
      AtChar(html, i, "&lt;", 1);
      EntityLtFrom(html, i, 0);
    }
  }

  // The text ends here: at the end of the input or before a tag.
  predicate Stops(html: string, i: nat) { i == |html| || (i < |html| && html[i] == '<') }

  predicate Visible(s: string) { exists k :: 0 <= k < |s| && !IsWs(s[k]) }

  // The rest of a text, k characters of which are in the buffer.
  lemma {:induction false} TextBack(html: string, t: TextState, s: string, k: nat, pre: bool)
    requires FineText(s) && k <= |s| && t.s.stack != [] && t.s.i <= |html|
    requires At(html, t.s.i, Escape(s[k..])) && Stops(html, t.s.i + |Escape(s[k..])|)
    requires if k == MAX_TEXT - 1 then t.buf == "" && !t.visible else t.buf == s[..k] && t.visible == Visible(s[..k])
    ensures var r := TextRun(html, t, pre);
            var end := t.s.i + |Escape(s[k..])|;
            if |s| < MAX_TEXT - 1 then r == TextState(t.s.(i := end), s, true)
            else r == TextState(if k == |s| then t.s.(i := end) else AddText(t.s.(i := end), s), "", false)
    decreases |s| - k
  {
    hide *;
    BufferLeft(s);
    SomeVisible(s);
    assert s[..|s|] == s;
    if k == |s| {
      assert s[k..] == "";
      RunEnds(html, t, pre);
    } else {
      StepFine(html, t, s, k, pre);
      EscapeNone();
      assert s[|s|..] == "";
      TextBack(html, TextStep(html, t, pre), s, k + 1, pre);
    }
  }

  lemma EscapeNone()
    ensures Escape("") == ""
  {
  }

  lemma RunEnds(html: string, t: TextState, pre: bool)
    requires t.s.i <= |html| && t.s.stack != [] && Stops(html, t.s.i + |Escape("")|)
    ensures TextRun(html, t, pre) == t && Escape("") == ""
  {
  }

  // One character of a fine text.
  lemma StepFine(html: string, t: TextState, s: string, k: nat, pre: bool)
    requires FineText(s) && k < |s| && t.s.stack != [] && At(html, t.s.i, Escape(s[k..])) && t.buf == s[..k]
    requires t.visible == Visible(s[..k])
    ensures t.s.i < |html| && |Escape(s[k..])| == |EscapeChar(s[k])| + |Escape(s[k + 1..])|
    ensures At(html, t.s.i + |EscapeChar(s[k])|, Escape(s[k + 1..]))
    ensures var next := t.s.(i := t.s.i + |EscapeChar(s[k])|);
            && TextRun(html, t, pre) == TextRun(html, TextStep(html, t, pre), pre)
            && TextStep(html, t, pre) ==
                 if k + 1 == MAX_TEXT - 1 then
                   TextState(if Visible(s[..k + 1]) then AddText(next, s[..k + 1]) else next, "", false)
                 else TextState(next, s[..k + 1], Visible(s[..k + 1]))
    ensures forall u: State, w: string :: u.stack != [] ==> AddText(u, w).i == u.i && AddText(u, w).stack == u.stack
  {
    hide CharAt, EscapeChar, AllBlank, Visible, PutChar;
    var c := s[k];
    assert s[k..][0] == c && s[k..][1..] == s[k + 1..];
    AtSplit(html, t.s.i, EscapeChar(c), Escape(s[k + 1..]));
    CharBack(html, t.s.i, c);
    Appends(s, k, pre);
    assert s[..k + 1] == s[..k] + [c];
    VisibleMore(s, k);
  }

  // Fine text goes to the buffer as it is.
  lemma Appends(s: string, k: nat, pre: bool)
    requires FineText(s) && k < |s|
    ensures PutChar(s[..k], s[k], pre) == s[..k] + [s[k]]
  {
    if k > 0 {
      var j: int := k - 1;
      assert s[..k][k - 1] == s[j];
      assert s[j] != ' ' || s[k] != ' ';
    }
  }

  lemma VisibleMore(s: string, k: nat)
    requires k < |s|
    ensures Visible(s[..k + 1]) == (Visible(s[..k]) || !IsWs(s[k]))
  {
    var a, b := s[..k + 1], s[..k];
    if Visible(a) { var j :| 0 <= j < |a| && !IsWs(a[j]); if j < k { assert b[j] == a[j]; } }
    if Visible(b) { var j :| 0 <= j < |b| && !IsWs(b[j]); assert a[j] == b[j]; }
    if !IsWs(s[k]) { assert a[k] == s[k]; }
  }

  lemma SomeVisible(s: string)
    requires FineText(s)
    ensures Visible(s)
  {
    var k :| 0 <= k < |s| && s[k] != ' ';
    assert !IsWs(s[k]);
  }

  lemma {:induction false} NoNul(s: string)
    requires forall k :: 0 <= k < |s| ==> s[k] != '\0'
    ensures UpToNul(s) == s
  {
    if s != "" { NoNul(s[1..]); }
  }

  lemma EscapeNonEmpty(s: string)
    requires s != ""
    ensures |Escape(s)| > 0
  {
  }

  // A printed text is one round and makes one node.
  lemma WordsRound(html: string, s: State, text: string)
    requires Proper(s) && s.raw == "" && FineText(text) && |s.doc| < MAX_NODES
    requires At(html, s.i, Escape(text)) && Stops(html, s.i + |Escape(text)|)
    ensures Ready(html, s) && Step(html, s) == Grow(s.(i := s.i + |Escape(text)|), Blank(Text).(text := text))
  {
    hide *;
    ProperReady(s);
    FirstChar(html, s, text);
    assert text[0..] == text && text[..0] == "";
    NoneVisible();
    BufferLeft(text);
    TextBack(html, TextState(s, "", false), text, 0, InPre(s));
    FinishFine(s.(i := s.i + |Escape(text)|), text, InPre(s));
    TextPartIs(html, s);
  }

  // The round is one of reading text.
  lemma FirstChar(html: string, s: State, text: string)
    requires s.stack != [] && (forall k :: 0 <= k < |s.stack| ==> s.stack[k] < |s.doc|)
    requires s.raw == "" && FineText(text) && At(html, s.i, Escape(text))
    ensures s.i < |html| && Ready(html, s) && html[s.i] != '<' && Step(html, s) == TextPart(html, s)
  {
    hide TextPart, CharAt, AllBlank;
    AtSplit(html, s.i, EscapeChar(text[0]), Escape(text[1..]));
    CharBack(html, s.i, text[0]);
  }

  lemma TextPartIs(html: string, s: State)
    requires Ready(html, s)
    ensures s.stack != []
    ensures TextPart(html, s) == FinishText(TextRun(html, TextState(s, "", false), InPre(s)), InPre(s))
  {
  }

  lemma NoneVisible()
    ensures !Visible("")
  {
  }

  lemma BufferLeft(text: string)
    requires FineText(text)
    ensures 1 <= |text| <= MAX_TEXT - 1 && 0 < MAX_TEXT - 1
  {
  }

  // What is left of a fine text in the buffer becomes a node as it is; an empty buffer does not.
  lemma FinishFine(s: State, text: string, pre: bool)
    requires FineText(text) && s.stack != [] && |s.doc| < MAX_NODES
    ensures FinishText(TextState(s, text, true), pre) == Grow(s, Blank(Text).(text := text))
    ensures AddText(s, text) == Grow(s, Blank(Text).(text := text))
    ensures AddText(s, text).stack == s.stack
    ensures FinishText(TextState(AddText(s, text), "", false), pre) == AddText(s, text)
  {
    NoNul(text);
  }

  // ---------- Opening tags ----------

  lemma {:induction false} TagEndAt(html: string, i: nat, w: string)
    requires At(html, i, w + ">") && forall k :: 0 <= k < |w| ==> w[k] != '>'
    ensures TagEnd(html, i) == i + |w|
    decreases |w|
  {
    AtChar(html, i, w + ">", 0);
    if w != "" {
      assert w + ">" == w[..1] + (w[1..] + ">");
      AtSplit(html, i, w[..1], w[1..] + ">");
      TagEndAt(html, i + 1, w[1..]);
    }
  }

  lemma {:induction false} ValueEndAt(html: string, i: nat, end: nat, v: string)
    requires At(html, i, v) && i + |v| < end <= |html|
    requires html[i + |v|] == '"' && forall k :: 0 <= k < |v| ==> v[k] != '"'
    ensures ValueEnd(html, i, end, true, '"') == i + |v|
    decreases |v|
  {
    if v != "" {
      AtChar(html, i, v, 0);
      AtSplit(html, i, v[..1], v[1..]);
      assert v == v[..1] + v[1..];
      ValueEndAt(html, i + 1, end, v[1..]);
    }
  }

  lemma AtSlice(html: string, i: nat, w: string)
    requires At(html, i, w)
    ensures i + |w| <= |html| && html[i..i + |w|] == w
  {
  }

  // A name as the attributes here have.
  predicate AttrName(n: string) { n != "" && forall k :: 0 <= k < |n| ==> 'a' <= n[k] <= 'z' }

  // Where the parts of a printed attribute are.
  lemma {:induction false} PairParts(html: string, i: nat, n: string, v: string)
    requires At(html, i, PairText((n, v)))
    ensures var c := i + 1 + |n|;
            && |PairText((n, v))| == |n| + |v| + 4 && c + |v| + 3 <= |html|
            && html[i] == ' ' && html[i + 1..c] == n && html[c] == '=' && html[c + 1] == '"'
            && At(html, c + 2, v) && html[c + 2..c + 2 + |v|] == v && html[c + 2 + |v|] == '"'
  {
    hide At;
    AtSplit(html, i, " ", n + ("=\"" + (v + "\"")));
    AtChar(html, i, " ", 0);
    AtSplit(html, i + 1, n, "=\"" + (v + "\""));
    AtSlice(html, i + 1, n);
    var c := i + 1 + |n|;
    AtSplit(html, c, "=\"", v + "\"");
    AtChar(html, c, "=\"", 0);
    AtChar(html, c, "=\"", 1);
    AtSplit(html, c + 2, v, "\"");
    AtSlice(html, c + 2, v);
    AtChar(html, c + 2 + |v|, "\"", 0);
  }

  lemma {:induction false} AttrNameEndAt(html: string, i: nat, end: nat, n: string)
    requires i + |n| < end <= |html| && html[i..i + |n|] == n && html[i + |n|] == '='
    requires forall k :: 0 <= k < |n| ==> 'a' <= n[k] <= 'z'
    ensures AttrNameEnd(html, i, end) == i + |n|
    decreases |n|
  {
    if n != "" {
      assert html[i] == n[0] && html[i + 1..i + |n|] == n[1..];
      AttrNameEndAt(html, i + 1, end, n[1..]);
    }
  }

  // How a printed attribute is scanned: its name, its value, and what comes next.
  lemma {:induction false} PairScan(html: string, i: nat, end: nat, n: string, v: string)
    requires At(html, i, PairText((n, v))) && i + |PairText((n, v))| <= end <= |html| && AttrName(n) && FineValue(v)
    ensures var c := i + 1 + |n|;
            && c < end && SkipWs(html, i, end) == i + 1 && AttrNameEnd(html, i + 1, end) == c
            && SkipWs(html, c, end) == c && html[c] == '='
            && Value(html, c, end) == (v, i + |PairText((n, v))|) && html[i + 1..c] == n
  {
    hide At;
    PairParts(html, i, n, v);
    var c := i + 1 + |n|;
    assert html[i + 1] == n[0];
    assert SkipWs(html, i + 1, end) == i + 1;
    AttrNameEndAt(html, i + 1, end, n);
    assert SkipWs(html, c + 1, end) == c + 1;
    ValueEndAt(html, c + 2, end, v);
  }

  lemma SameName(html: string, i: nat, end: nat, n: string, name: string)
    requires i + |n| == end <= |html| && html[i..end] == n && AttrName(n) && AttrName(name)
    ensures |n| == |name| && Matches(html, i, end, name) <==> n == name
  {
    forall k | 0 <= k < |n| ensures Lower(n[k]) == n[k] && html[i + k] == n[k] { assert html[i..end][k] == n[k]; }
    forall k | 0 <= k < |name| ensures Lower(name[k]) == name[k] {}
  }

  // The attribute at i is the one looked for, or the search goes on behind it.
  lemma {:induction false} PairLookup(html: string, i: nat, end: nat, n: string, v: string, name: string)
    requires At(html, i, PairText((n, v))) && i + |PairText((n, v))| <= end <= |html|
    requires AttrName(n) && FineValue(v) && AttrName(name)
    requires i + |PairText((n, v))| < end ==> html[i + |PairText((n, v))|] == ' '
    ensures Attribute(html, i, end, name) ==
            if n == name then Yes(v) else Attribute(html, i + |PairText((n, v))|, end, name)
  {
    hide At, SkipWs, AttrNameEnd, Value, Matches, PairText;
    PairScan(html, i, end, n, v);
    PairParts(html, i, n, v);
    SameName(html, i + 1, i + 1 + |n|, n, name);
    NoAttributes(html, end, name);
  }

  lemma NoAttributes(html: string, i: nat, name: string)
    requires i <= |html|
    ensures Attribute(html, i, i, name) == No
  {
  }

  // What a lookup among printed attributes finds: the first of that name.
  function FirstOf(ps: seq<(string, string)>, name: string): Found {
    if ps == [] then No else if ps[0].0 == name then Yes(ps[0].1) else FirstOf(ps[1..], name)
  }

  predicate FinePairs(ps: seq<(string,
                      string)>) { forall k :: 0 <= k < |ps| ==> AttrName(ps[k].0) && FineValue(ps[k].1) }

  lemma {:induction false} PairsLookup(html: string, i: nat, ps: seq<(string, string)>, name: string)
    requires At(html, i, PairsText(ps)) && FinePairs(ps) && AttrName(name)
    ensures i + |PairsText(ps)| <= |html| && Attribute(html, i, i + |PairsText(ps)|, name) == FirstOf(ps, name)
    decreases |ps|
  {
    hide At, Attribute, PairText;
    AtSlice(html, i, PairsText(ps));
    if ps == [] {
      NoAttributes(html, i, name);
    } else {
      var n, v, rest := ps[0].0, ps[0].1, ps[1..];
      assert ps[0] == (n, v);
      AtSplit(html, i, PairText((n, v)), PairsText(rest));
      AtSlice(html, i, PairText((n, v)));
      var next := i + |PairText((n, v))|;
      if rest != [] { PairBlank(html, next, rest); }
      PairLookup(html, i, next + |PairsText(rest)|, n, v, name);
      PairsLookup(html, next, rest, name);
    }
  }

  lemma PairBlank(html: string, i: nat, ps: seq<(string, string)>)
    requires ps != [] && At(html, i, PairsText(ps))
    ensures i < |html| && html[i] == ' '
  {
    hide At;
    AtSplit(html, i, PairText(ps[0]), PairsText(ps[1..]));
    AtChar(html, i, PairText(ps[0]), 0);
  }

  // ---------- The fields of an element ----------

  lemma {:induction false} PairsFine(tag: Tag, a: Attrs)
    requires FineAttrs(tag, a)
    ensures FinePairs(Pairs(a))
    ensures forall n :: n in ["href", "src", "alt", "width", "height"] ==> AttrName(n)
  {
    hide Decimal;
    if a.Picture? {
      SizeFine(a.w);
      SizeFine(a.h);
    }
  }

  lemma SizeFine(v: nat)
    requires v < 0x8000_0000
    ensures FineValue(Decimal(v)) && |Decimal(v)| <= 10
  {
    assert Pow10(10) == 10000000000;
    DecimalLength(v, 10);
    DecimalDigits(v);
  }

  // The attributes a printed element has, read back.
  lemma {:induction false} InfoBack(html: string, i: nat, tag: Tag, a: Attrs, number: nat)
    requires FineAttrs(tag, a) && At(html, i, AttrsText(a))
    ensures var end := i + |AttrsText(a)|;
            end <= |html| && ElementInfo(html, i, end, tag, number) == InfoOf(tag, a).(listIndex := number)
  {
    hide At, Attribute, AttrsText, Pairs, FirstOf, Decimal, NumberOf, FineValue;
    AttrFound(html, i, tag, a, "href");
    AttrFound(html, i, tag, a, "src");
    AttrFound(html, i, tag, a, "alt");
    AttrFound(html, i, tag, a, "width");
    AttrFound(html, i, tag, a, "height");
    PairsFirst(a);
    FineCut(tag, a);
    if a.Picture? {
      DecimalNumber(a.w);
      DecimalNumber(a.h);
    }
  }

  // Each value is found by its name.
  lemma AttrFound(html: string, i: nat, tag: Tag, a: Attrs, name: string)
    requires FineAttrs(tag, a) && At(html, i, AttrsText(a))
    requires name == "href" || name == "src" || name == "alt" || name == "width" || name == "height"
    ensures i + |AttrsText(a)| <= |html|
    ensures Attribute(html, i, i + |AttrsText(a)|, name) == FirstOf(Pairs(a), name)
  {
    hide At, Attribute, PairsText, FirstOf, Pairs, FineAttrs;
    PairsFine(tag, a);
    assert name in ["href", "src", "alt", "width", "height"];
    PairsLookup(html, i, Pairs(a), name);
  }

  // No value is cut off.
  lemma FineCut(tag: Tag, a: Attrs)
    requires FineAttrs(tag, a)
    ensures a.Link? ==> Cut(a.href, MAX_ATTR - 1) == a.href
    ensures a.Picture? ==> Cut(a.src, MAX_ATTR - 1) == a.src && Cut(a.alt, MAX_ATTR - 1) == a.alt
    ensures a.Picture? ==> Cut(Decimal(a.w), 15) == Decimal(a.w) && Cut(Decimal(a.h), 15) == Decimal(a.h)
  {
    hide Decimal;
    if a.Picture? {
      SizeFine(a.w);
      SizeFine(a.h);
    }
  }

  lemma PairsFirst(a: Attrs)
    ensures a.None? ==> forall n :: FirstOf(Pairs(a), n) == No
    ensures a.Link? ==> FirstOf(Pairs(a), "href") == Yes(a.href)
    ensures a.Picture? ==>
              && FirstOf(Pairs(a), "src") == Yes(a.src) && FirstOf(Pairs(a), "alt") == Yes(a.alt)
              && FirstOf(Pairs(a), "width") == Yes(Decimal(a.w)) && FirstOf(Pairs(a), "height") == Yes(Decimal(a.h))
  {
    hide Decimal;
    if a.Picture? {
      var ps := Pairs(a);
      assert |"src"| == 3 && |"alt"| == 3 && |"width"| == 5 && |"height"| == 6 && "src"[0] != "alt"[0];
      FirstNext(ps, "alt");
      FirstNext(ps, "width");
      FirstNext(ps[1..], "width");
      FirstNext(ps, "height");
      FirstNext(ps[1..], "height");
      FirstNext(ps[1..][1..], "height");
    }
  }

  lemma FirstNext(ps: seq<(string, string)>, name: string)
    requires ps != [] && ps[0].0 != name
    ensures FirstOf(ps, name) == FirstOf(ps[1..], name)
    ensures |ps| > 1 && ps[1].0 == name ==> FirstOf(ps, name) == Yes(ps[1].1)
  {
  }

  // Where the parts of a printed opening tag are.
  lemma {:induction false} OpenSplit(html: string, i: nat, tag: Tag, a: Attrs)
    requires At(html, i, OpenOf(tag, a))
    ensures var to := i + 1 + |TagName(tag)|;
            var end := to + |AttrsText(a)|;
            && end < |html| && html[i] == '<' && html[end] == '>' && |OpenOf(tag, a)| == end + 1 - i
            && At(html, i + 1, TagName(tag)) && At(html, to, AttrsText(a)) && At(html, to, AttrsText(a) + ">")
  {
    hide TagName, AttrsText, At;
    var n, attrs := TagName(tag), AttrsText(a);
    var to := i + 1 + |n|;
    AtChar(html, i, OpenOf(tag, a), 0);
    AtSplit(html, i, "<", n + (attrs + ">"));
    AtSplit(html, i + 1, n, attrs + ">");
    AtSplit(html, to, attrs, ">");
    AtChar(html, to + |attrs|, ">", 0);
  }

  // Printed attributes have no ">", begin with a blank and end with a quote.
  lemma AttrsMarks(tag: Tag, a: Attrs)
    requires FineAttrs(tag, a)
    ensures var w := AttrsText(a);
            && (forall k :: 0 <= k < |w| ==> w[k] != '>') && (w != "" ==> w[0] == ' ' && w[|w| - 1] == '"')
  {
    PairsFine(tag, a);
    PairsMarks(Pairs(a));
  }

  lemma {:induction false} PairsMarks(ps: seq<(string, string)>)
    requires FinePairs(ps)
    ensures var w := PairsText(ps);
            && (forall k :: 0 <= k < |w| ==> w[k] != '>') && (w != "" ==> w[0] == ' ' && w[|w| - 1] == '"')
    decreases |ps|
  {
    if ps != [] {
      var p, rest := PairText(ps[0]), PairsText(ps[1..]);
      assert FinePairs(ps[1..]);
      PairsMarks(ps[1..]);
      PairMarks(ps[0].0, ps[0].1);
      assert PairsText(ps) == p + rest;
    }
  }

  lemma PairMarks(n: string, v: string)
    requires AttrName(n) && FineValue(v)
    ensures var w := PairText((n, v));
            && w != "" && w[0] == ' ' && w[|w| - 1] == '"' && forall k :: 0 <= k < |w| ==> w[k] != '>'
  {
    var w := PairText((n, v));
    assert w == " " + n + "=\"" + v + "\"";
  }

  // How a printed opening tag is scanned; its last character before ">" is no "/".
  lemma {:induction false} OpenParts(html: string, i: nat, tag: Tag, a: Attrs)
    requires Known(tag) && FineAttrs(tag, a) && At(html, i, OpenOf(tag, a))
    ensures var to := i + 1 + |TagName(tag)|;
            var end := to + |AttrsText(a)|;
            end < |html| && to > i + 1 && html[end - 1] != '/' && NameEnd(html, i + 1) == to && TagEnd(html, to) == end
  {
    hide TagName, NameEnd, TagEnd, At, AttrsText, OpenOf, FineAttrs, Known;
    OpenSplit(html, i, tag, a);
    var n, attrs := TagName(tag), AttrsText(a);
    var to := i + 1 + |n|;
    AttrsMarks(tag, a);
    TagNameLower(tag);
    AtChar(html, to, attrs + ">", 0);
    NameEndAt(html, i + 1, n);
    TagEndAt(html, to, attrs);
    if attrs != "" {
      AtChar(html, to, attrs, |attrs| - 1);
    } else {
      AtChar(html, i + 1, n, |n| - 1);
    }
  }

  // A printed opening tag is one round and makes one node.
  lemma OpenRound(html: string, s: State, tag: Tag, a: Attrs)
    requires Proper(s) && s.raw == "" && Known(tag) && FineAttrs(tag, a) && |s.doc| < MAX_NODES
    requires At(html, s.i, OpenOf(tag, a)) && (IsVoid(tag) || |s.stack| < STACK_MAX)
    ensures Ready(html, s) && s.stack != []
    ensures var t := Step(html, s);
            && t.i == s.i + |OpenOf(tag, a)| && t.raw == ""
            && t.stack == (if IsVoid(tag) then s.stack else s.stack + [|s.doc|])
            && t.doc == s.doc + [NodeOf(tag, a, CountOf(s.ol), Innermost(s))]
            && t.ol == Opening(s, tag)
  {
    hide *;
    ProperReady(s);
    OpenSplit(html, s.i, tag, a);
    OpenParts(html, s.i, tag, a);
    MakeReady(html, s);
    var to := s.i + 1 + |TagName(tag)|;
    var end := to + |AttrsText(a)|;
    NotRaw(html, s.i + 1, tag);
    TagNameLower(tag);
    NameIs(html, s.i + 1, TagName(tag));
    LookupName(tag);
    OpeningRound(html, s, to, end);
    InfoBack(html, to, tag, a, Numbered(s, tag).1);
    OpenIs(html, s.(i := end + 1), to, end, tag);
    SameNumber(s, end + 1, tag);
    NumberIs(s, tag);
    NodeIs(tag, a, CountOf(s.ol), Innermost(s));
  }

  // The count of the innermost open list, and the lists with another count for it.
  function CountOf(ol: seq<Counter>): int { if ol == [] then -1 else ol[|ol| - 1].count }

  function WithCount(ol: seq<Counter>, k: int): (r: seq<Counter>)
    ensures |r| == |ol|
  {
    if ol == [] || k < 0 then ol else ol[|ol| - 1 := ol[|ol| - 1].(count := k)]
  }

  // The lists after an opening tag.
  function Opening(s: State, tag: Tag): seq<Counter> {
    var ol := WithCount(s.ol, Next(tag, CountOf(s.ol)));
    if tag == Ol && |ol| < STACK_MAX then ol + [Counter(|s.doc|, 0)] else ol
  }

  lemma NumberIs(s: State, tag: Tag)
    ensures Numbered(s, tag) == (WithCount(s.ol, Next(tag, CountOf(s.ol))), Number(tag, CountOf(s.ol)))
  {
    if tag != Li && s.ol != [] { assert WithCount(s.ol, CountOf(s.ol)) == s.ol; }
  }

  lemma NodeIs(tag: Tag, a: Attrs, k: int, parent: nat)
    ensures NodeOf(tag, a, k, parent) == Item(InfoOf(tag, a).(listIndex := Number(tag, k)), parent)
  {
  }

  lemma SameNumber(s: State, i: nat, tag: Tag)
    requires s.stack != []
    ensures Numbered(s.(i := i), tag) == Numbered(s, tag) && Innermost(s.(i := i)) == Innermost(s)
    ensures Opening(s.(i := i), tag) == Opening(s, tag)
  {
  }

  lemma MakeReady(html: string, s: State)
    requires s.i < |html| && s.stack != [] && forall k :: 0 <= k < |s.stack| ==> s.stack[k] < |s.doc|
    ensures Ready(html, s)
  {
  }

  lemma {:induction false} OpeningRound(html: string, s: State, to: nat, end: nat)
    requires Ready(html, s) && s.raw == "" && html[s.i] == '<' && NameEnd(html, s.i + 1) == to > s.i + 1
    requires TagEnd(html, to) == end < |html| && to <= end && html[end - 1] != '/'
    requires !IsRaw(html, s.i + 1, to, "script") && !IsRaw(html, s.i + 1, to, "style")
    ensures s.stack != []
    ensures Step(html, s) == Open(html, s.(i := end + 1), to, end, false, Lookup(LowerAll(html[s.i + 1..to])))
  {
    hide NameEnd, TagEnd, Lookup, IsRaw, Open, Step, OpeningTag;
    StepOpens(html, s);
    OpeningOpens(html, s);
  }

  // What opening an element does when the pool and the stack have room.
  lemma OpenIs(html: string, s: State, from: nat, to: nat, tag: Tag)
    requires from <= to <= |html| && s.stack != [] && |s.doc| < MAX_NODES && (IsVoid(tag) || |s.stack| < STACK_MAX)
    ensures var t := Open(html, s, from, to, false, tag);
            && t.i == s.i && t.raw == s.raw && t.stack == (if IsVoid(tag) then s.stack else s.stack + [|s.doc|])
            && t.doc == s.doc + [Item(ElementInfo(html, from, to, tag, Numbered(s, tag).1), Innermost(s))]
            && t.ol == Opening(s, tag)
  {
    hide ElementInfo, Numbered;
    NumberIs(s, tag);
  }

  // ---------- Closing tags ----------

  lemma {:induction false} AfterAt(html: string, i: nat)
    requires i < |html| && html[i] == '>'
    ensures After(html, i, ">") == i + 1
  {
    assert Matches(html, i, |html|, ">") by { assert html[i + 0] == '>'; }
  }

  lemma {:induction false} CloseSplit(html: string, i: nat, tag: Tag)
    requires Known(tag) && !IsVoid(tag) && At(html, i, CloseOf(tag))
    ensures var to := i + 2 + |TagName(tag)|;
            && to < |html| && html[i] == '<' && html[i + 1] == '/' && html[to] == '>' && |CloseOf(tag)| == to + 1 - i
            && At(html, i + 2, TagName(tag)) && NameEnd(html, i + 2) == to && After(html, to, ">") == to + 1
  {
    hide TagName, NameEnd, At, After;
    var n := TagName(tag);
    var to := i + 2 + |n|;
    assert CloseOf(tag) == "</" + (n + ">");
    AtSplit(html, i, "</", n + ">");
    AtChar(html, i, "</", 0);
    AtChar(html, i, "</", 1);
    AtSplit(html, i + 2, n, ">");
    AtChar(html, to, ">", 0);
    TagNameLower(tag);
    NameEndAt(html, i + 2, n);
    AfterAt(html, to);
  }

  // A printed closing tag closes the innermost element, which has that tag.
  lemma CloseRound(html: string, s: State, tag: Tag)
    requires Proper(s) && s.raw == "" && Known(tag) && !IsVoid(tag) && At(html, s.i, CloseOf(tag))
    requires |s.stack| > 1 && Innermost(s) < |s.doc| && s.doc[Innermost(s)].info.tag == tag
    ensures Ready(html, s)
    ensures var t := Step(html, s);
            && t.i == s.i + |CloseOf(tag)| && t.raw == "" && t.stack == s.stack[..|s.stack| - 1] && t.doc == s.doc
            && (tag != Ol ==> t.ol == s.ol)
            && (tag == Ol && s.ol != [] && s.ol[|s.ol| - 1].node == Innermost(s) ==> t.ol == s.ol[..|s.ol| - 1])
  {
    hide *;
    ProperReady(s);
    CloseSplit(html, s.i, tag);
    MakeReady(html, s);
    var to := s.i + 2 + |TagName(tag)|;
    TagNameLower(tag);
    NameIs(html, s.i + 2, TagName(tag));
    LookupName(tag);
    ClosingRound(html, s, to);
    SameNumber(s, to + 1, tag);
    CloseTop(s.(i := to + 1), tag);
  }

  lemma {:induction false} ClosingRound(html: string, s: State, to: nat)
    requires Ready(html, s) && s.raw == "" && html[s.i] == '<' && s.i + 1 < |html| && html[s.i + 1] == '/'
    requires NameEnd(html, s.i + 2) == to && After(html, to, ">") == to + 1 && s.i + 2 <= to <= |html|
    ensures forall k :: 0 <= k < |s.stack| ==> s.stack[k] < |s.doc|
    ensures Step(html, s) == Close(s.(i := to + 1), Lookup(LowerAll(html[s.i + 2..to])))
  {
    hide NameEnd, Lookup, Close, After, Step;
    StepCloses(html, s);
  }

  lemma CloseTop(s: State, tag: Tag)
    requires forall k :: 0 <= k < |s.stack| ==> s.stack[k] < |s.doc|
    requires |s.stack| > 1 && s.doc[Innermost(s)].info.tag == tag
    ensures var t := Close(s, tag);
            && t.i == s.i && t.raw == s.raw && t.doc == s.doc && t.stack == s.stack[..|s.stack| - 1]
            && (tag != Ol ==> t.ol == s.ol)
            && (tag == Ol && s.ol != [] && s.ol[|s.ol| - 1].node == Innermost(s) ==> t.ol == s.ol[..|s.ol| - 1])
  {
  }

  // ---------- The round trip ----------

  // From s the parser reads w and comes to t, having added the nodes d, opened nothing, and come to
  // count k in the innermost list.
  ghost predicate Reads(html: string, s: State, w: string, d: Document, k: int, t: State) {
    && Proper(s) && Proper(t) && Run(html, s) == Run(html, t)
    && t.i == s.i + |w| && t.raw == "" && t.stack == s.stack && t.doc == s.doc + d
    && t.ol == WithCount(s.ol, k) && (k < 0 <==> s.ol == []) && (k < 0 ==> k == -1)
  }

  // The open lists are open elements made already.
  ghost predicate Lists(s: State) { |s.ol| < |s.stack| && forall i :: 0 <= i < |s.ol| ==> s.ol[i].node < |s.doc| }

  lemma RunStep(html: string, s: State)
    requires Proper(s) && s.i < |html|
    ensures Ready(html, s) && Proper(Step(html, s)) && Run(html, s) == Run(html, Step(html, s))
  {
    hide Step, Proper, Ready;
    StepProper(html, s);
  }

  lemma ReadsThen(html: string, s: State, w: string, d: Document, k: int, t: State,
                  w': string, d': Document, k': int, u: State)
    requires Reads(html, s, w, d, k, t) && Reads(html, t, w', d', k', u)
    ensures Reads(html, s, w + w', d + d', k', u)
  {
    hide Run, Proper;
    assert s.doc + d + d' == s.doc + (d + d');
  }

  lemma ReadsNothing(html: string, s: State)
    requires Proper(s) && s.raw == ""
    ensures Reads(html, s, "", [], CountOf(s.ol), s)
  {
    hide Proper, Run;
    assert s.doc + [] == s.doc;
    assert WithCount(s.ol, CountOf(s.ol)) == s.ol;
  }

  lemma {:induction false} PrintIs(t: Tree)
    ensures match t
            case Words(text) => Print(t) == Escape(text)
            case Elem(tag, a, kids) => Print(t) == OpenOf(tag, a) + (PrintAll(kids) + CloseOf(tag))
  {
    if t.Elem? {
      assert OpenOf(t.tag, t.attrs) + PrintAll(t.kids) + CloseOf(t.tag) ==
             OpenOf(t.tag, t.attrs) + (PrintAll(t.kids) + CloseOf(t.tag));
    }
  }

  lemma {:induction false} ItemsIs(t: Tree, parent: nat, n: nat, k: int)
    ensures match t
            case Words(text) =>
              Items(t, parent, n, k) == [Item(Blank(Text).(text := text), parent)] && Counted(t, k) == k
            case Elem(tag, a, kids) =>
              && Items(t, parent, n, k) == [NodeOf(tag, a, k, parent)] + ItemsAll(kids, n, n + 1, Inner(tag, k))
              && Counted(t, k) == if tag == Ol then k else CountedAll(kids, Next(tag, k))
  {
  }

  lemma {:induction false} FineIs(t: Tree, height: nat)
    requires Fine(t, height)
    ensures match t
            case Words(text) => FineText(text)
            case Elem(tag, a, kids) =>
              && Known(tag) && FineAttrs(tag, a)
              && (if IsVoid(tag) then kids == [] else height < 48 && FineAll(kids, height + 1))
  {
  }

  // A text is one node ...
  lemma ReadsWords(html: string, s: State, text: string) returns (r: State)
    requires Proper(s) && s.raw == "" && FineText(text) && |s.doc| < MAX_NODES
    requires At(html, s.i, Escape(text)) && Stops(html, s.i + |Escape(text)|)
    ensures s.stack != []
    ensures Reads(html, s, Escape(text), [Item(Blank(Text).(text := text), Innermost(s))], CountOf(s.ol), r)
  {
    hide Run, Step, Proper, FineText, Escape, Ready;
    ProperReady(s);
    WordsRound(html, s, text);
    EscapedInside(html, s.i, text);
    RunStep(html, s);
    r := Step(html, s);
    assert WithCount(s.ol, CountOf(s.ol)) == s.ol;
  }

  lemma EscapedInside(html: string, i: nat, text: string)
    requires FineText(text) && At(html, i, Escape(text))
    ensures i < |html|
  {
    hide AllBlank;
    EscapeNonEmpty(text);
  }

  // ... a printed tree is read as its nodes ...
  lemma {:induction false} ReadsTree(html: string, s: State, t: Tree) returns (r: State)
    requires Proper(s) && s.raw == "" && s.stack != [] && Lists(s) && Fine(t, |s.stack|) && At(html, s.i, Print(t))
    requires |s.doc| + |Items(t, Innermost(s), |s.doc|, CountOf(s.ol))| <= MAX_NODES
    requires t.Words? ==> Stops(html, s.i + |Print(t)|)
    ensures Reads(html, s, Print(t), Items(t, Innermost(s), |s.doc|, CountOf(s.ol)), Counted(t, CountOf(s.ol)), r)
    decreases t, 1
  {
    hide *;
    var c := CountOf(s.ol);
    PrintIs(t);
    ItemsIs(t, Innermost(s), |s.doc|, c);
    FineIs(t, |s.stack|);
    if t.Words? {
      r := ReadsWords(html, s, t.text);
    } else {
      Limits();
      var o := OpensTree(html, s, t.tag, t.attrs, PrintAll(t.kids) + CloseOf(t.tag));
      if IsVoid(t.tag) {
        VoidIs(t, Innermost(s), |s.doc|, c);
        Opened(html, s, o, t.tag, t.attrs);
        r := o;
      } else {
        AtSplit(html, o.i, PrintAll(t.kids), CloseOf(t.tag));
        StopsAtClose(html, o.i + |PrintAll(t.kids)|, t.tag);
        var k := ReadsTrees(html, o, t.kids);
        r := ClosesTree(html, s, o, k, t.tag, t.attrs, PrintAll(t.kids),
          ItemsAll(t.kids, |s.doc|, |s.doc| + 1, Inner(t.tag, c)), CountedAll(t.kids, Inner(t.tag, c)));
        CountIs(t.tag, c);
      }
    }
  }

  lemma CountIs(tag: Tag, c: int)
    ensures tag != Ol ==> Inner(tag, c) == Next(tag, c)
  {
  }

  // The parser went from s over an opening tag to o.
  ghost predicate OpenedAs(html: string, s: State, o: State, tag: Tag, a: Attrs) {
    && Proper(s) && Proper(o) && Run(html, s) == Run(html, o) && s.stack != [] && s.raw == "" && o.raw == ""
    && o.i == s.i + |OpenOf(tag, a)| && o.stack == (if IsVoid(tag) then s.stack else s.stack + [|s.doc|])
    && o.doc == s.doc + [NodeOf(tag, a, CountOf(s.ol), Innermost(s))] && o.ol == Opening(s, tag) && Lists(s)
  }

  lemma OpensTree(html: string, s: State, tag: Tag, a: Attrs, rest: string) returns (o: State)
    requires Proper(s) && s.raw == "" && s.stack != [] && Lists(s) && Known(tag) && FineAttrs(tag, a)
    requires |s.doc| < MAX_NODES && (IsVoid(tag) || |s.stack| < STACK_MAX) && At(html, s.i, OpenOf(tag, a) + rest)
    ensures OpenedAs(html, s, o, tag, a) && At(html, o.i, rest) && Proper(o) && o.raw == "" && |o.doc| == |s.doc| + 1
    ensures !IsVoid(tag) ==>
              && o.stack != [] && Innermost(o) == |s.doc| && |o.stack| == |s.stack| + 1
              && Lists(o) && CountOf(o.ol) == Inner(tag, CountOf(s.ol))
  {
    hide *;
    AtSplit(html, s.i, OpenOf(tag, a), rest);
    OpenRound(html, s, tag, a);
    OpenInside(html, s.i, tag, a);
    RunStep(html, s);
    o := Step(html, s);
    if !IsVoid(tag) {
      Top(s, o);
      ListsOpened(s, o, tag);
    }
    MakeOpened(html, s, o, tag, a);
  }

  lemma ListsOpened(s: State, o: State, tag: Tag)
    requires Lists(s) && |s.stack| < STACK_MAX && |o.stack| == |s.stack| + 1 && |o.doc| == |s.doc| + 1
    requires o.ol == Opening(s, tag)
    ensures Lists(o) && CountOf(o.ol) == Inner(tag, CountOf(s.ol))
  {
  }

  lemma MakeOpened(html: string, s: State, o: State, tag: Tag, a: Attrs)
    requires Proper(s) && Proper(o) && Run(html, s) == Run(html, o) && s.stack != [] && s.raw == "" && o.raw == ""
    requires o.i == s.i + |OpenOf(tag, a)| && o.stack == (if IsVoid(tag) then s.stack else s.stack + [|s.doc|])
    requires o.doc == s.doc + [NodeOf(tag, a, CountOf(s.ol), Innermost(s))] && o.ol == Opening(s, tag) && Lists(s)
    ensures OpenedAs(html, s, o, tag, a)
  {
    hide Proper, Run, Opening, NodeOf;
  }

  lemma ClosesTree(html: string, s: State, o: State, k: State, tag: Tag, a: Attrs, w: string,
                   d: Document, m: int) returns (r: State)
    requires OpenedAs(html, s, o, tag, a) && s.stack != [] && Known(tag) && !IsVoid(tag)
    requires Reads(html, o, w, d, m, k) && At(html, o.i + |w|, CloseOf(tag))
    ensures Reads(html, s, OpenOf(tag, a) + (w + CloseOf(tag)), [NodeOf(tag, a, CountOf(s.ol), Innermost(s))] + d,
              if tag == Ol then CountOf(s.ol) else m, r)
  {
    hide *;
    ReadsFacts(html, o, w, d, m, k);
    OpenTop(html, s, o, k, tag, a, d);
    CloseRound(html, k, tag);
    CloseInside(html, k.i, tag);
    RunStep(html, k);
    r := Step(html, k);
    ListsClosed(html, s, o, k, r, tag, a, w, d, m);
    Closed(html, s, o, k, r, tag, a, w, d, m);
  }

  lemma OpenTop(html: string, s: State, o: State, k: State, tag: Tag, a: Attrs, d: Document)
    requires OpenedAs(html, s, o, tag, a) && !IsVoid(tag) && k.stack == o.stack && k.doc == o.doc + d
    ensures |k.stack| > 1 && Innermost(k) < |k.doc| && k.doc[Innermost(k)].info.tag == tag
    ensures Innermost(k) == |s.doc|
  {
    hide Proper, Run, Opening;
  }

  // Closing a list brings back the one around it; other elements leave the lists alone.
  lemma ListsClosed(html: string, s: State, o: State, k: State, r: State, tag: Tag, a: Attrs, w: string,
                    d: Document, m: int)
    requires OpenedAs(html, s, o, tag, a) && !IsVoid(tag) && Reads(html, o, w, d, m, k) && |o.stack| <= STACK_MAX
    requires k.stack != [] && Innermost(k) == |s.doc|
    requires tag != Ol ==> r.ol == k.ol
    requires tag == Ol && k.ol != [] && k.ol[|k.ol| - 1].node == Innermost(k) ==> r.ol == k.ol[..|k.ol| - 1]
    ensures var c := if tag == Ol then CountOf(s.ol) else m;
            r.ol == WithCount(s.ol, c) && (c < 0 <==> s.ol == []) && (c < 0 ==> c == -1)
  {
    hide *;
    ListsOf(html, s, o, k, tag, a, w, d, m);
    if tag == Ol {
      ListEnds(s.ol, k.ol, |s.doc|, m);
    } else {
      CountTwice(s.ol, Next(tag, CountOf(s.ol)), m);
    }
  }

  lemma ListsOf(html: string, s: State, o: State, k: State, tag: Tag, a: Attrs, w: string, d: Document, m: int)
    requires OpenedAs(html, s, o, tag, a) && !IsVoid(tag) && Reads(html, o, w, d, m, k) && |o.stack| <= STACK_MAX
    ensures tag == Ol ==> k.ol == WithCount(s.ol + [Counter(|s.doc|, 0)], m) && m >= 0
    ensures tag != Ol ==> k.ol == WithCount(WithCount(s.ol, Next(tag, CountOf(s.ol))), m)
    ensures tag != Ol ==> (m < 0 <==> s.ol == []) && (m < 0 ==> m == -1)
  {
    hide Proper, Run, NodeOf, OpenOf, CountOf, Next, Opening;
    OpensList(s, tag);
  }

  lemma OpensList(s: State, tag: Tag)
    requires |s.ol| < STACK_MAX
    ensures Opening(s, tag) ==
            if tag == Ol then s.ol + [Counter(|s.doc|, 0)] else WithCount(s.ol, Next(tag, CountOf(s.ol)))
  {
    if tag == Ol && s.ol != [] { assert WithCount(s.ol, CountOf(s.ol)) == s.ol; }
  }

  lemma ListEnds(ol: seq<Counter>, l: seq<Counter>, n: nat, m: int)
    requires l == WithCount(ol + [Counter(n, 0)], m) && m >= 0
    ensures l != [] && l[|l| - 1].node == n && l[..|l| - 1] == ol
    ensures var c := CountOf(ol); ol == WithCount(ol, c) && (c < 0 <==> ol == []) && (c < 0 ==> c == -1)
  {
  }

  lemma CountTwice(ol: seq<Counter>, a: int, b: int)
    requires b < 0 <==> ol == []
    ensures WithCount(WithCount(ol, a), b) == WithCount(ol, b)
  {
  }

  // ... and so are printed trees in a row.
  lemma {:induction false} ReadsTrees(html: string, s: State, ts: seq<Tree>) returns (r: State)
    requires Proper(s) && s.raw == "" && s.stack != [] && Lists(s) && FineAll(ts, |s.stack|)
    requires At(html, s.i, PrintAll(ts)) && Stops(html, s.i + |PrintAll(ts)|)
    requires |s.doc| + |ItemsAll(ts, Innermost(s), |s.doc|, CountOf(s.ol))| <= MAX_NODES
    ensures Reads(html, s, PrintAll(ts), ItemsAll(ts, Innermost(s), |s.doc|, CountOf(s.ol)),
              CountedAll(ts, CountOf(s.ol)), r)
    decreases ts, 2
  {
    hide *;
    var c := CountOf(s.ol);
    AllIs(ts, Innermost(s), |s.doc|, c, |s.stack|);
    if ts == [] {
      ReadsNothing(html, s);
      return s;
    }
    var d := Items(ts[0], Innermost(s), |s.doc|, c);
    AtSplit(html, s.i, Print(ts[0]), PrintAll(ts[1..]));
    if ts[0].Words? { StopsAtNext(html, s.i + |Print(ts[0])|, ts[1..], |s.stack|); }
    var t := ReadsTree(html, s, ts[0]);
    ReadsFacts(html, s, Print(ts[0]), d, Counted(ts[0], c), t);
    SameTop(s, t);
    ListsKept(html, s, Print(ts[0]), d, Counted(ts[0], c), t);
    r := ReadsTrees(html, t, ts[1..]);
    ReadsThen(html, s, Print(ts[0]), d, Counted(ts[0], c), t, PrintAll(ts[1..]),
      ItemsAll(ts[1..], Innermost(t), |t.doc|, CountOf(t.ol)), CountedAll(ts[1..], CountOf(t.ol)), r);
  }

  lemma ListsKept(html: string, s: State, w: string, d: Document, k: int, t: State)
    requires Reads(html, s, w, d, k, t) && Lists(s)
    ensures Lists(t) && CountOf(t.ol) == k
  {
    hide Proper, Run;
  }

  lemma {:induction false} AllIs(ts: seq<Tree>, parent: nat, n: nat, k: int, height: nat)
    requires FineAll(ts, height)
    ensures ts == [] ==> PrintAll(ts) == "" && ItemsAll(ts, parent, n, k) == [] && CountedAll(ts, k) == k
    ensures ts != [] ==>
              && PrintAll(ts) == Print(ts[0]) + PrintAll(ts[1..]) && Fine(ts[0], height) && FineAll(ts[1..], height)
              && ItemsAll(ts, parent, n, k) ==
                 Items(ts[0], parent, n, k)
                 + ItemsAll(ts[1..], parent, n + |Items(ts[0], parent, n, k)|, Counted(ts[0], k))
              && CountedAll(ts, k) == CountedAll(ts[1..], Counted(ts[0], k))
              && (|ts| > 1 ==> !(ts[0].Words? && ts[1].Words?))
  {
  }

  lemma {:induction false} StopsAtNext(html: string, i: nat, ts: seq<Tree>, height: nat)
    requires At(html, i, PrintAll(ts)) && FineAll(ts, height) && (ts != [] ==> ts[0].Elem?)
    requires Stops(html, i + |PrintAll(ts)|)
    ensures Stops(html, i)
  {
    hide Fine;
    if ts != [] {
      AtChar(html, i, PrintAll(ts), 0);
      assert Print(ts[0])[0] == '<';
    }
  }

  lemma StopsAtClose(html: string, i: nat, tag: Tag)
    requires At(html, i, CloseOf(tag)) && !IsVoid(tag)
    ensures Stops(html, i)
  {
    AtChar(html, i, CloseOf(tag), 0);
  }

  lemma OpenInside(html: string, i: nat, tag: Tag, a: Attrs)
    requires At(html, i, OpenOf(tag, a))
    ensures i < |html|
  {
  }

  lemma CloseInside(html: string, i: nat, tag: Tag)
    requires At(html, i, CloseOf(tag)) && !IsVoid(tag)
    ensures i < |html|
  {
  }

  lemma {:induction false} VoidIs(t: Tree, parent: nat, n: nat, k: int)
    requires t.Elem? && IsVoid(t.tag) && t.kids == []
    ensures Print(t) == OpenOf(t.tag, t.attrs) && Items(t, parent, n, k) == [NodeOf(t.tag, t.attrs, k, parent)]
    ensures Counted(t, k) == Next(t.tag, k)
  {
  }

  lemma Top(s: State, o: State)
    requires o.stack == s.stack + [|s.doc|]
    ensures o.stack != [] && Innermost(o) == |s.doc| && |o.stack| == |s.stack| + 1
  {
  }

  lemma SameTop(s: State, t: State)
    requires t.stack == s.stack && s.stack != []
    ensures Innermost(t) == Innermost(s)
  {
  }

  lemma ReadsFacts(html: string, s: State, w: string, d: Document, k: int, t: State)
    requires Reads(html, s, w, d, k, t)
    ensures Proper(t) && t.raw == "" && t.stack == s.stack && t.i == s.i + |w| && t.doc == s.doc + d
    ensures |s.stack| <= STACK_MAX && |t.doc| == |s.doc| + |d|
  {
  }

  // After an opening tag of a void element.
  lemma Opened(html: string, s: State, o: State, tag: Tag, a: Attrs)
    requires OpenedAs(html, s, o, tag, a) && IsVoid(tag) && s.stack != []
    ensures Reads(html, s, OpenOf(tag, a), [NodeOf(tag, a, CountOf(s.ol), Innermost(s))], Next(tag, CountOf(s.ol)), o)
  {
    hide Proper, Run, NodeOf;
  }

  // After an element with all its children: opened at o, the children read at k, closed at r.
  lemma Closed(html: string, s: State, o: State, k: State, r: State, tag: Tag, a: Attrs, w: string,
               d: Document, m: int)
    requires OpenedAs(html, s, o, tag, a) && !IsVoid(tag) && s.stack != [] && Reads(html, o, w, d, m, k)
    requires Proper(k) && Proper(r) && Run(html, k) == Run(html, r)
    requires r.i == k.i + |CloseOf(tag)| && r.raw == "" && |k.stack| > 1 && r.stack == k.stack[..|k.stack| - 1]
    requires r.doc == k.doc
    requires var c := if tag == Ol then CountOf(s.ol) else m;
             r.ol == WithCount(s.ol, c) && (c < 0 <==> s.ol == []) && (c < 0 ==> c == -1)
    ensures Reads(html, s, OpenOf(tag, a) + (w + CloseOf(tag)), [NodeOf(tag, a, CountOf(s.ol), Innermost(s))] + d,
              if tag == Ol then CountOf(s.ol) else m, r)
  {
    hide *;
    var x := NodeOf(tag, a, CountOf(s.ol), Innermost(s));
    OpenedFacts(html, s, o, tag, a);
    ReadsParts(html, o, w, d, m, k);
    Assoc(s.doc, [x], d);
    Popped(s.stack, k.stack, |s.doc|);
    var c := if tag == Ol then CountOf(s.ol) else m;
    MakeReads(html, s, OpenOf(tag, a) + (w + CloseOf(tag)), [x] + d, c, r);
  }

  lemma Assoc(a: Document, b: Document, c: Document)
    ensures a + b + c == a + (b + c)
  {
  }

  lemma Popped(s: seq<nat>, k: seq<nat>, n: nat)
    requires k == s + [n]
    ensures k[..|k| - 1] == s
  {
  }

  lemma OpenedFacts(html: string, s: State, o: State, tag: Tag, a: Attrs)
    requires OpenedAs(html, s, o, tag, a) && !IsVoid(tag)
    ensures Proper(s) && Run(html, s) == Run(html, o) && s.raw == "" && s.stack != []
    ensures o.i == s.i + |OpenOf(tag, a)| && o.stack == s.stack + [|s.doc|]
    ensures o.doc == s.doc + [NodeOf(tag, a, CountOf(s.ol), Innermost(s))]
  {
  }

  lemma ReadsParts(html: string, s: State, w: string, d: Document, k: int, t: State)
    requires Reads(html, s, w, d, k, t)
    ensures Run(html, s) == Run(html, t) && t.i == s.i + |w| && t.stack == s.stack && t.doc == s.doc + d
  {
  }

  lemma MakeReads(html: string, s: State, w: string, d: Document, k: int, t: State)
    requires Proper(s) && Proper(t) && Run(html, s) == Run(html, t)
    requires t.i == s.i + |w| && t.raw == "" && t.stack == s.stack && t.doc == s.doc + d
    requires t.ol == WithCount(s.ol, k) && (k < 0 <==> s.ol == []) && (k < 0 ==> k == -1)
    ensures Reads(html, s, w, d, k, t)
  {
  }

  // Parsing what was printed gives the nodes of the trees, below the root, and uses up the input.
  lemma RoundTrip(ts: seq<Tree>)
    requires FineAll(ts, 1) && 1 + |ItemsAll(ts, 0, 1, -1)| <= 512
    ensures Parse(PrintAll(ts)).i == |PrintAll(ts)|
    ensures Parse(PrintAll(ts)).doc == [Item(Blank(Html), -1)] + ItemsAll(ts, 0, 1, -1)
  {
    hide *;
    var html := PrintAll(ts);
    StartFacts(html);
    Limits();
    var r := ReadsTrees(html, Start(), ts);
    Ends(html, ts, r);
  }

  lemma StartFacts(html: string)
    ensures Proper(Start()) && Start().raw == "" && Start().stack == [0] && |Start().doc| == 1 && Start().i == 0
    ensures Innermost(Start()) == 0 && At(html, 0, html) && Stops(html, 0 + |html|)
    ensures Lists(Start()) && CountOf(Start().ol) == -1
  {
    assert html[0..|html|] == html;
  }

  lemma Ends(html: string, ts: seq<Tree>, r: State)
    requires Proper(Start()) && html == PrintAll(ts)
    requires Reads(html, Start(), PrintAll(ts), ItemsAll(ts, 0, 1, -1), CountedAll(ts, -1), r)
    ensures Parse(html) == r && r.i == |html|
    ensures r.doc == [Item(Blank(Html), -1)] + ItemsAll(ts, 0, 1, -1)
  {
    hide PrintAll, ItemsAll, CountedAll;
  }

  // ---------- The nodes determine the trees ----------

  // Below the first node of a tree all parents lie in the tree.
  lemma {:induction false} ParentsInside(t: Tree, p: nat, n: nat, k: int)
    ensures var d := Items(t, p, n, k);
            d[0].parent == p && forall i :: 1 <= i < |d| ==> d[i].parent >= n
    decreases t, 0
  {
    if t.Elem? { ParentsAbove(t.kids, n, n + 1, Inner(t.tag, k)); }
  }

  lemma {:induction false} ParentsAbove(ts: seq<Tree>, p: nat, n: nat, k: int)
    requires p < n
    ensures forall i :: 0 <= i < |ItemsAll(ts, p, n, k)| ==> ItemsAll(ts, p, n, k)[i].parent >= p
    ensures ts != [] <==> ItemsAll(ts, p, n, k) != []
    ensures ts != [] ==> ItemsAll(ts, p, n, k)[0].parent == p
    decreases ts, 1
  {
    if ts != [] {
      ParentsInside(ts[0], p, n, k);
      ParentsAbove(ts[1..], p, n + |Items(ts[0], p, n, k)|, Counted(ts[0], k));
    }
  }

  // Two rows of fine trees with the same nodes are the same.
  lemma {:induction false} SameNodes(ts: seq<Tree>, us: seq<Tree>, height: nat, p: nat, n: nat, k: int)
    requires FineAll(ts, height) && FineAll(us, height) && p < n && ItemsAll(ts, p, n, k) == ItemsAll(us, p, n, k)
    ensures ts == us
    decreases ts
  {
    hide *;
    ParentsAbove(ts, p, n, k);
    ParentsAbove(us, p, n, k);
    if ts != [] {
      var t, u := ts[0], us[0];
      var a, b := Items(t, p, n, k), Items(u, p, n, k);
      AllIs(ts, p, n, k, height);
      AllIs(us, p, n, k, height);
      SameLength(ts, us, p, n, k);
      SameParts(a, ItemsAll(ts[1..], p, n + |a|, Counted(t, k)), b, ItemsAll(us[1..], p, n + |b|, Counted(u, k)));
      SameKind(t, u, height, p, n, k);
      if t.Elem? { SameNodes(t.kids, u.kids, height + 1, n, n + 1, Inner(t.tag, k)); }
      SameNodes(ts[1..], us[1..], height, p, n + |a|, Counted(t, k));
      assert ts == [t] + ts[1..] && us == [u] + us[1..];
    }
  }

  lemma SameParts(a: Document, c: Document, b: Document, d: Document)
    requires a + c == b + d && |a| == |b|
    ensures a == b && c == d
  {
    assert a == (a + c)[..|a|] && b == (b + d)[..|b|];
    assert c == (a + c)[|a|..] && d == (b + d)[|b|..];
  }

  // Two fine trees with the same nodes agree but for their children, whose nodes are the same too.
  lemma {:induction false} SameKind(t: Tree, u: Tree, height: nat, p: nat, n: nat, k: int)
    requires Fine(t, height) && Fine(u, height) && Items(t, p, n, k) == Items(u, p, n, k)
    ensures t.Elem? <==> u.Elem?
    ensures t.Words? ==> t == u
    ensures t.Elem? ==>
              && t.tag == u.tag && t.attrs == u.attrs
              && ItemsAll(t.kids, n, n + 1, Inner(t.tag, k)) == ItemsAll(u.kids, n, n + 1, Inner(t.tag, k))
              && FineAll(t.kids, height + 1) && FineAll(u.kids, height + 1)
  {
    hide *;
    FineIs(t, height);
    FineIs(u, height);
    ItemsIs(t, p, n, k);
    ItemsIs(u, p, n, k);
    KnownTags();
    var a, b := Items(t, p, n, k), Items(u, p, n, k);
    assert a[0] == b[0] && a[1..] == b[1..];
    if t.Elem? { VoidFine(t, height); }
    if u.Elem? { VoidFine(u, height); }
    NodeTag(k, p);
    BlankIs();
    if t.Elem? && u.Elem? {
      NodeSame(t.tag, t.attrs, u.tag, u.attrs, k, p);
      assert ItemsAll(t.kids, n, n + 1, Inner(t.tag, k)) == a[1..];
      assert ItemsAll(u.kids, n, n + 1, Inner(u.tag, k)) == b[1..];
    }
  }

  lemma NodeTag(k: int, p: nat)
    ensures forall t, a :: NodeOf(t, a, k, p).info.tag == t
  {
  }

  // What an element carries can be told from its node.
  lemma NodeSame(t: Tag, a: Attrs, u: Tag, b: Attrs, k: int, p: nat)
    requires FineAttrs(t, a) && FineAttrs(u, b) && NodeOf(t, a, k, p) == NodeOf(u, b, k, p)
    ensures t == u && a == b
  {
    hide FineAttrs;
    var x, y := InfoOf(t, a), InfoOf(u, b);
    assert x.(listIndex := 0) == x && y.(listIndex := 0) == y;
    InfoSame(t, a, u, b);
  }

  lemma InfoSame(t: Tag, a: Attrs, u: Tag, b: Attrs)
    requires FineAttrs(t, a) && FineAttrs(u, b) && InfoOf(t, a) == InfoOf(u, b)
    ensures t == u && a == b
  {
    hide *;
    InfoParts(t, a);
    InfoParts(u, b);
  }

  lemma InfoParts(t: Tag, a: Attrs)
    requires FineAttrs(t, a)
    ensures var x := InfoOf(t, a);
            && x.tag == t
            && a == if x.attr == "" && x.attr2 == "" && x.w == 0 && x.h == 0 then None
                 else if t == A then Link(x.attr)
                 else Picture(x.attr, x.attr2, if x.w < 0 then 0 else x.w, if x.h < 0 then 0 else x.h)
  {
    hide FineValue;
  }

  lemma KnownTags()
    ensures !Known(Text)
  {
  }

  lemma BlankIs()
    ensures forall t :: Blank(t) == Info(t, "", "", "", 0, 0, 0)
  {
  }

  lemma {:induction false} VoidFine(t: Tree, height: nat)
    requires t.Elem? && Fine(t, height)
    ensures FineAll(t.kids, height + 1)
  {
  }

  lemma {:induction false} SameLength(ts: seq<Tree>, us: seq<Tree>, p: nat, n: nat, k: int)
    requires ts != [] && us != [] && p < n && ItemsAll(ts, p, n, k) == ItemsAll(us, p, n, k)
    ensures |Items(ts[0], p, n, k)| == |Items(us[0], p, n, k)|
  {
    hide Items;
    var a, b := Items(ts[0], p, n, k), Items(us[0], p, n, k);
    ParentsInside(ts[0], p, n, k);
    ParentsInside(us[0], p, n, k);
    var c, e := ItemsAll(ts[1..], p, n + |a|, Counted(ts[0], k)), ItemsAll(us[1..], p, n + |b|, Counted(us[0], k));
    ParentsAbove(ts[1..], p, n + |a|, Counted(ts[0], k));
    ParentsAbove(us[1..], p, n + |b|, Counted(us[0], k));
    var d := ItemsAll(ts, p, n, k);
    assert d == a + c && d == b + e;
    if |a| < |b| { NextNode(a, c, b, e); }
    if |b| < |a| { NextNode(b, e, a, c); }
  }

  lemma NextNode(a: Document, c: Document, b: Document, e: Document)
    requires a + c == b + e && |a| < |b|
    ensures c != [] && c[0] == b[|a|]
  {
    assert (a + c)[|a|] == (b + e)[|a|];
  }

  // So parsing a print tells fine trees apart: printing is injective, and what is parsed is what was printed.
  lemma PrintInjective(ts: seq<Tree>, us: seq<Tree>)
    requires FineAll(ts, 1) && FineAll(us, 1)
    requires 1 + |ItemsAll(ts, 0, 1, -1)| <= 512 && 1 + |ItemsAll(us, 0, 1, -1)| <= 512
    ensures PrintAll(ts) == PrintAll(us) <==> ts == us
  {
    hide *;
    RoundTrip(ts);
    RoundTrip(us);
    if PrintAll(ts) == PrintAll(us) {
      TailOf(Item(Blank(Html), -1), ItemsAll(ts, 0, 1, -1), ItemsAll(us, 0, 1, -1));
      SameNodes(ts, us, 1, 0, 1, -1);
    }
  }

  lemma TailOf(x: Item, a: Document, b: Document)
    requires [x] + a == [x] + b
    ensures a == b
  {
    assert a == ([x] + a)[1..] && b == ([x] + b)[1..];
  }
}
