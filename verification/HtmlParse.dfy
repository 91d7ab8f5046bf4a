// What the HTML parser does with one piece of its input, and with all of it.
module HtmlParse {
  import opened Dom
  import opened HtmlScan

  const STACK_MAX: nat := 48

  // A counter for an open ordered list.
  datatype Counter = Counter(node: nat, count: nat)

  // Where the parser is: position, document, open elements, open lists, and inside a raw block the
  // tag that closes it ("" outside).
  datatype State = State(i: nat, doc: Document, stack: seq<nat>, ol: seq<Counter>, raw: string)

  function Start(): State { State(0, [Item(Blank(Html), -1)], [0], [], "") }

  // The open elements are the path from the root to the innermost one, and the document is a tree.
  ghost predicate Proper(s: State) {
    && IsTree(s.doc) && |s.doc| <= MAX_NODES
    && IsPath(s.doc, s.stack) && |s.stack| <= STACK_MAX && |s.ol| <= STACK_MAX
  }

  ghost predicate IsPath(d: Document, p: seq<nat>) {
    && p != [] && p[0] == 0 && (forall k :: 0 <= k < |p| ==> p[k] < |d|)
    && (forall j, k :: 0 <= j && k == j + 1 < |p| ==> d[p[k]].parent == p[j])
  }

  function Innermost(s: State): nat
    requires s.stack != []
  {
    s.stack[|s.stack| - 1]
  }

  function Grow(s: State, info: Info): State
    requires s.stack != []
  {
    s.(doc := s.doc + [Item(info, Innermost(s))])
  }

  // ---------- Closing tags ----------

  // The highest position below n, and above the root, of an open element of that tag; 0 if none.
  function NearestBelow(d: Document, stack: seq<nat>, n: nat, tag: Tag): (r: nat)
    requires n <= |stack| && forall k :: 0 <= k < |stack| ==> stack[k] < |d|
    ensures r < n || r == 0
    ensures r > 0 ==> d[stack[r]].info.tag == tag && forall k :: r < k < n ==> d[stack[k]].info.tag != tag
    ensures r == 0 ==> forall k :: 1 <= k < n ==> d[stack[k]].info.tag != tag
  {
    if n <= 1 then 0 else if d[stack[n - 1]].info.tag == tag then n - 1 else NearestBelow(d, stack, n - 1, tag)
  }

  // The lists opened before the one of that node.
  function ListsBelow(ol: seq<Counter>, n: nat, node: nat): (r: seq<Counter>)
    requires n <= |ol|
    ensures |r| <= |ol|
  {
    if n == 0 then ol else if ol[n - 1].node == node then ol[..n - 1] else ListsBelow(ol, n - 1, node)
  }

  function CloseLists(s: State): (ol: seq<Counter>)
    requires forall k :: 0 <= k < |s.stack| ==> s.stack[k] < |s.doc|
    ensures |ol| <= |s.ol|
  {
    var k := NearestBelow(s.doc, s.stack, |s.stack|, Ol);
    if k == 0 then s.ol else ListsBelow(s.ol, |s.ol|, s.stack[k])
  }

  // Everything up to the nearest open element of that tag is closed; without one, nothing.
  function Close(s: State, tag: Tag): State
    requires forall k :: 0 <= k < |s.stack| ==> s.stack[k] < |s.doc|
  {
    var ol := if tag == Ol then CloseLists(s) else s.ol;
    var k := NearestBelow(s.doc, s.stack, |s.stack|, tag);
    s.(ol := ol, stack := if k == 0 then s.stack else s.stack[..k])
  }

  // ---------- Opening tags ----------

  function AttrOr(html: string, from: nat, to: nat, name: string, max: nat): string
    requires from <= to <= |html| && max >= 1
  {
    match Attribute(html, from, to, name)
    case No => ""
    case Yes(v) => Cut(v, max - 1)
  }

  function SizeOr(html: string, from: nat, to: nat, name: string): int
    requires from <= to <= |html|
  {
    match Attribute(html, from, to, name)
    case No => 0
    case Yes(v) => NumberOf(Cut(v, 15))
  }

  // The fields of an element whose attributes lie between from and to.
  function ElementInfo(html: string, from: nat, to: nat, tag: Tag, listIndex: nat): (r: Info)
    requires from <= to <= |html|
    ensures r.tag == tag && r.listIndex == listIndex
  {
    if tag == A then Blank(A).(attr := AttrOr(html, from, to, "href", MAX_ATTR), listIndex := listIndex)
    else if tag == Img then
      Info(Img, "", AttrOr(html, from, to, "src", MAX_ATTR), AttrOr(html, from, to, "alt", MAX_ATTR),
           SizeOr(html, from, to, "width"), SizeOr(html, from, to, "height"), listIndex)
    else Blank(tag).(listIndex := listIndex)
  }

  // An item of an ordered list takes the next number.
  function Numbered(s: State, tag: Tag): (r: (seq<Counter>, nat))
    ensures |r.0| == |s.ol|
  {
    if tag == Li && s.ol != [] then
      var c := s.ol[|s.ol| - 1];
      (s.ol[|s.ol| - 1 := c.(count := c.count + 1)], c.count + 1)
    else (s.ol, 0)
  }

  // A new element below the innermost open one; it is itself opened unless it closes at once, is
  // void, or the stack is full.
  function Open(html: string, s: State, from: nat, to: nat, selfClosing: bool, tag: Tag): State
    requires from <= to <= |html| && s.stack != []
  {
    if |s.doc| >= MAX_NODES then s
    else
      var n, (ol, number) := |s.doc|, Numbered(s, tag);
      var t := Grow(s.(ol := ol), ElementInfo(html, from, to, tag, number));
      if selfClosing || IsVoid(tag) || |s.stack| >= STACK_MAX then t
      else t.(stack := s.stack + [n], ol := if tag == Ol && |ol| < STACK_MAX then ol + [Counter(n, 0)] else ol)
  }

  // ---------- Text ----------

  // A character put behind the text so far; outside "pre" white space becomes one blank.
  function PutChar(buf: string, c: char, pre: bool): (r: string)
    ensures |buf| <= |r| <= |buf| + 1
  {
    if !pre && IsWs(c) && buf != "" && buf[|buf| - 1] == ' ' then buf
    else buf + [if !pre && IsWs(c) then ' ' else c]
  }

  function AddText(s: State, text: string): State
    requires s.stack != []
  {
    if |s.doc| < MAX_NODES then Grow(s, Blank(Text).(text := text)) else s
  }

  // The character at i and how much of the input it takes.
  function CharAt(html: string, i: nat): (r: (char, nat))
    requires i < |html|
    ensures 1 <= r.1 && i + r.1 <= |html|
  {
    if html[i] == '&' then Entity(html, i) else (html[i], 1)
  }

  datatype TextState = TextState(s: State, buf: string, visible: bool)

  // One character of text; a full buffer becomes a node.
  function TextStep(html: string, t: TextState, pre: bool): (r: TextState)
    requires t.s.i < |html| && t.s.stack != []
    ensures t.s.i < r.s.i <= |html| && r.s.stack == t.s.stack && r.s.ol == t.s.ol && r.s.raw == t.s.raw
  {
    var (c, n) := CharAt(html, t.s.i);
    var visible, buf, s := t.visible || !IsWs(c), PutChar(t.buf, c, pre), t.s.(i := t.s.i + n);
    if |buf| == MAX_TEXT - 1 then TextState(if visible then AddText(s, buf) else s, "", false)
    else TextState(s, buf, visible)
  }

  // All text up to the next "<".
  function TextRun(html: string, t: TextState, pre: bool): (r: TextState)
    requires t.s.i <= |html| && t.s.stack != []
    ensures t.s.i <= r.s.i <= |html| && r.s.stack == t.s.stack && r.s.ol == t.s.ol && r.s.raw == t.s.raw
    decreases |html| - t.s.i
  {
    if t.s.i == |html| || html[t.s.i] == '<' then t else TextRun(html, TextStep(html, t, pre), pre)
  }

  function UpToNul(s: string): string {
    if s == "" || s[0] == '\0' then "" else [s[0]] + UpToNul(s[1..])
  }

  predicate AllBlank(s: string) { forall k :: 0 <= k < |s| ==> s[k] == ' ' }

  // What is left in the buffer becomes a node, unless nothing of it is visible.
  function FinishText(t: TextState, pre: bool): State
    requires t.s.stack != []
  {
    if !pre && t.buf != "" && t.buf[0] == ' ' && AllBlank(t.buf) then t.s
    else if t.visible && t.buf != "" then AddText(t.s, UpToNul(t.buf))
    else t.s
  }

  predicate InPre(s: State)
    requires forall k :: 0 <= k < |s.stack| ==> s.stack[k] < |s.doc|
  {
    NearestBelow(s.doc, s.stack, |s.stack|, Pre) > 0
  }

  // ---------- One round of the main loop ----------

  predicate Ready(html: string, s: State) {
    s.i < |html| && s.stack != [] && forall k :: 0 <= k < |s.stack| ==> s.stack[k] < |s.doc|
  }

  // Behind the tag that ends at "to".
  function Behind(html: string, to: nat): nat { if to < |html| then to + 1 else |html| }

  predicate IsRaw(html: string, from: nat, to: nat, name: string)
    requires from <= to <= |html|
  {
    to - from == |name| && Matches(html, from, |html|, name)
  }

  function OpeningTag(html: string, s: State): State
    requires Ready(html, s)
  {
    var from := s.i + 1;
    var to := NameEnd(html, from);
    if to == from then s.(i := from + 1)
    else
      var end := TagEnd(html, to);
      var selfClosing := html[end - 1] == '/';
      var t := s.(i := Behind(html, end));
      if IsRaw(html, from, to, "script") then t.(raw := if selfClosing then s.raw else "</script>")
      else if IsRaw(html, from, to, "style") then t.(raw := if selfClosing then s.raw else "</style>")
      else Open(html, t, to, end, selfClosing, Lookup(LowerAll(html[from..to])))
  }

  function ClosingTag(html: string, s: State): State
    requires Ready(html, s) && s.i + 1 < |html|
  {
    var from := s.i + 2;
    var to := NameEnd(html, from);
    Close(s.(i := After(html, to, ">")), Lookup(LowerAll(html[from..to])))
  }

  function TextPart(html: string, s: State): State
    requires Ready(html, s)
  {
    var pre := InPre(s);
    FinishText(TextRun(html, TextState(s, "", false), pre), pre)
  }

  function Step(html: string, s: State): State
    requires Ready(html, s)
  {
    if s.raw != "" then
      if Matches(html, s.i, |html|, s.raw) then s.(i := s.i + |s.raw|, raw := "") else s.(i := s.i + 1)
    else if html[s.i] != '<' then TextPart(html, s)
    else if Matches(html, s.i, |html|, "<!--") then s.(i := After(html, s.i + 4, "-->"))
    else if Matches(html, s.i, |html|, "<!") then s.(i := After(html, s.i, ">"))
    else if s.i + 1 < |html| && html[s.i + 1] == '/' then ClosingTag(html, s)
    else OpeningTag(html, s)
  }

  // ---------- What every round keeps ----------

  lemma PathGrows(d: Document, x: Item, p: seq<nat>)
    requires IsPath(d, p)
    ensures IsPath(d + [x], p)
  {
    assert forall k :: 0 <= k < |p| ==> (d + [x])[p[k]] == d[p[k]];
  }

  lemma PathDeeper(d: Document, x: Item, p: seq<nat>)
    requires IsPath(d, p) && x.parent == p[|p| - 1]
    ensures IsPath(d + [x], p + [|d|])
  {
    PathGrows(d, x, p);
  }

  lemma PathShorter(d: Document, p: seq<nat>, k: nat)
    requires IsPath(d, p) && 1 <= k <= |p|
    ensures IsPath(d, p[..k])
  {
  }

  lemma GrowProper(s: State, info: Info)
    requires Proper(s) && |s.doc| < MAX_NODES
    ensures Proper(Grow(s, info))
  {
    PathGrows(s.doc, Item(info, Innermost(s)), s.stack);
  }

  lemma OpenProper(html: string, s: State, from: nat, to: nat, selfClosing: bool, tag: Tag)
    requires Proper(s) && from <= to <= |html|
    ensures Proper(Open(html, s, from, to, selfClosing, tag))
  {
    hide ElementInfo, IsPath;
    if |s.doc| < MAX_NODES {
      NonEmpty(s);
      var (ol, number) := Numbered(s, tag);
      var x := Item(ElementInfo(html, from, to, tag, number), Innermost(s));
      GrowProper(s.(ol := ol), ElementInfo(html, from, to, tag, number));
      PathDeeper(s.doc, x, s.stack);
    }
  }

  lemma NonEmpty(s: State)
    requires IsPath(s.doc, s.stack)
    ensures s.stack != [] && s.stack[|s.stack| - 1] < |s.doc|
  {
  }

  lemma CloseProper(s: State, tag: Tag)
    requires Proper(s)
    ensures Proper(Close(s, tag))
  {
    var k := NearestBelow(s.doc, s.stack, |s.stack|, tag);
    if k > 0 { PathShorter(s.doc, s.stack, k); }
  }

  lemma TextProper(s: State, text: string)
    requires Proper(s)
    ensures Proper(AddText(s, text))
  {
    if |s.doc| < MAX_NODES { GrowProper(s, Blank(Text).(text := text)); }
  }

  lemma {:induction false} RunProper(html: string, t: TextState, pre: bool)
    requires Proper(t.s) && t.s.i <= |html|
    ensures Proper(TextRun(html, t, pre).s)
    decreases |html| - t.s.i
  {
    hide CharAt, PutChar, Proper;
    ProperReady(t.s);
    if t.s.i < |html| && html[t.s.i] != '<' {
      var (c, n) := CharAt(html, t.s.i);
      MoveProper(t.s, t.s.i + n);
      TextProper(t.s.(i := t.s.i + n), PutChar(t.buf, c, pre));
      RunProper(html, TextStep(html, t, pre), pre);
    }
  }

  lemma MoveProper(s: State, i: nat)
    requires Proper(s)
    ensures Proper(s.(i := i))
  {
  }

  lemma ProperReady(s: State)
    requires Proper(s)
    ensures s.stack != [] && s.doc != [] && forall k :: 0 <= k < |s.stack| ==> s.stack[k] < |s.doc|
  {
  }

  // One round keeps the tree and the stack, and moves on: to the end at most, or, at a "<" that
  // is the last character, one beyond.
  lemma StepProper(html: string, s: State)
    requires Proper(s) && s.i < |html|
    ensures Ready(html, s) && Proper(Step(html, s)) && s.i < Step(html, s).i
    ensures Step(html, s).i <= if LoneLess(html, s) then |html| + 1 else |html|
    ensures LoneLess(html, s) ==> Step(html, s).i == |html| + 1
  {
    hide Open, Close, Proper, Lookup, IsRaw, TextRun, NearestBelow, After, NameEnd, TagEnd;
    ProperReady(s);
    if s.raw != "" {
      MoveProper(s, s.i + 1);
      RawProper(s, s.i + |s.raw|, "");
    } else if html[s.i] != '<' {
      TextPartProper(html, s);
    } else if Matches(html, s.i, |html|, "<!--") {
      MoveProper(s, After(html, s.i + 4, "-->"));
    } else if Matches(html, s.i, |html|, "<!") {
      MoveProper(s, After(html, s.i, ">"));
      AfterMoves(html, s.i);
    } else if s.i + 1 < |html| && html[s.i + 1] == '/' {
      var to := NameEnd(html, s.i + 2);
      MoveProper(s, After(html, to, ">"));
      CloseProper(s.(i := After(html, to, ">")), Lookup(LowerAll(html[s.i + 2..to])));
      CloseMoves(s.(i := After(html, to, ">")), Lookup(LowerAll(html[s.i + 2..to])));
    } else {
      OpeningProper(html, s);
    }
  }

  // The parser is outside a raw block and only a "<" is left.
  predicate LoneLess(html: string, s: State) { s.raw == "" && s.i + 1 == |html| && html[s.i] == '<' }

  lemma RawProper(s: State, i: nat, raw: string)
    requires Proper(s)
    ensures Proper(s.(i := i, raw := raw))
  {
  }

  lemma AfterMoves(html: string, i: nat)
    requires i < |html| && html[i] == '<'
    ensures i < After(html, i, ">")
  {
    assert After(html, i, ">") == After(html, i + 1, ">") by {
      assert Matches(html, i, |html|, ">") ==> Lower(">"[0]) == Lower(html[i + 0]);
    }
  }

  lemma CloseMoves(s: State, tag: Tag)
    requires forall k :: 0 <= k < |s.stack| ==> s.stack[k] < |s.doc|
    ensures Close(s, tag).i == s.i
  {
  }

  lemma TextPartProper(html: string, s: State)
    requires Proper(s) && Ready(html, s) && html[s.i] != '<'
    ensures Proper(TextPart(html, s)) && s.i < TextPart(html, s).i <= |html|
  {
    hide Proper, InPre, CharAt, PutChar;
    var t := TextState(s, "", false);
    RunProper(html, t, InPre(s));
    var r := TextRun(html, t, InPre(s));
    assert r == TextRun(html, TextStep(html, t, InPre(s)), InPre(s));
    TextProper(r.s, UpToNul(r.buf));
  }

  lemma OpeningProper(html: string, s: State)
    requires Proper(s) && Ready(html, s)
    ensures Proper(OpeningTag(html, s)) && s.i < OpeningTag(html, s).i
    ensures OpeningTag(html, s).i <= if s.i + 1 == |html| then |html| + 1 else |html|
    ensures s.i + 1 == |html| ==> OpeningTag(html, s).i == |html| + 1
  {
    hide Proper, Lookup, IsRaw, TagEnd, Open;
    var from := s.i + 1;
    var to := NameEnd(html, from);
    if to == from {
      MoveProper(s, from + 1);
    } else {
      var end := TagEnd(html, to);
      MoveProper(s, Behind(html, end));
      RawProper(s, Behind(html, end), "</script>");
      RawProper(s, Behind(html, end), "</style>");
      RawProper(s, Behind(html, end), s.raw);
      var t := s.(i := Behind(html, end));
      OpenProper(html, t, to, end, html[end - 1] == '/', Lookup(LowerAll(html[from..to])));
      OpenMoves(html, t, to, end, html[end - 1] == '/', Lookup(LowerAll(html[from..to])));
    }
  }

  lemma OpenMoves(html: string, s: State, from: nat, to: nat, selfClosing: bool, tag: Tag)
    requires from <= to <= |html| && s.stack != []
    ensures Open(html, s, from, to, selfClosing, tag).i == s.i
  {
    hide ElementInfo;
  }

  // ---------- The whole input ----------

  // Round after round until the input is used up.
  ghost function Run(html: string, s: State): (r: State)
    requires Proper(s)
    ensures Proper(r) && |html| <= r.i
    decreases |html| - s.i
  {
    hide Step, Proper, Ready;
    if s.i >= |html| then s
    else
      StepProper(html, s);
      Run(html, Step(html, s))
  }

  lemma StartProper()
    ensures Proper(Start())
  {
  }

  ghost function Parse(html: string): (r: State)
    ensures Proper(r) && |html| <= r.i
  {
    StartProper();
    Run(html, Start())
  }

  // At some round only a "<" is left.
  ghost predicate MeetsLoneLess(html: string, s: State)
    requires Proper(s)
    decreases |html| - s.i
  {
    hide Step, Proper, Ready;
    if s.i >= |html| then false
    else
      StepProper(html, s);
      LoneLess(html, s) || MeetsLoneLess(html, Step(html, s))
  }

  // The index ends at the length of the input, or one beyond: exactly when the parser comes to a
  // "<" that is the last character.
  lemma {:induction false} IndexAtEnd(html: string, s: State)
    requires Proper(s) && s.i <= |html|
    ensures Run(html, s).i == if MeetsLoneLess(html, s) then |html| + 1 else |html|
    decreases |html| - s.i
  {
    hide Step, Proper, Ready;
    if s.i < |html| {
      StepProper(html, s);
      if !LoneLess(html, s) { IndexAtEnd(html, Step(html, s)); }
    }
  }

  // In particular the index stays inside for every input that does not end in "<" ...
  lemma {:induction false} NoLoneLess(html: string, s: State)
    requires Proper(s) && (html == "" || html[|html| - 1] != '<')
    ensures !MeetsLoneLess(html, s)
    decreases |html| - s.i
  {
    hide Step, Proper, Ready;
    if s.i < |html| {
      StepProper(html, s);
      NoLoneLess(html, Step(html, s));
    }
  }

  // ... and passes the end of the shortest one that does.
  lemma PassesEnd()
    ensures Parse("<").i == 2 > |"<"|
  {
    hide Step, Ready;
    StartProper();
    IndexAtEnd("<", Start());
  }

  // ---------- The shape of the document ----------

  // How far a node is below the root.
  function Depth(d: Document, i: nat): nat
    requires i < |d| && IsTree(d)
    decreases i
  {
    if i == 0 then 0 else Depth(d, d[i].parent) + 1
  }

  // An open element lies as deep as it stands on the stack.
  lemma {:induction false} StackDepth(s: State, k: nat)
    requires Proper(s) && k < |s.stack|
    ensures s.stack[k] < |s.doc| && Depth(s.doc, s.stack[k]) == k
  {
    if k > 0 {
      StackDepth(s, k - 1);
      var j := k - 1;
      assert s.doc[s.stack[k]].parent == s.stack[j];
    }
  }

  // No node lies deeper than the stack is high.
  ghost predicate Shallow(d: Document) { IsTree(d) && forall i: nat :: i < |d| ==> Depth(d, i) <= STACK_MAX }

  lemma {:induction false} DepthAppend(d: Document, x: Item, i: nat)
    requires IsTree(d) && 0 <= x.parent < |d| && i < |d|
    ensures IsTree(d + [x]) && Depth(d + [x], i) == Depth(d, i)
    decreases i
  {
    if i > 0 { DepthAppend(d, x, d[i].parent); }
  }

  lemma GrowShallow(s: State, info: Info)
    requires Proper(s) && Shallow(s.doc)
    ensures Shallow(Grow(s, info).doc)
  {
    hide Depth;
    var d, x := s.doc, Item(info, Innermost(s));
    StackDepth(s, |s.stack| - 1);
    forall i: nat | i < |d| + 1 ensures IsTree(d + [x]) && Depth(d + [x], i) <= STACK_MAX {
      DepthAppend(d, x, x.parent);
      if i < |d| { DepthAppend(d, x, i); } else { DepthLast(d, x); }
    }
  }

  lemma DepthLast(d: Document, x: Item)
    requires IsTree(d) && 0 <= x.parent < |d| && IsTree(d + [x])
    ensures Depth(d + [x], |d|) == Depth(d + [x], x.parent) + 1
  {
  }

  lemma {:induction false} TextShallow(html: string, t: TextState, pre: bool)
    requires Proper(t.s) && Shallow(t.s.doc) && t.s.i <= |html|
    ensures Shallow(TextRun(html, t, pre).s.doc)
    decreases |html| - t.s.i
  {
    hide CharAt, PutChar, Proper, Shallow;
    ProperReady(t.s);
    if t.s.i < |html| && html[t.s.i] != '<' {
      var (c, n) := CharAt(html, t.s.i);
      var s := t.s.(i := t.s.i + n);
      MoveProper(t.s, t.s.i + n);
      TextProper(s, PutChar(t.buf, c, pre));
      GrowShallow(s, Blank(Text).(text := PutChar(t.buf, c, pre)));
      TextShallow(html, TextStep(html, t, pre), pre);
    }
  }

  lemma StepShallow(html: string, s: State)
    requires Proper(s) && s.i < |html| && Shallow(s.doc)
    ensures Ready(html, s) && Shallow(Step(html, s).doc)
  {
    hide Proper, Shallow, OpeningTag, Close, TextPart, Matches, After;
    ProperReady(s);
    if html[s.i] != '<' {
      TextPartShallow(html, s);
    } else {
      OpeningShallow(html, s);
      if s.i + 1 < |html| {
        var to := NameEnd(html, s.i + 2);
        CloseDoc(s.(i := After(html, to, ">")), Lookup(LowerAll(html[s.i + 2..to])));
      }
    }
  }

  lemma CloseDoc(s: State, tag: Tag)
    requires forall k :: 0 <= k < |s.stack| ==> s.stack[k] < |s.doc|
    ensures Close(s, tag).doc == s.doc
  {
  }

  lemma TextPartShallow(html: string, s: State)
    requires Proper(s) && Shallow(s.doc) && Ready(html, s)
    ensures Shallow(TextPart(html, s).doc)
  {
    hide Proper, Shallow, InPre, TextRun;
    var t := TextState(s, "", false);
    TextShallow(html, t, InPre(s));
    RunProper(html, t, InPre(s));
    var r := TextRun(html, t, InPre(s));
    GrowShallow(r.s, Blank(Text).(text := UpToNul(r.buf)));
  }

  lemma OpeningShallow(html: string, s: State)
    requires Proper(s) && Shallow(s.doc) && Ready(html, s)
    ensures Shallow(OpeningTag(html, s).doc)
  {
    hide Proper, Shallow, Lookup, IsRaw, TagEnd, Open;
    var from := s.i + 1;
    var to := NameEnd(html, from);
    if to > from {
      var end := TagEnd(html, to);
      MoveProper(s, Behind(html, end));
      OpenShallow(html, s.(i := Behind(html, end)), to, end, html[end - 1] == '/', Lookup(LowerAll(html[from..to])));
    }
  }

  lemma OpenShallow(html: string, s: State, from: nat, to: nat, selfClosing: bool, tag: Tag)
    requires Proper(s) && Shallow(s.doc) && from <= to <= |html|
    ensures s.stack != [] && Shallow(Open(html, s, from, to, selfClosing, tag).doc)
  {
    hide Proper, Shallow, ElementInfo;
    ProperReady(s);
    var (ol, number) := Numbered(s, tag);
    RawOl(s, s.i, ol);
    GrowShallow(s.(ol := ol), ElementInfo(html, from, to, tag, number));
  }

  lemma RawOl(s: State, i: nat, ol: seq<Counter>)
    requires Proper(s) && |ol| == |s.ol|
    ensures Proper(s.(i := i, ol := ol))
  {
  }

  // Whatever the input, the document is a tree of at most 512 nodes, none deeper than 48.
  lemma {:induction false} RunShallow(html: string, s: State)
    requires Proper(s) && Shallow(s.doc)
    ensures Shallow(Run(html, s).doc)
    decreases |html| - s.i
  {
    hide Step, Proper, Ready, Shallow;
    if s.i < |html| {
      StepProper(html, s);
      StepShallow(html, s);
      RunShallow(html, Step(html, s));
    }
  }

  // ---------- Which elements have content ----------

  // Line breaks, rules and images have no children, and none of them is open.
  ghost predicate Empty(t: Tag) { t == Br || t == Hr || t == Img }

  ghost predicate NoContent(s: State) {
    && (forall k :: 0 <= k < |s.stack| ==> s.stack[k] < |s.doc| && !Empty(s.doc[s.stack[k]].info.tag))
    && NoChildren(s.doc)
  }

  ghost predicate NoChildren(d: Document) {
    forall i :: 0 <= i < |d| && 0 <= d[i].parent < |d| ==> !Empty(d[d[i].parent].info.tag)
  }

  lemma GrowNoContent(s: State, info: Info)
    requires NoContent(s) && s.stack != [] && IsTree(s.doc)
    ensures NoContent(Grow(s, info))
    ensures !Empty(info.tag) ==> NoContent(Grow(s, info).(stack := s.stack + [|s.doc|]))
  {
    hide Empty;
    var d := Grow(s, info).doc;
    forall i | 0 <= i < |d| && 0 <= d[i].parent < |d| ensures !Empty(d[d[i].parent].info.tag) {
      if i < |s.doc| { assert d[i] == s.doc[i]; }
    }
  }

  lemma ProperTree(s: State)
    requires Proper(s)
    ensures IsTree(s.doc) && s.stack != []
  {
  }

  lemma {:induction false} TextNoContent(html: string, t: TextState, pre: bool)
    requires Proper(t.s) && NoContent(t.s) && t.s.i <= |html|
    ensures NoContent(TextRun(html, t, pre).s)
    decreases |html| - t.s.i
  {
    hide CharAt, PutChar, Proper, NoContent;
    ProperReady(t.s);
    if t.s.i < |html| && html[t.s.i] != '<' {
      var (c, n) := CharAt(html, t.s.i);
      var s := t.s.(i := t.s.i + n);
      MoveProper(t.s, t.s.i + n);
      SameNoContent(t.s, s);
      ProperTree(s);
      TextProper(s, PutChar(t.buf, c, pre));
      GrowNoContent(s, Blank(Text).(text := PutChar(t.buf, c, pre)));
      TextNoContent(html, TextStep(html, t, pre), pre);
    }
  }

  lemma SameNoContent(s: State, t: State)
    requires NoContent(s) && t.doc == s.doc
    requires t.stack == s.stack || exists k :: 0 <= k <= |s.stack| && t.stack == s.stack[..k]
    ensures NoContent(t)
  {
  }

  lemma TextPartNoContent(html: string, s: State)
    requires Proper(s) && NoContent(s) && Ready(html, s)
    ensures NoContent(TextPart(html, s))
  {
    hide Proper, NoContent, InPre, TextRun;
    var t := TextState(s, "", false);
    TextNoContent(html, t, InPre(s));
    RunProper(html, t, InPre(s));
    var r := TextRun(html, t, InPre(s));
    ProperTree(r.s);
    GrowNoContent(r.s, Blank(Text).(text := UpToNul(r.buf)));
  }

  lemma CloseNoContent(s: State, tag: Tag)
    requires Proper(s) && NoContent(s)
    ensures s.stack != [] && (forall k :: 0 <= k < |s.stack| ==> s.stack[k] < |s.doc|) && NoContent(Close(s, tag))
  {
    hide NoContent;
    ProperReady(s);
    var k := NearestBelow(s.doc, s.stack, |s.stack|, tag);
    assert s.stack == s.stack[..|s.stack|];
    SameNoContent(s, Close(s, tag));
  }

  lemma OpenNoContent(html: string, s: State, from: nat, to: nat, selfClosing: bool, tag: Tag)
    requires Proper(s) && NoContent(s) && from <= to <= |html|
    ensures s.stack != [] && NoContent(Open(html, s, from, to, selfClosing, tag))
  {
    hide Proper, NoContent, ElementInfo, Empty;
    ProperTree(s);
    VoidTags();
    var (ol, number) := Numbered(s, tag);
    var t := s.(ol := ol);
    SameNoContent(s, t);
    var info := ElementInfo(html, from, to, tag, number);
    GrowNoContent(t, info);
    if |s.doc| < MAX_NODES && !selfClosing && !IsVoid(tag) && |s.stack| < STACK_MAX {
      SameNoContent(Grow(t, info).(stack := s.stack + [|s.doc|]), Open(html, s, from, to, selfClosing, tag));
    }
  }

  lemma VoidTags()
    ensures forall t :: IsVoid(t) <==> Empty(t)
  {
  }

  lemma OpeningNoContent(html: string, s: State)
    requires Proper(s) && NoContent(s) && Ready(html, s)
    ensures NoContent(OpeningTag(html, s))
  {
    hide Proper, NoContent, Lookup, IsRaw, TagEnd, Open;
    var from := s.i + 1;
    var to := NameEnd(html, from);
    SameNoContent(s, s.(i := from + 1));
    if to > from {
      var end := TagEnd(html, to);
      var t := s.(i := Behind(html, end));
      MoveProper(s, Behind(html, end));
      SameNoContent(s, t);
      SameNoContent(s, t.(raw := "</script>"));
      SameNoContent(s, t.(raw := "</style>"));
      OpenNoContent(html, t, to, end, html[end - 1] == '/', Lookup(LowerAll(html[from..to])));
    }
  }

  lemma StepNoContent(html: string, s: State)
    requires Proper(s) && NoContent(s) && s.i < |html|
    ensures Ready(html, s) && NoContent(Step(html, s))
  {
    hide Proper, NoContent, OpeningTag, Close, TextPart, Matches, After, Lookup;
    ProperReady(s);
    if s.raw != "" || html[s.i] != '<' || s.i + 1 >= |html| || html[s.i + 1] != '/' {
      if html[s.i] != '<' { TextPartNoContent(html, s); } else { OpeningNoContent(html, s); }
      forall i: nat, raw ensures NoContent(s.(i := i, raw := raw)) { SameNoContent(s, s.(i := i, raw := raw)); }
    } else {
      var to := NameEnd(html, s.i + 2);
      var t := s.(i := After(html, to, ">"));
      MoveProper(s, t.i);
      SameNoContent(s, t);
      CloseNoContent(t, Lookup(LowerAll(html[s.i + 2..to])));
      forall i: nat, raw ensures NoContent(s.(i := i, raw := raw)) { SameNoContent(s, s.(i := i, raw := raw)); }
    }
  }

  // Whatever the input, no line break, rule or image ever gets a child.
  lemma {:induction false} RunNoContent(html: string, s: State)
    requires Proper(s) && NoContent(s)
    ensures NoContent(Run(html, s))
    decreases |html| - s.i
  {
    hide Step, Proper, Ready, NoContent;
    if s.i < |html| {
      StepProper(html, s);
      StepNoContent(html, s);
      RunNoContent(html, Step(html, s));
    }
  }

  lemma MatchesChar(html: string, i: nat, needle: string, j: nat)
    requires Matches(html, i, |html|, needle) && j < |needle|
    ensures i + j < |html| && Lower(needle[j]) == Lower(html[i + j])
  {
  }

  // A name behind "<" opens a tag: it is no comment, declaration or closing tag.
  lemma NotMarkup(html: string, i: nat)
    requires i < |html| && NameEnd(html, i + 1) > i + 1
    ensures i + 1 < |html| && IsNameChar(html[i + 1]) && html[i + 1] != '/'
    ensures !Matches(html, i, |html|, "<!--") && !Matches(html, i, |html|, "<!")
  {
    if Matches(html, i, |html|, "<!--") { MatchesChar(html, i, "<!--", 1); }
    if Matches(html, i, |html|, "<!") { MatchesChar(html, i, "<!", 1); }
  }

  lemma StepOpens(html: string, s: State)
    requires Ready(html, s) && s.raw == "" && html[s.i] == '<' && s.i + 1 < NameEnd(html, s.i + 1)
    ensures Step(html, s) == OpeningTag(html, s)
  {
    hide NameEnd, Matches, OpeningTag, ClosingTag, TextPart;
    NotMarkup(html, s.i);
  }

  lemma StepCloses(html: string, s: State)
    requires Ready(html, s) && s.raw == "" && html[s.i] == '<' && s.i + 1 < |html| && html[s.i + 1] == '/'
    ensures Step(html, s) == ClosingTag(html, s)
  {
    hide Ready, Matches, OpeningTag, ClosingTag, TextPart;
    if Matches(html, s.i, |html|, "<!--") { MatchesChar(html, s.i, "<!--", 1); }
    if Matches(html, s.i, |html|, "<!") { MatchesChar(html, s.i, "<!", 1); }
  }

  lemma OpeningOpens(html: string, s: State)
    requires Ready(html, s) && s.i + 1 < NameEnd(html, s.i + 1)
    requires var to := NameEnd(html, s.i + 1);
             && html[TagEnd(html, to) - 1] != '/'
             && !IsRaw(html, s.i + 1, to, "script") && !IsRaw(html, s.i + 1, to, "style")
    ensures s.stack != []
    ensures var to := NameEnd(html, s.i + 1);
            var end := TagEnd(html, to);
            OpeningTag(html, s) ==
            Open(html, s.(i := Behind(html, end)), to, end, false, Lookup(LowerAll(html[s.i + 1..to])))
  {
    hide NameEnd, TagEnd, Lookup, IsRaw, Open;
  }

  // And any other element is opened: what follows its tag, up to where it is closed, becomes its content.
  lemma Opens(html: string, s: State)
    requires Ready(html, s) && s.raw == "" && html[s.i] == '<' && |s.stack| < 48 && |s.doc| < 512
    requires var to := NameEnd(html, s.i + 1);
             && s.i + 1 < to && html[TagEnd(html, to) - 1] != '/'
             && !IsRaw(html, s.i + 1, to, "script") && !IsRaw(html, s.i + 1, to, "style")
    ensures s.i + 1 <= NameEnd(html, s.i + 1) <= |html|
    ensures var tag, t := Lookup(LowerAll(html[s.i + 1..NameEnd(html, s.i + 1)])), Step(html, s);
            && |t.doc| == |s.doc| + 1 && t.doc[..|s.doc|] == s.doc
            && t.doc[|s.doc|].info.tag == tag && t.doc[|s.doc|].parent == Innermost(s)
            && t.stack == if tag == Br || tag == Hr || tag == Img then s.stack else s.stack + [|s.doc|]
  {
    hide NameEnd, TagEnd, Lookup, IsRaw, Open, Step, OpeningTag;
    StepOpens(html, s);
    OpeningOpens(html, s);
    var to := NameEnd(html, s.i + 1);
    var end := TagEnd(html, to);
    OpensElement(html, s.(i := Behind(html, end)), to, end, Lookup(LowerAll(html[s.i + 1..to])));
  }

  lemma OpensElement(html: string, s: State, from: nat, to: nat, tag: Tag)
    requires from <= to <= |html| && s.stack != [] && |s.stack| < 48 && |s.doc| < 512
    ensures var t := Open(html, s, from, to, false, tag);
            && |t.doc| == |s.doc| + 1 && t.doc[..|s.doc|] == s.doc
            && t.doc[|s.doc|].info.tag == tag && t.doc[|s.doc|].parent == Innermost(s)
            && t.stack == if tag == Br || tag == Hr || tag == Img then s.stack else s.stack + [|s.doc|]
  {
    hide ElementInfo;
  }
}
