// The HTML parser itself: it walks over its input once, keeps the open elements on a stack and builds
// the document in the node pool.
module HtmlParser {
  import opened Dom
  import opened HtmlScan
  import opened HtmlParse

  class Parser {
    const html: string
    const pool: Pool
    var i: nat
    var stack: seq<nat>
    var ol: seq<Counter>
    var raw: string
    ghost var doc: Document

    ghost function Now(): State
      reads this
    {
      State(i, doc, stack, ol, raw)
    }

    ghost predicate Valid()
      reads this, pool, pool.nodes
    {
      pool.Holds(doc) && Proper(Now())
    }

    constructor (text: string)
      ensures html == text && Valid() && Now() == Start() && fresh(pool) && fresh(pool.nodes)
    {
      html := text;
      pool := new Pool();
      i, stack, ol, raw, doc := 0, [0], [], "", [];
      new;
      var root := pool.NewNode(Info(Html, "", "", "", 0, 0, 0), doc);
      doc := doc + [Item(Blank(Html), -1)];
    }

    // A new node below the innermost open element, if the pool has room.
    method Add(info: Info) returns (n: int)
      requires Valid()
      modifies `doc, pool, pool.nodes
      ensures Valid() && unchanged(`i, `stack, `ol, `raw)
      ensures n == -1 <==> |old(doc)| >= MAX_NODES
      ensures n == -1 ==> doc == old(doc)
      ensures n != -1 ==> n == |old(doc)| && doc == Grow(old(Now()), info).doc
    {
      hide Proper, IsTree, IsPath;
      ProperReady(Now());
      TreeParents(Now());
      n := pool.NewNode(info, doc);
      if n == -1 { return; }
      pool.AppendChild(stack[|stack| - 1], n, doc, info);
      GrowProper(Now(), info);
      doc := doc + [Item(info, stack[|stack| - 1])];
    }

    // The search down the stack for an open element of that tag.
    method Nearest(tag: Tag) returns (k: nat)
      requires Valid()
      ensures k == NearestBelow(doc, stack, |stack|, tag)
    {
      hide Proper, Shows;
      ProperReady(Now());
      k := |stack| - 1;
      while k >= 1
        invariant k < |stack| && NearestBelow(doc, stack, |stack|, tag) == NearestBelow(doc, stack, k + 1, tag)
      {
        TagAt(stack[k]);
        if pool.nodes[stack[k]].info.tag == tag { return; }
        k := k - 1;
      }
    }

    lemma TagAt(n: nat)
      requires Valid() && n < |doc|
      ensures n < pool.nodes.Length && pool.nodes[n].info == doc[n].info
    {
      NodeAt(pool.nodes[..], doc, n);
    }

    // A closing list takes its counter, and those above it, off.
    method DropLists()
      requires Valid()
      modifies `ol
      ensures Valid() && ol == CloseLists(old(Now()))
    {
      hide Shows, Proper, NearestBelow;
      ProperReady(Now());
      var k := Nearest(Ol);
      if k > 0 {
        ghost var was := ol;
        var o: nat := |ol|;
        while o >= 1
          invariant o <= |ol| && ol == was && ListsBelow(was, |was|, stack[k]) == ListsBelow(was, o, stack[k])
        {
          if ol[o - 1].node == stack[k] {
            FewerLists(Now(), ol[..o - 1]);
            ol := ol[..o - 1];
            return;
          }
          o := o - 1;
        }
      }
    }

    // The branch for "</...>".
    method ReadClosing()
      requires Valid() && Ready(html, Now()) && i + 1 < |html|
      modifies `i, `stack, `ol
      ensures Valid() && Now() == ClosingTag(html, old(Now()))
    {
      hide *;
      ghost var s := Now();
      StateIs(s);
      ValidProper();
      ProperReady(s);
      var from := i + 2;
      var to := ScanName(html, from);
      var end := SkipUntil(html, to, ">");
      MoveProper(s, end);
      ClosingIs(html, s);
      i := end;
      MakeValid();
      CloseElements(Lookup(LowerAll(html[from..to])));
    }

    // Everything up to the nearest open element of that tag is closed.
    method CloseElements(tag: Tag)
      requires Valid() && forall k :: 0 <= k < |stack| ==> stack[k] < |doc|
      modifies `stack, `ol
      ensures Valid() && Now() == Close(old(Now()), tag)
    {
      hide *;
      ghost var s := Now();
      StateIs(s);
      ValidProper();
      CloseProper(s, tag);
      CloseIs(s, tag);
      NoLists(s);
      if tag == Ol && ol != [] { DropLists(); }
      var k := Nearest(tag);
      if k >= 1 { stack := stack[..k]; }
      MakeValid();
    }

    lemma StateIs(s: State)
      requires s == Now()
      ensures s == State(i, doc, stack, ol, raw)
    {
    }

    lemma ValidProper()
      requires Valid()
      ensures Proper(Now()) && pool.Holds(doc)
    {
    }

    lemma MakeValid()
      requires Proper(State(i, doc, stack, ol, raw)) && pool.Holds(doc)
      ensures Valid() && Now() == State(i, doc, stack, ol, raw)
    {
    }

    // The branch for "<name ...>".
    method ReadOpening()
      requires Valid() && Ready(html, Now())
      modifies this, pool, pool.nodes
      ensures Valid() && Now() == OpeningTag(html, old(Now()))
    {
      hide Proper, Shows, NameEnd, TagEnd, Lookup, Matches, ElementInfo, Open;
      ghost var s := Now();
      OpeningProper(html, s);
      i := i + 1;
      var from := i;
      i := ScanName(html, i);
      if i == from {
        i := i + 1;
        return;
      }
      var to := i;
      var end := ScanTag(html, i);
      var selfClosing := html[end - 1] == '/';
      var script := false;
      if to - from == 6 { script := MatchesCi(html, from, |html|, "script"); }
      var style := false;
      if to - from == 5 { style := MatchesCi(html, from, |html|, "style"); }
      i := if end < |html| then end + 1 else |html|;
      if script || style {
        if !selfClosing { raw := if script then "</script>" else "</style>"; }
        return;
      }
      MoveProper(s, i);
      ReadElement(to, end, selfClosing, Lookup(LowerAll(html[from..to])));
    }

    method ReadElement(from: nat, to: nat, selfClosing: bool, tag: Tag)
      requires Valid() && from <= to <= |html|
      modifies `stack, `ol, `doc, pool, pool.nodes
      ensures Valid() && old(stack) != [] && Now() == Open(html, old(Now()), from, to, selfClosing, tag)
    {
      hide Proper, Shows, ElementInfo;
      ghost var s := Now();
      ProperReady(s);
      OpenProper(html, s, from, to, selfClosing, tag);
      if pool.count >= MAX_NODES { return; }
      var number := 0;
      ghost var numbered := Numbered(s, tag);
      if tag == Li && ol != [] {
        number := ol[|ol| - 1].count + 1;
        ol := ol[|ol| - 1 := ol[|ol| - 1].(count := number)];
      }
      RawOl(s, i, ol);
      var info := ReadInfo(from, to, tag, number);
      var n := Add(info);
      if !selfClosing && !IsVoid(tag) && |stack| < STACK_MAX {
        stack := stack + [n];
        if tag == Ol && |ol| < STACK_MAX { ol := ol + [Counter(n, 0)]; }
      }
    }

    // The attributes the document keeps.
    method ReadInfo(from: nat, to: nat, tag: Tag, number: nat) returns (info: Info)
      requires from <= to <= |html|
      ensures info == ElementInfo(html, from, to, tag, number)
    {
      hide Attribute, NumberOf;
      info := Info(tag, "", "", "", 0, 0, number);
      if tag == A {
        var found, href := FindAttr(html, from, to, "href", MAX_ATTR);
        if found { info := info.(attr := href); }
      } else if tag == Img {
        var found, value := FindAttr(html, from, to, "src", MAX_ATTR);
        if found { info := info.(attr := value); }
        found, value := FindAttr(html, from, to, "alt", MAX_ATTR);
        if found { info := info.(attr2 := value); }
        found, value := FindAttr(html, from, to, "width", 16);
        if found { var w := ParseInt(value); info := info.(w := w); }
        found, value := FindAttr(html, from, to, "height", 16);
        if found { var h := ParseInt(value); info := info.(h := h); }
      }
    }

    // One character of text goes to the buffer; a full buffer becomes a node and is emptied.
    method ReadChar(text: array<char>, tlen: nat, visible: bool, pre: bool) returns (n: nat, v: bool)
      requires Valid() && Ready(html, Now()) && text.Length == MAX_TEXT && tlen < MAX_TEXT - 1
      modifies `i, `doc, pool, pool.nodes, text
      ensures Valid() && n < MAX_TEXT - 1
      ensures TextState(Now(), text[..n], v) == TextStep(html, TextState(old(Now()), old(text[..tlen]), visible), pre)
    {
      hide Proper, Shows, Entity, PutChar;
      ghost var s := Now();
      var c, consumed := html[i], 1;
      if html[i] == '&' { c, consumed := DecodeEntity(html, i); }
      v := visible || !(c == ' ' || c == '\t' || c == '\r' || c == '\n');
      n := PutInBuffer(text, tlen, c, pre);
      MoveProper(s, i + consumed);
      i := i + consumed;
      if n == MAX_TEXT - 1 {
        if v { var k := Add(Info(Text, text[..n], "", "", 0, 0, 0)); }
        n, v := 0, false;
      }
    }

    // The text up to the next "<".
    method ReadText()
      requires Valid() && Ready(html, Now()) && html[i] != '<'
      modifies `i, `doc, pool, pool.nodes
      ensures Valid() && Now() == TextPart(html, old(Now()))
    {
      hide Proper, Shows, NearestBelow, TextStep, FinishText;
      ghost var s := Now();
      var k := Nearest(Pre);
      var pre := k > 0;
      var text := new char[MAX_TEXT];
      var tlen: nat, visible := 0, false;
      while i < |html| && html[i] != '<'
        invariant Valid() && i <= |html| && tlen < MAX_TEXT - 1 && stack == s.stack
        invariant TextRun(html, TextState(s, "", false), pre) ==
                  TextRun(html, TextState(Now(), text[..tlen], visible), pre)
      {
        ProperReady(Now());
        tlen, visible := ReadChar(text, tlen, visible, pre);
      }
      Finish(text, tlen, visible, pre);
    }

    // The end of a piece of text: what is visible of the buffer becomes a node.
    method Finish(text: array<char>, tlen: nat, visible: bool, pre: bool)
      requires Valid() && stack != [] && tlen <= text.Length
      modifies `doc, pool, pool.nodes
      ensures Valid() && Now() == FinishText(TextState(old(Now()), old(text[..tlen]), visible), pre)
    {
      hide Proper, Shows, UpToNul;
      if !pre && tlen > 0 && text[0] == ' ' {
        var blank, k := true, 0;
        while k < tlen
          invariant 0 <= k <= tlen && blank && forall j :: 0 <= j < k ==> text[j] == ' '
        {
          if text[k] != ' ' { blank := false; break; }
          k := k + 1;
        }
        if blank { return; }
      }
      if visible && tlen > 0 {
        var copy := CopyText(text, tlen);
        var n := Add(Info(Text, copy, "", "", 0, 0, 0));
      }
    }

    // The main loop.
    method ParseAll()
      requires Valid()
      modifies this, pool, pool.nodes
      ensures Valid() && Now() == Run(html, old(Now()))
    {
      hide Proper, Shows, Step, Ready;
      ghost var s := Now();
      while i < |html|
        invariant Valid() && Run(html, s) == Run(html, Now())
        decreases |html| - i
      {
        StepProper(html, Now());
        Round();
      }
    }

    method Round()
      requires Valid() && Ready(html, Now())
      modifies this, pool, pool.nodes
      ensures Valid() && Now() == Step(html, old(Now()))
    {
      hide Proper, Shows, OpeningTag, ClosingTag, TextPart;
      ghost var s := Now();
      StepProper(html, s);
      if raw != "" {
        var m := MatchesCi(html, i, |html|, raw);
        RawProper(s, i + |raw|, "");
        MoveProper(s, i + 1);
        if m {
          i := i + |raw|;
          raw := "";
        } else {
          i := i + 1;
        }
        return;
      }
      if html[i] == '<' {
        var comment := MatchesCi(html, i, |html|, "<!--");
        if comment {
          var j := SkipUntil(html, i + 4, "-->");
          MoveProper(s, j);
          i := j;
          return;
        }
        var declaration := MatchesCi(html, i, |html|, "<!");
        if declaration {
          var j := SkipUntil(html, i, ">");
          MoveProper(s, j);
          i := j;
          return;
        }
        if i + 1 < |html| && html[i + 1] == '/' {
          ReadClosing();
          return;
        }
        ReadOpening();
        return;
      }
      ReadText();
    }
  }

  // aurora_html_parse: the pool holds a tree of at most 512 nodes and depth 48, whatever the input;
  // its links are those of the specified document.
  method ParseHtml(html: string) returns (pool: Pool, ghost doc: Document)
    ensures doc == Parse(html).doc && pool.Holds(doc) && Shallow(doc) && |doc| <= 512
    ensures forall i :: 0 <= i < |doc| ==> Depth(doc, i) <= 48
    ensures forall i :: 0 < i < |doc| ==> doc[doc[i].parent].info.tag !in {Br, Hr, Img}
    ensures fresh(pool) && fresh(pool.nodes)
  {
    hide Proper, Run, Shows, Start;
    var p := new Parser(html);
    StartProper();
    StartShallow();
    RunShallow(html, Start());
    RunNoContent(html, Start());
    p.ParseAll();
    TreeParents(p.Now());
    pool, doc := p.pool, p.doc;
  }

  lemma StartShallow()
    ensures Shallow(Start().doc) && NoContent(Start())
  {
  }

  // A character put into the buffer behind the first tlen.
  method PutInBuffer(text: array<char>, tlen: nat, c: char, pre: bool) returns (n: nat)
    requires tlen < text.Length
    modifies text
    ensures n <= tlen + 1 && text[..n] == PutChar(old(text[..tlen]), c, pre)
  {
    var ws := c == ' ' || c == '\t' || c == '\r' || c == '\n';
    if !pre && ws && tlen > 0 && text[tlen - 1] == ' ' { return tlen; }
    text[tlen] := if !pre && ws then ' ' else c;
    return tlen + 1;
  }

  // The copy of the buffer up to its terminator.
  method CopyText(text: array<char>, n: nat) returns (r: string)
    requires n <= text.Length
    ensures r == UpToNul(text[..n])
  {
    r := "";
    var k := 0;
    assert text[0..n] == text[..n];
    while k < n && text[k] != '\0'
      invariant 0 <= k <= n && UpToNul(text[..n]) == r + UpToNul(text[k..n])
    {
      assert text[k..n][1..] == text[k + 1..n];
      r := r + [text[k]];
      k := k + 1;
    }
  }

  lemma TreeParents(s: State)
    requires Proper(s)
    ensures forall k :: 0 <= k < |s.doc| ==> -1 <= s.doc[k].parent < k
    ensures |s.doc| <= MAX_NODES && s.stack != [] && s.stack[|s.stack| - 1] < |s.doc|
  {
  }

  lemma FewerLists(s: State, ol: seq<Counter>)
    requires Proper(s) && |ol| <= |s.ol|
    ensures Proper(s.(ol := ol))
  {
  }

  lemma CloseIs(s: State, tag: Tag)
    requires forall k :: 0 <= k < |s.stack| ==> s.stack[k] < |s.doc|
    ensures var k := NearestBelow(s.doc, s.stack, |s.stack|, tag);
            Close(s, tag) == s.(ol := if tag == Ol then CloseLists(s) else s.ol,
                                stack := if k == 0 then s.stack else s.stack[..k])
  {
  }

  lemma {:induction false} ClosingIs(html: string, s: State)
    requires Ready(html, s) && s.i + 1 < |html|
    ensures s.i + 2 <= NameEnd(html, s.i + 2) <= |html| && forall k :: 0 <= k < |s.stack| ==> s.stack[k] < |s.doc|
    ensures var to := NameEnd(html, s.i + 2);
            ClosingTag(html, s) == Close(s.(i := After(html, to, ">")), Lookup(LowerAll(html[s.i + 2..to])))
  {
    hide NameEnd, After, Lookup, Close, LowerAll;
  }

  lemma NoLists(s: State)
    requires forall k :: 0 <= k < |s.stack| ==> s.stack[k] < |s.doc|
    ensures s.ol == [] ==> CloseLists(s) == []
  {
  }
}
