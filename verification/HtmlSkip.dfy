// What the parser passes over, and the spellings that printed trees do not use.
module HtmlSkip {
  import opened Dom
  import opened HtmlScan
  import opened HtmlParse
  import opened HtmlRoundTrip

  // The text at i is w, in whatever case.
  ghost predicate AnyCase(html: string, i: nat, w: string) {
    i + |w| <= |html| && forall j :: 0 <= j < |w| ==> SameLetter(html[i + j], w[j])
  }

  // ---------- Comments ----------

  // A search ends behind the first place where the needle is, or at the end of the text.
  lemma {:induction false} AfterFirst(html: string, i: nat, n: nat, needle: string)
    requires i + n <= |html| && forall k :: i <= k < i + n ==> !AnyCase(html, k, needle)
    requires i + n == |html| || AnyCase(html, i + n, needle)
    ensures After(html, i, needle) == if i + n == |html| then |html| else i + n + |needle|
    decreases n
  {
    hide Matches, SameLetter;
    FoldedAlike(html, i, |html|, needle);
    if n > 0 {
      assert !AnyCase(html, i, needle);
      AfterFirst(html, i + 1, n - 1, needle);
    }
  }

  // A comment of n characters between its marks leaves no trace in the document.
  lemma CommentSkipped(html: string, s: State, n: nat)
    requires Proper(s) && s.raw == "" && At(html, s.i, "<!--") && At(html, s.i + 4 + n, "-->")
    requires forall k :: s.i + 4 <= k < s.i + 4 + n ==> !At(html, k, "-->")
    ensures Proper(s.(i := s.i + n + 7)) && Run(html, s) == Run(html, s.(i := s.i + n + 7))
  {
    hide Proper, Run, Matches;
    var t := s.(i := s.i + n + 7);
    forall k | s.i + 4 <= k <= s.i + 4 + n ensures AnyCase(html, k, "-->") <==> At(html, k, "-->") {
      NoLetters(html, k);
    }
    AfterFirst(html, s.i + 4, n, "-->");
    RunStep(html, s);
    MoveProper(s, t.i);
    CommentMark(html, s.i);
    CommentStep(html, s);
  }

  lemma CommentMark(html: string, i: nat)
    requires At(html, i, "<!--")
    ensures html[i] == '<' && Matches(html, i, |html|, "<!--")
  {
    forall j | 0 <= j < 4 ensures html[i + j] == "<!--"[j] { AtChar(html, i, "<!--", j); }
  }

  lemma CommentStep(html: string, s: State)
    requires Ready(html, s) && s.raw == "" && html[s.i] == '<' && Matches(html, s.i, |html|, "<!--")
    ensures Step(html, s) == s.(i := After(html, s.i + 4, "-->"))
  {
    hide Matches, After;
  }

  lemma NoLetters(html: string, i: nat)
    ensures AnyCase(html, i, "-->") <==> At(html, i, "-->")
  {
    var w := "-->";
    if At(html, i, w) {
      forall j | 0 <= j < 3 ensures html[i + j] == w[j] { AtChar(html, i, w, j); }
    }
    if AnyCase(html, i, w) {
      assert SameLetter(html[i], w[0]) && SameLetter(html[i + 1], w[1]) && SameLetter(html[i + 2], w[2]) by {
        assert html[i + 0] == html[i];
      }
      assert html[i..i + 3] == w;
    }
  }

  // ---------- Script and style blocks ----------

  // "<script" or "<style", m more characters and ">", then n characters up to the first end tag of
  // that name, in whatever case: none of it reaches the document.
  lemma BlockSkipped(html: string, s: State, name: string, m: nat, n: nat)
    requires Proper(s) && s.raw == "" && name in {"script", "style"} && At(html, s.i, "<" + name)
    requires var to := s.i + 1 + |name|;
             && to + m < |html| && html[to + m] == '>' && html[to + m - 1] != '/' && !IsNameChar(html[to])
             && (forall k :: to <= k < to + m ==> html[k] != '>')
             && (forall k :: to + m + 1 <= k < to + m + 1 + n ==> !AnyCase(html, k, "</" + name + ">"))
             && AnyCase(html, to + m + 1 + n, "</" + name + ">")
    ensures var t := s.(i := s.i + |name| + m + 2 + n + |name| + 3);
            Proper(t) && Run(html, s) == Run(html, t)
  {
    hide *;
    var to := s.i + 1 + |name|;
    var close := "</" + name + ">";
    BlockOpens(html, s, name, m);
    var t := s.(i := to + m + 1, raw := close);
    RawProper(s, to + m + 1, close);
    RunStep(html, s);
    BlockRead(html, t, n);
    CloseIs(name);
  }

  lemma CloseIs(name: string)
    requires name in {"script", "style"}
    ensures "</" + name + ">" != "" && |"</" + name + ">"| == |name| + 3
  {
  }

  lemma BlockOpens(html: string, s: State, name: string, m: nat)
    requires Proper(s) && s.raw == "" && name in {"script", "style"} && At(html, s.i, "<" + name)
    requires var to := s.i + 1 + |name|;
             && to + m < |html| && html[to + m] == '>' && html[to + m - 1] != '/' && !IsNameChar(html[to])
             && (forall k :: to <= k < to + m ==> html[k] != '>')
    ensures s.i < |html| && Ready(html, s)
    ensures Step(html, s) == s.(i := s.i + |name| + m + 2, raw := "</" + name + ">")
  {
    hide Proper, NameEnd, TagEnd, Step, OpeningTag;
    var to := s.i + 1 + |name|;
    ProperReady(s);
    AtSplit(html, s.i, "<", name);
    AtChar(html, s.i, "<", 0);
    NameEndAt(html, s.i + 1, name);
    TagEndFirst(html, to, m);
    StepOpens(html, s);
    BlockNames(html, s.i + 1, name);
    BlockTag(html, s, name, to, to + m);
  }

  lemma BlockNames(html: string, i: nat, name: string)
    requires name in {"script", "style"} && At(html, i, name)
    ensures IsRaw(html, i, i + |name|, "script") <==> name == "script"
    ensures IsRaw(html, i, i + |name|, "style") <==> name == "style"
  {
    forall j | 0 <= j < |name| ensures html[i + j] == name[j] { AtChar(html, i, name, j); }
  }

  lemma BlockTag(html: string, s: State, name: string, to: nat, end: nat)
    requires Ready(html, s) && name in {"script", "style"} && s.raw == "" && to == s.i + 1 + |name| <= end < |html|
    requires NameEnd(html, s.i + 1) == to && TagEnd(html, to) == end && html[end - 1] != '/'
    requires IsRaw(html, s.i + 1, to, "script") <==> name == "script"
    requires IsRaw(html, s.i + 1, to, "style") <==> name == "style"
    ensures OpeningTag(html, s) == s.(i := end + 1, raw := "</" + name + ">")
  {
    hide NameEnd, TagEnd, IsRaw, Open, Lookup;
    assert "</script>" == "</" + "script" + ">";
    assert "</style>" == "</" + "style" + ">";
  }

  lemma {:induction false} TagEndFirst(html: string, i: nat, m: nat)
    requires i + m < |html| && html[i + m] == '>' && forall k :: i <= k < i + m ==> html[k] != '>'
    ensures TagEnd(html, i) == i + m
    decreases m
  {
    if m > 0 { TagEndFirst(html, i + 1, m - 1); }
  }

  // Inside a block everything up to its end tag is passed over one by one.
  lemma {:induction false} BlockRead(html: string, s: State, n: nat)
    requires Proper(s) && s.raw != "" && AnyCase(html, s.i + n, s.raw)
    requires forall k :: s.i <= k < s.i + n ==> !AnyCase(html, k, s.raw)
    ensures var t := s.(i := s.i + n + |s.raw|, raw := ""); Proper(t) && Run(html, s) == Run(html, t)
    decreases n
  {
    hide Proper, Run, Matches, Step, SameLetter, Ready;
    FoldedAlike(html, s.i, |html|, s.raw);
    RunStep(html, s);
    RawStep(html, s);
    if n == 0 {
      RawProper(s, s.i + |s.raw|, "");
    } else {
      assert !AnyCase(html, s.i, s.raw);
      MoveProper(s, s.i + 1);
      BlockRead(html, s.(i := s.i + 1), n - 1);
    }
  }

  lemma RawStep(html: string, s: State)
    requires Ready(html, s) && s.raw != ""
    ensures Step(html, s) ==
            if Matches(html, s.i, |html|, s.raw) then s.(i := s.i + |s.raw|, raw := "") else s.(i := s.i + 1)
  {
    hide Ready, Matches;
  }

  // ---------- Attribute values ----------

  // A value between single quotes, or without quotes up to white space or the end of the tag, is
  // read as it stands, and so is one between double quotes.
  lemma QuotedValue(html: string, c: nat, end: nat, quote: char, v: string)
    requires c + |v| + 3 <= end <= |html| && html[c] == '=' && quote in {'"', '\''} && quote !in v
    requires html[c + 1] == quote && At(html, c + 2, v) && html[c + 2 + |v|] == quote
    ensures Value(html, c, end) == (v, c + |v| + 3)
  {
    ValueFirst(html, c + 2, |v|, end, true, quote, v);
  }

  lemma BareValue(html: string, c: nat, end: nat, v: string)
    requires c + 1 + |v| <= end <= |html| && html[c] == '=' && At(html, c + 1, v)
    requires v != "" && v[0] != '"' && v[0] != '\''
    requires forall k :: 0 <= k < |v| ==> v[k] !in {' ', '\t', '\r', '\n', '>'}
    requires c + 1 + |v| == end || html[c + 1 + |v|] in {' ', '\t', '\r', '\n', '>'}
    ensures Value(html, c, end) == (v, c + 1 + |v|)
  {
    AtChar(html, c + 1, v, 0);
    ValueFirst(html, c + 1, |v|, end, false, ' ', v);
  }

  lemma ValueFirst(html: string, i: nat, n: nat, end: nat, quoted: bool, quote: char, v: string)
    requires i + n <= end <= |html| && n == |v| && At(html, i, v)
    requires forall k :: 0 <= k < n ==> !EndsValue(v[k], quoted, quote)
    requires i + n == end || EndsValue(html[i + n], quoted, quote)
    ensures ValueEnd(html, i, end, quoted, quote) == i + n && html[i..i + n] == v
  {
    forall k | i <= k < i + n ensures !EndsValue(html[k], quoted, quote) { AtChar(html, i, v, k - i); }
    ValueStops(html, i, n, end, quoted, quote);
  }

  lemma {:induction false} ValueStops(html: string, i: nat, n: nat, end: nat, quoted: bool, quote: char)
    requires i + n <= end <= |html| && forall k :: i <= k < i + n ==> !EndsValue(html[k], quoted, quote)
    requires i + n == end || EndsValue(html[i + n], quoted, quote)
    ensures ValueEnd(html, i, end, quoted, quote) == i + n
    decreases n
  {
    hide EndsValue;
    if n > 0 { ValueStops(html, i + 1, n - 1, end, quoted, quote); }
  }

  // ---------- Named entities ----------

  // The code points that the entities' names stand for in HTML.
  ghost function CodePoints(): seq<nat> {
    [
    38, 39, 8226, 162, 169, 176, 247, 8364, 189, 188, 62, 171, 60, 8212, 181, 183, 8722, 160, 8211, 172, 182, 177,
    163, 34, 187, 174, 167, 173, 178, 179, 215, 8482, 168, 165, 39
    ]
  }

  // Naming an entity shows the same character as its number does for amp, apos, frac12, frac14, gt,
  // laquo, lt, mdash, nbsp, ndash, quot and raquo, and for #39, and another for all others.
  lemma NamedAsNumbered(k: nat)
    requires k < 35
    ensures |Entities()| == |CodePoints()| == 35
    ensures Entities()[k].1 == Shown(CodePoints()[k]) <==> k in {0, 1, 8, 9, 10, 11, 12, 13, 17, 18, 23, 24, 34}
  {
    hide *;
    ByName(k);
    ByNumber(k);
    Alike(k);
  }

  lemma ByName(k: nat)
    requires k < 35
    ensures |Entities()| == 35 && Entities()[k].1 == "&'*c(o/E??><<-u.- -!P+L\">RS-23xT\"Y'"[k]
  {
  }

  lemma ByNumber(k: nat)
    requires k < 35
    ensures |CodePoints()| == 35 && Shown(CodePoints()[k]) == "&'????????><<-??? -????\">?????????'"[k]
  {
  }

  lemma Alike(k: nat)
    requires k < 35
    ensures "&'*c(o/E??><<-u.- -!P+L\">RS-23xT\"Y'"[k] == "&'????????><<-??? -????\">?????????'"[k] <==>
            k in {0, 1, 8, 9, 10, 11, 12, 13, 17, 18, 23, 24, 34}
  {
  }
}
