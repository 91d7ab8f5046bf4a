// File names: the caller's form ("notes.txt") and the padded form in a directory entry ("NOTES   TXT").
module FatName {
  import opened Bits

  const SPACE: byte := 32
  const DOT: byte := 46
  const DELETED: byte := 0xE5

  // to_upper: only the letters a to z change.
  function UpperByte(c: byte): (r: byte)
    ensures r == SPACE <==> c == SPACE
    ensures r == DOT <==> c == DOT
    ensures r == 0 <==> c == 0
  {
    if 97 <= c <= 122 then c - 32 else c
  }

  function Upper(s: seq<byte>): (r: seq<byte>)
    ensures |r| == |s|
  {
    seq(|s|, i requires 0 <= i < |s| => UpperByte(s[i]))
  }

  // The same byte, or the same letter in the other case.
  ghost predicate SameLetter(a: byte, b: byte) {
    a == b || (97 <= a <= 122 && b == a - 32) || (97 <= b <= 122 && a == b - 32)
  }

  // Equal up to case.
  ghost predicate SameButCase(s: seq<byte>, t: seq<byte>) {
    |s| == |t| && forall i :: 0 <= i < |s| ==> SameLetter(s[i], t[i])
  }

  // Folding to upper case tells exactly the names apart that differ in more than case.
  lemma FoldedAlike(s: seq<byte>, t: seq<byte>)
    ensures Upper(s) == Upper(t) <==> SameButCase(s, t)
  {
    assert |Upper(s)| == |s| && |Upper(t)| == |t|;
    if |s| == |t| {
      assert forall i :: 0 <= i < |s| ==> (Upper(s)[i] == Upper(t)[i] <==> SameLetter(s[i], t[i]));
    }
  }

  lemma Folded(s: seq<byte>)
    ensures SameButCase(Upper(s), s) && forall i :: 0 <= i < |s| ==> !(97 <= Upper(s)[i] <= 122)
  {
  }

  // A name as the caller passes it: a C string without its terminator.
  predicate CString(s: seq<byte>) { 0 !in s }

  // kstrcasecmp, for strings given without their terminators.
  method Compare(a: seq<byte>, b: seq<byte>) returns (d: int)
    requires CString(a) && CString(b)
    ensures d == 0 <==> Upper(a) == Upper(b)
    ensures d == 0 <==> SameButCase(a, b)
  {
    FoldedAlike(a, b);
    var i := 0;
    while i < |a| && UpperByte(a[i]) == (if i < |b| then UpperByte(b[i]) else 0)
      invariant 0 <= i <= |a| && i <= |b|
      invariant forall k :: 0 <= k < i ==> UpperByte(a[k]) == UpperByte(b[k])
    {
      assert a[i] in a;
      i := i + 1;
    }
    var x: int := if i < |a| then UpperByte(a[i]) as int else 0;
    var y: int := if i < |b| then UpperByte(b[i]) as int else 0;
    d := x - y;
    if i < |b| { assert b[i] in b; }
    if i < |a| { assert a[i] in a; }
    if d != 0 && |a| == |b| { assert Upper(a)[i] != Upper(b)[i]; }
    if d == 0 { assert forall k :: 0 <= k < |a| ==> Upper(a)[k] == Upper(b)[k]; }
  }

  // ---------- The padded form ----------

  // Where the first dot is; the length if there is none.
  function DotAt(s: seq<byte>): (d: nat)
    ensures d <= |s| && (d < |s| ==> s[d] == DOT) && forall i :: 0 <= i < d ==> s[i] != DOT
  {
    if s == [] || s[0] == DOT then 0
    else
      var d := DotAt(s[1..]);
      assert forall i :: 1 <= i < d + 1 ==> s[i] == s[1..][i - 1];
      d + 1
  }

  function Base(s: seq<byte>): seq<byte> { s[..DotAt(s)] }

  function Extension(s: seq<byte>): seq<byte> { if DotAt(s) < |s| then s[DotAt(s) + 1..] else [] }

  // The first n bytes of s in upper case, filled up with spaces.
  function Padded(s: seq<byte>, n: nat): (r: seq<byte>)
    ensures |r| == n
  {
    seq(n, i requires 0 <= i < n => if i < |s| then UpperByte(s[i]) else SPACE)
  }

  function Spaces(n: nat): (r: seq<byte>)
    ensures |r| == n
  {
    seq(n, _ => SPACE)
  }

  function To83(s: seq<byte>): (r: seq<byte>)
    ensures |r| == 11
  {
    Padded(Base(s), 8) + Padded(Extension(s), 3)
  }

  // The padded form, byte by byte: the first eight before the dot and the first three behind it, no
  // letter in lower case, and spaces.
  lemma PaddedForm(s: seq<byte>, k: nat)
    requires k < 11
    ensures (forall i :: 0 <= i < DotAt(s) ==> s[i] != 46) && (DotAt(s) < |s| ==> s[DotAt(s)] == 46)
    ensures !(97 <= To83(s)[k] <= 122)
    ensures k < 8 ==>
              if k < DotAt(s) then SameLetter(To83(s)[k], s[k]) else To83(s)[k] == 32
    ensures k >= 8 ==>
              if DotAt(s) + k - 7 < |s| then SameLetter(To83(s)[k], s[DotAt(s) + k - 7]) else To83(s)[k] == 32
  {
    hide DotAt;
  }

  // The bytes that are not spaces.
  function NonSpace(s: seq<byte>): (r: seq<byte>)
    ensures |r| <= |s|
  {
    if s == [] then [] else NonSpace(s[..|s| - 1]) + if s[|s| - 1] != SPACE then [s[|s| - 1]] else []
  }

  function Parse83(n: seq<byte>): (r: seq<byte>)
    requires |n| == 11
  {
    NonSpace(n[..8]) + if n[8] != SPACE then [DOT] + NonSpace(n[8..]) else []
  }

  method FindDot(s: seq<byte>) returns (dot: int)
    ensures if DotAt(s) < |s| then dot == DotAt(s) else dot == -1
  {
    dot := -1;
    for i := 0 to |s|
      invariant dot == -1 && i <= DotAt(s)
    {
      if s[i] == DOT { return i; }
    }
  }

  // One of the copying loops: n bytes of s from a position on, in upper case.
  method CopyUpper(out: array<byte>, at: nat, s: seq<byte>, from: nat, n: nat)
    requires at + n <= out.Length && from + n <= |s|
    modifies out
    ensures out[..] == old(out[..at]) + Upper(s[from..from + n]) + old(out[at + n..])
  {
    ghost var was := out[..];
    var i := 0;
    while i < n
      invariant 0 <= i <= n
      invariant forall k :: 0 <= k < out.Length ==>
                  out[k] == if at <= k < at + i then UpperByte(s[from + (k - at)]) else was[k]
    {
      out[at + i] := UpperByte(s[from + i]);
      i := i + 1;
    }
  }

  // fat32_name_to_83
  method NameTo83(s: seq<byte>) returns (r: seq<byte>)
    ensures r == To83(s)
  {
    hide DotAt, Padded;
    var out := new byte[11](_ => SPACE);
    var dot := FindDot(s);
    var n := if dot >= 0 then dot else |s|;
    if n > 8 { n := 8; }
    CopyUpper(out, 0, s, 0, n);
    PaddedPart(s, 0, |Base(s)|, 8, n);
    assert s[0..|Base(s)|] == Base(s);
    assert out[..8] == Padded(Base(s), 8) && out[8..] == Spaces(3);
    CopyExtension(out, s, dot);
    r := out[..];
    assert r == out[..8] + out[8..];
  }

  method CopyExtension(out: array<byte>, s: seq<byte>, dot: int)
    requires out.Length == 11 && out[8..] == Spaces(3)
    requires if DotAt(s) < |s| then dot == DotAt(s) else dot == -1
    modifies out
    ensures out[..8] == old(out[..8]) && out[8..] == Padded(Extension(s), 3)
  {
    hide *;
    if dot >= 0 {
      var e: nat := |s| - dot - 1;
      if e > 3 { e := 3; }
      CopyUpper(out, 8, s, dot + 1, e);
      ExtensionIs(s, dot, e);
      SpacesRest(3, e);
      assert out[8..] == Upper(s[dot + 1..dot + 1 + e]) + old(out[8..])[e..];
    } else {
      NoExtension(s);
    }
  }

  lemma {:induction false} ExtensionIs(s: seq<byte>, dot: nat, e: nat)
    requires dot == DotAt(s) < |s| && e == if |s| - dot - 1 > 3 then 3 else |s| - dot - 1
    ensures Padded(Extension(s), 3) == Upper(s[dot + 1..dot + 1 + e]) + Spaces(3 - e)
  {
    hide *;
    PaddedPart(s, dot + 1, |s|, 3, e);
    ExtensionSlice(s);
  }

  lemma ExtensionSlice(s: seq<byte>)
    requires DotAt(s) < |s|
    ensures Extension(s) == s[DotAt(s) + 1..|s|]
  {
    hide DotAt;
  }

  lemma NoExtension(s: seq<byte>)
    requires DotAt(s) == |s|
    ensures Padded(Extension(s), 3) == Spaces(3)
  {
  }

  lemma SpacesRest(n: nat, m: nat)
    requires m <= n
    ensures Spaces(n)[m..] == Spaces(n - m)
  {
  }

  lemma PaddedPart(s: seq<byte>, from: nat, to: nat, n: nat, m: nat)
    requires from <= to <= |s| && m == if to - from < n then to - from else n
    ensures Padded(s[from..to], n) == Upper(s[from..from + m]) + Spaces(n - m)
  {
  }

  // fat32_parse_83_name
  method ParseName(n: seq<byte>) returns (r: seq<byte>)
    requires |n| == 11
    ensures r == Parse83(n)
  {
    r := [];
    var i := 0;
    while i < 8
      invariant 0 <= i <= 8 && r == NonSpace(n[..i])
    {
      assert n[..i + 1][..i] == n[..i];
      if n[i] != SPACE { r := r + [n[i]]; }
      i := i + 1;
    }
    if n[8] != SPACE {
      r := r + [DOT];
      ghost var base := r;
      while i < 11
        invariant 8 <= i <= 11 && r == base + NonSpace(n[8..i])
      {
        assert n[8..i + 1][..i - 8] == n[8..i];
        if n[i] != SPACE { r := r + [n[i]]; }
        i := i + 1;
      }
      assert n[8..11] == n[8..];
    }
  }

  // ---------- When a name survives ----------

  // The names that fit: at most eight bytes, and after a dot one to three, none a space.
  predicate Fits83(s: seq<byte>) {
    && SPACE !in s && |Base(s)| <= 8
    && (DotAt(s) < |s| ==> 1 <= |Extension(s)| <= 3)
  }

  lemma {:induction false} NonSpaceKeeps(s: seq<byte>)
    ensures SPACE !in s ==> NonSpace(s) == s
    ensures |NonSpace(s)| == |s| ==> SPACE !in s
  {
    if s != [] {
      NonSpaceKeeps(s[..|s| - 1]);
      assert s == s[..|s| - 1] + [s[|s| - 1]];
    }
  }

  lemma {:induction false} NonSpaceAppend(a: seq<byte>, b: seq<byte>)
    ensures NonSpace(a + b) == NonSpace(a) + NonSpace(b)
  {
    if b == [] {
      assert a + b == a;
    } else {
      NonSpaceAppend(a, b[..|b| - 1]);
      assert (a + b)[..|a + b| - 1] == a + b[..|b| - 1];
    }
  }

  lemma {:induction false} NonSpaceSpaces(s: seq<byte>)
    requires forall i :: 0 <= i < |s| ==> s[i] == SPACE
    ensures NonSpace(s) == []
  {
    if s != [] { NonSpaceSpaces(s[..|s| - 1]); }
  }

  // Padding disappears again.
  lemma NonSpacePadded(s: seq<byte>, n: nat)
    ensures NonSpace(Padded(s, n)) == NonSpace(Upper(s)[..if |s| < n then |s| else n])
    ensures n > 0 ==> (Padded(s, n)[0] != SPACE <==> s != [] && s[0] != SPACE)
  {
    var m := if |s| < n then |s| else n;
    var pad := Spaces(n - m);
    assert Padded(s, n) == Upper(s)[..m] + pad;
    NonSpaceAppend(Upper(s)[..m], pad);
    NonSpaceSpaces(pad);
  }

  lemma UpperSpaces(s: seq<byte>)
    ensures SPACE in Upper(s) <==> SPACE in s
  {
    assert forall i :: 0 <= i < |s| ==> (Upper(s)[i] == SPACE <==> s[i] == SPACE);
    if SPACE in s { var i :| 0 <= i < |s| && s[i] == SPACE; assert Upper(s)[i] in Upper(s); }
  }

  // One part of the name comes back exactly when it fits.
  lemma PartSurvives(s: seq<byte>, n: nat)
    ensures |NonSpace(Padded(s, n))| <= |s|
    ensures |s| <= n && SPACE !in s ==> NonSpace(Padded(s, n)) == Upper(s)
    ensures |NonSpace(Padded(s, n))| == |s| ==> |s| <= n && SPACE !in s
  {
    var m := if |s| < n then |s| else n;
    NonSpacePadded(s, n);
    NonSpaceKeeps(Upper(s)[..m]);
    UpperSpaces(s);
    if |s| <= n { assert Upper(s)[..m] == Upper(s); }
  }

  // Reading back the padded form gives the upper-case name exactly for the names that fit.
  lemma NameRoundTrip(s: seq<byte>)
    ensures Parse83(To83(s)) == Upper(s) <==> Fits83(s)
  {
    hide NonSpace, Padded, DotAt;
    var n, b, e := To83(s), Base(s), Extension(s);
    assert n[..8] == Padded(b, 8) && n[8..] == Padded(e, 3) && n[8] == Padded(e, 3)[0];
    PartSurvives(b, 8);
    PartSurvives(e, 3);
    NonSpacePadded(e, 3);
    if DotAt(s) < |s| {
      assert s == b + [DOT] + e;
      if Fits83(s) { UpperParts(b, e); }
    } else {
      assert s == b;
    }
  }

  lemma UpperParts(b: seq<byte>, e: seq<byte>)
    ensures Upper(b + [DOT] + e) == Upper(b) + [DOT] + Upper(e)
  {
  }

  // So two names that fit get the same padded form exactly if they differ at most in case.
  lemma SamePadded(s: seq<byte>, t: seq<byte>)
    requires Fits83(s) && Fits83(t)
    ensures To83(s) == To83(t) <==> SameButCase(s, t)
  {
    FoldedAlike(s, t);
    NameRoundTrip(s);
    NameRoundTrip(t);
    if Upper(s) == Upper(t) { UpperPadded(s, t); }
  }

  lemma UpperPadded(s: seq<byte>, t: seq<byte>)
    requires Upper(s) == Upper(t)
    ensures To83(s) == To83(t)
  {
    assert |s| == |Upper(s)| == |Upper(t)| == |t|;
    assert forall i :: 0 <= i < |s| ==> UpperByte(s[i]) == Upper(s)[i] == Upper(t)[i] == UpperByte(t[i]);
    SameDot(s, t);
    assert Padded(Base(s), 8) == Padded(Base(t), 8);
    assert Padded(Extension(s), 3) == Padded(Extension(t), 3);
  }

  lemma SameDot(s: seq<byte>, t: seq<byte>)
    requires |s| == |t| && forall i :: 0 <= i < |s| ==> UpperByte(s[i]) == UpperByte(t[i])
    ensures DotAt(s) == DotAt(t)
  {
    hide DotAt;
    var d := DotAt(s);
    forall i | 0 <= i < d ensures t[i] != DOT { assert UpperByte(s[i]) == UpperByte(t[i]); }
    if d < |s| { assert UpperByte(s[d]) == UpperByte(t[d]); }
  }

  // A base of nine letters does not come back: the ninth is cut off.
  lemma NineLetters(c: byte)
    requires 65 <= c <= 90
    ensures var s := [c, c, c, c, c, c, c, c, c];
            !Fits83(s) && To83(s) == s[..8] + Spaces(3) && Parse83(To83(s)) == s[..8] != Upper(s)
  {
    var s := [c, c, c, c, c, c, c, c, c];
    DotPast(s);
    assert Base(s) == s && Extension(s) == [];
    assert Padded(s, 8) == s[..8] && Padded([], 3) == Spaces(3);
    NonSpaceKeeps(s[..8]);
    assert To83(s)[..8] == s[..8] && To83(s)[8] == SPACE;
    assert |Upper(s)| == 9;
  }

  lemma {:induction false} DotPast(s: seq<byte>)
    requires DOT !in s
    ensures DotAt(s) == |s|
  {
    if DotAt(s) < |s| { assert s[DotAt(s)] == DOT; }
  }
}
