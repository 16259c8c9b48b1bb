/**
 Section rename, removal and copy: `section_name_match`, `whole_lines` and
 `copy_or_rename_section_in_file` of config_store.rs. These work on lines and not on the
 parsed events, so everything here is about lines and the headers that stand on them.
 */
module ConfigRename {
  import opened Bytes
  import opened ConfigGrammar
  import opened ConfigKey
  import W = ConfigWriter

  // ---- section_name_match -----------------------------------------------------------------

  /** A read of a NUL-terminated string: past the end there is a NUL. */
  function At(s: Bytes, i: nat): Byte { if i < |s| then s[i] else NUL }

  /** What C sees of `s`: everything before the first NUL. */
  function CString(s: Bytes): Bytes {
    if s == [] || s[0] == NUL then [] else [s[0]] + CString(s[1..])
  }

  function SkipSpaces(s: Bytes, i: nat): (k: nat)
    ensures i <= k && (i <= |s| ==> k <= |s|) && !IsSpace(At(s, k))
    ensures forall m :: i <= m < k ==> m < |s| && IsSpace(s[m])
    decreases |s| - i
  {
    if i < |s| && IsSpace(s[i]) then SkipSpaces(s, i + 1) else i
  }

  /** The verdict where the comparison stopped, at `i` in the buffer and `j` in the name. */
  function Verdict(buf: Bytes, i: nat, name: Bytes, j: nat): (n: nat)
    ensures n <= |buf| && (n > 0 ==> i < n)
  {
    if At(buf, i) == RBRACKET && At(name, j) == NUL then SkipSpaces(buf, i + 1) else 0
  }

  /** The comparison from `i` in the buffer and `j` in the name; `dot` inside a subsection. */
  function MatchFrom(buf: Bytes, i: nat, name: Bytes, j: nat, dot: bool): (n: nat)
    ensures n <= |buf| && (n > 0 ==> i < n)
    decreases if i < |buf| then |buf| - i else 0
  {
    var c := At(buf, i);
    if c == NUL || c == RBRACKET then Verdict(buf, i, name, j)
    else if !dot && IsSpace(c) then
      if At(name, j) != DOT then Verdict(buf, i, name, j + 1)
      else
        var k := SkipSpaces(buf, i + 1);
        if At(buf, k) != DQUOTE then Verdict(buf, k, name, j + 1) else MatchFrom(buf, k + 1, name, j + 1, true)
    else if dot && c == DQUOTE then Verdict(buf, SkipSpaces(buf, i + 1), name, j)
    else
      var k := if dot && c == BACKSLASH then i + 1 else i;
      if At(buf, k) != At(name, j) then Verdict(buf, k, name, j + 1) else MatchFrom(buf, k + 1, name, j + 1, dot)
  }

  /** How many bytes of `buf` the header for `name` takes, 0 when it is another's. */
  function NameMatch(buf: Bytes, name: Bytes): (n: nat)
    ensures n <= |buf|
  {
    if At(buf, 0) != LBRACKET then 0 else MatchFrom(buf, 1, name, 0, false)
  }

  /** The whitespace loops of `section_name_match`. */
  method SkipBlanks(buf: Bytes, from: nat) returns (i: nat)
    ensures i == SkipSpaces(buf, from)
  {
    i := from;
    while At(buf, i) != NUL && IsSpace(At(buf, i))
      invariant SkipSpaces(buf, i) == SkipSpaces(buf, from)
      decreases |buf| - i
    {
      i := i + 1;
    }
  }

  /** `section_name_match` */
  method SectionNameMatch(buf: Bytes, name: Bytes) returns (n: nat)
    ensures n == NameMatch(buf, name)
  {
    hide SkipSpaces, Verdict;
    if At(buf, 0) != LBRACKET { return 0; }
    var i, j, dot := 1, 0, false;
    while At(buf, i) != NUL && At(buf, i) != RBRACKET
      invariant MatchFrom(buf, i, name, j, dot) == NameMatch(buf, name)
      decreases if i < |buf| then |buf| - i else 0
    {
      if !dot && IsSpace(At(buf, i)) {
        dot := true;
        var c := At(name, j);
        j := j + 1;
        if c != DOT { break; }
        i := SkipBlanks(buf, i + 1);
        if At(buf, i) != DQUOTE { break; }
        i := i + 1;
        continue;
      }
      if At(buf, i) == BACKSLASH && dot {
        i := i + 1;
      } else if At(buf, i) == DQUOTE && dot {
        i := SkipBlanks(buf, i + 1);
        break;
      }
      var c := At(name, j);
      j := j + 1;
      if At(buf, i) != c { break; }
      i := i + 1;
    }
    assert Verdict(buf, i, name, j) == NameMatch(buf, name);
    n := TakeVerdict(buf, i, name, j);
  }

  /** The end of `section_name_match`: a match runs on over the whitespace behind it. */
  method TakeVerdict(buf: Bytes, i: nat, name: Bytes, j: nat) returns (n: nat)
    ensures n == Verdict(buf, i, name, j)
  {
    n := 0;
    if At(buf, i) == RBRACKET && At(name, j) == NUL {
      n := SkipBlanks(buf, i + 1);
    }
  }

  // ---- the headers this program writes ----------------------------------------------------

  /** From `j` on, `y` spells `s`. */
  predicate Spells(y: Bytes, j: nat, s: Bytes) {
    forall m :: 0 <= m < |s| ==> At(y, j + m) == s[m]
  }

  lemma SpellsNext(y: Bytes, j: nat, s: Bytes)
    requires s != []
    ensures Spells(y, j, s) <==> At(y, j) == s[0] && Spells(y, j + 1, s[1..])
  {
    if At(y, j) == s[0] && Spells(y, j + 1, s[1..]) {
      forall m | 0 <= m < |s|
        ensures At(y, j + m) == s[m]
      {
        if m > 0 { assert s[1..][m - 1] == s[m] && At(y, j + 1 + (m - 1)) == s[1..][m - 1]; }
      }
    }
    if Spells(y, j, s) {
      assert At(y, j + 0) == s[0];
      forall m | 0 <= m < |s[1..]|
        ensures At(y, j + 1 + m) == s[1..][m]
      {
        assert At(y, j + (m + 1)) == s[m + 1];
      }
    }
  }

  lemma SpellsConcat(y: Bytes, j: nat, a: Bytes, b: Bytes)
    ensures Spells(y, j, a + b) <==> Spells(y, j, a) && Spells(y, j + |a|, b)
  {
    if Spells(y, j, a + b) {
      assert forall m :: 0 <= m < |a| ==> (a + b)[m] == a[m];
      forall m | 0 <= m < |b|
        ensures At(y, j + |a| + m) == b[m]
      {
        assert (a + b)[|a| + m] == b[m] && At(y, j + (|a| + m)) == (a + b)[|a| + m];
      }
    }
  }

  lemma {:induction false} CStringSpells(x: Bytes, y: Bytes)
    requires NUL !in x
    ensures CString(y) == x <==> Spells(y, 0, x) && At(y, |x|) == NUL
  {
    if x == [] {
      assert CString(y) == [] <==> At(y, 0) == NUL;
    } else {
      assert x[0] in x;
      SpellsNext(y, 0, x);
      if y != [] && y[0] == x[0] {
        CStringSpells(x[1..], y[1..]);
        assert forall m: nat :: At(y[1..], m) == At(y, 1 + m);
        assert Spells(y[1..], 0, x[1..]) <==> Spells(y, 1, x[1..]);
        assert x == [x[0]] + x[1..];
      }
    }
  }

  /** A run of ordinary bytes of a plain section name. */
  predicate PlainBytes(s: Bytes) { forall c :: c in s ==> c != NUL && c != RBRACKET && !IsSpace(c) }

  lemma PlainByte(buf: Bytes, i: nat, y: Bytes, j: nat)
    requires i < |buf| && buf[i] != NUL && buf[i] != RBRACKET && !IsSpace(buf[i])
    ensures MatchFrom(buf, i, y, j, false) == if At(y, j) == buf[i] then MatchFrom(buf, i + 1, y, j + 1, false) else 0
  {
    hide SkipSpaces;
  }

  lemma SliceNext(buf: Bytes, i: nat, s: Bytes, k: nat)
    requires i + |s| <= |buf| && buf[i..i + |s|] == s && 0 < k <= |s|
    ensures buf[i] == s[0] && buf[i + k - 1] == s[k - 1] && buf[i + k..i + k + |s[k..]|] == s[k..]
  {
    assert buf[i..i + |s|][0] == buf[i] && buf[i..i + |s|][k - 1] == buf[i + k - 1];
    assert buf[i..i + |s|][k..] == s[k..];
  }

  lemma {:induction false} PlainRun(buf: Bytes, i: nat, s: Bytes, y: Bytes, j: nat)
    requires i + |s| <= |buf| && buf[i..i + |s|] == s && PlainBytes(s)
    ensures MatchFrom(buf, i, y, j, false) ==
      if Spells(y, j, s) then MatchFrom(buf, i + |s|, y, j + |s|, false) else 0
    decreases |s|
  {
    hide SkipSpaces, MatchFrom, At;
    if s != [] {
      SliceNext(buf, i, s, 1);
      assert s[0] in s && forall c :: c in s[1..] ==> c in s;
      SpellsNext(y, j, s);
      PlainByte(buf, i, y, j);
      PlainRun(buf, i + 1, s[1..], y, j + 1);
    }
  }

  lemma EscapedHead(s: Bytes)
    requires s != []
    ensures W.Escaped(s) ==
      (if s[0] == DQUOTE || s[0] == BACKSLASH then [BACKSLASH, s[0]] else [s[0]]) + W.Escaped(s[1..])
  {
  }

  lemma {:induction false} SubRun(buf: Bytes, i: nat, s: Bytes, y: Bytes, j: nat)
    requires i + |W.Escaped(s)| <= |buf| && buf[i..i + |W.Escaped(s)|] == W.Escaped(s) && NUL !in s && RBRACKET !in s
    ensures MatchFrom(buf, i, y, j, true) ==
      if Spells(y, j, s) then MatchFrom(buf, i + |W.Escaped(s)|, y, j + |s|, true) else 0
    decreases |s|
  {
    hide SkipSpaces, MatchFrom, At, W.Escaped;
    if s == [] {
      EscapedNone();
    } else {
      EscapedHead(s);
      var k := if s[0] == DQUOTE || s[0] == BACKSLASH then 2 else 1;
      assert W.Escaped(s)[k..] == W.Escaped(s[1..]);
      SliceNext(buf, i, W.Escaped(s), k);
      assert s[0] in s && forall c :: c in s[1..] ==> c in s;
      SpellsNext(y, j, s);
      SubByte(buf, i, s[0], y, j, k);
      SubRun(buf, i + k, s[1..], y, j + 1);
    }
  }

  lemma EscapedNone()
    ensures W.Escaped([]) == []
  {
  }

  lemma SubByte(buf: Bytes, i: nat, c: Byte, y: Bytes, j: nat, k: nat)
    requires c != NUL && c != RBRACKET && k == (if c == DQUOTE || c == BACKSLASH then 2 else 1)
    requires i + k <= |buf| && buf[i + k - 1] == c && (k == 2 ==> buf[i] == BACKSLASH)
    ensures MatchFrom(buf, i, y, j, true) == if At(y, j) == c then MatchFrom(buf, i + k, y, j + 1, true) else 0
  {
    hide SkipSpaces;
  }

  /** What comes behind a subsection's last byte. */
  lemma QuoteTail(buf: Bytes, i: nat, y: Bytes, j: nat)
    requires i + 3 == |buf| && buf[i..] == [DQUOTE, RBRACKET, LF]
    ensures MatchFrom(buf, i, y, j, true) == if At(y, j) == NUL then |buf| else 0
  {
    assert buf[i] == DQUOTE && buf[i + 1] == RBRACKET && buf[i + 2] == LF;
    assert SkipSpaces(buf, i + 1) == i + 1;
    BracketTail(buf, i + 1, y, j);
  }

  /** What comes behind a plain section's last byte. */
  lemma BracketTail(buf: Bytes, i: nat, y: Bytes, j: nat)
    requires i + 2 == |buf| && buf[i] == RBRACKET && buf[i + 1] == LF
    ensures Verdict(buf, i, y, j) == if At(y, j) == NUL then |buf| else 0
  {
    assert SkipSpaces(buf, i + 2) == i + 2;
    assert SkipSpaces(buf, i + 1) == i + 2;
  }

  /** A name its own header is recognised by. */
  predicate SelfNamed(x: Bytes) {
    NUL !in x && RBRACKET !in x && forall i :: 0 <= i < FirstDot(x) ==> !IsSpace(x[i])
  }

  /**
   The header this program writes for `x` is taken for the section `y` exactly when `y` is `x`, and then as a whole.
   */
  lemma HeaderMatch(x: Bytes, y: Bytes)
    requires SelfNamed(x)
    ensures NameMatch(W.SectionLine(x), y) == if CString(y) == x then |W.SectionLine(x)| else 0
  {
    CStringSpells(x, y);
    if FirstDot(x) < |x| { DottedMatch(x, y); } else { UndottedMatch(x, y); }
  }

  lemma UndottedMatch(x: Bytes, y: Bytes)
    requires SelfNamed(x) && FirstDot(x) == |x|
    ensures NameMatch(W.SectionLine(x), y) == if Spells(y, 0, x) && At(y, |x|) == NUL then |W.SectionLine(x)| else 0
  {
    hide *;
    var buf := W.SectionLine(x);
    UndottedParts(x);
    Opens(buf, y);
    PlainRun(buf, 1, x, y, 0);
    ClosesPlain(buf, 1 + |x|, y, |x|);
  }

  lemma UndottedParts(x: Bytes)
    requires SelfNamed(x) && FirstDot(x) == |x|
    ensures var buf := W.SectionLine(x);
      && |buf| == |x| + 3 && buf[0] == LBRACKET
      && buf[1..1 + |x|] == x && buf[1 + |x|] == RBRACKET && buf[2 + |x|] == LF
    ensures PlainBytes(x)
  {
    assert forall i :: 0 <= i < |x| ==> x[i] in x;
  }

  lemma Opens(buf: Bytes, y: Bytes)
    requires buf != [] && buf[0] == LBRACKET
    ensures NameMatch(buf, y) == MatchFrom(buf, 1, y, 0, false)
  {
  }

  lemma ClosesPlain(buf: Bytes, i: nat, y: Bytes, j: nat)
    requires i + 2 == |buf| && buf[i] == RBRACKET && buf[i + 1] == LF
    ensures MatchFrom(buf, i, y, j, false) == if At(y, j) == NUL then |buf| else 0
  {
    BracketTail(buf, i, y, j);
  }

  lemma DottedMatch(x: Bytes, y: Bytes)
    requires SelfNamed(x) && FirstDot(x) < |x|
    ensures NameMatch(W.SectionLine(x), y) == if Spells(y, 0, x) && At(y, |x|) == NUL then |W.SectionLine(x)| else 0
  {
    hide *;
    var d := FirstDot(x);
    var buf, sub := W.SectionLine(x), x[d + 1..];
    DottedParts(x);
    Opens(buf, y);
    PlainRun(buf, 1, x[..d], y, 0);
    SpaceQuote(buf, 1 + d, y, d);
    SubRun(buf, d + 3, sub, y, d + 1);
    QuoteTail(buf, d + 3 + |W.Escaped(sub)|, y, |x|);
    DottedSpells(x, y);
  }

  lemma DottedSpells(x: Bytes, y: Bytes)
    requires FirstDot(x) < |x|
    ensures var d := FirstDot(x);
      Spells(y, 0, x) <==> Spells(y, 0, x[..d]) && At(y, d) == DOT && Spells(y, d + 1, x[d + 1..])
  {
    hide *;
    var d := FirstDot(x);
    CutAt(x, d);
    SpellsConcat(y, 0, x[..d], x[d..]);
    SpellsNext(y, d, x[d..]);
  }

  lemma CutAt(x: Bytes, d: nat)
    requires d < |x|
    ensures x == x[..d] + x[d..] && x[d..][0] == x[d] && x[d..][1..] == x[d + 1..]
  {
  }

  lemma DottedParts(x: Bytes)
    requires SelfNamed(x) && FirstDot(x) < |x|
    ensures var d, e := FirstDot(x), W.Escaped(x[FirstDot(x) + 1..]); var buf := W.SectionLine(x);
      && |buf| == d + |e| + 6 && buf[0] == LBRACKET
      && buf[1..1 + d] == x[..d] && buf[1 + d] == SPACE && buf[2 + d] == DQUOTE
      && buf[d + 3..d + 3 + |e|] == e && buf[d + 3 + |e|..] == [DQUOTE, RBRACKET, LF]
    ensures PlainBytes(x[..FirstDot(x)]) && NUL !in x[FirstDot(x) + 1..] && RBRACKET !in x[FirstDot(x) + 1..]
  {
    hide *;
    SectionLineIs(x);
    var d := FirstDot(x);
    HeaderSlices(x[..d], W.Escaped(x[d + 1..]), W.SectionLine(x));
    NameBytes(x);
  }

  lemma HeaderSlices(a: Bytes, e: Bytes, buf: Bytes)
    requires buf == [LBRACKET] + a + [SPACE, DQUOTE] + e + [DQUOTE, RBRACKET, LF]
    ensures var d := |a|;
      && |buf| == d + |e| + 6 && buf[0] == LBRACKET && buf[1..1 + d] == a && buf[1 + d] == SPACE && buf[2 + d] == DQUOTE
      && buf[d + 3..d + 3 + |e|] == e && buf[d + 3 + |e|..] == [DQUOTE, RBRACKET, LF]
  {
  }

  lemma NameBytes(x: Bytes)
    requires SelfNamed(x) && FirstDot(x) < |x|
    ensures PlainBytes(x[..FirstDot(x)]) && NUL !in x[FirstDot(x) + 1..] && RBRACKET !in x[FirstDot(x) + 1..]
  {
    hide FirstDot;
    assert forall i :: 0 <= i < |x| ==> x[i] in x;
  }

  lemma SpaceQuote(buf: Bytes, i: nat, y: Bytes, j: nat)
    requires i + 1 < |buf| && buf[i] == SPACE && buf[i + 1] == DQUOTE
    ensures MatchFrom(buf, i, y, j, false) == if At(y, j) == DOT then MatchFrom(buf, i + 2, y, j + 1, true) else 0
  {
    assert SkipSpaces(buf, i + 1) == i + 1;
  }

  /** A byte that ends the comparison before the name is through. */
  predicate Stops(x: Bytes, p: nat)
    requires p < |x|
  {
    x[p] == NUL || x[p] == RBRACKET || (p < FirstDot(x) && IsSpace(x[p]))
  }

  lemma FirstStop(x: Bytes, from: nat) returns (p: nat)
    requires from <= |x| && forall i :: 0 <= i < from ==> !Stops(x, i)
    ensures p <= |x| && (p < |x| ==> Stops(x, p)) && forall i :: 0 <= i < p ==> !Stops(x, i)
    ensures p == |x| ==> SelfNamed(x)
    decreases |x| - from
  {
    hide FirstDot;
    if from == |x| {
      NoStops(x);
      p := from;
    } else if Stops(x, from) {
      p := from;
    } else {
      p := FirstStop(x, from + 1);
    }
  }

  lemma NoStops(x: Bytes)
    requires forall i :: 0 <= i < |x| ==> !Stops(x, i)
    ensures SelfNamed(x)
  {
    NoStopsIn(x, 0, |x|);
    assert x[0..|x|] == x;
    forall i | 0 <= i < FirstDot(x)
      ensures !IsSpace(x[i])
    {
      assert !Stops(x, i);
    }
  }

  lemma NoStopsIn(x: Bytes, a: nat, b: nat)
    requires a <= b <= |x| && forall i :: 0 <= i < b ==> !Stops(x, i)
    ensures NUL !in x[a..b] && RBRACKET !in x[a..b]
    ensures b <= FirstDot(x) ==> PlainBytes(x[a..b])
  {
    hide FirstDot;
    forall c | c in x[a..b]
      ensures c != NUL && c != RBRACKET && (b <= FirstDot(x) ==> !IsSpace(c))
    {
      var i :| a <= i < b && x[i] == c;
      assert !Stops(x, i);
    }
  }

  /** A header is recognised under its own name exactly when that name is `SelfNamed`. */
  lemma OwnMatch(x: Bytes)
    ensures NameMatch(W.SectionLine(x), x) > 0 <==> SelfNamed(x)
  {
    hide *;
    if IsSelfNamed(x) {
      HeaderMatch(x, x);
      SelfString(x);
      SectionLineLong(x);
    } else {
      var p := FirstStop(x, 0);
      if p < FirstDot(x) { StopsPlain(x, p); } else { StopsSub(x, p); }
    }
  }

  predicate IsSelfNamed(x: Bytes)
    ensures IsSelfNamed(x) == SelfNamed(x)
  {
    SelfNamed(x)
  }

  lemma SelfString(x: Bytes)
    requires SelfNamed(x)
    ensures CString(x) == x
  {
    CStringSpells(x, x);
  }

  lemma SectionLineLong(x: Bytes)
    ensures |W.SectionLine(x)| > 0
  {
  }

  lemma StopsPlain(x: Bytes, p: nat)
    requires p < FirstDot(x) && Stops(x, p) && forall i :: 0 <= i < p ==> !Stops(x, i)
    ensures NameMatch(W.SectionLine(x), x) == 0
  {
    hide *;
    var buf := W.SectionLine(x);
    PlainStopParts(x, p);
    Opens(buf, x);
    PlainRun(buf, 1, x[..p], x, 0);
    StopByte(buf, 1 + p, x, p, false);
  }

  lemma PlainStopParts(x: Bytes, p: nat)
    requires p < FirstDot(x) && Stops(x, p) && forall i :: 0 <= i < p ==> !Stops(x, i)
    ensures var buf := W.SectionLine(x);
      && p + 1 < |buf| && buf[0] == LBRACKET && buf[1..1 + p] == x[..p] && buf[1 + p] == x[p] && PlainBytes(x[..p])
    ensures x[p] == NUL || x[p] == RBRACKET || IsSpace(x[p])
  {
    hide *;
    NoStopsIn(x, 0, p);
    CutFront(x, p);
    HeaderFront(x);
    FrontSlices(W.SectionLine(x), x, FirstDot(x), p);
    StopsEarly(x, p);
  }

  lemma StopsEarly(x: Bytes, p: nat)
    requires p < |x| && Stops(x, p)
    ensures x[p] == NUL || x[p] == RBRACKET || IsSpace(x[p])
  {
  }

  lemma FrontSlices(buf: Bytes, x: Bytes, d: nat, p: nat)
    requires p < d <= |x| && 1 + d < |buf| && buf[1..1 + d] == x[..d]
    ensures buf[1..1 + p] == x[..p] && buf[1 + p] == x[p]
  {
    assert buf[1..1 + d][..p] == x[..d][..p];
    assert buf[1 + p] == buf[1..1 + d][p];
  }

  lemma HeaderFront(x: Bytes)
    ensures var buf, d := W.SectionLine(x), FirstDot(x); 1 + d < |buf| && buf[0] == LBRACKET && buf[1..1 + d] == x[..d]
  {
    hide W.Escaped, FirstDot;
  }

  lemma StopByte(buf: Bytes, i: nat, y: Bytes, j: nat, dot: bool)
    requires i < |buf| && j < |y| && buf[i] == y[j]
    requires y[j] == NUL || y[j] == RBRACKET || (!dot && IsSpace(y[j]))
    ensures MatchFrom(buf, i, y, j, dot) == 0
  {
    hide SkipSpaces;
  }

  lemma StopsSub(x: Bytes, p: nat)
    requires FirstDot(x) <= p < |x| && Stops(x, p) && forall i :: 0 <= i < p ==> !Stops(x, i)
    ensures NameMatch(W.SectionLine(x), x) == 0
  {
    hide *;
    var d := FirstDot(x);
    var buf := W.SectionLine(x);
    SubStopParts(x, p);
    Opens(buf, x);
    PlainRun(buf, 1, x[..d], x, 0);
    SpaceQuote(buf, 1 + d, x, d);
    SubRun(buf, d + 3, x[d + 1..p], x, d + 1);
    StopByte(buf, d + 3 + |W.Escaped(x[d + 1..p])|, x, p, true);
  }

  lemma {:induction false} EscapedConcat(a: Bytes, b: Bytes)
    ensures W.Escaped(a + b) == W.Escaped(a) + W.Escaped(b)
  {
    hide *;
    if a == [] {
      assert a + b == b;
      EscapedNone();
      assert [] + W.Escaped(b) == W.Escaped(b);
    } else {
      EscapedConcat(a[1..], b);
      assert (a + b)[1..] == a[1..] + b && (a + b)[0] == a[0];
      EscapedHead(a);
      EscapedHead(a + b);
      assert W.Escaped(a[1..] + b) == W.Escaped(a[1..]) + W.Escaped(b);
    }
  }

  lemma SubStopParts(x: Bytes, p: nat)
    requires FirstDot(x) <= p < |x| && Stops(x, p) && forall i :: 0 <= i < p ==> !Stops(x, i)
    ensures var d := FirstDot(x); d < p
    ensures var d := FirstDot(x); var buf, e := W.SectionLine(x), W.Escaped(x[d + 1..p]);
      && d + 3 + |e| < |buf| && buf[0] == LBRACKET
      && buf[1..1 + d] == x[..d] && buf[1 + d] == SPACE && buf[2 + d] == DQUOTE
      && buf[d + 3..d + 3 + |e|] == e && buf[d + 3 + |e|] == x[p]
    ensures PlainBytes(x[..FirstDot(x)]) && NUL !in x[FirstDot(x) + 1..p] && RBRACKET !in x[FirstDot(x) + 1..p]
    ensures x[p] == NUL || x[p] == RBRACKET
  {
    hide *;
    StopsLate(x, p);
    var d := FirstDot(x);
    NoStopsIn(x, 0, d);
    NoStopsIn(x, d + 1, p);
    CutFront(x, d);
    EscapedCut(x, d + 1, p);
    EscapedHead(x[p..]);
    SectionLineIs(x);
    SubStopSlices(x, d, W.Escaped(x[d + 1..p]), W.Escaped(x[p..]), W.SectionLine(x));
    EscapedFirst(x, p);
  }

  lemma StopsLate(x: Bytes, p: nat)
    requires FirstDot(x) <= p < |x| && Stops(x, p)
    ensures FirstDot(x) < p && (x[p] == NUL || x[p] == RBRACKET)
  {
    hide FirstDot, IsSpace;
    assert x[FirstDot(x)] == DOT;
  }

  lemma CutFront(x: Bytes, d: nat)
    requires d <= |x|
    ensures x[0..d] == x[..d]
  {
  }

  lemma EscapedCut(x: Bytes, a: nat, p: nat)
    requires a <= p <= |x|
    ensures W.Escaped(x[a..]) == W.Escaped(x[a..p]) + W.Escaped(x[p..])
  {
    EscapedConcat(x[a..p], x[p..]);
    assert x[a..] == x[a..p] + x[p..];
  }

  lemma EscapedFirst(x: Bytes, p: nat)
    requires p < |x| && (x[p] == NUL || x[p] == RBRACKET)
    ensures W.Escaped(x[p..]) != [] && W.Escaped(x[p..])[0] == x[p]
  {
    EscapedHead(x[p..]);
  }

  lemma SectionLineIs(x: Bytes)
    requires FirstDot(x) < |x|
    ensures W.SectionLine(x) ==
      [LBRACKET] + x[..FirstDot(x)] + [SPACE, DQUOTE] + W.Escaped(x[FirstDot(x) + 1..]) + [DQUOTE, RBRACKET, LF]
  {
    hide FirstDot, W.Escaped;
  }

  lemma SubStopSlices(x: Bytes, d: nat, e: Bytes, rest: Bytes, buf: Bytes)
    requires d < |x| && buf == [LBRACKET] + x[..d] + [SPACE, DQUOTE] + (e + rest) + [DQUOTE, RBRACKET, LF]
    ensures d + 3 + |e| < |buf| && buf[0] == LBRACKET && buf[1..1 + d] == x[..d]
    ensures buf[1 + d] == SPACE && buf[2 + d] == DQUOTE
    ensures buf[d + 3..d + 3 + |e|] == e && (rest != [] ==> buf[d + 3 + |e|] == rest[0])
  {
    var head := [LBRACKET] + x[..d] + [SPACE, DQUOTE];
    assert |head| == d + 3 && head[0] == LBRACKET &&
      head[1..1 + d] == x[..d] && head[1 + d] == SPACE && head[2 + d] == DQUOTE;
    assert buf[..d + 3] == head;
    assert buf[1..1 + d] == buf[..d + 3][1..1 + d];
    assert buf[1 + d] == buf[..d + 3][1 + d] && buf[2 + d] == buf[..d + 3][2 + d] && buf[0] == buf[..d + 3][0];
  }
}
