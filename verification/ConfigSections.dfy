/**
 `whole_lines` and `copy_or_rename_section_in_file` of config_store.rs, and what renaming,
 copying and removing a section undo of each other.
 */
module ConfigSections {
  import opened Bytes
  import opened ConfigGrammar
  import opened ConfigKey
  import opened ConfigRename
  import opened Optional
  import W = ConfigWriter

  /** `GIT_CONFIG_MAX_LINE_LEN` */
  const MAX_LINE_LEN: nat := 512 * 1024

  // ---- lines ------------------------------------------------------------------------------

  /** Where the first line of `s` ends, its line feed included. */
  function LineEnd(s: Bytes): (e: nat)
    requires s != []
    ensures 0 < e <= |s| && (forall i :: 0 <= i < e - 1 ==> s[i] != LF) && (s[e - 1] == LF || e == |s|)
  {
    if s[0] == LF || |s| == 1 then 1 else 1 + LineEnd(s[1..])
  }

  function Lines(s: Bytes): seq<Bytes>
    decreases |s|
  {
    if s == [] then [] else [s[..LineEnd(s)]] + Lines(s[LineEnd(s)..])
  }

  function Join(ls: seq<Bytes>): Bytes {
    if ls == [] then [] else ls[0] + Join(ls[1..])
  }

  predicate OneLine(l: Bytes) { l != [] && forall i :: 0 <= i < |l| - 1 ==> l[i] != LF }

  predicate Ended(l: Bytes) { OneLine(l) && l[|l| - 1] == LF }

  /** Lines that stay apart when they are written one behind the other. */
  predicate Apart(ls: seq<Bytes>) {
    ls == [] || (OneLine(ls[0]) && (|ls| > 1 ==> Ended(ls[0])) && Apart(ls[1..]))
  }

  /** One step of the `whole_lines` iterator. */
  method NextLine(rest: Bytes) returns (line: Bytes, tail: Bytes)
    requires rest != []
    ensures line == rest[..LineEnd(rest)] && tail == rest[LineEnd(rest)..]
  {
    var i := 0;
    while i < |rest| && rest[i] != LF
      invariant i <= |rest| && forall k :: 0 <= k < i ==> rest[k] != LF
    {
      i := i + 1;
    }
    var end := if i < |rest| then i + 1 else |rest|;
    OnlyLineEnd(rest, end);
    line, tail := rest[..end], rest[end..];
  }

  lemma OnlyLineEnd(s: Bytes, e: nat)
    requires 0 < e <= |s| && (forall i :: 0 <= i < e - 1 ==> s[i] != LF) && (s[e - 1] == LF || e == |s|)
    ensures LineEnd(s) == e
  {
    hide LineEnd;
    var f := LineEnd(s);
    assert e <= f;
    assert f <= e;
  }

  lemma {:induction false} LinesJoin(ls: seq<Bytes>)
    requires Apart(ls)
    ensures Lines(Join(ls)) == ls
  {
    hide LineEnd, Apart, OneLine;
    if ls != [] {
      var l, rest := ls[0], Join(ls[1..]);
      FirstLine(ls);
      LinesJoin(ls[1..]);
      assert (l + rest)[..|l|] == l && (l + rest)[|l|..] == rest;
    }
  }

  lemma FirstLine(ls: seq<Bytes>)
    requires ls != [] && Apart(ls)
    ensures Apart(ls[1..]) && ls[0] != [] && LineEnd(ls[0] + Join(ls[1..])) == |ls[0]|
  {
    hide LineEnd, Join;
    if |ls| == 1 {
      NoLines();
      assert ls[1..] == [];
    }
    LineOf(ls[0], Join(ls[1..]));
  }

  lemma LineOf(l: Bytes, rest: Bytes)
    requires OneLine(l) && (rest == [] || Ended(l))
    ensures LineEnd(l + rest) == |l|
  {
    hide LineEnd;
    OnlyLineEnd(l + rest, |l|);
  }

  lemma LinesNext(s: Bytes)
    requires s != []
    ensures Lines(s) == [s[..LineEnd(s)]] + Lines(s[LineEnd(s)..]) && s == s[..LineEnd(s)] + s[LineEnd(s)..]
    ensures Lines([]) == []
  {
    hide LineEnd;
  }

  lemma JoinCons(l: Bytes, ls: seq<Bytes>)
    ensures Join([l] + ls) == l + Join(ls) && Join([]) == []
  {
    assert ([l] + ls)[1..] == ls;
  }

  lemma ApartCons(l: Bytes, ls: seq<Bytes>)
    requires OneLine(l) && Apart(ls) && (ls != [] ==> Ended(l))
    ensures Apart([l] + ls)
  {
    assert ([l] + ls)[1..] == ls;
  }

  lemma {:induction false} JoinLines(s: Bytes)
    ensures Join(Lines(s)) == s && Apart(Lines(s))
    decreases |s|
  {
    hide LineEnd, Join, Lines, Apart, OneLine, Ended;
    if s == [] {
      NoLines();
    } else {
      var e := LineEnd(s);
      LinesNext(s);
      JoinLines(s[e..]);
      JoinCons(s[..e], Lines(s[e..]));
      LineCut(s);
      ApartCons(s[..e], Lines(s[e..]));
    }
  }

  lemma NoLines()
    ensures Lines([]) == [] && Join([]) == [] && Apart([])
  {
  }

  lemma LineCut(s: Bytes)
    requires s != []
    ensures OneLine(s[..LineEnd(s)]) && (Lines(s[LineEnd(s)..]) != [] ==> Ended(s[..LineEnd(s)]))
  {
    hide LineEnd, Lines;
    NoLines();
    var e := LineEnd(s);
    if e == |s| { assert s[e..] == []; }
  }

  lemma {:induction false} JoinConcat(a: seq<Bytes>, b: seq<Bytes>)
    ensures Join(a + b) == Join(a) + Join(b)
  {
    hide Join;
    if a == [] {
      JoinCons([], []);
      assert a + b == b;
    } else {
      JoinConcat(a[1..], b);
      JoinCons(a[0], a[1..]);
      JoinCons(a[0], a[1..] + b);
      assert a == [a[0]] + a[1..] && a + b == [a[0]] + (a[1..] + b);
      assert a[0] + (Join(a[1..]) + Join(b)) == a[0] + Join(a[1..]) + Join(b);
    }
  }

  lemma {:induction false} ApartConcat(a: seq<Bytes>, b: seq<Bytes>)
    requires Apart(a) && Apart(b) && (a != [] && b != [] ==> Ended(a[|a| - 1]))
    ensures Apart(a + b)
  {
    hide OneLine, Ended;
    if a == [] {
      assert a + b == b;
    } else {
      ApartConcat(a[1..], b);
      assert (a + b)[1..] == a[1..] + b;
    }
  }

  // ---- the loop ---------------------------------------------------------------------------

  /** What the loop carries from line to line. */
  datatype Pass = Pass(out: Bytes, copystr: Bytes, remove: bool, hits: nat)

  datatype Renamed = Done(out: Bytes, hits: nat) | LongLine(lineNr: nat)

  function FirstNonSpace(line: Bytes): (i: nat)
    ensures i <= |line| && (i < |line| ==> !IsSpace(line[i])) && forall k :: 0 <= k < i ==> IsSpace(line[k])
  {
    if line != [] && IsSpace(line[0]) then 1 + FirstNonSpace(line[1..]) else 0
  }

  predicate IsHeader(line: Bytes) {
    var i := FirstNonSpace(line); i < |line| && line[i] == LBRACKET
  }

  /** How much of the line the header for `name` takes, leading blanks included; 0 for no such header. */
  function HeaderEnd(line: Bytes, name: Bytes): (n: nat)
    ensures n <= |line| && (n > 0 ==> 1 < n)
  {
    var i := FirstNonSpace(line);
    if !IsHeader(line) then 0
    else
      var n := NameMatch(line[i..], name);
      if n == 0 then 0 else i + n
  }

  predicate Hit(line: Bytes, name: Bytes) { HeaderEnd(line, name) > 0 }

  /** What is left of a renamed header's line goes on a line of its own. */
  function Indented(rest: Bytes): Bytes { if rest == [] then [] else [TAB] + rest }

  function Step(p: Pass, line: Bytes, oldName: Bytes, newName: Option<Bytes>, copy: bool): Pass {
    if IsHeader(line) then
      var out := p.out + p.copystr;
      if !Hit(line, oldName) then Pass(out + line, [], false, p.hits)
      else match newName
        case None => Pass(out, [], true, p.hits + 1)
        case Some(b) =>
          if copy then Pass(out + line, W.SectionLine(b), false, p.hits + 1)
          else Pass(out + W.SectionLine(b) + Indented(line[HeaderEnd(line, oldName)..]), [], false, p.hits + 1)
    else if p.remove then p
    else Pass(p.out + line, if p.copystr == [] then [] else p.copystr + line, false, p.hits)
  }

  function Fold(ls: seq<Bytes>, p: Pass, nr: nat, oldName: Bytes, newName: Option<Bytes>, copy: bool): Renamed {
    if ls == [] then Done(p.out + p.copystr, p.hits)
    else if |ls[0]| >= MAX_LINE_LEN then LongLine(nr + 1)
    else Fold(ls[1..], Step(p, ls[0], oldName, newName, copy), nr + 1, oldName, newName, copy)
  }

  function Outcome(contents: Bytes, oldName: Bytes, newName: Option<Bytes>, copy: bool): Renamed {
    Fold(Lines(contents), Pass([], [], false, 0), 0, oldName, newName, copy)
  }

  /** `copy_or_rename_section_in_file`, from the bytes read to the bytes committed. */
  method CopyOrRenameSection(contents: Bytes, oldName: Bytes, newName: Option<Bytes>, copy: bool) returns (r: Renamed)
    ensures r == Outcome(contents, oldName, newName, copy)
  {
    hide Step, LineEnd;
    var out, copystr: Bytes, remove, ret := [], [], false, 0;
    var rest, lineNr := contents, 0;
    while rest != []
      invariant Fold(Lines(rest), Pass(out, copystr, remove, ret), lineNr, oldName, newName, copy) ==
        Outcome(contents, oldName, newName, copy)
      decreases |rest|
    {
      ghost var before := rest;
      var line: Bytes;
      line, rest := NextLine(rest);
      assert Lines(before)[0] == line && Lines(before)[1..] == Lines(rest);
      lineNr := lineNr + 1;
      if |line| >= MAX_LINE_LEN { return LongLine(lineNr); }
      out, copystr, remove, ret := OneLinePass(out, copystr, remove, ret, line, oldName, newName, copy);
    }
    if copystr != [] {
      out := out + copystr;
    }
    return Done(out, ret);
  }

  lemma HeaderIs(line: Bytes, name: Bytes)
    ensures var i := FirstNonSpace(line);
      && (IsHeader(line) <==> i < |line| && line[i] == LBRACKET)
      && (Hit(line, name) ==> IsHeader(line))
      && (IsHeader(line) ==> var n := NameMatch(line[i..], name);
        (Hit(line, name) <==> n > 0) && (n > 0 ==> HeaderEnd(line, name) == i + n))
  {
    hide NameMatch, FirstNonSpace;
  }

  /** The body of that loop, for a line of acceptable length. */
  method OneLinePass(out0: Bytes, copystr0: Bytes, remove0: bool, ret0: nat, line: Bytes, oldName: Bytes,
      newName: Option<Bytes>, copy: bool)
    returns (out: Bytes, copystr: Bytes, remove: bool, ret: nat)
    ensures Pass(out, copystr, remove, ret) == Step(Pass(out0, copystr0, remove0, ret0), line, oldName, newName, copy)
  {
    hide W.SectionLine, NameMatch, FirstNonSpace, IsHeader, Hit, HeaderEnd;
    HeaderIs(line, oldName);
    out, copystr, remove, ret := out0, copystr0, remove0, ret0;
    var output := line;
    var isSection := false;
    var i := SkipBlanksOf(line);
    if i < |line| && line[i] == LBRACKET {
      isSection := true;
      if copystr != [] {
        out := out + copystr;
        copystr := [];
      }
      var offset := SectionNameMatch(line[i..], oldName);
      if offset > 0 {
        ret := ret + 1;
        match newName
        case None =>
          remove := true;
          return;
        case Some(name) =>
          var header := W.StoreCreateSection(name, |name|);
          assert name[..|name|] == name;
          if !copy {
            out := out + header;
            var tail := line[offset + i..];
            output := if tail == [] then tail else [TAB] + tail;
          } else {
            copystr := header;
          }
      }
      remove := false;
    }
    if remove { return; }
    if !isSection && copystr != [] {
      copystr := copystr + output;
    }
    out := out + output;
  }

  method SkipBlanksOf(line: Bytes) returns (i: nat)
    ensures i == FirstNonSpace(line)
  {
    i := 0;
    while i < |line| && IsSpace(line[i])
      invariant i <= |line| && forall k :: 0 <= k < i ==> IsSpace(line[k])
    {
      i := i + 1;
    }
    assert i <= FirstNonSpace(line);
  }

  // ---- which line an overlong one is ------------------------------------------------------

  predicate Short(ls: seq<Bytes>) { forall i :: 0 <= i < |ls| ==> |ls[i]| < MAX_LINE_LEN }

  /** The call refuses exactly the files with an overlong line, and names the first of them. */
  lemma {:induction false} RefusesLongLine(ls: seq<Bytes>, p: Pass, nr: nat, oldName: Bytes, newName: Option<Bytes>,
      copy: bool)
    ensures var r := Fold(ls, p, nr, oldName, newName, copy);
      if Short(ls) then r.Done?
      else
        && r.LongLine? && nr < r.lineNr <= nr + |ls|
        && |ls[r.lineNr - nr - 1]| >= MAX_LINE_LEN && Short(ls[..r.lineNr - nr - 1])
  {
    hide Step;
    if ls != [] && |ls[0]| < MAX_LINE_LEN {
      var tail := ls[1..];
      RefusesLongLine(tail, Step(p, ls[0], oldName, newName, copy), nr + 1, oldName, newName, copy);
      assert forall i :: 0 <= i < |tail| ==> tail[i] == ls[i + 1];
      if !Short(tail) {
        var n := Fold(ls, p, nr, oldName, newName, copy).lineNr - nr - 1;
        assert forall i :: 1 <= i < n ==> ls[..n][i] == tail[..n - 1][i - 1];
      }
    }
  }

  // ---- renaming ---------------------------------------------------------------------------

  /** The lines a renamed line turns into. */
  function Turned(line: Bytes, a: Bytes, b: Bytes): seq<Bytes> {
    if !Hit(line, a) then [line]
    else [W.SectionLine(b)] + if line[HeaderEnd(line, a)..] == [] then [] else [Indented(line[HeaderEnd(line, a)..])]
  }

  function TurnedAll(ls: seq<Bytes>, a: Bytes, b: Bytes): seq<Bytes> {
    if ls == [] then [] else Turned(ls[0], a, b) + TurnedAll(ls[1..], a, b)
  }

  function Hits(ls: seq<Bytes>, a: Bytes): nat {
    if ls == [] then 0 else (if Hit(ls[0], a) then 1 else 0) + Hits(ls[1..], a)
  }

  lemma RenameStep(p: Pass, line: Bytes, a: Bytes, b: Bytes)
    requires p.copystr == [] && !p.remove
    ensures Step(p, line, a, Some(b), false) ==
      Pass(p.out + Join(Turned(line, a, b)), [], false, p.hits + if Hit(line, a) then 1 else 0)
  {
    hide NameMatch, W.SectionLine, FirstNonSpace;
    if Hit(line, a) {
      var rest := line[HeaderEnd(line, a)..];
      JoinCons(W.SectionLine(b), if rest == [] then [] else [Indented(rest)]);
      JoinCons(Indented(rest), []);
      assert [Indented(rest)] + [] == [Indented(rest)];
      assert p.out + p.copystr == p.out;
      assert p.out + W.SectionLine(b) + Indented(rest) == p.out + (W.SectionLine(b) + Indented(rest));
    } else {
      JoinCons(line, []);
      assert [line] + [] == [line];
      assert p.out + p.copystr == p.out;
    }
  }

  lemma {:induction false} RenameFold(ls: seq<Bytes>, p: Pass, nr: nat, a: Bytes, b: Bytes)
    requires p.copystr == [] && !p.remove && Short(ls)
    ensures Fold(ls, p, nr, a, Some(b), false) == Done(p.out + Join(TurnedAll(ls, a, b)), p.hits + Hits(ls, a))
  {
    hide Step, Turned, Hit, Join;
    if ls == [] {
      NoLines();
      assert p.out + p.copystr == p.out + [];
    } else {
      RenameStep(p, ls[0], a, b);
      RenameFold(ls[1..], Step(p, ls[0], a, Some(b), false), nr + 1, a, b);
      JoinConcat(Turned(ls[0], a, b), TurnedAll(ls[1..], a, b));
      assert p.out + Join(Turned(ls[0], a, b)) + Join(TurnedAll(ls[1..], a, b)) ==
        p.out + (Join(Turned(ls[0], a, b)) + Join(TurnedAll(ls[1..], a, b)));
    }
  }

  /** A name that can be put into a header line and found again. */
  predicate Renamable(x: Bytes) { NUL !in x && LF !in x && SelfNamed(x) }

  lemma OwnString(x: Bytes)
    requires NUL !in x
    ensures CString(x) == x
  {
    CStringSpells(x, x);
  }

  lemma StartsHeader(l: Bytes)
    requires l != [] && l[0] == LBRACKET
    ensures IsHeader(l) && forall y :: HeaderEnd(l, y) == NameMatch(l, y)
  {
    hide NameMatch;
    assert FirstNonSpace(l) == 0 && l[0..] == l;
  }

  /** The line written for `x` carries the header of `x` and of no other section. */
  lemma OwnHeader(x: Bytes, y: Bytes)
    requires Renamable(x) && NUL !in y
    ensures HeaderEnd(W.SectionLine(x), y) == if y == x then |W.SectionLine(x)| else 0
    ensures Ended(W.SectionLine(x)) && IsHeader(W.SectionLine(x))
  {
    hide NameMatch, FirstNonSpace, HeaderEnd, IsHeader, W.SectionLine;
    HeaderMatch(x, y);
    OwnString(y);
    SectionLineEnds(x);
    StartsHeader(W.SectionLine(x));
  }

  lemma SectionLineEnds(x: Bytes)
    requires Renamable(x)
    ensures W.SectionLine(x) != [] && W.SectionLine(x)[0] == LBRACKET && Ended(W.SectionLine(x))
  {
    hide FirstDot, W.Escaped;
    W.NoLineEnds(x[if FirstDot(x) < |x| then FirstDot(x) + 1 else 0..]);
  }

  lemma TurnedLine(l: Bytes, a: Bytes, b: Bytes)
    requires OneLine(l) && Renamable(b)
    ensures Apart(Turned(l, a, b)) && Turned(l, a, b) != []
    ensures (Ended(l) ==> Ended(Turned(l, a, b)[|Turned(l, a, b)| - 1]))
  {
    hide HeaderEnd, W.SectionLine, SelfNamed;
    OwnHeader(b, b);
    if Hit(l, a) {
      var rest := l[HeaderEnd(l, a)..];
      var i := Indented(rest);
      if rest == [] {
        ApartCons(W.SectionLine(b), []);
        assert [W.SectionLine(b)] + [] == [W.SectionLine(b)];
      } else {
        assert OneLine(i) && (Ended(l) ==> Ended(i));
        ApartCons(i, []);
        assert [i] + [] == [i];
        ApartCons(W.SectionLine(b), [i]);
      }
    } else {
      ApartCons(l, []);
      assert [l] + [] == [l];
    }
  }

  lemma {:induction false} TurnedApart(ls: seq<Bytes>, a: Bytes, b: Bytes)
    requires Apart(ls) && Renamable(b)
    ensures Apart(TurnedAll(ls, a, b))
  {
    hide Turned, OneLine, Ended, Renamable;
    if ls != [] {
      TurnedApart(ls[1..], a, b);
      TurnedLine(ls[0], a, b);
      ApartConcat(Turned(ls[0], a, b), TurnedAll(ls[1..], a, b));
    }
  }

  lemma ShortConcat(a: seq<Bytes>, b: seq<Bytes>)
    ensures Short(a + b) <==> Short(a) && Short(b)
  {
    if Short(a + b) {
      assert forall i :: 0 <= i < |a| ==> (a + b)[i] == a[i];
      assert forall i :: 0 <= i < |b| ==> (a + b)[|a| + i] == b[i];
    }
  }

  lemma ShortLine(l: Bytes, a: Bytes, b: Bytes)
    requires |l| < MAX_LINE_LEN
    ensures Short(Turned(l, a, b)) <==> (Hit(l, a) ==> |W.SectionLine(b)| < MAX_LINE_LEN)
  {
    hide NameMatch, FirstNonSpace, W.SectionLine;
    var t := Turned(l, a, b);
    if Hit(l, a) { assert t[0] == W.SectionLine(b); }
  }

  lemma {:induction false} ShortTurned(ls: seq<Bytes>, a: Bytes, b: Bytes)
    requires Short(ls)
    ensures Short(TurnedAll(ls, a, b)) <==> (Hits(ls, a) > 0 ==> |W.SectionLine(b)| < MAX_LINE_LEN)
  {
    hide Turned, W.SectionLine, Hit;
    if ls != [] {
      ShortTurned(ls[1..], a, b);
      ShortLine(ls[0], a, b);
      ShortConcat(Turned(ls[0], a, b), TurnedAll(ls[1..], a, b));
    }
  }

  lemma {:induction false} TurnedConcat(xs: seq<Bytes>, ys: seq<Bytes>, a: Bytes, b: Bytes)
    ensures TurnedAll(xs + ys, a, b) == TurnedAll(xs, a, b) + TurnedAll(ys, a, b)
    ensures Hits(xs + ys, a) == Hits(xs, a) + Hits(ys, a)
  {
    hide Turned, Hit;
    if xs == [] {
      assert xs + ys == ys;
    } else {
      TurnedConcat(xs[1..], ys, a, b);
      assert (xs + ys)[1..] == xs[1..] + ys && (xs + ys)[0] == xs[0];
    }
  }

  /** A line, renamed and renamed back. */
  function Back(l: Bytes, a: Bytes, b: Bytes): seq<Bytes> { TurnedAll(Turned(l, a, b), b, a) }

  /** What makes a line come back as it was. */
  predicate ComesBack(l: Bytes, a: Bytes, b: Bytes) {
    (Hit(l, a) ==> l == W.SectionLine(a)) && (a != b ==> !Hit(l, b))
  }

  lemma One(l: Bytes, a: Bytes, b: Bytes)
    ensures TurnedAll([l], a, b) == Turned(l, a, b) && Hits([l], a) == if Hit(l, a) then 1 else 0
  {
    hide Turned, Hit;
    assert [l][1..] == [];
    assert Turned(l, a, b) + [] == Turned(l, a, b);
  }

  lemma TurnedFirst(l: Bytes, a: Bytes, b: Bytes)
    requires Hit(l, a)
    ensures Turned(l, a, b) != []
    ensures Turned(l, a, b) == [W.SectionLine(b)] + Turned(l, a, b)[1..]
    ensures Turned(l, a, b)[1..] == [] <==> HeaderEnd(l, a) == |l|
  {
    hide HeaderEnd, W.SectionLine;
  }

  lemma NotHit(l: Bytes, a: Bytes, b: Bytes)
    requires !Hit(l, a)
    ensures Turned(l, a, b) == [l]
  {
  }

  lemma {:induction false} Grows(ls: seq<Bytes>, a: Bytes, b: Bytes)
    ensures |TurnedAll(ls, a, b)| >= |ls|
  {
    hide HeaderEnd, W.SectionLine;
    if ls != [] { Grows(ls[1..], a, b); }
  }

  lemma BackLine(l: Bytes, a: Bytes, b: Bytes)
    requires Renamable(a) && Renamable(b)
    ensures Hits(Turned(l, a, b), b) >= Hits([l], a) && |Back(l, a, b)| >= 1
    ensures Back(l, a, b) == [l] && Hits(Turned(l, a, b), b) == Hits([l], a) <==> ComesBack(l, a, b)
  {
    hide Hits, Turned, TurnedAll, HeaderEnd, W.SectionLine, SelfNamed;
    One(l, a, b);
    One(l, b, a);
    Grows(Turned(l, a, b), b, a);
    if Hit(l, a) {
      var ra, rb := W.SectionLine(a), W.SectionLine(b);
      OwnHeader(a, b);
      OwnHeader(a, a);
      OwnHeader(b, b);
      TurnedFirst(l, a, b);
      var rest := Turned(l, a, b)[1..];
      TurnedConcat([rb], rest, b, a);
      One(rb, b, a);
      TurnedFirst(rb, b, a);
      Grows(rest, b, a);
      assert Turned(rb, b, a) == [ra];
      if rest == [] {
        NoneTurned(b, a);
        assert Back(l, a, b) == [ra];
      }
    } else {
      NotHit(l, a, b);
      if !Hit(l, b) { NotHit(l, b, a); }
    }
  }

  lemma NoneTurned(a: Bytes, b: Bytes)
    ensures TurnedAll([], a, b) == [] && Hits([], a) == 0
  {
  }

  predicate AllComeBack(ls: seq<Bytes>, a: Bytes, b: Bytes) { forall i :: 0 <= i < |ls| ==> ComesBack(ls[i], a, b) }

  lemma AllNext(ls: seq<Bytes>, a: Bytes, b: Bytes)
    requires ls != []
    ensures AllComeBack(ls, a, b) <==> ComesBack(ls[0], a, b) && AllComeBack(ls[1..], a, b)
  {
    hide ComesBack;
    if ComesBack(ls[0], a, b) && AllComeBack(ls[1..], a, b) {
      forall i | 0 <= i < |ls|
        ensures ComesBack(ls[i], a, b)
      {
        if i > 0 { assert ls[i] == ls[1..][i - 1]; }
      }
    }
  }

  lemma BackNext(ls: seq<Bytes>, a: Bytes, b: Bytes)
    requires ls != []
    ensures TurnedAll(TurnedAll(ls, a, b), b, a) == Back(ls[0], a, b) + TurnedAll(TurnedAll(ls[1..], a, b), b, a)
    ensures Hits(TurnedAll(ls, a, b), b) == Hits(Turned(ls[0], a, b), b) + Hits(TurnedAll(ls[1..], a, b), b)
    ensures Hits(ls, a) == Hits([ls[0]], a) + Hits(ls[1..], a)
  {
    hide Turned, Hit, Hits;
    TurnedConcat(Turned(ls[0], a, b), TurnedAll(ls[1..], a, b), b, a);
    TurnedConcat([ls[0]], ls[1..], a, b);
    assert [ls[0]] + ls[1..] == ls;
  }

  lemma {:induction false} BackAll(ls: seq<Bytes>, a: Bytes, b: Bytes)
    requires Renamable(a) && Renamable(b)
    ensures Hits(TurnedAll(ls, a, b), b) >= Hits(ls, a)
    ensures TurnedAll(TurnedAll(ls, a, b), b, a) == ls && Hits(TurnedAll(ls, a, b), b) == Hits(ls, a) <==>
      AllComeBack(ls, a, b)
  {
    hide Hits, Turned, TurnedAll, ComesBack, Renamable, Back, AllComeBack;
    if ls == [] {
      NoneTurned(a, b);
      NoneTurned(b, a);
      NoComeBack(a, b);
    } else {
      var tail := TurnedAll(TurnedAll(ls[1..], a, b), b, a);
      BackAll(ls[1..], a, b);
      BackLine(ls[0], a, b);
      BackNext(ls, a, b);
      AllNext(ls, a, b);
      Grows(ls[1..], a, b);
      Grows(TurnedAll(ls[1..], a, b), b, a);
      SplitsAlike(Back(ls[0], a, b), tail, ls);
    }
  }

  lemma NoComeBack(a: Bytes, b: Bytes)
    ensures AllComeBack([], a, b)
  {
  }

  lemma SplitsAlike(x: seq<Bytes>, y: seq<Bytes>, ls: seq<Bytes>)
    requires ls != [] && |x| >= 1 && |y| >= |ls| - 1
    ensures x + y == ls <==> x == [ls[0]] && y == ls[1..]
  {
    if x + y == ls {
      assert (x + y)[0] == x[0] && (x + y)[1..] == y;
    }
  }

  /** Renaming `a` to `b` and back gives the file as it was, and the same count, exactly when no line but the
   canonical one carries the header of `a`, none that of `b`, and the new header is not itself too long a line. */
  lemma RenameBack(text: Bytes, a: Bytes, b: Bytes)
    requires Renamable(a) && Renamable(b) && Outcome(text, a, Some(b), false).Done?
    ensures var once := Outcome(text, a, Some(b), false);
      Outcome(once.out, b, Some(a), false) == Done(text, once.hits) <==>
      AllComeBack(Lines(text), a, b) && (once.hits > 0 ==> |W.SectionLine(b)| < MAX_LINE_LEN)
  {
    hide *;
    var ls := Lines(text);
    JoinLines(text);
    RenameOutcome(text, a, b);
    var turned := TurnedAll(ls, a, b);
    var out := Join(turned);
    TurnedApart(ls, a, b);
    LinesJoin(turned);
    ShortTurned(ls, a, b);
    RenameOutcome(out, b, a);
    BackAll(ls, a, b);
    TurnedApart(turned, b, a);
    LinesJoin(TurnedAll(turned, b, a));
    JoinNone();
  }

  lemma JoinNone()
    ensures Join([]) == [] && Lines([]) == []
  {
  }

  lemma RenameOutcome(text: Bytes, a: Bytes, b: Bytes)
    ensures var r := Outcome(text, a, Some(b), false);
      if Short(Lines(text)) then r == Done(Join(TurnedAll(Lines(text), a, b)), Hits(Lines(text), a)) else r.LongLine?
  {
    hide Fold, Join, TurnedAll, Hits, Short;
    var p := Pass([], [], false, 0);
    RefusesLongLine(Lines(text), p, 0, a, Some(b), false);
    if Short(Lines(text)) {
      RenameFold(Lines(text), p, 0, a, b);
      assert [] + Join(TurnedAll(Lines(text), a, b)) == Join(TurnedAll(Lines(text), a, b));
    }
  }

  // ---- removing ---------------------------------------------------------------------------

  /** Line `k` stands in a section whose header is one of `a`, the header itself included. */
  predicate Under(ls: seq<Bytes>, k: nat, a: Bytes)
    requires k < |ls|
  {
    if IsHeader(ls[k]) then Hit(ls[k], a) else k > 0 && Under(ls, k - 1, a)
  }

  /** The lines outside the sections of `a`; `within` says whether the first line starts inside one. */
  function Outside(ls: seq<Bytes>, within: bool, a: Bytes): seq<Bytes> {
    if ls == [] then []
    else
      var now := if IsHeader(ls[0]) then Hit(ls[0], a) else within;
      (if now then [] else [ls[0]]) + Outside(ls[1..], now, a)
  }

  /** Whether the line after `ls` starts inside a section of `a`. */
  function Within(ls: seq<Bytes>, within: bool, a: Bytes): bool {
    if ls == [] then within else Within(ls[1..], if IsHeader(ls[0]) then Hit(ls[0], a) else within, a)
  }

  lemma RemoveStep(p: Pass, line: Bytes, a: Bytes)
    requires p.copystr == []
    ensures var now := if IsHeader(line) then Hit(line, a) else p.remove;
      Step(p, line, a, None, false) ==
      Pass(if now then p.out else p.out + line, [], now, p.hits + if Hit(line, a) then 1 else 0)
  {
    hide NameMatch, FirstNonSpace;
    assert p.out + p.copystr == p.out;
  }

  lemma {:induction false} RemoveFold(ls: seq<Bytes>, p: Pass, nr: nat, a: Bytes)
    requires p.copystr == [] && Short(ls)
    ensures Fold(ls, p, nr, a, None, false) == Done(p.out + Join(Outside(ls, p.remove, a)), p.hits + Hits(ls, a))
  {
    hide Step, Hit, Join, IsHeader;
    if ls == [] {
      NoLines();
      assert p.out + p.copystr == p.out + [];
    } else {
      RemoveStep(p, ls[0], a);
      var q := Step(p, ls[0], a, None, false);
      RemoveFold(ls[1..], q, nr + 1, a);
      OutsideNext(ls, p.remove, a);
      assert p.out + ls[0] + Join(Outside(ls[1..], q.remove, a)) ==
        p.out + (ls[0] + Join(Outside(ls[1..], q.remove, a)));
    }
  }

  lemma OutsideNext(ls: seq<Bytes>, within: bool, a: Bytes)
    requires ls != []
    ensures var now := if IsHeader(ls[0]) then Hit(ls[0], a) else within;
      Join(Outside(ls, within, a)) == (if now then [] else ls[0]) + Join(Outside(ls[1..], now, a))
  {
    hide Hit, Join, IsHeader;
    var now := if IsHeader(ls[0]) then Hit(ls[0], a) else within;
    var rest := Outside(ls[1..], now, a);
    JoinCons(ls[0], rest);
    assert [] + rest == rest;
    assert [] + Join(rest) == Join(rest);
  }

  lemma RemoveOutcome(text: Bytes, a: Bytes)
    ensures var r := Outcome(text, a, None, false);
      if Short(Lines(text)) then r == Done(Join(Outside(Lines(text), false, a)), Hits(Lines(text), a)) else r.LongLine?
  {
    hide Fold, Join, Outside, Hits, Short;
    var p := Pass([], [], false, 0);
    RefusesLongLine(Lines(text), p, 0, a, None, false);
    if Short(Lines(text)) {
      RemoveFold(Lines(text), p, 0, a);
      assert [] + Join(Outside(Lines(text), false, a)) == Join(Outside(Lines(text), false, a));
    }
  }

  /** Whether a line lies within, when `within` was so for the one before. */
  function WithinNow(l: Bytes, within: bool, a: Bytes): bool { if IsHeader(l) then Hit(l, a) else within }

  lemma OutsideCons(l: Bytes, ls: seq<Bytes>, within: bool, a: Bytes)
    ensures Outside([l] + ls, within, a) ==
      (if WithinNow(l, within, a) then [] else [l]) + Outside(ls, WithinNow(l, within, a), a)
    ensures Within([l] + ls, within, a) == Within(ls, WithinNow(l, within, a), a)
    ensures Outside([], within, a) == [] && Within([], within, a) == within
  {
    hide Hit, IsHeader;
    assert ([l] + ls)[1..] == ls;
  }

  lemma {:induction false} OutsideConcat(xs: seq<Bytes>, ys: seq<Bytes>, within: bool, a: Bytes)
    ensures Outside(xs + ys, within, a) == Outside(xs, within, a) + Outside(ys, Within(xs, within, a), a)
  {
    hide *;
    if xs == [] {
      OutsideCons([], [], within, a);
      assert xs + ys == ys && [] + Outside(ys, within, a) == Outside(ys, within, a);
    } else {
      var now := WithinNow(xs[0], within, a);
      OutsideConcat(xs[1..], ys, now, a);
      OutsideCons(xs[0], xs[1..], within, a);
      OutsideCons(xs[0], xs[1..] + ys, within, a);
      assert xs == [xs[0]] + xs[1..] && xs + ys == [xs[0]] + (xs[1..] + ys);
    }
  }

  lemma {:induction false} WithinIsUnder(ls: seq<Bytes>, k: nat, a: Bytes)
    requires k < |ls|
    ensures Within(ls[..k + 1], false, a) == Under(ls, k, a)
  {
    hide Hit, IsHeader;
    assert ls[..k + 1] == ls[..k] + [ls[k]];
    WithinConcat(ls[..k], [ls[k]], false, a);
    var one: seq<Bytes> := [ls[k]];
    assert one[1..] == [];
    if k > 0 { WithinIsUnder(ls, k - 1, a); }
  }

  lemma {:induction false} WithinConcat(xs: seq<Bytes>, ys: seq<Bytes>, within: bool, a: Bytes)
    ensures Within(xs + ys, within, a) == Within(ys, Within(xs, within, a), a)
  {
    hide Hit, IsHeader;
    if xs == [] {
      assert xs + ys == ys;
    } else {
      WithinConcat(xs[1..], ys, if IsHeader(xs[0]) then Hit(xs[0], a) else within, a);
      assert (xs + ys)[1..] == xs[1..] + ys && (xs + ys)[0] == xs[0];
    }
  }

  /** Line `k` is dropped exactly when it stands in a section of `a`. */
  lemma RemovesSections(ls: seq<Bytes>, k: nat, a: Bytes)
    requires k < |ls|
    ensures Outside(ls[..k + 1], false, a) == Outside(ls[..k], false, a) + if Under(ls, k, a) then [] else [ls[k]]
  {
    hide Hit, IsHeader;
    assert ls[..k + 1] == ls[..k] + [ls[k]];
    OutsideConcat(ls[..k], [ls[k]], false, a);
    WithinIsUnder(ls, k, a);
    WithinConcat(ls[..k], [ls[k]], false, a);
    var one: seq<Bytes> := [ls[k]];
    assert one[1..] == [];
  }

  lemma {:induction false} OutsideKeeps(ls: seq<Bytes>, within: bool, a: Bytes)
    requires Apart(ls)
    ensures Apart(Outside(ls, within, a)) && (Short(ls) ==> Short(Outside(ls, within, a)))
    ensures Hits(Outside(ls, within, a), a) == 0
    ensures Outside(ls, within, a) != [] ==> ls != []
  {
    hide OneLine, Ended, HeaderEnd, IsHeader;
    if ls != [] {
      var now := if IsHeader(ls[0]) then Hit(ls[0], a) else within;
      var rest := Outside(ls[1..], now, a);
      OutsideKeeps(ls[1..], now, a);
      HitIsHeader(ls[0], a);
      if now {
        assert Outside(ls, within, a) == rest;
      } else {
        ApartCons(ls[0], rest);
        assert ([ls[0]] + rest)[1..] == rest;
      }
      assert Short(ls) ==> Short(ls[1..]);
    }
  }

  lemma HitIsHeader(l: Bytes, a: Bytes)
    ensures Hit(l, a) ==> IsHeader(l)
  {
  }

  lemma {:induction false} OutsideNone(ls: seq<Bytes>, a: Bytes)
    requires Hits(ls, a) == 0
    ensures Outside(ls, false, a) == ls
  {
    hide HeaderEnd, IsHeader;
    if ls != [] { OutsideNone(ls[1..], a); }
  }

  /** A removed section is gone: removing it again finds nothing and leaves the bytes alone. */
  lemma RemoveTwice(text: Bytes, a: Bytes)
    requires Outcome(text, a, None, false).Done?
    ensures Outcome(Outcome(text, a, None, false).out, a, None, false) == Done(Outcome(text, a, None, false).out, 0)
  {
    hide *;
    var ls := Lines(text);
    JoinLines(text);
    RemoveOutcome(text, a);
    var kept := Outside(ls, false, a);
    OutsideKeeps(ls, false, a);
    LinesJoin(kept);
    RemoveOutcome(Join(kept), a);
    OutsideNone(kept, a);
  }

  // ---- copying ----------------------------------------------------------------------------

  /** The copy being gathered, after one more line. */
  function NextPend(l: Bytes, pend: seq<Bytes>, a: Bytes, b: Bytes): seq<Bytes> {
    if IsHeader(l) then (if Hit(l, a) then [W.SectionLine(b)] else []) else if pend == [] then [] else pend + [l]
  }

  /** What is written with a line: a header closes the copy before it. */
  function Sent(l: Bytes, pend: seq<Bytes>): seq<Bytes> { if IsHeader(l) then pend + [l] else [l] }

  /**
   The lines written up to the end of `ls`, less the copy still being gathered; `pend` is what was gathered before.
   */
  function Body(ls: seq<Bytes>, pend: seq<Bytes>, a: Bytes, b: Bytes): seq<Bytes> {
    if ls == [] then [] else Sent(ls[0], pend) + Body(ls[1..], NextPend(ls[0], pend, a, b), a, b)
  }

  /** The copy being gathered at the end of `ls`. */
  function Pending(ls: seq<Bytes>, pend: seq<Bytes>, a: Bytes, b: Bytes): seq<Bytes> {
    if ls == [] then pend else Pending(ls[1..], NextPend(ls[0], pend, a, b), a, b)
  }

  lemma BodyNext(ls: seq<Bytes>, pend: seq<Bytes>, a: Bytes, b: Bytes)
    ensures ls == [] ==> Body(ls, pend, a, b) == [] && Pending(ls, pend, a, b) == pend
    ensures ls != [] ==> Body(ls, pend, a, b) == Sent(ls[0], pend) + Body(ls[1..], NextPend(ls[0], pend, a, b), a, b)
    ensures ls != [] ==> Pending(ls, pend, a, b) == Pending(ls[1..], NextPend(ls[0], pend, a, b), a, b)
  {
    hide Sent, NextPend;
  }

  lemma BodyCons(l: Bytes, ls: seq<Bytes>, pend: seq<Bytes>, a: Bytes, b: Bytes)
    ensures Body([l] + ls, pend, a, b) == Sent(l, pend) + Body(ls, NextPend(l, pend, a, b), a, b)
    ensures Pending([l] + ls, pend, a, b) == Pending(ls, NextPend(l, pend, a, b), a, b)
  {
    hide *;
    BodyNext([l] + ls, pend, a, b);
    assert ([l] + ls)[0] == l && ([l] + ls)[1..] == ls;
  }

  lemma NextPendIs(l: Bytes, pend: seq<Bytes>, a: Bytes, b: Bytes)
    ensures NextPend(l, pend, a, b) ==
      if IsHeader(l) then (if Hit(l, a) then [W.SectionLine(b)] else []) else if pend == [] then [] else pend + [l]
    ensures Sent(l, pend) == if IsHeader(l) then pend + [l] else [l]
  {
    hide IsHeader, Hit, W.SectionLine;
  }

  /** A copy: its header, then lines that are none. */
  predicate IsCopy(pend: seq<Bytes>, b: Bytes) {
    pend == [] || (pend[0] == W.SectionLine(b) && forall i :: 1 <= i < |pend| ==> !IsHeader(pend[i]))
  }

  lemma CopyStep(p: Pass, line: Bytes, pend: seq<Bytes>, a: Bytes, b: Bytes)
    requires !p.remove && p.copystr == Join(pend) && IsCopy(pend, b) && Renamable(b)
    ensures Step(p, line, a, Some(b), true) ==
      Pass(p.out + Join(Sent(line, pend)), Join(NextPend(line, pend, a, b)), false,
        p.hits + if Hit(line, a) then 1 else 0)
  {
    hide HeaderEnd, IsHeader, Join, W.SectionLine, Renamable;
    JoinConcat(pend, [line]);
    JoinOne(line);
    JoinOne(W.SectionLine(b));
    NoLines();
    HitIsHeader(line, a);
    JoinCopy(pend, b);
    assert p.out + Join(pend) + line == p.out + (Join(pend) + line);
  }

  lemma JoinOne(l: Bytes)
    ensures Join([l]) == l
  {
    JoinCons(l, []);
    assert [l] + [] == [l];
    assert l + [] == l;
  }

  lemma JoinCopy(pend: seq<Bytes>, b: Bytes)
    requires IsCopy(pend, b) && Renamable(b)
    ensures Join(pend) == [] <==> pend == []
  {
    hide W.SectionLine;
    if pend != [] { SectionLineEnds(b); }
  }

  lemma FoldNext(ls: seq<Bytes>, p: Pass, nr: nat, a: Bytes, newName: Option<Bytes>, copy: bool)
    requires Short(ls)
    ensures ls == [] ==> Fold(ls, p, nr, a, newName, copy) == Done(p.out + p.copystr, p.hits)
    ensures ls != [] ==> Short(ls[1..])
    ensures ls != [] ==>
      Fold(ls, p, nr, a, newName, copy) == Fold(ls[1..], Step(p, ls[0], a, newName, copy), nr + 1, a, newName, copy)
  {
    hide Step;
  }

  lemma {:induction false} CopyFold(ls: seq<Bytes>, p: Pass, pend: seq<Bytes>, nr: nat, a: Bytes, b: Bytes)
    requires !p.remove && p.copystr == Join(pend) && IsCopy(pend, b) && Renamable(b) && Short(ls)
    ensures Fold(ls, p, nr, a, Some(b), true) ==
      Done(p.out + Join(Body(ls, pend, a, b) + Pending(ls, pend, a, b)), p.hits + Hits(ls, a))
    decreases |ls|
  {
    hide *;
    BodyNext(ls, pend, a, b);
    FoldNext(ls, p, nr, a, Some(b), true);
    if ls == [] {
      NothingOutside(a);
      assert [] + pend == pend;
    } else {
      var l := ls[0];
      CopyStep(p, l, pend, a, b);
      CopyNext(l, pend, a, b);
      HitsNext(ls, a);
      var next, head := NextPend(l, pend, a, b), Sent(l, pend);
      CopyFold(ls[1..], Step(p, l, a, Some(b), true), next, nr + 1, a, b);
      var body, last := Body(ls[1..], next, a, b), Pending(ls[1..], next, a, b);
      JoinConcat(head, body + last);
      assert head + body + last == head + (body + last);
      assert p.out + Join(head) + Join(body + last) == p.out + (Join(head) + Join(body + last));
    }
  }

  lemma CopyNext(l: Bytes, pend: seq<Bytes>, a: Bytes, b: Bytes)
    requires IsCopy(pend, b)
    ensures IsCopy(NextPend(l, pend, a, b), b)
  {
    hide HeaderEnd, IsHeader, W.SectionLine;
  }

  lemma CopyOutcome(text: Bytes, a: Bytes, b: Bytes)
    requires Renamable(b)
    ensures var r, ls := Outcome(text, a, Some(b), true), Lines(text);
      if Short(ls) then r == Done(Join(Body(ls, [], a, b) + Pending(ls, [], a, b)), Hits(ls, a)) else r.LongLine?
  {
    hide Fold, Join, Body, Pending, Hits, Short, Renamable;
    var p, ls := Pass([], [], false, 0), Lines(text);
    RefusesLongLine(ls, p, 0, a, Some(b), true);
    if Short(ls) {
      NoLines();
      CopyFold(ls, p, [], 0, a, b);
      var j := Join(Body(ls, [], a, b) + Pending(ls, [], a, b));
      assert [] + j == j;
    }
  }

  lemma NoHits(ls: seq<Bytes>, a: Bytes)
    requires Hits(ls, a) == 0 && ls != []
    ensures !Hit(ls[0], a) && Hits(ls[1..], a) == 0
  {
  }

  lemma {:induction false} CopyPasses(pend: seq<Bytes>, b: Bytes)
    requires IsCopy(pend, b) && Renamable(b)
    ensures Outside(pend, false, b) == [] && Within(pend, false, b) == (pend != [])
    ensures Hits(pend, b) == if pend == [] then 0 else 1
  {
    hide W.SectionLine, HeaderEnd, IsHeader, SelfNamed;
    if pend != [] {
      OwnHeader(b, b);
      HeadersNone(pend[1..], true, b);
    }
  }

  lemma {:induction false} HeadersNone(ls: seq<Bytes>, within: bool, b: Bytes)
    requires forall i :: 0 <= i < |ls| ==> !IsHeader(ls[i])
    ensures Outside(ls, within, b) == (if within then [] else ls) && Within(ls, within, b) == within && Hits(ls, b) == 0
  {
    hide HeaderEnd, IsHeader;
    if ls != [] {
      HitIsHeader(ls[0], b);
      HeadersNone(ls[1..], within, b);
    }
  }

  /** Taking the sections of `b` out of a body written for `ls` leaves `ls`. */
  lemma {:induction false} BodyOutside(ls: seq<Bytes>, pend: seq<Bytes>, a: Bytes, b: Bytes)
    requires IsCopy(pend, b) && Renamable(b) && Hits(ls, b) == 0
    ensures Outside(Body(ls, pend, a, b), false, b) == ls && !Within(Body(ls, pend, a, b), false, b)
    ensures IsCopy(Pending(ls, pend, a, b), b)
    ensures Hits(Body(ls, pend, a, b), b) + Hits(Pending(ls, pend, a, b), b) == Hits(ls, a) + Hits(pend, b)
    decreases |ls|
  {
    hide *;
    BodyNext(ls, pend, a, b);
    if ls == [] {
      NothingOutside(b);
      NothingOutside(a);
    } else {
      var l := ls[0];
      var next := NextPend(l, pend, a, b);
      var rest := Body(ls[1..], next, a, b);
      NoHits(ls, b);
      CopyNext(l, pend, a, b);
      BodyOutside(ls[1..], next, a, b);
      HeadOutside(l, pend, rest, ls[1..], b);
      assert [l] + ls[1..] == ls;
      HitsCopied(l, pend, a, b);
      HitsNext(ls, a);
    }
  }

  lemma NothingOutside(b: Bytes)
    ensures Outside([], false, b) == [] && !Within([], false, b) && Hits([], b) == 0
  {
  }

  lemma HitsNext(ls: seq<Bytes>, a: Bytes)
    requires ls != []
    ensures Hits(ls, a) == (if Hit(ls[0], a) then 1 else 0) + Hits(ls[1..], a)
  {
  }

  lemma HitsCopied(l: Bytes, pend: seq<Bytes>, a: Bytes, b: Bytes)
    requires IsCopy(pend, b) && Renamable(b)
    ensures (if IsHeader(l) then Hits(pend, b) else 0) + Hits(NextPend(l, pend, a, b), b) ==
      (if Hit(l, a) then 1 else 0) + Hits(pend, b)
  {
    hide *;
    CopyNext(l, pend, a, b);
    CopyPasses(NextPend(l, pend, a, b), b);
    CopyPasses(pend, b);
    NextPendIs(l, pend, a, b);
    HitIsHeader(l, a);
  }

  lemma HeadOutside(l: Bytes, pend: seq<Bytes>, rest: seq<Bytes>, ls: seq<Bytes>, b: Bytes)
    requires IsCopy(pend, b) && Renamable(b) && !Hit(l, b) && Outside(rest, false, b) == ls && !Within(rest, false, b)
    ensures var head := Sent(l, pend);
      && Outside(head + rest, false, b) == [l] + ls && !Within(head + rest, false, b)
      && Hits(head + rest, b) == Hits(rest, b) + if IsHeader(l) then Hits(pend, b) else 0
  {
    hide *;
    NextPendIs(l, pend, b, b);
    OneOutside(l, pend != [], b);
    OneOutside(l, false, b);
    if IsHeader(l) {
      CopyPasses(pend, b);
      OutsideConcat(pend, [l], false, b);
      WithinConcat(pend, [l], false, b);
      TurnedConcat(pend, [l], b, b);
      FrontOutside(pend + [l], l, rest, ls, b);
    } else {
      FrontOutside([l], l, rest, ls, b);
    }
  }

  lemma FrontOutside(head: seq<Bytes>, l: Bytes, rest: seq<Bytes>, ls: seq<Bytes>, b: Bytes)
    requires Outside(head, false, b) == [l] && !Within(head, false, b)
    requires Outside(rest, false, b) == ls && !Within(rest, false, b)
    ensures Outside(head + rest, false, b) == [l] + ls && !Within(head + rest, false, b)
    ensures Hits(head + rest, b) == Hits(head, b) + Hits(rest, b)
  {
    hide *;
    OutsideConcat(head, rest, false, b);
    WithinConcat(head, rest, false, b);
    TurnedConcat(head, rest, b, b);
  }

  lemma OneOutside(l: Bytes, within: bool, b: Bytes)
    ensures !Hit(l, b) && (IsHeader(l) || !within) ==>
      Outside([l], within, b) == [l] && !Within([l], within, b) && Hits([l], b) == 0
    ensures Hit(l, b) ==> Outside([l], within, b) == [] && Within([l], within, b)
  {
    hide HeaderEnd, IsHeader;
    HitIsHeader(l, b);
    var one: seq<Bytes> := [l];
    assert one[1..] == [];
  }

  lemma {:induction false} PendingWithin(ls: seq<Bytes>, pend: seq<Bytes>, a: Bytes, b: Bytes)
    ensures Pending(ls, pend, a, b) != [] <==> Within(ls, pend != [], a)
    decreases |ls|
  {
    hide W.SectionLine, HeaderEnd, IsHeader;
    if ls != [] {
      HitIsHeader(ls[0], a);
      PendingWithin(ls[1..], NextPend(ls[0], pend, a, b), a, b);
    }
  }

  predicate AllEnded(ls: seq<Bytes>) { forall i :: 0 <= i < |ls| ==> Ended(ls[i]) }

  lemma {:induction false} EndedApart(ls: seq<Bytes>)
    requires AllEnded(ls)
    ensures Apart(ls)
  {
    if ls != [] { EndedApart(ls[1..]); }
  }

  lemma {:induction false} ApartEnded(ls: seq<Bytes>)
    requires Apart(ls)
    ensures forall i :: 0 <= i < |ls| - 1 ==> Ended(ls[i])
    ensures ls != [] ==> OneLine(ls[|ls| - 1])
  {
    hide OneLine;
    if ls != [] {
      ApartEnded(ls[1..]);
      assert forall i :: 1 <= i < |ls| - 1 ==> ls[i] == ls[1..][i - 1];
    }
  }

  lemma {:induction false} CopyEnded(ls: seq<Bytes>, pend: seq<Bytes>, a: Bytes, b: Bytes)
    requires AllEnded(ls) && AllEnded(pend) && Renamable(b)
    ensures AllEnded(Body(ls, pend, a, b)) && AllEnded(Pending(ls, pend, a, b))
    decreases |ls|
  {
    hide W.SectionLine, Ended, HeaderEnd, IsHeader, Renamable;
    if ls != [] {
      OwnHeader(b, []);
      HitIsHeader(ls[0], a);
      CopyEnded(ls[1..], NextPend(ls[0], pend, a, b), a, b);
    }
  }

  lemma {:induction false} CopyShort(ls: seq<Bytes>, pend: seq<Bytes>, a: Bytes, b: Bytes)
    requires Short(ls)
    ensures Short(Body(ls, pend, a, b) + Pending(ls, pend, a, b)) <==>
      Short(pend) && (Hits(ls, a) > 0 ==> |W.SectionLine(b)| < MAX_LINE_LEN)
    decreases |ls|
  {
    hide *;
    BodyNext(ls, pend, a, b);
    if ls == [] {
      NothingOutside(a);
      assert [] + pend == pend;
    } else {
      var l := ls[0];
      var next, head := NextPend(l, pend, a, b), Sent(l, pend);
      ShortNext(ls);
      CopyShort(ls[1..], next, a, b);
      var body, last := Body(ls[1..], next, a, b), Pending(ls[1..], next, a, b);
      assert head + body + last == head + (body + last);
      ShortConcat(head, body + last);
      ShortCopied(l, pend, a, b);
      HitsNext(ls, a);
    }
  }

  lemma ShortCopied(l: Bytes, pend: seq<Bytes>, a: Bytes, b: Bytes)
    requires |l| < MAX_LINE_LEN
    ensures Short(Sent(l, pend)) && Short(NextPend(l, pend, a, b)) <==>
      Short(pend) && (Hit(l, a) ==> |W.SectionLine(b)| < MAX_LINE_LEN)
  {
    hide *;
    NextPendIs(l, pend, a, b);
    HitIsHeader(l, a);
    ShortConcat(pend, [l]);
    ShortOne(l);
    ShortOne(W.SectionLine(b));
    ShortNone();
  }

  lemma ShortNone()
    ensures Short([])
  {
  }

  lemma ShortOne(l: Bytes)
    ensures Short([l]) <==> |l| < MAX_LINE_LEN
  {
    assert [l][0] == l;
  }

  lemma ShortNext(ls: seq<Bytes>)
    requires ls != [] && Short(ls)
    ensures |ls[0]| < MAX_LINE_LEN && Short(ls[1..])
  {
  }

  /** The copy begins a line of its own: the file is not left, unterminated, inside a section of `a`. */
  predicate CopyApart(ls: seq<Bytes>, a: Bytes) {
    ls == [] || Ended(ls[|ls| - 1]) || !Within(ls, false, a)
  }

  /** What is written before the last line `u` of `ls + [u]`. */
  function Front(ls: seq<Bytes>, u: Bytes, pend: seq<Bytes>, a: Bytes, b: Bytes): seq<Bytes> {
    Body(ls, pend, a, b) + if IsHeader(u) then Pending(ls, pend, a, b) else []
  }

  lemma {:induction false} BodySnoc(ls: seq<Bytes>, u: Bytes, pend: seq<Bytes>, a: Bytes, b: Bytes)
    ensures Body(ls + [u], pend, a, b) == Body(ls, pend, a, b) + Sent(u, Pending(ls, pend, a, b))
    ensures Pending(ls + [u], pend, a, b) == NextPend(u, Pending(ls, pend, a, b), a, b)
    decreases |ls|
  {
    hide *;
    BodyNext(ls, pend, a, b);
    if ls == [] {
      BodyCons(u, [], pend, a, b);
      BodyNext([], NextPend(u, pend, a, b), a, b);
      assert [] + [u] == [u] == [u] + [];
      assert [] + Sent(u, pend) == Sent(u, pend) == Sent(u, pend) + [];
    } else {
      var l, rest := ls[0], ls[1..];
      var next := NextPend(l, pend, a, b);
      BodySnoc(rest, u, next, a, b);
      BodyCons(l, rest + [u], pend, a, b);
      assert ls + [u] == [l] + (rest + [u]);
      SentOn(Sent(l, pend), Body(rest, next, a, b), Sent(u, Pending(rest, next, a, b)));
    }
  }

  lemma SentOn(x: seq<Bytes>, y: seq<Bytes>, z: seq<Bytes>)
    ensures x + y + z == x + (y + z)
  {
  }

  /** The last line closes what is written before it. */
  lemma FrontSnoc(ls: seq<Bytes>, u: Bytes, pend: seq<Bytes>, a: Bytes, b: Bytes)
    ensures Body(ls + [u], pend, a, b) == Front(ls, u, pend, a, b) + [u]
    ensures Pending(ls + [u], pend, a, b) == NextPend(u, Pending(ls, pend, a, b), a, b)
  {
    hide *;
    BodySnoc(ls, u, pend, a, b);
    var p := Pending(ls, pend, a, b);
    NextPendIs(u, p, a, b);
    FrontIs(ls, u, pend, a, b);
    SentOn(Body(ls, pend, a, b), if IsHeader(u) then p else [], [u]);
    assert [] + [u] == [u];
  }

  lemma FrontIs(ls: seq<Bytes>, u: Bytes, pend: seq<Bytes>, a: Bytes, b: Bytes)
    ensures Front(ls, u, pend, a, b) == Body(ls, pend, a, b) + if IsHeader(u) then Pending(ls, pend, a, b) else []
  {
    hide Body, Pending, IsHeader;
  }

  lemma LastCut(ls: seq<Bytes>)
    requires ls != [] && Apart(ls)
    ensures ls == ls[..|ls| - 1] + [ls[|ls| - 1]] && AllEnded(ls[..|ls| - 1]) && OneLine(ls[|ls| - 1])
  {
    hide OneLine, Ended, Apart;
    ApartEnded(ls);
    var n := |ls| - 1;
    assert forall i :: 0 <= i < n ==> ls[..n][i] == ls[i];
  }

  lemma FrontEnded(ls: seq<Bytes>, u: Bytes, a: Bytes, b: Bytes)
    requires AllEnded(ls) && Renamable(b)
    ensures AllEnded(Front(ls, u, [], a, b)) && AllEnded(Pending(ls, [], a, b))
  {
    hide Body, Pending, Ended, Renamable, IsHeader;
    CopyEnded(ls, [], a, b);
  }

  lemma EndedThen(x: seq<Bytes>, y: seq<Bytes>)
    requires AllEnded(x) && Apart(y)
    ensures Apart(x + y)
  {
    hide OneLine, Ended, Apart;
    EndedApart(x);
    ApartConcat(x, y);
  }

  lemma SingleApart(u: Bytes)
    requires OneLine(u)
    ensures Apart([u]) && (Ended(u) ==> AllEnded([u]))
  {
    ApartNone();
    ApartCons(u, []);
    assert [u] + [] == [u];
  }

  lemma ApartNone()
    ensures Apart([]) && AllEnded([])
  {
  }

  lemma EndedConcat(x: seq<Bytes>, y: seq<Bytes>)
    requires AllEnded(x) && AllEnded(y)
    ensures AllEnded(x + y)
  {
    hide Ended;
  }

  /** With the copy on lines of its own the output is read back as the lines it was put together from. */
  lemma CleanLines(ls: seq<Bytes>, a: Bytes, b: Bytes)
    requires Apart(ls) && Renamable(b) && CopyApart(ls, a)
    ensures Apart(Body(ls, [], a, b) + Pending(ls, [], a, b))
  {
    hide *;
    if ls == [] {
      BodyNext([], [], a, b);
      ApartNone();
      assert Body(ls, [], a, b) + Pending(ls, [], a, b) == [];
    } else {
      var init, u := ls[..|ls| - 1], ls[|ls| - 1];
      LastCut(ls);
      FrontEnded(init, u, a, b);
      SingleApart(u);
      FrontSnoc(init, u, [], a, b);
      EndedThen(Front(init, u, [], a, b), [u]);
      PendingWithin(ls, [], a, b);
      if Pending(ls, [], a, b) == [] {
        assert Body(ls, [], a, b) + [] == Body(ls, [], a, b);
      } else {
        CopyApartEnded(ls, a);
        EndedConcat(init, [u]);
        ApartNone();
        CopyEnded(ls, [], a, b);
        EndedConcat(Body(ls, [], a, b), Pending(ls, [], a, b));
        EndedApart(Body(ls, [], a, b) + Pending(ls, [], a, b));
      }
    }
  }

  lemma CopyApartEnded(ls: seq<Bytes>, a: Bytes)
    requires ls != []
    ensures CopyApart(ls, a) <==> Ended(ls[|ls| - 1]) || !Within(ls, false, a)
  {
  }

  lemma UnapartLines(ls: seq<Bytes>, a: Bytes)
    requires !CopyApart(ls, a)
    ensures ls != [] && !Ended(ls[|ls| - 1]) && Within(ls, false, a)
  {
  }

  // The copy glued to an unterminated last line.

  lemma Glued(ls: seq<Bytes>, a: Bytes, b: Bytes) returns (x: seq<Bytes>, u: Bytes, y: seq<Bytes>)
    requires Apart(ls) && Renamable(b) && !CopyApart(ls, a) && Hits(ls, b) == 0
    ensures ls != [] && u == ls[|ls| - 1] && x == Front(ls[..|ls| - 1], u, [], a, b)
    ensures Join(Body(ls, [], a, b) + Pending(ls, [], a, b)) == Join(x + ([u + W.SectionLine(b)] + y))
    ensures Apart(x + ([u + W.SectionLine(b)] + y)) && forall i :: 0 <= i < |y| ==> !IsHeader(y[i])
  {
    hide *;
    UnapartLines(ls, a);
    var init;
    init, u := ls[..|ls| - 1], ls[|ls| - 1];
    LastCut(ls);
    PendingWithin(ls, [], a, b);
    FrontEnded(init, u, a, b);
    FrontSnoc(init, u, [], a, b);
    x := Front(init, u, [], a, b);
    EmptyCopy(b);
    BodyOutside(ls, [], a, b);
    var p := Pending(ls, [], a, b);
    CopyRest(p, b);
    y := p[1..];
    SectionLineEnds(b);
    GlueJoin(x, u, W.SectionLine(b), y);
    assert Body(ls, [], a, b) + p == x + [u] + ([W.SectionLine(b)] + y);
    GlueEnded(u, W.SectionLine(b));
    RestApart(Pending(init, [], a, b), u, a, b, p);
    ApartCons(u + W.SectionLine(b), y);
    EndedThen(x, [u + W.SectionLine(b)] + y);
  }

  lemma EmptyCopy(b: Bytes)
    ensures IsCopy([], b)
  {
  }

  lemma CopyRest(p: seq<Bytes>, b: Bytes)
    requires p != [] && IsCopy(p, b)
    ensures p == [W.SectionLine(b)] + p[1..] && forall i :: 0 <= i < |p[1..]| ==> !IsHeader(p[1..][i])
  {
    hide IsHeader, W.SectionLine;
  }

  lemma GlueJoin(x: seq<Bytes>, u: Bytes, h: Bytes, y: seq<Bytes>)
    ensures Join(x + [u] + ([h] + y)) == Join(x + ([u + h] + y))
  {
    hide Join;
    JoinConcat(x + [u], [h] + y);
    JoinConcat(x, [u]);
    JoinConcat(x, [u + h] + y);
    JoinCons(h, y);
    JoinCons(u + h, y);
    JoinOne(u);
    assert Join(x) + u + (h + Join(y)) == Join(x) + (u + h + Join(y));
  }

  lemma GlueEnded(u: Bytes, h: Bytes)
    requires OneLine(u) && !Ended(u) && Ended(h)
    ensures Ended(u + h) && OneLine(u + h)
  {
  }

  lemma RestApart(q: seq<Bytes>, u: Bytes, a: Bytes, b: Bytes, p: seq<Bytes>)
    requires AllEnded(q) && OneLine(u) && p != []
    requires p == NextPend(u, q, a, b)
    ensures Apart(p[1..])
  {
    hide Ended, OneLine, Apart, IsHeader, Hit, W.SectionLine;
    NextPendIs(u, q, a, b);
    ApartNone();
    if !IsHeader(u) {
      SingleApart(u);
      assert p[1..] == q[1..] + [u];
      assert forall i :: 0 <= i < |q[1..]| ==> q[1..][i] == q[i + 1];
      EndedThen(q[1..], [u]);
    }
  }

  /** Taking the sections of `b` out of a glued copy misses the original, by what was glued or by the last line. */
  lemma GluedOutside(ls: seq<Bytes>, a: Bytes, b: Bytes, x: seq<Bytes>, u: Bytes, y: seq<Bytes>)
    requires Apart(ls) && Renamable(b) && ls != [] && u == ls[|ls| - 1] && x == Front(ls[..|ls| - 1], u, [], a, b)
    requires Hits(ls, b) == 0 && forall i :: 0 <= i < |y| ==> !IsHeader(y[i])
    ensures Join(Outside(x + ([u + W.SectionLine(b)] + y), false, b)) != Join(ls)
  {
    hide *;
    var init, g := ls[..|ls| - 1], u + W.SectionLine(b);
    LastCut(ls);
    TurnedConcat(init, [u], b, b);
    EmptyCopy(b);
    BodyOutside(init, [], a, b);
    FrontOutsideIs(init, u, a, b);
    var w := Within(x, false, b);
    OutsideConcat(x, [g] + y, false, b);
    OutsideConcat([g], y, w, b);
    GluedLine(u, W.SectionLine(b), w, b);
    JoinConcat(init, [u]);
    JoinOne(u);
    LineFull(u);
    SectionLineEnds(b);
    HeadersNone(y, Within([g], w, b), b);
    if Within([g], w, b) {
      assert init + ([] + []) == init;
    } else {
      JoinConcat(init, [g] + y);
      JoinCons(g, y);
    }
  }

  lemma LineFull(u: Bytes)
    requires OneLine(u)
    ensures u != []
  {
  }

  lemma FrontOutsideIs(init: seq<Bytes>, u: Bytes, a: Bytes, b: Bytes)
    requires Renamable(b) && Hits(init, b) == 0
    ensures Outside(Front(init, u, [], a, b), false, b) == init
    ensures Within(Front(init, u, [], a, b), false, b) ==> IsHeader(u)
  {
    hide Body, Pending, Outside, Within, IsHeader, Hits, Renamable, IsCopy;
    EmptyCopy(b);
    BodyOutside(init, [], a, b);
    var body, p := Body(init, [], a, b), Pending(init, [], a, b);
    CopyPasses(p, b);
    OutsideConcat(body, p, false, b);
    assert body + [] == body;
    assert init + [] == init;
  }

  lemma GluedLine(u: Bytes, h: Bytes, w: bool, b: Bytes)
    requires w ==> IsHeader(u)
    ensures Outside([u + h], w, b) == if Within([u + h], w, b) then [] else [u + h]
  {
    hide HeaderEnd, IsHeader;
    var one: seq<Bytes> := [u + h];
    assert one[1..] == [];
  }

  /** Copying the sections of `a` to `b` and removing those of `b` gives the file as it was, and the same count,
   exactly when the copy starts on a line of its own and its header is not itself too long a line. */
  lemma CopyThenRemove(text: Bytes, a: Bytes, b: Bytes)
    requires Renamable(b) && Outcome(text, a, Some(b), true).Done? && Hits(Lines(text), b) == 0
    ensures var copied := Outcome(text, a, Some(b), true);
      Outcome(copied.out, b, None, false) == Done(text, copied.hits) <==>
      CopyApart(Lines(text), a) && (copied.hits > 0 ==> |W.SectionLine(b)| < MAX_LINE_LEN)
  {
    hide *;
    var ls := Lines(text);
    JoinLines(text);
    CopyOutcome(text, a, b);
    var out := Body(ls, [], a, b) + Pending(ls, [], a, b);
    RemoveOutcome(Join(out), b);
    if CopyApart(ls, a) {
      CleanLines(ls, a, b);
      LinesJoin(out);
      EmptyCopy(b);
      ShortNone();
      CopyShort(ls, [], a, b);
      BodyOutside(ls, [], a, b);
      CopyPasses(Pending(ls, [], a, b), b);
      CopyPasses([], b);
      OutsideConcat(Body(ls, [], a, b), Pending(ls, [], a, b), false, b);
      TurnedConcat(Body(ls, [], a, b), Pending(ls, [], a, b), b, b);
      assert ls + [] == ls;
    } else {
      var x, u, y := Glued(ls, a, b);
      LinesJoin(x + ([u + W.SectionLine(b)] + y));
      GluedOutside(ls, a, b, x, u, y);
    }
  }
}
