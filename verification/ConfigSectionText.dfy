/**
 Rename, removal and copy of a section on a file written out: what stands before the section, its
 header's line, its lines and what stands behind, and the bytes each operation makes of them.
 */
module ConfigSectionText {
  import opened Bytes
  import opened ConfigRename
  import opened ConfigSections
  import opened ConfigText
  import opened Optional
  import L = ConfigLines
  import M = ConfigMatching
  import W = ConfigWriter

  /** The loop over lines that are all short enough. */
  function StepAll(ls: seq<Bytes>, p: Pass, a: Bytes, b: Option<Bytes>, copy: bool): Pass {
    if ls == [] then p else StepAll(ls[1..], Step(p, ls[0], a, b, copy), a, b, copy)
  }

  lemma {:induction false} FoldOn(ls: seq<Bytes>, more: seq<Bytes>, p: Pass, nr: nat, a: Bytes, b: Option<Bytes>,
      copy: bool)
    requires forall i :: 0 <= i < |ls| ==> |ls[i]| < 524288
    ensures Fold(ls + more, p, nr, a, b, copy) == Fold(more, StepAll(ls, p, a, b, copy), nr + |ls|, a, b, copy)
    decreases |ls|
  {
    hide Step;
    if ls == [] {
      assert ls + more == more;
    } else {
      assert (ls + more)[0] == ls[0] && (ls + more)[1..] == ls[1..] + more;
      FoldOn(ls[1..], more, Step(p, ls[0], a, b, copy), nr + 1, a, b, copy);
    }
  }

  lemma FoldEnds(p: Pass, nr: nat, a: Bytes, b: Option<Bytes>, copy: bool)
    ensures Fold([], p, nr, a, b, copy) == Done(p.out + p.copystr, p.hits)
  {
  }

  /** A line too long stops the loop, and is the one named. */
  lemma FoldStops(l: Bytes, more: seq<Bytes>, p: Pass, nr: nat, a: Bytes, b: Option<Bytes>, copy: bool)
    requires |l| >= 524288
    ensures Fold([l] + more, p, nr, a, b, copy) == LongLine(nr + 1)
  {
    hide Step;
  }

  lemma JoinNext(l: Bytes, ls: seq<Bytes>)
    ensures Join([l] + ls) == l + Join(ls) && Join([]) == []
  {
    assert ([l] + ls)[1..] == ls;
  }

  /** Lines that are no header of `a`, between sections. */
  lemma {:induction false} PassesOver(ls: seq<Bytes>, p: Pass, a: Bytes, b: Option<Bytes>, copy: bool)
    requires p.copystr == [] && !p.remove && forall i :: 0 <= i < |ls| ==> !Hit(ls[i], a)
    ensures StepAll(ls, p, a, b, copy) == Pass(p.out + Join(ls), [], false, p.hits)
    decreases |ls|
  {
    hide Hit, IsHeader, Join;
    if ls == [] {
      JoinNext([], []);
      assert p.out + [] == p.out;
    } else {
      var q := Pass(p.out + ls[0], [], false, p.hits);
      assert p.out + [] == p.out;
      assert Step(p, ls[0], a, b, copy) == q;
      PassesOver(ls[1..], q, a, b, copy);
      JoinNext(ls[0], ls[1..]);
      assert ls == [ls[0]] + ls[1..];
      assert p.out + ls[0] + Join(ls[1..]) == p.out + (ls[0] + Join(ls[1..]));
    }
  }

  /** The lines of a section, behind its header. */
  lemma {:induction false} Inside(ls: seq<Bytes>, p: Pass, a: Bytes, b: Option<Bytes>, copy: bool)
    requires forall i :: 0 <= i < |ls| ==> !IsHeader(ls[i])
    requires p.remove ==> p.copystr == []
    ensures StepAll(ls, p, a, b, copy) ==
      if p.remove then p
      else Pass(p.out + Join(ls), if p.copystr == [] then [] else p.copystr + Join(ls), false, p.hits)
    decreases |ls|
  {
    hide Hit, IsHeader, Join;
    JoinNext([], []);
    if ls == [] {
      assert p.out + [] == p.out && p.copystr + [] == p.copystr;
    } else {
      var q := Step(p, ls[0], a, b, copy);
      assert q == if p.remove then p
                  else Pass(p.out + ls[0], if p.copystr == [] then [] else p.copystr + ls[0], false, p.hits);
      Inside(ls[1..], q, a, b, copy);
      JoinNext(ls[0], ls[1..]);
      assert ls == [ls[0]] + ls[1..];
      assert p.out + ls[0] + Join(ls[1..]) == p.out + (ls[0] + Join(ls[1..]));
      assert p.copystr + ls[0] + Join(ls[1..]) == p.copystr + (ls[0] + Join(ls[1..]));
    }
  }

  /** What comes behind a section: nothing, or another section's header first. */
  lemma Behind(ls: seq<Bytes>, p: Pass, a: Bytes, b: Option<Bytes>, copy: bool)
    requires (ls != [] ==> IsHeader(ls[0])) && forall i :: 0 <= i < |ls| ==> !Hit(ls[i], a)
    ensures var r := StepAll(ls, p, a, b, copy); r.out + r.copystr == p.out + p.copystr + Join(ls) && r.hits == p.hits
  {
    hide Hit, IsHeader, Join;
    JoinNext([], []);
    if ls == [] {
      assert p.out + p.copystr + [] == p.out + p.copystr;
    } else {
      var q := Pass(p.out + p.copystr + ls[0], [], false, p.hits);
      assert Step(p, ls[0], a, b, copy) == q;
      PassesOver(ls[1..], q, a, b, copy);
      JoinNext(ls[0], ls[1..]);
      assert ls == [ls[0]] + ls[1..];
      assert p.out + p.copystr + ls[0] + Join(ls[1..]) + [] == p.out + p.copystr + (ls[0] + Join(ls[1..]));
    }
  }

  /** The lines of a file with one section of `a`: before it, its header's, its own, and behind it. */
  ghost predicate OneSection(before: seq<Bytes>, header: Bytes, body: seq<Bytes>, behind: seq<Bytes>, a: Bytes) {
    && Apart(before + [header] + body + behind)
    && (forall i :: 0 <= i < |before| ==> |before[i]| < 524288) && |header| < 524288
    && (forall i :: 0 <= i < |body| ==> |body[i]| < 524288)
    && (forall i :: 0 <= i < |behind| ==> |behind[i]| < 524288)
    && (forall i :: 0 <= i < |before| ==> !Hit(before[i], a)) && Hit(header, a)
    && (forall i :: 0 <= i < |body| ==> !IsHeader(body[i]))
    && (behind != [] ==> IsHeader(behind[0])) && (forall i :: 0 <= i < |behind| ==> !Hit(behind[i], a))
  }

  /** One pass over such a file, from what the header's line leaves. */
  lemma PassOf(before: seq<Bytes>, header: Bytes, body: seq<Bytes>, behind: seq<Bytes>, a: Bytes, b: Option<Bytes>,
      copy: bool, p: Pass)
    requires OneSection(before, header, body, behind, a)
    requires p == Step(Pass(Join(before), [], false, 0), header, a, b, copy) && (p.remove ==> p.copystr == [])
    ensures var q := StepAll(body, p, a, b, copy);
      Outcome(Join(before + [header] + body + behind), a, b, copy) == Done(q.out + q.copystr + Join(behind), q.hits)
  {
    hide Step, Fold, Lines, Join, Apart, Hit, IsHeader, StepAll;
    var ls := before + [header] + body + behind;
    LinesJoin(ls);
    StartsWith(ls, a, b, copy);
    var start := Pass([], [], false, 0);
    assert ls == before + ([header] + (body + behind)) && behind == behind + [];
    FoldOn(before, [header] + (body + behind), start, 0, a, b, copy);
    PassesOver(before, start, a, b, copy);
    assert [] + Join(before) == Join(before);
    var s := Pass(Join(before), [], false, 0);
    FoldOn([header], body + behind, s, |before|, a, b, copy);
    StepOne(header, s, a, b, copy);
    FoldOn(body, behind + [], p, |before| + 1, a, b, copy);
    var q := StepAll(body, p, a, b, copy);
    FoldOn(behind, [], q, |before| + 1 + |body|, a, b, copy);
    Behind(behind, q, a, b, copy);
    FoldEnds(StepAll(behind, q, a, b, copy), |before| + 1 + |body| + |behind|, a, b, copy);
  }

  lemma StartsWith(ls: seq<Bytes>, a: Bytes, b: Option<Bytes>, copy: bool)
    requires Lines(Join(ls)) == ls
    ensures Outcome(Join(ls), a, b, copy) == Fold(ls, Pass([], [], false, 0), 0, a, b, copy)
  {
  }

  lemma StepOne(l: Bytes, p: Pass, a: Bytes, b: Option<Bytes>, copy: bool)
    ensures StepAll([l], p, a, b, copy) == Step(p, l, a, b, copy)
  {
    hide Step;
    assert [l][1..] == [];
  }

  /** What is on the header's line behind the header. */
  function TailOf(header: Bytes, a: Bytes): Bytes { header[HeaderEnd(header, a)..] }

  /**
   A rename writes the new header and, behind a TAB on a line of its own, what was on the old one's line;
   a removal leaves what stands around the section; a copy puts the new header and the section's lines,
   without what is on the header's own, behind it.
   */
  lemma SectionWritten(before: seq<Bytes>, header: Bytes, body: seq<Bytes>, behind: seq<Bytes>, a: Bytes, b: Bytes)
    requires OneSection(before, header, body, behind, a)
    ensures var text := Join(before + [header] + body + behind);
      && Outcome(text, a, Some(b), false) ==
           Done(Join(before) + W.SectionLine(b)
                + (if TailOf(header, a) == [] then [] else [9] + TailOf(header, a)) + Join(body) + Join(behind), 1)
      && Outcome(text, a, None, false) == Done(Join(before) + Join(behind), 1)
      && Outcome(text, a, Some(b), true) ==
           Done(Join(before) + header + Join(body) + W.SectionLine(b) + Join(body) + Join(behind), 1)
  {
    hide Fold, Lines, Join, Apart, Hit, IsHeader, StepAll, Outcome, W.SectionLine, HeaderEnd;
    HitIsHeader(header, a);
    var o, t := Join(before), TailOf(header, a);
    var start := Pass(o, [], false, 0);
    assert o + [] == o;
    var renamed := Pass(o + W.SectionLine(b) + Indented(t), [], false, 1);
    PassOf(before, header, body, behind, a, Some(b), false, renamed);
    Inside(body, renamed, a, Some(b), false);
    var removed := Pass(o, [], true, 1);
    PassOf(before, header, body, behind, a, None, false, removed);
    Inside(body, removed, a, None, false);
    var copied := Pass(o + header, W.SectionLine(b), false, 1);
    PassOf(before, header, body, behind, a, Some(b), true, copied);
    Inside(body, copied, a, Some(b), true);
    LineNotEmpty(b);
    Rejoined(o + header, Join(body), W.SectionLine(b), Join(behind));
    assert o + W.SectionLine(b) + Indented(t) + Join(body) + [] + Join(behind) ==
      o + W.SectionLine(b) + Indented(t) + Join(body) + Join(behind);
  }

  lemma Rejoined(x: Bytes, l: Bytes, s: Bytes, e: Bytes)
    ensures x + l + (s + l) + e == x + l + s + l + e
  {
  }

  lemma LineNotEmpty(b: Bytes)
    ensures W.SectionLine(b) != []
  {
  }

  lemma HitIsHeader(line: Bytes, a: Bytes)
    ensures Hit(line, a) ==> IsHeader(line)
  {
  }

  /** A line of 524288 bytes or more is refused, and it is the one named. */
  lemma LongLineNamed(before: seq<Bytes>, l: Bytes, behind: seq<Bytes>, a: Bytes, b: Option<Bytes>, copy: bool)
    requires Apart(before + [l] + behind) && |l| >= 524288 && forall i :: 0 <= i < |before| ==> |before[i]| < 524288
    ensures Outcome(Join(before + [l] + behind), a, b, copy) == LongLine(|before| + 1)
  {
    hide Step, Fold, Lines, Join, Apart, StepAll;
    var ls, start := before + [l] + behind, Pass([], [], false, 0);
    LinesJoin(ls);
    StartsWith(ls, a, b, copy);
    assert ls == before + ([l] + behind);
    FoldOn(before, [l] + behind, start, 0, a, b, copy);
    FoldStops(l, behind, StepAll(before, start, a, b, copy), |before|, a, b, copy);
  }

  // ---- one file, written out -----------------------------------------------------------------------

  /** `[s]` with a line of its own behind it, and `[t]`: the lines of a file. */
  const TOP: Bytes := [91, 115, 93, 32, 107, 61, 118, 10]
  const OWN: Bytes := [9, 106, 10]
  const OTHER: Bytes := [91, 116, 93, 10]

  lemma TheLines()
    ensures OneSection([], TOP, [OWN], [OTHER], [115]) && TailOf(TOP, [115]) == [107, 61, 118, 10]
    ensures Join([] + [TOP] + [OWN] + [OTHER]) == TOP + OWN + OTHER && Join([OWN]) == OWN && Join([OTHER]) == OTHER
    ensures Join([]) == []
  {
    hide Join, NameMatch, Apart, FirstNonSpace;
    var none: seq<Bytes> := [];
    JoinNext(OTHER, none);
    JoinNext(OWN, none);
    JoinNext(OWN, [OTHER]);
    JoinNext(TOP, [OWN, OTHER]);
    assert none + [TOP] + [OWN] + [OTHER] == [TOP] + [OWN, OTHER] && [OWN] + [OTHER] == [OWN, OTHER];
    assert [OTHER] + none == [OTHER] && [OWN] + none == [OWN];
    assert OTHER + [] == OTHER && OWN + [] == OWN && TOP + (OWN + OTHER) == TOP + OWN + OTHER;
    TheApart();
    TheHeaders();
  }

  lemma TheApart()
    ensures Apart([] + [TOP] + [OWN] + [OTHER])
  {
    hide OneLine;
    var none: seq<Bytes> := [];
    assert none + [TOP] + [OWN] + [OTHER] == [TOP] + ([OWN] + ([OTHER] + none));
    TheOneLines();
    NoLines();
    ApartCons(OTHER, none);
    ApartCons(OWN, [OTHER] + none);
    ApartCons(TOP, [OWN] + ([OTHER] + none));
  }

  lemma TheOneLines()
    ensures Ended(TOP) && Ended(OWN) && OneLine(OTHER) && OneLine(OWN) && OneLine(TOP)
  {
  }

  lemma TheHeaders()
    ensures Hit(TOP, [115]) && HeaderEnd(TOP, [115]) == 4 && !IsHeader(OWN) && IsHeader(OTHER) && !Hit(OTHER, [115])
    ensures TOP[4..] == [107, 61, 118, 10]
  {
    hide NameMatch, SkipSpaces, CString;
    assert FirstNonSpace(TOP) == 0 && FirstNonSpace(OTHER) == 0;
    assert OWN[1..][0] == 106 && FirstNonSpace(OWN[1..]) == 0 && FirstNonSpace(OWN) == 1;
    assert TOP[0..] == TOP && OTHER[0..] == OTHER;
    assert [91] + [115] + [93] + [32, 107, 61, 118, 10] == TOP && [91] + [116] + [93] + [10] == OTHER;
    M.HeaderTaken([115], [32, 107, 61, 118, 10], [115]);
    M.HeaderTaken([116], [10], [115]);
    NamesDiffer();
    assert NameMatch(TOP, [115]) == 4 by { assert TOP[3] == 32 && TOP[4] == 107; }
  }

  lemma NamesDiffer()
    ensures CString([115]) == [115] && [115] != [116]
  {
    assert [115][1..] == [] && [115][0] != [116][0];
  }

  /** Renaming `s` to `a.b`, removing it and copying it, in that file. */
  lemma TheSection()
    ensures var text := TOP + OWN + OTHER;
      && Outcome(text, [115], Some([97, 46, 98]), false) ==
           Done([91, 97, 32, 34, 98, 34, 93, 10, 9, 107, 61, 118, 10, 9, 106, 10, 91, 116, 93, 10], 1)
      && Outcome(text, [115], None, false) == Done([91, 116, 93, 10], 1)
      && Outcome(text, [115], Some([97, 46, 98]), true) ==
           Done([91, 115, 93, 32, 107, 61, 118, 10, 9, 106, 10, 91, 97, 32, 34, 98, 34, 93, 10, 9, 106, 10, 91, 116, 93,
                 10], 1)
  {
    hide *;
    TheLines();
    SectionWritten([], TOP, [OWN], [OTHER], [115], [97, 46, 98]);
    NewHeader();
    TheBytes();
  }

  lemma TheBytes()
    ensures [] + [91, 97, 32, 34, 98, 34, 93, 10] + ([9] + [107, 61, 118, 10]) + OWN + OTHER ==
      [91, 97, 32, 34, 98, 34, 93, 10, 9, 107, 61, 118, 10, 9, 106, 10, 91, 116, 93, 10]
    ensures [] + OTHER == [91, 116, 93, 10] && [107, 61, 118, 10] != []
    ensures [] + TOP + OWN + [91, 97, 32, 34, 98, 34, 93, 10] + OWN + OTHER ==
      [91, 115, 93, 32, 107, 61, 118, 10, 9, 106, 10, 91, 97, 32, 34, 98, 34, 93, 10, 9, 106, 10, 91, 116, 93, 10]
  {
  }

  lemma NewHeader()
    ensures W.SectionLine([97, 46, 98]) == [91, 97, 32, 34, 98, 34, 93, 10]
  {
    assert [97] + [46] + [98] == [97, 46, 98];
    L.HeaderIs([97], [98]);
    assert L.AllInHeader([98]) == [Letter(98)] && [Letter(98)][1..] == [];
    assert [91] + [97] + [32, 34] + [98] + [34, 93, 10] == [91, 97, 32, 34, 98, 34, 93, 10];
  }

  // ---- where a header may stand on its line -----------------------------------------------------------

  lemma BlanksBefore(blanks: Bytes, rest: Bytes)
    requires (forall i :: 0 <= i < |blanks| ==> LineBlank(blanks[i]))
    requires rest != [] && !LineBlank(rest[0]) && rest[0] != 10
    ensures FirstNonSpace(blanks + rest) == |blanks| && (blanks + rest)[|blanks|..] == rest
    ensures (blanks + rest)[|blanks|] == rest[0]
  {
    hide FirstNonSpace;
    var line, k := blanks + rest, FirstNonSpace(blanks + rest);
    assert forall i :: 0 <= i < |blanks| ==> line[i] == blanks[i];
    assert line[|blanks|] == rest[0];
    assert k <= |blanks| && k >= |blanks|;
  }

  /** Behind blanks a header is a header still: of its own name, and of no other; what begins otherwise is none. */
  lemma IndentedHeader(blanks: Bytes, name: Bytes, tail: Bytes, y: Bytes)
    requires (forall i :: 0 <= i < |blanks| ==> LineBlank(blanks[i])) && SectionOk(name)
    ensures var line := blanks + ([91] + name + [93] + tail);
      && IsHeader(line) && (Hit(line, y) <==> CString(y) == name)
      && (Hit(line, y) ==> |blanks| <= HeaderEnd(line, y) && M.TakesTo([91] + name + [93] + tail, |name| + 2,
            HeaderEnd(line, y) - |blanks|))
    ensures forall c: Byte :: c != 91 && c != 10 && !LineBlank(c) ==> !IsHeader(blanks + ([c] + tail))
  {
    hide FirstNonSpace, NameMatch, CString, M.TakesTo, SectionOk;
    var header := [91] + name + [93] + tail;
    BlanksBefore(blanks, header);
    M.HeaderTaken(name, tail, y);
    forall c: Byte | c != 91 && c != 10 && !LineBlank(c)
      ensures !IsHeader(blanks + ([c] + tail))
    {
      BlanksBefore(blanks, [c] + tail);
    }
    TakesSome(header, |name| + 2, NameMatch(header, y));
  }

  lemma TakesSome(buf: Bytes, h: nat, n: nat)
    requires h > 0
    ensures M.TakesTo(buf, h, n) ==> n > 0
  {
  }
}
