/**
 The grammar of ConfigText is all there is: a text parses if and only if some document is written
 so, and then it means what the document means.
 */
module ConfigTextParse {
  import opened Bytes
  import opened ConfigGrammar
  import opened ConfigText
  import opened Optional

  /** Between two things, outside a comment. */
  predicate Between(m: Mode) { m.Top? && !m.comment }

  /** Read from `m` on, the characters come to an end between two things. */
  predicate Closes(m: Mode, cs: Bytes) { Between(Run(m, cs)) }

  lemma ClosesNext(m: Mode, cs: Bytes)
    requires Closes(m, cs) && !Between(m)
    ensures cs != [] && cs == [cs[0]] + cs[1..] && Closes(Delta(m, cs[0]), cs[1..])
  {
    hide Delta;
  }

  lemma {:induction false} FailedStays(cs: Bytes)
    ensures !Closes(Failed, cs)
  {
    if cs != [] { FailedStays(cs[1..]); }
  }

  // ---- headers --------------------------------------------------------------------------------

  /** The rest of a subsection, its quote and its bracket. */
  lemma {:induction false} ReadSub(n: Bytes, cs: Bytes) returns (sub: seq<Piece>, rest: Bytes, to: Mode)
    requires Closes(ExtBody(n), cs)
    ensures (forall i :: 0 <= i < |sub| ==> SubPieceOk(sub[i])) && Between(to)
    ensures cs == PiecesText(sub) + [34, 93] + rest && Closes(to, rest)
    decreases |cs|
  {
    hide Closes;
    ClosesNext(ExtBody(n), cs);
    FailedStays(cs[1..]);
    var c, ds := cs[0], cs[1..];
    if c == 34 {
      ClosesNext(ExtClose(n), ds);
      FailedStays(ds[1..]);
      sub, rest, to := [], ds[1..], Delta(ExtClose(n), ds[0]);
      assert cs == [] + [34, 93] + rest;
    } else if c == 92 {
      ClosesNext(ExtEscape(n), ds);
      FailedStays(ds[1..]);
      var more: seq<Piece>;
      more, rest, to := ReadSub(n + [ds[0]], ds[1..]);
      sub := [Escape(ds[0])] + more;
      assert sub[1..] == more;
      assert cs == [92, ds[0]] + (PiecesText(more) + [34, 93] + rest);
    } else {
      var more: seq<Piece>;
      more, rest, to := ReadSub(n + [c], ds);
      sub := [Letter(c)] + more;
      assert sub[1..] == more;
      assert cs == [c] + (PiecesText(more) + [34, 93] + rest);
    }
  }

  /** The blanks behind a section's name, and the quote. */
  lemma {:induction false} ReadGap(n: Bytes, cs: Bytes) returns (gap: Bytes, rest: Bytes)
    requires Closes(ExtSpace(n), cs)
    ensures (forall i :: 0 <= i < |gap| ==> LineBlank(gap[i])) && cs == gap + [34] + rest
    ensures Closes(ExtBody(n + [46]), rest)
    decreases |cs|
  {
    hide Closes;
    ClosesNext(ExtSpace(n), cs);
    FailedStays(cs[1..]);
    if cs[0] == 34 {
      gap, rest := [], cs[1..];
    } else {
      var more: Bytes;
      more, rest := ReadGap(n, cs[1..]);
      gap := [cs[0]] + more;
      assert cs == [cs[0]] + (more + [34] + rest);
    }
  }

  /** A section's name, up to its bracket or a blank. */
  lemma {:induction false} ReadSection(n: Bytes, cs: Bytes) returns (name: Bytes, rest: Bytes, m: Bytes)
    requires Closes(BaseVar(n), cs)
    ensures SectionOk(name) && cs == name + rest && Closes(BaseVar(m), rest) && |m| == |n| + |name|
    ensures rest != [] && (rest[0] == 93 || LineBlank(rest[0]))
    decreases |cs|
  {
    hide Closes;
    ClosesNext(BaseVar(n), cs);
    FailedStays(cs[1..]);
    var c := cs[0];
    if c == 93 || LineBlank(c) {
      name, rest, m := [], cs, n;
    } else {
      SectionLetter(n, c);
      var more: Bytes;
      more, rest, m := ReadSection(n + [Lower(c)], cs[1..]);
      name := [c] + more;
      assert cs == [c] + (more + rest);
    }
  }

  lemma SectionLetter(n: Bytes, c: Byte)
    requires c != 93 && !LineBlank(c) && Delta(BaseVar(n), c) != Failed
    ensures (NameByte(c) || c == 46) && Delta(BaseVar(n), c) == BaseVar(n + [Lower(c)])
  {
  }

  lemma ReadHeader(cs: Bytes) returns (t: Thing, rest: Bytes, to: Mode)
    requires Closes(BaseVar([]), cs)
    ensures ThingOk(t) && [91] + cs == ThingText(t) + rest && Between(to) && Closes(to, rest)
  {
    hide Closes, SectionOk;
    var name, tail, n := ReadSection([], cs);
    ClosesNext(BaseVar(n), tail);
    FailedStays(tail[1..]);
    if tail[0] == 93 {
      t, rest, to := Header(name), tail[1..], Delta(BaseVar(n), 93);
      assert [91] + cs == [91] + name + [93] + rest;
    } else {
      var gap, sub, body;
      gap, body := ReadGap(n, tail[1..]);
      sub, rest, to := ReadSub(n + [46], body);
      t := SubHeader(name, [tail[0]] + gap, sub);
      SubHeaderText(cs, name, tail, gap, body, sub, rest);
    }
  }

  lemma SubHeaderText(cs: Bytes, name: Bytes, tail: Bytes, gap: Bytes, body: Bytes, sub: seq<Piece>, rest: Bytes)
    requires cs == name + tail && tail != [] && tail[1..] == gap + [34] + body
    requires body == PiecesText(sub) + [34, 93] + rest
    ensures [91] + cs == ThingText(SubHeader(name, [tail[0]] + gap, sub)) + rest
  {
    hide PiecesText;
    assert tail == [tail[0]] + tail[1..];
    assert [91] + (name + ([tail[0]] + (gap + [34] + (PiecesText(sub) + [34, 93] + rest)))) ==
      [91] + name + ([tail[0]] + gap) + [34] + PiecesText(sub) + [34, 93] + rest;
  }

  // ---- names and values -------------------------------------------------------------------------

  /** The rest of a name. */
  lemma {:induction false} ReadName(st: Stem, key: Bytes, cs: Bytes) returns (name: Bytes, rest: Bytes, k: Bytes)
    requires Closes(Name(st, key), cs)
    ensures (forall i :: 0 <= i < |name| ==> NameByte(name[i])) && cs == name + rest
    ensures Closes(NameSpace(st, k), rest)
    decreases |cs|
  {
    hide Closes;
    ClosesNext(Name(st, key), cs);
    var c := cs[0];
    if NameByte(c) {
      var more: Bytes;
      more, rest, k := ReadName(st, key + [Lower(c)], cs[1..]);
      name := [c] + more;
      assert cs == [c] + (more + rest);
    } else {
      name, rest, k := [], cs, key;
      NameStops(st, key, cs);
    }
  }

  lemma NameStops(st: Stem, key: Bytes, cs: Bytes)
    requires Closes(Name(st, key), cs) && cs != [] && !NameByte(cs[0])
    ensures Closes(NameSpace(st, key), cs)
  {
    hide NameTail;
  }

  /** The blanks behind a name, and its end: a line end or `=`. */
  lemma {:induction false} ReadNameGap(st: Stem, key: Bytes, cs: Bytes) returns (gap: Bytes, c: Byte, rest: Bytes)
    requires Closes(NameSpace(st, key), cs)
    ensures NameGapOk(gap) && cs == gap + [c] + rest && (c == 10 || c == 61)
    ensures Closes(if c == 10 then Top(st, false) else Value(st, key, false, false, 0, []), rest)
    decreases |cs|
  {
    hide Closes;
    ClosesNext(NameSpace(st, key), cs);
    FailedStays(cs[1..]);
    c := cs[0];
    if c == 10 || c == 61 {
      gap, rest := [], cs[1..];
      assert cs == [] + [c] + rest;
    } else {
      var b, more := c, [];
      more, c, rest := ReadNameGap(st, key, cs[1..]);
      gap := [b] + more;
      assert cs == [b] + (more + [c] + rest);
    }
  }

  /** A comment's words. */
  lemma {:induction false} ReadWords(m: Mode, cs: Bytes) returns (words: Bytes, rest: Bytes, to: Mode)
    requires Closes(m, cs) && (if m.Value? then !m.quote && m.hash else m.Top? && m.comment)
    ensures 10 !in words && cs == words + [10] + rest && to == Top(m.stem, false) && Closes(to, rest)
    decreases |cs|
  {
    hide Closes;
    ClosesNext(m, cs);
    if cs[0] == 10 {
      words, rest, to := [], cs[1..], Top(m.stem, false);
      assert cs == [] + [10] + rest;
    } else {
      var more: Bytes;
      WordStays(m, cs[0]);
      more, rest, to := ReadWords(m, cs[1..]);
      words := [cs[0]] + more;
      assert cs == [cs[0]] + (more + [10] + rest);
    }
  }

  lemma WordStays(m: Mode, c: Byte)
    requires c != 10 && (if m.Value? then !m.quote && m.hash else m.Top? && m.comment)
    ensures Delta(m, c) == m
  {
  }

  /** An escape of a value, or a line end that is none. */
  lemma EscapeOk(st: Stem, key: Bytes, quote: bool, acc: Bytes, cs: Bytes) returns (p: Piece, next: Bytes)
    requires Closes(ValueEscape(st, key, quote, acc), cs)
    ensures cs != [] && PieceOk(p, quote) && [92] + cs == PieceText(p) + cs[1..]
    ensures Closes(Value(st, key, quote, false, 0, next), cs[1..])
  {
    hide Closes;
    ClosesNext(ValueEscape(st, key, quote, acc), cs);
    FailedStays(cs[1..]);
    var c := cs[0];
    p := if c == 10 then NextLine else Escape(c);
    next := Delta(ValueEscape(st, key, quote, acc), c).acc;
    assert [92] + cs == [92] + ([c] + cs[1..]) && [92] + ([c] + cs[1..]) == [92, c] + cs[1..];
  }

  /** What stands in quotes, and the quote. */
  lemma {:induction false} ReadQuoted(st: Stem, key: Bytes, acc: Bytes, cs: Bytes)
      returns (ps: seq<Piece>, rest: Bytes, next: Bytes)
    requires Closes(Value(st, key, true, false, 0, acc), cs)
    ensures (forall i :: 0 <= i < |ps| ==> PieceOk(ps[i], true)) && cs == PiecesText(ps) + [34] + rest
    ensures Closes(Value(st, key, false, false, 0, next), rest)
    decreases |cs|
  {
    hide Closes, PieceOk, PieceText;
    ClosesNext(Value(st, key, true, false, 0, acc), cs);
    FailedStays(cs[1..]);
    var c, ds := cs[0], cs[1..];
    var p, more := NextLine, [];
    if c == 34 {
      ps, rest, next := [], ds, acc;
      assert cs == [] + [34] + rest;
    } else if c == 92 {
      p, next := EscapeOk(st, key, true, acc, ds);
      more, rest, next := ReadQuoted(st, key, next, ds[1..]);
      ps := [p] + more;
      assert ps[1..] == more;
      assert [92] + ds == PieceText(p) + (PiecesText(more) + [34] + rest);
    } else {
      p := Letter(c);
      more, rest, next := ReadQuoted(st, key, acc + [c], ds);
      ps := [p] + more;
      LetterIs(c, true);
      assert ps[1..] == more;
      assert [c] + ds == PieceText(p) + (PiecesText(more) + [34] + rest);
    }
  }

  lemma LetterIs(c: Byte, quoted: bool)
    ensures PieceText(Letter(c)) == [c]
    ensures PieceOk(Letter(c), quoted) <==> c != 10 && c != 34 && c != 92 && (quoted || (c != 35 && c != 59))
  {
  }

  /** A value to the end of its line, with a comment or without. */
  lemma {:induction false} ReadValue(st: Stem, key: Bytes, trim: nat, acc: Bytes, cs: Bytes)
      returns (parts: seq<Part>, trailer: Option<Remark>, rest: Bytes)
    requires Closes(Value(st, key, false, false, trim, acc), cs)
    ensures ValueOk(parts) && (trailer.Some? ==> RemarkOk(trailer.value))
    ensures cs == ValueText(parts) + RemarkText(trailer) + [10] + rest && Closes(Top(st, false), rest)
    decreases |cs|
  {
    hide Closes, PartOk, PartText;
    var m := Value(st, key, false, false, trim, acc);
    ClosesNext(m, cs);
    FailedStays(cs[1..]);
    var c, ds := cs[0], cs[1..];
    if c == 10 {
      parts, trailer, rest := [], None, ds;
      assert cs == [] + [] + [10] + rest;
    } else if c == 35 || c == 59 {
      var words, to;
      words, rest, to := ReadWords(Value(st, key, false, true, trim, acc), ds);
      parts, trailer := [], Some(Remark(c, words));
      assert cs == [] + ([c] + words) + [10] + rest;
    } else {
      var part, tail, trim2, acc2 := ReadPart(st, key, trim, acc, cs);
      var more: seq<Part>;
      more, trailer, rest := ReadValue(st, key, trim2, acc2, tail);
      parts := [part] + more;
      assert parts[1..] == more;
      ValueTextCons(part, more, trailer, rest, tail);
    }
  }

  lemma ValueTextCons(part: Part, more: seq<Part>, trailer: Option<Remark>, rest: Bytes, tail: Bytes)
    requires tail == ValueText(more) + RemarkText(trailer) + [10] + rest
    ensures PartText(part) + tail == ValueText([part] + more) + RemarkText(trailer) + [10] + rest
  {
    hide PartText, RemarkText;
    assert ([part] + more)[1..] == more;
    assert ValueText([part] + more) == PartText(part) + ValueText(more);
  }

  /** One part of a value. */
  lemma ReadPart(st: Stem, key: Bytes, trim: nat, acc: Bytes, cs: Bytes)
      returns (part: Part, tail: Bytes, trim2: nat, acc2: Bytes)
    requires Closes(Value(st, key, false, false, trim, acc), cs)
    requires cs != [] && cs[0] != 10 && cs[0] != 35 && cs[0] != 59
    ensures PartOk(part) && cs == PartText(part) + tail && |tail| < |cs|
    ensures Closes(Value(st, key, false, false, trim2, acc2), tail)
  {
    hide Closes, PieceOk, PiecesText;
    var m := Value(st, key, false, false, trim, acc);
    ClosesNext(m, cs);
    FailedStays(cs[1..]);
    var c, ds := cs[0], cs[1..];
    if c == 92 {
      var p;
      p, acc2 := EscapeOk(st, key, false, acc, ds);
      part, tail, trim2 := Bare(p), ds[1..], 0;
    } else if c == 34 {
      var ps;
      ps, tail, acc2 := ReadQuoted(st, key, acc, ds);
      part, trim2 := Quote(ps), 0;
      assert cs == [34] + PiecesText(ps) + [34] + tail;
    } else {
      LetterIs(c, false);
      part, tail := Bare(Letter(c)), ds;
      trim2, acc2 := Delta(m, c).trim, Delta(m, c).acc;
    }
  }

  lemma ReadSetting(st: Stem, c: Byte, cs: Bytes) returns (t: Thing, rest: Bytes)
    requires Alphabetic(c) && Closes(Delta(Top(st, false), c), cs)
    ensures ThingOk(t) && [c] + cs == ThingText(t) + rest && Closes(Top(st, false), rest)
  {
    hide Closes, NameGapOk, ValueOk, RemarkOk, ValueText, RemarkText;
    var name, tail, key := ReadName(st, st.name + [Lower(c)], cs);
    var gap, d, body := ReadNameGap(st, key, tail);
    assert NameOk([c] + name);
    if d == 10 {
      t, rest := Flag([c] + name, gap), body;
      assert [c] + (name + (gap + [10] + rest)) == [c] + name + gap + [10] + rest;
    } else {
      var parts, trailer;
      parts, trailer, rest := ReadValue(st, key, 0, [], body);
      t := Setting([c] + name, gap, parts, trailer);
      var v, r := ValueText(parts), RemarkText(trailer);
      assert [c] + (name + (gap + [61] + (v + r + [10] + rest))) == [c] + name + gap + [61] + v + r + [10] + rest;
    }
  }

  // ---- the whole ----------------------------------------------------------------------------------

  /** One thing, from its first character. */
  lemma ReadThing(st: Stem, cs: Bytes) returns (t: Thing, rest: Bytes, to: Mode)
    requires cs != [] && Closes(Top(st, false), cs)
    ensures ThingOk(t) && cs == ThingText(t) + rest && |rest| < |cs| && Between(to) && Closes(to, rest)
  {
    hide Closes, ThingOk, ThingText;
    var c, ds := cs[0], cs[1..];
    assert cs == [c] + ds;
    assert Closes(Delta(Top(st, false), c), ds) by { ClosesAt(Top(st, false), cs); }
    FailedStays(ds);
    if c == 10 || LineBlank(c) {
      t, rest, to := Gap(c), ds, Top(st, false);
      SmallThings(Gap(c));
    } else if c == 35 || c == 59 {
      var words;
      words, rest, to := ReadWords(Top(st, true), ds);
      t := Line(Remark(c, words));
      SmallThings(t);
      assert cs == [c] + words + [10] + rest;
    } else if c == 91 {
      t, rest, to := ReadHeader(ds);
      ThingLong(t);
    } else {
      LetterOpens(st, c);
      t, rest := ReadSetting(st, c, ds);
      to := Top(st, false);
      ThingLong(t);
    }
  }

  lemma ClosesAt(m: Mode, cs: Bytes)
    requires cs != [] && Closes(m, cs)
    ensures Closes(Delta(m, cs[0]), cs[1..])
  {
    hide Delta;
  }

  lemma LetterOpens(st: Stem, c: Byte)
    requires c != 10 && !LineBlank(c) && c != 35 && c != 59 && c != 91 && Delta(Top(st, false), c) != Failed
    ensures Alphabetic(c)
  {
  }

  lemma SmallThings(t: Thing)
    ensures t.Gap? ==> ThingText(t) == [t.c] && (ThingOk(t) <==> t.c == 10 || LineBlank(t.c))
    ensures t.Line? ==> ThingText(t) == [t.remark.mark] + t.remark.words + [10] && (ThingOk(t) <==> RemarkOk(t.remark))
  {
  }

  lemma ThingLong(t: Thing)
    ensures ThingText(t) != []
  {
  }

  /** Characters that come to an end between two things are written for things. */
  lemma {:induction false} ReadThings(st: Stem, cs: Bytes) returns (ts: seq<Thing>)
    requires Closes(Top(st, false), cs)
    ensures ThingsOk(ts) && ThingsText(ts) == cs
    decreases |cs|
  {
    hide Closes, ThingOk, ThingText;
    if cs == [] {
      ts := [];
    } else {
      var t, rest, to := ReadThing(st, cs);
      var more := ReadThings(to.stem, rest);
      ts := [t] + more;
      assert ts[1..] == more;
    }
  }

  // ---- files ----------------------------------------------------------------------------------------

  /** A CR LF reads as one line end. */
  function Folded(text: Bytes): Bytes
    decreases |text|
  {
    if text == [] then []
    else if |text| >= 2 && text[0] == 13 && text[1] == 10 then [10] + Folded(text[2..])
    else [text[0]] + Folded(text[1..])
  }

  lemma {:induction false} WalkIsRun(m: Mode, text: Bytes)
    ensures Walk(m, text) == Run(m, Folded(text)) && Pairs(m, text) == Emitted(m, Folded(text))
    decreases |text|
  {
    hide Delta, PairOf;
    if text != [] {
      var c, rest := CharAt(text), text[CharLen(text)..];
      assert Folded(text) == [c] + Folded(rest);
      WalkIsRun(Delta(m, c), rest);
      RunFirst(m, c, Folded(rest));
    }
  }

  /** The end of a file reads as two line ends. */
  lemma FinishIs(m: Mode)
    ensures Finish(m) ==
      if Between(Delta(Delta(m, 10), 10)) then Some(PairOf(m, 10) + PairOf(Delta(m, 10), 10)) else None
  {
    assert PairOf(m, 10) + [] == PairOf(m, 10);
    assert [] + PairOf(Delta(m, 10), 10) == PairOf(Delta(m, 10), 10);
  }

  lemma EntriesAre(text: Bytes)
    ensures var cs := Folded(text) + [10, 10];
      Entries(text) == if Closes(INIT, cs) then Some(Emitted(INIT, cs)) else None
  {
    hide Delta, PairOf, Walk, Pairs, Run, Emitted, Finish;
    WalkIsRun(INIT, text);
    var cs := Folded(text);
    var m := Run(INIT, cs);
    FinishIs(m);
    RunOn(INIT, cs, [10, 10]);
    assert [10, 10] == [10] + [10];
    RunFirst(m, 10, [10]);
    RunOne(Delta(m, 10), 10);
  }

  /** A character at the beginning of a file, or behind its mark, is read as between two things. */
  lemma FirstChar(m: Mode, cs: Bytes)
    requires cs != [] && (m == Bom(3) || (m == Bom(0) && cs[0] != 239))
    ensures Run(m, cs) == Run(Top(NO_STEM, false), cs) && Emitted(m, cs) == Emitted(Top(NO_STEM, false), cs)
  {
  }

  lemma MarkRuns()
    ensures Leads(INIT, [239, 187, 191], Bom(3), [])
  {
    hide Leads;
    LeadsOne(Bom(0), 239);
    LeadsOne(Bom(1), 187);
    LeadsOne(Bom(2), 191);
    LeadsOn(Bom(0), [239], Bom(1), [187], Bom(2), []);
    LeadsOn(Bom(0), [239] + [187], Bom(2), [191], Bom(3), []);
    assert [239] + [187] + [191] == [239, 187, 191];
  }

  predicate DocOk(d: Doc) { ThingsOk(d.things) }

  lemma ThingFirst(t: Thing)
    requires ThingOk(t)
    ensures ThingText(t) != [] && ThingText(t)[0] != 239
  {
  }

  lemma DocRuns(d: Doc)
    requires DocOk(d) && d.things != []
    ensures Closes(INIT, DocText(d)) && Emitted(INIT, DocText(d)) == DocMeant(d)
  {
    hide ThingOk, ThingText, Run, Emitted, ThingsMeant, StemsBehind, Delta, PairOf;
    var cs := ThingsText(d.things);
    ThingFirst(d.things[0]);
    ThingsRun(NO_STEM, d.things);
    FirstChar(if d.marked then Bom(3) else INIT, cs);
    if d.marked {
      MarkRuns();
      RunOn(INIT, [239, 187, 191], cs);
      assert [] + Emitted(Bom(3), cs) == Emitted(Bom(3), cs);
    } else {
      assert [] + cs == cs;
    }
  }

  /** The mark, if the characters begin like one. */
  lemma ReadMark(cs: Bytes) returns (d: Doc)
    requires Closes(INIT, cs)
    ensures DocOk(d) && DocText(d) == cs
  {
    hide Closes, Run, ThingsOk, ThingsText;
    ClosesNext(Bom(0), cs);
    FailedStays(cs[1..]);
    var things;
    if cs[0] == 239 {
      ClosesNext(Bom(1), cs[1..]);
      FailedStays(cs[1..][1..]);
      ClosesNext(Bom(2), cs[1..][1..]);
      FailedStays(cs[1..][1..][1..]);
      var rest := cs[1..][1..][1..];
      ClosesNext(Bom(3), rest);
      ClosesFirst(Bom(3), rest);
      things := ReadThings(NO_STEM, rest);
      d := Doc(true, things);
      assert cs == [239, 187, 191] + rest;
    } else {
      ClosesFirst(Bom(0), cs);
      things := ReadThings(NO_STEM, cs);
      d := Doc(false, things);
      assert [] + cs == cs;
    }
  }

  lemma ClosesFirst(m: Mode, cs: Bytes)
    requires Closes(m, cs) && cs != [] && (m == Bom(3) || (m == Bom(0) && cs[0] != 239))
    ensures Closes(Top(NO_STEM, false), cs)
  {
    hide Run;
    FirstChar(m, cs);
  }

  /**
   A text means `ps` if and only if, its CR LFs folded and its end taken for two line ends, it is
   what is written for a document that means `ps`.
   */
  lemma TextMeans(text: Bytes, ps: seq<Pair>)
    ensures Entries(text) == Some(ps) <==>
      exists d :: DocOk(d) && DocText(d) == Folded(text) + [10, 10] && DocMeant(d) == ps
  {
    hide Entries, Closes, Emitted, DocOk, DocText, DocMeant, Folded;
    EntriesAre(text);
    var cs := Folded(text) + [10, 10];
    if Closes(INIT, cs) {
      var d := ReadMark(cs);
      HasThings(d);
      DocRuns(d);
      assert DocOk(d) && DocText(d) == cs && DocMeant(d) == Emitted(INIT, cs);
    }
    if d :| DocOk(d) && DocText(d) == cs && DocMeant(d) == ps {
      HasThings(d);
      DocRuns(d);
    }
  }

  /** And it does not parse if and only if no document is written so. */
  lemma TextRefused(text: Bytes)
    ensures Entries(text) == None <==> !exists d :: DocOk(d) && DocText(d) == Folded(text) + [10, 10]
  {
    hide Entries, DocOk, DocText, DocMeant, Folded;
    if Entries(text).Some? { TextMeans(text, Entries(text).value); }
    if d :| DocOk(d) && DocText(d) == Folded(text) + [10, 10] { TextMeans(text, DocMeant(d)); }
  }

  lemma HasThings(d: Doc)
    requires |DocText(d)| >= 2 && DocText(d)[|DocText(d)| - 1] == 10
    ensures d.things != []
  {
  }

  // ---- whole lines ------------------------------------------------------------------------------------

  lemma {:induction false} ThingsOn(st: Stem, a: seq<Thing>, b: seq<Thing>)
    ensures ThingsText(a + b) == ThingsText(a) + ThingsText(b)
    ensures ThingsMeant(st, a + b) == ThingsMeant(st, a) + ThingsMeant(StemsBehind(st, a), b)
    decreases |a|
  {
    hide ThingText, ThingMeant, StemBehind;
    if a == [] {
      assert a + b == b;
    } else {
      assert (a + b)[0] == a[0] && (a + b)[1..] == a[1..] + b;
      ThingsOn(StemBehind(st, a[0]), a[1..], b);
    }
  }

  /** A text that is what is written for a document means what it does. */
  lemma DocReads(text: Bytes, d: Doc)
    requires DocOk(d) && DocText(d) == Folded(text)
    ensures Entries(text) == Some(DocMeant(d))
  {
    hide Entries, Folded, ThingsText, ThingsMeant, StemsBehind;
    var ends := [Gap(10), Gap(10)];
    var e := Doc(d.marked, d.things + ends);
    ThingsOn(NO_STEM, d.things, ends);
    EndsMean(StemsBehind(NO_STEM, d.things));
    assert DocText(e) == DocText(d) + [10, 10];
    assert DocMeant(e) == DocMeant(d) + [] == DocMeant(d);
    assert DocOk(e) && DocText(e) == Folded(text) + [10, 10];
    TextMeans(text, DocMeant(d));
  }

  lemma EndsMean(st: Stem)
    ensures ThingsText([Gap(10), Gap(10)]) == [10, 10] && ThingsMeant(st, [Gap(10), Gap(10)]) == []
  {
    assert [Gap(10), Gap(10)][1..] == [Gap(10)] && [Gap(10)][1..] == [];
  }

  lemma {:induction false} NothingFolded(text: Bytes)
    requires 13 !in text
    ensures Folded(text) == text
    decreases |text|
  {
    if text != [] { NothingFolded(text[1..]); }
  }

  // ---- what a line is read as -------------------------------------------------------------------------

  function Letters(v: Bytes): (parts: seq<Part>)
    ensures |parts| == |v| && forall i :: 0 <= i < |v| ==> parts[i] == Bare(Letter(v[i]))
  {
    seq(|v|, i requires 0 <= i < |v| => Bare(Letter(v[i])))
  }

  lemma {:induction false} LettersText(v: Bytes)
    ensures ValueText(Letters(v)) == v
  {
    if v != [] {
      LettersText(v[1..]);
      assert Letters(v)[1..] == Letters(v[1..]);
    }
  }

  /** A value that begins with no blank is read as it stands. */
  lemma {:induction false} LettersMean(v: Bytes)
    requires v != [] ==> !LineBlank(v[0])
    ensures AllMeant(Letters(v)) == v
  {
    if v != [] {
      var u := v[..|v| - 1];
      LettersMean(u);
      assert Letters(v)[..|v| - 1] == Letters(u);
      assert v == u + [v[|v| - 1]];
    }
  }

  lemma {:induction false} UnpaddedIs(parts: seq<Part>, blanks: Bytes)
    requires forall i :: 0 <= i < |blanks| ==> LineBlank(blanks[i])
    requires parts != [] ==> !BlankPart(parts[|parts| - 1])
    ensures Unpadded(parts + Letters(blanks)) == parts
    decreases |blanks|
  {
    if blanks == [] {
      assert parts + Letters(blanks) == parts;
    } else {
      var b := blanks[..|blanks| - 1];
      UnpaddedIs(parts, b);
      assert (parts + Letters(blanks))[..|parts| + |b|] == parts + Letters(b);
    }
  }

  lemma {:induction false} ValueTextOn(a: seq<Part>, b: seq<Part>)
    ensures ValueText(a + b) == ValueText(a) + ValueText(b)
  {
    hide PartText;
    if a == [] {
      assert a + b == b;
    } else {
      assert (a + b)[0] == a[0] && (a + b)[1..] == a[1..] + b;
      ValueTextOn(a[1..], b);
    }
  }

  /** What may stand for itself in a value: no blank at either end, no line end, quote, backslash, `#` or `;`. */
  predicate Unquoted(v: Bytes) {
    && (forall i :: 0 <= i < |v| ==> v[i] != 10 && v[i] != 34 && v[i] != 35 && v[i] != 59 && v[i] != 92)
    && (v != [] ==> v[0] !in {9, 11, 12, 13, 32} && v[|v| - 1] !in {9, 11, 12, 13, 32})
  }

  /** `[section]`, a line end, TAB, `name`, ` = `, a value, and the end of its line. */
  function OneSetting(section: Bytes, name: Bytes, value: Bytes, trailer: Bytes): Bytes {
    [91] + section + [93, 10, 9] + name + [32, 61, 32] + value + trailer + [10]
  }

  lemma OneThing(section: Bytes, name: Bytes, parts: seq<Part>, trailer: Option<Remark>, text: Bytes)
    requires section != [] && SectionOk(section) && NameOk(name)
    requires ValueOk(parts) && (trailer.Some? ==> RemarkOk(trailer.value))
    requires Folded(text) == OneSetting(section, name, ValueText(parts), RemarkText(trailer))
    ensures Entries(text) == Some([Pair(SmallAll(section) + [46] + SmallAll(name), Some(ValueMeant(parts)))])
  {
    hide Entries, Folded, SectionOk, NameOk, ValueOk, RemarkOk, ValueText, RemarkText, ValueMeant, SmallAll;
    hide ThingsText, ThingsMeant, ThingsOk, ThingOk, ThingText;
    var spaced := [Bare(Letter(32))] + parts;
    var ts := [Header(section), Gap(10), Gap(9), Setting(name, [32], spaced, trailer)];
    SpaceBefore(parts);
    ThingsFour(ts);
    FourOk(section, name, spaced, trailer);
    FourText(section, name, spaced, trailer, ValueText(parts));
    assert [] + ThingsText(ts) == ThingsText(ts);
    DocReads(text, Doc(false, ts));
  }

  lemma FourOk(section: Bytes, name: Bytes, parts: seq<Part>, trailer: Option<Remark>)
    requires section != [] && SectionOk(section) && NameOk(name)
    requires ValueOk(parts) && (trailer.Some? ==> RemarkOk(trailer.value))
    ensures ThingsOk([Header(section), Gap(10), Gap(9), Setting(name, [32], parts, trailer)])
  {
    hide SectionOk, NameOk, ValueOk, RemarkOk;
  }

  lemma FourText(section: Bytes, name: Bytes, parts: seq<Part>, trailer: Option<Remark>, v: Bytes)
    requires ValueText(parts) == [32] + v
    ensures ThingText(Header(section)) + [10] + [9] + ThingText(Setting(name, [32], parts, trailer)) ==
      OneSetting(section, name, v, RemarkText(trailer))
  {
    hide ValueText, RemarkText;
    var r := RemarkText(trailer);
    assert [91] + section + [93] + [10] + [9] + (name + [32] + [61] + ([32] + v) + r + [10]) ==
      [91] + section + [93, 10, 9] + name + [32, 61, 32] + v + r + [10];
  }

  /** A space before a value is not part of it. */
  lemma SpaceBefore(parts: seq<Part>)
    ensures var spaced := [Bare(Letter(32))] + parts;
      && ValueText(spaced) == [32] + ValueText(parts) && ValueMeant(spaced) == ValueMeant(parts)
      && (ValueOk(parts) ==> ValueOk(spaced))
  {
    var spaced := [Bare(Letter(32))] + parts;
    assert spaced[1..] == parts;
    SpaceUnpadded(parts);
  }

  lemma {:induction false} SpaceUnpadded(parts: seq<Part>)
    ensures AllMeant([Bare(Letter(32))] + parts) == AllMeant(parts)
    ensures AllMeant(Unpadded([Bare(Letter(32))] + parts)) == AllMeant(Unpadded(parts))
  {
    var spaced := [Bare(Letter(32))] + parts;
    if parts == [] {
      assert spaced[..0] == [] && |spaced| == 1;
    } else {
      assert spaced[..|parts|] == [Bare(Letter(32))] + parts[..|parts| - 1];
      SpaceUnpadded(parts[..|parts| - 1]);
    }
  }

  lemma ThingsCons(st: Stem, t: Thing, ts: seq<Thing>)
    ensures ThingsText([t] + ts) == ThingText(t) + ThingsText(ts)
    ensures ThingsMeant(st, [t] + ts) == ThingMeant(st, t) + ThingsMeant(StemBehind(st, t), ts)
    ensures ThingsText([]) == [] && ThingsMeant(st, []) == []
  {
    hide ThingText, ThingMeant, StemBehind;
    assert ([t] + ts)[1..] == ts;
  }

  lemma GapBefore(st: Stem, c: Byte, ts: seq<Thing>)
    ensures ThingsText([Gap(c)] + ts) == [c] + ThingsText(ts) && ThingsMeant(st, [Gap(c)] + ts) == ThingsMeant(st, ts)
  {
    hide ThingsText, ThingsMeant;
    ThingsCons(st, Gap(c), ts);
    assert [] + ThingsMeant(st, ts) == ThingsMeant(st, ts);
  }

  lemma OnlyThing(st: Stem, t: Thing)
    ensures ThingsText([t]) == ThingText(t) && ThingsMeant(st, [t]) == ThingMeant(st, t)
  {
    hide ThingText, ThingMeant, StemBehind;
    assert [t][1..] == [];
  }

  lemma ThingsFour(ts: seq<Thing>)
    requires |ts| == 4 && ts[1] == Gap(10) && ts[2] == Gap(9) && ts[0].Header? && ts[3].Setting?
    ensures ThingsText(ts) == ThingText(ts[0]) + [10] + [9] + ThingText(ts[3])
    ensures ThingsMeant(NO_STEM, ts) ==
      [Pair(SmallAll(ts[0].name) + [46] + SmallAll(ts[3].name), Some(ValueMeant(ts[3].value)))]
  {
    hide SmallAll, ValueMeant, ThingText, ThingsText, ThingsMeant;
    var st, last := StemBehind(NO_STEM, ts[0]), [ts[3]];
    OnlyThing(st, ts[3]);
    GapBefore(st, 9, last);
    GapBefore(st, 10, [Gap(9)] + last);
    ThingsCons(NO_STEM, ts[0], [Gap(10)] + ([Gap(9)] + last));
    assert ts == [ts[0]] + ([Gap(10)] + ([Gap(9)] + last));
    var a, b := ThingText(ts[0]), ThingText(ts[3]);
    assert a + ([10] + ([9] + b)) == a + [10] + [9] + b;
  }

  /**
   An unquoted value ends at the blanks before a comment, whichever of `#` and `;` begins it and
   whatever it says; and at the blanks before the end of its line.
   */
  lemma UnquotedReads(section: Bytes, name: Bytes, v: Bytes, blanks: Bytes, mark: Byte, words: Bytes)
    requires section != [] && SectionOk(section) && NameOk(name) && Unquoted(v)
    requires (forall i :: 0 <= i < |blanks| ==> blanks[i] in {9, 11, 12, 32}) && (mark == 35 || mark == 59)
    requires 13 !in v && 10 !in words && 13 !in words
    ensures Entries(OneSetting(section, name, v, blanks + [mark] + words)) ==
      Some([Pair(SmallAll(section) + [46] + SmallAll(name), Some(v))])
    ensures Entries(OneSetting(section, name, v, blanks)) ==
      Some([Pair(SmallAll(section) + [46] + SmallAll(name), Some(v))])
  {
    hide Entries, SmallAll, Folded, OneSetting, ValueText, AllMeant, Unpadded, SectionOk, NameOk, ValueOk;
    var parts := Letters(v) + Letters(blanks);
    UnquotedParts(v, blanks);
    var r := Some(Remark(mark, words));
    NoCr(section, name, v, blanks + [mark] + words);
    NoCr(section, name, v, blanks);
    NothingFolded(OneSetting(section, name, v, blanks + [mark] + words));
    NothingFolded(OneSetting(section, name, v, blanks));
    SplitTrailer(section, name, v, blanks, [mark] + words);
    SplitTrailer(section, name, v, blanks, []);
    assert blanks + ([mark] + words) == blanks + [mark] + words && blanks + [] == blanks;
    OneThing(section, name, parts, r, OneSetting(section, name, v, blanks + [mark] + words));
    OneThing(section, name, parts, None, OneSetting(section, name, v, blanks));
  }

  lemma UnquotedParts(v: Bytes, blanks: Bytes)
    requires Unquoted(v) && forall i :: 0 <= i < |blanks| ==> blanks[i] in {9, 11, 12, 13, 32}
    ensures var parts := Letters(v) + Letters(blanks);
      ValueOk(parts) && ValueText(parts) == v + blanks && ValueMeant(parts) == v
  {
    hide ValueText, AllMeant, Unpadded;
    LettersText(v);
    LettersText(blanks);
    ValueTextOn(Letters(v), Letters(blanks));
    LettersMean(v);
    UnpaddedIs(Letters(v), blanks);
  }

  lemma SplitTrailer(section: Bytes, name: Bytes, v: Bytes, blanks: Bytes, more: Bytes)
    ensures OneSetting(section, name, v, blanks + more) == OneSetting(section, name, v + blanks, more)
  {
    Regrouped([91] + section + [93, 10, 9] + name + [32, 61, 32], v, blanks, more);
  }

  lemma Regrouped(p: Bytes, v: Bytes, blanks: Bytes, more: Bytes)
    ensures p + v + (blanks + more) + [10] == p + (v + blanks) + more + [10]
  {
  }

  lemma NoCr(section: Bytes, name: Bytes, v: Bytes, trailer: Bytes)
    requires SectionOk(section) && NameOk(name) && 13 !in v && 13 !in trailer
    ensures 13 !in OneSetting(section, name, v, trailer)
  {
    assert 13 !in section && 13 !in name;
  }

  /** In quotes everything stands for itself but a quote, a backslash and a line end: blanks, `#` and `;` too. */
  lemma QuotedReads(section: Bytes, name: Bytes, v: Bytes)
    requires section != [] && SectionOk(section) && NameOk(name)
    requires 10 !in v && 34 !in v && 92 !in v && 13 !in v
    ensures Entries(OneSetting(section, name, [34] + v + [34], [])) ==
      Some([Pair(SmallAll(section) + [46] + SmallAll(name), Some(v))])
  {
    hide Entries, SmallAll, Folded, OneSetting, ValueText, SectionOk, NameOk, ValueOk, ValueMeant;
    var ps := Inside(v);
    InsideText(v);
    OnePart(Quote(ps));
    NoCr(section, name, [34] + v + [34], []);
    NothingFolded(OneSetting(section, name, [34] + v + [34], []));
    OneThing(section, name, [Quote(ps)], None, OneSetting(section, name, [34] + v + [34], []));
  }

  function Inside(v: Bytes): (ps: seq<Piece>)
    ensures |ps| == |v| && forall i :: 0 <= i < |v| ==> ps[i] == Letter(v[i])
  {
    seq(|v|, i requires 0 <= i < |v| => Letter(v[i]))
  }

  lemma {:induction false} InsideText(v: Bytes)
    ensures PiecesText(Inside(v)) == v && PiecesMeant(Inside(v)) == v
  {
    if v != [] {
      InsideText(v[1..]);
      assert Inside(v)[1..] == Inside(v[1..]);
    }
  }

  lemma OnePart(part: Part)
    requires PartOk(part) && !BlankPart(part)
    ensures ValueOk([part]) && ValueText([part]) == PartText(part)
    ensures ValueMeant([part]) == match part case Bare(p) => PieceMeant(p) case Quote(ps) => PiecesMeant(ps)
  {
    hide PartText, PieceMeant, PiecesMeant, PartOk;
    assert [part][1..] == [] && [part][..0] == [];
    assert AllMeant([]) == [];
  }

  /** The five escapes, `\b` among them, which nothing writes. */
  lemma EscapesRead(section: Bytes, name: Bytes, c: Byte, meant: Byte)
    requires section != [] && SectionOk(section) && NameOk(name)
    requires (c, meant) in {(116, 9), (98, 8), (110, 10), (92, 92), (34, 34)}
    ensures Entries(OneSetting(section, name, [92, c], [])) ==
      Some([Pair(SmallAll(section) + [46] + SmallAll(name), Some([meant]))])
  {
    hide Entries, SmallAll, Folded, OneSetting, SectionOk, NameOk;
    OnePart(Bare(Escape(c)));
    NoCr(section, name, [92, c], []);
    NothingFolded(OneSetting(section, name, [92, c], []));
    OneThing(section, name, [Bare(Escape(c))], None, OneSetting(section, name, [92, c], []));
  }

  /** No other byte may be escaped in a value. */
  lemma NoOtherEscape(section: Bytes, name: Bytes, c: Byte, trailer: Bytes)
    requires section != [] && SectionOk(section) && NameOk(name)
    requires c !in {116, 98, 110, 92, 34, 10, 13} && 13 !in trailer
    ensures Entries(OneSetting(section, name, [92, c], trailer)) == None
  {
    hide Entries, SmallAll, Folded, OneSetting, SectionOk, NameOk, Leads, Closes;
    var text := OneSetting(section, name, [92, c], trailer);
    NoCr(section, name, [92, c], trailer);
    NothingFolded(text);
    EntriesAre(text);
    var st := Stem(SmallAll(section) + [46], true);
    var key := st.name + SmallAll(name);
    ValueOpens(section, name);
    LeadsOne(Value(st, key, false, false, 0, []), 92);
    LeadsOne(ValueEscape(st, key, false, []), c);
    var a := [91] + section + [93] + [10] + [9] + (name + [32] + [61]) + [32];
    LeadsOn(INIT, a, Value(st, key, false, false, 0, []), [92], ValueEscape(st, key, false, []), []);
    LeadsOn(INIT, a + [92], ValueEscape(st, key, false, []), [c], Failed, []);
    FailsOn(a + [92] + [c], trailer + [10] + [10, 10]);
    TextIs(section, name, [92] + [c], trailer);
    assert [92] + [c] == [92, c];
  }

  lemma TextIs(section: Bytes, name: Bytes, v: Bytes, trailer: Bytes)
    requires |v| == 2
    ensures [91] + section + [93] + [10] + [9] + (name + [32] + [61]) + [32] + [v[0]] + [v[1]]
      + (trailer + [10] + [10, 10]) == OneSetting(section, name, v, trailer) + [10, 10]
  {
    assert v == [v[0], v[1]];
  }

  lemma FailsOn(a: Bytes, b: Bytes)
    requires Leads(INIT, a, Failed, [])
    ensures !Closes(INIT, a + b)
  {
    hide Run, Emitted;
    RunOn(INIT, a, b);
    FailedStays(b);
  }

  /** From the beginning of the file to the value. */
  lemma ValueOpens(section: Bytes, name: Bytes)
    requires section != [] && SectionOk(section) && NameOk(name)
    ensures var st := Stem(SmallAll(section) + [46], true);
      Leads(INIT, [91] + section + [93] + [10] + [9] + (name + [32] + [61]) + [32],
        Value(st, st.name + SmallAll(name), false, false, 0, []), [])
  {
    hide Leads, SmallAll, SectionOk, NameOk;
    var st := Stem(SmallAll(section) + [46], true);
    var m := Value(st, st.name + SmallAll(name), false, false, 0, []);
    var h := [91] + section + [93];
    HeaderRuns(NO_STEM, section);
    LeadsAtFirst(h, Top(st, false));
    LeadsOne(Top(st, false), 10);
    LeadsOne(Top(st, false), 9);
    NameOpens(st, name, [32], 61);
    LeadsOne(m, 32);
    LeadsOn(INIT, h, Top(st, false), [10], Top(st, false), []);
    LeadsOn(INIT, h + [10], Top(st, false), [9], Top(st, false), []);
    LeadsOn(INIT, h + [10] + [9], Top(st, false), name + [32] + [61], m, []);
    LeadsOn(INIT, h + [10] + [9] + (name + [32] + [61]), m, [32], m, []);
  }

  lemma LeadsAtFirst(cs: Bytes, to: Mode)
    requires cs != [] && cs[0] != 239 && Leads(Top(NO_STEM, false), cs, to, [])
    ensures Leads(INIT, cs, to, [])
  {
    hide Run, Emitted;
    FirstChar(INIT, cs);
  }
}
