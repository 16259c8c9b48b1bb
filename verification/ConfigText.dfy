/**
 The configuration language as a grammar of texts: what a file may be made of, how each thing is
 written in bytes, and what it means.  The automaton takes what is written for a document and
 delivers what the document means.
 */
module ConfigText {
  import opened Bytes
  import opened ConfigGrammar
  import opened Optional

  // ---- what a file is made of ---------------------------------------------------------------

  /** A byte as it stands, a backslash and a byte, or a backslash at the end of a line. */
  datatype Piece = Letter(c: Byte) | Escape(c: Byte) | NextLine

  /** A piece of a value outside quotes, or quoted pieces. */
  datatype Part = Bare(p: Piece) | Quote(ps: seq<Piece>)

  datatype Remark = Remark(mark: Byte, words: Bytes)

  datatype Thing =
    | Gap(c: Byte)
    | Line(remark: Remark)
    | Header(name: Bytes)
    | SubHeader(name: Bytes, gap: Bytes, sub: seq<Piece>)
    | Flag(name: Bytes, gap: Bytes)
    | Setting(name: Bytes, gap: Bytes, value: seq<Part>, trailer: Option<Remark>)

  /** A file, with a byte order mark or without. */
  datatype Doc = Doc(marked: bool, things: seq<Thing>)

  // ---- which of these are well-formed ---------------------------------------------------------

  /** A blank within a line: TAB, VT, FF, CR or a space. */
  predicate LineBlank(c: Byte) { c == 9 || c == 11 || c == 12 || c == 13 || c == 32 }

  predicate Alphabetic(c: Byte) { 65 <= c <= 90 || 97 <= c <= 122 }

  predicate NameByte(c: Byte) { Alphabetic(c) || 48 <= c <= 57 || c == 45 }

  predicate NameOk(name: Bytes) {
    name != [] && Alphabetic(name[0]) && forall i :: 0 <= i < |name| ==> NameByte(name[i])
  }

  predicate SectionOk(name: Bytes) { forall i :: 0 <= i < |name| ==> NameByte(name[i]) || name[i] == 46 }

  /** Between a name and its `=`. */
  predicate NameGapOk(gap: Bytes) { forall i :: 0 <= i < |gap| ==> gap[i] == 32 || gap[i] == 9 }

  predicate HeaderGapOk(gap: Bytes) { gap != [] && forall i :: 0 <= i < |gap| ==> LineBlank(gap[i]) }

  /** In a subsection any byte but a line end may be escaped. */
  predicate SubPieceOk(p: Piece) {
    match p
    case Letter(c) => c != 10 && c != 34 && c != 92
    case Escape(c) => c != 10
    case NextLine => false
  }

  /** In a value only `t`, `b`, `n`, `\` and `"` may, and what begins a comment stands in quotes. */
  predicate PieceOk(p: Piece, quoted: bool) {
    match p
    case Letter(c) => c != 10 && c != 34 && c != 92 && (quoted || (c != 35 && c != 59))
    case Escape(c) => c == 116 || c == 98 || c == 110 || c == 92 || c == 34
    case NextLine => true
  }

  predicate PartOk(part: Part) {
    match part
    case Bare(p) => PieceOk(p, false)
    case Quote(ps) => forall i :: 0 <= i < |ps| ==> PieceOk(ps[i], true)
  }

  predicate ValueOk(parts: seq<Part>) { forall i :: 0 <= i < |parts| ==> PartOk(parts[i]) }

  /** `#` or `;`, and anything to the end of the line. */
  predicate RemarkOk(r: Remark) { (r.mark == 35 || r.mark == 59) && 10 !in r.words }

  predicate ThingOk(t: Thing) {
    match t
    case Gap(c) => c == 10 || LineBlank(c)
    case Line(remark) => RemarkOk(remark)
    case Header(name) => name != [] && SectionOk(name)
    case SubHeader(name, gap, sub) =>
      SectionOk(name) && HeaderGapOk(gap) && forall i :: 0 <= i < |sub| ==> SubPieceOk(sub[i])
    case Flag(name, gap) => NameOk(name) && NameGapOk(gap)
    case Setting(name, gap, value, trailer) =>
      NameOk(name) && NameGapOk(gap) && ValueOk(value) && (trailer.Some? ==> RemarkOk(trailer.value))
  }

  predicate ThingsOk(ts: seq<Thing>) { forall i :: 0 <= i < |ts| ==> ThingOk(ts[i]) }

  // ---- how they are written -------------------------------------------------------------------

  function PieceText(p: Piece): Bytes {
    match p case Letter(c) => [c] case Escape(c) => [92, c] case NextLine => [92, 10]
  }

  function PiecesText(ps: seq<Piece>): Bytes {
    if ps == [] then [] else PieceText(ps[0]) + PiecesText(ps[1..])
  }

  function PartText(part: Part): Bytes {
    match part case Bare(p) => PieceText(p) case Quote(ps) => [34] + PiecesText(ps) + [34]
  }

  function ValueText(parts: seq<Part>): Bytes {
    if parts == [] then [] else PartText(parts[0]) + ValueText(parts[1..])
  }

  function RemarkText(r: Option<Remark>): Bytes { if r.None? then [] else [r.value.mark] + r.value.words }

  function ThingText(t: Thing): Bytes {
    match t
    case Gap(c) => [c]
    case Line(remark) => RemarkText(Some(remark)) + [10]
    case Header(name) => [91] + name + [93]
    case SubHeader(name, gap, sub) => [91] + name + gap + [34] + PiecesText(sub) + [34, 93]
    case Flag(name, gap) => name + gap + [10]
    case Setting(name, gap, value, trailer) => name + gap + [61] + ValueText(value) + RemarkText(trailer) + [10]
  }

  function ThingsText(ts: seq<Thing>): Bytes {
    if ts == [] then [] else ThingText(ts[0]) + ThingsText(ts[1..])
  }

  function DocText(d: Doc): Bytes { (if d.marked then [239, 187, 191] else []) + ThingsText(d.things) }

  // ---- what they mean -------------------------------------------------------------------------

  function Small(c: Byte): Byte { if 65 <= c <= 90 then c + 32 else c }

  function SmallAll(s: Bytes): Bytes { if s == [] then [] else [Small(s[0])] + SmallAll(s[1..]) }

  /** In a subsection a backslash leaves the byte behind it as it is. */
  function SubMeant(ps: seq<Piece>): Bytes {
    if ps == [] then [] else (if ps[0].NextLine? then [] else [ps[0].c]) + SubMeant(ps[1..])
  }

  function PieceMeant(p: Piece): Bytes {
    match p
    case Letter(c) => [c]
    case Escape(c) => if c == 116 then [9] else if c == 98 then [8] else if c == 110 then [10] else [c]
    case NextLine => []
  }

  function PiecesMeant(ps: seq<Piece>): Bytes {
    if ps == [] then [] else PieceMeant(ps[0]) + PiecesMeant(ps[1..])
  }

  predicate BlankPart(part: Part) { part.Bare? && part.p.Letter? && LineBlank(part.p.c) }

  /** All parts in order, but for blanks outside quotes before anything has been read. */
  function AllMeant(parts: seq<Part>): Bytes {
    if parts == [] then []
    else
      var before, last := AllMeant(parts[..|parts| - 1]), parts[|parts| - 1];
      if BlankPart(last) && before == [] then []
      else before + match last case Bare(p) => PieceMeant(p) case Quote(ps) => PiecesMeant(ps)
  }

  /** The parts without the blanks at their end. */
  function Unpadded(parts: seq<Part>): seq<Part> {
    if parts != [] && BlankPart(parts[|parts| - 1]) then Unpadded(parts[..|parts| - 1]) else parts
  }

  function ValueMeant(parts: seq<Part>): Bytes { AllMeant(Unpadded(parts)) }

  /** The section a thing leaves in force. */
  function StemBehind(st: Stem, t: Thing): Stem {
    match t
    case Header(name) => Stem(SmallAll(name) + [46], true)
    case SubHeader(name, _, sub) => Stem(SmallAll(name) + [46] + SubMeant(sub) + [46], false)
    case _ => st
  }

  function ThingMeant(st: Stem, t: Thing): seq<Pair> {
    match t
    case Flag(name, _) => [Pair(st.name + SmallAll(name), None)]
    case Setting(name, _, value, _) => [Pair(st.name + SmallAll(name), Some(ValueMeant(value)))]
    case _ => []
  }

  function StemsBehind(st: Stem, ts: seq<Thing>): Stem
    decreases |ts|
  {
    if ts == [] then st else StemsBehind(StemBehind(st, ts[0]), ts[1..])
  }

  function ThingsMeant(st: Stem, ts: seq<Thing>): seq<Pair>
    decreases |ts|
  {
    if ts == [] then [] else ThingMeant(st, ts[0]) + ThingsMeant(StemBehind(st, ts[0]), ts[1..])
  }

  function DocMeant(d: Doc): seq<Pair> { ThingsMeant(Stem([], true), d.things) }

  // ---- the automaton, character by character ----------------------------------------------------

  /** Where the automaton stands after the characters `cs`. */
  function Run(m: Mode, cs: Bytes): Mode
    decreases |cs|
  {
    if cs == [] then m else Run(Delta(m, cs[0]), cs[1..])
  }

  function Emitted(m: Mode, cs: Bytes): seq<Pair>
    decreases |cs|
  {
    if cs == [] then [] else PairOf(m, cs[0]) + Emitted(Delta(m, cs[0]), cs[1..])
  }

  lemma {:induction false} RunOn(m: Mode, a: Bytes, b: Bytes)
    ensures Run(m, a + b) == Run(Run(m, a), b) && Emitted(m, a + b) == Emitted(m, a) + Emitted(Run(m, a), b)
    decreases |a|
  {
    hide Delta, PairOf;
    if a == [] {
      assert a + b == b;
    } else {
      assert (a + b)[0] == a[0] && (a + b)[1..] == a[1..] + b;
      RunOn(Delta(m, a[0]), a[1..], b);
    }
  }

  lemma RunFirst(m: Mode, c: Byte, cs: Bytes)
    ensures Run(m, [c] + cs) == Run(Delta(m, c), cs)
    ensures Emitted(m, [c] + cs) == PairOf(m, c) + Emitted(Delta(m, c), cs)
    ensures Run(m, []) == m && Emitted(m, []) == []
  {
    hide Delta, PairOf;
    assert ([c] + cs)[1..] == cs;
  }

  lemma RunOne(m: Mode, c: Byte)
    ensures Run(m, [c]) == Delta(m, c) && Emitted(m, [c]) == PairOf(m, c)
  {
    hide Delta, PairOf;
    assert [c][1..] == [];
  }

  /** What leads from `m` to `to` and delivers `ps`. */
  predicate Leads(m: Mode, cs: Bytes, to: Mode, ps: seq<Pair>) { Run(m, cs) == to && Emitted(m, cs) == ps }

  lemma LeadsOn(m: Mode, a: Bytes, mid: Mode, b: Bytes, to: Mode, ps: seq<Pair>)
    requires Leads(m, a, mid, []) && Leads(mid, b, to, ps)
    ensures Leads(m, a + b, to, ps)
  {
    RunOn(m, a, b);
    assert [] + ps == ps;
  }

  lemma LeadsOne(m: Mode, c: Byte)
    ensures Leads(m, [c], Delta(m, c), PairOf(m, c))
  {
    hide Delta, PairOf;
    RunOne(m, c);
  }

  lemma LeadsNowhere(m: Mode)
    ensures Leads(m, [], m, [])
  {
  }

  // ---- names and headers --------------------------------------------------------------------------

  lemma SectionByte(n: Bytes, c: Byte)
    requires NameByte(c) || c == 46
    ensures Delta(BaseVar(n), c) == BaseVar(n + [Small(c)]) && PairOf(BaseVar(n), c) == []
  {
  }

  lemma {:induction false} SectionRuns(n: Bytes, name: Bytes)
    requires SectionOk(name)
    ensures Leads(BaseVar(n), name, BaseVar(n + SmallAll(name)), [])
    decreases |name|
  {
    hide Leads, Delta, PairOf;
    if name == [] {
      LeadsNowhere(BaseVar(n));
      assert n + SmallAll(name) == n;
    } else {
      var c, rest := name[0], name[1..];
      assert name == [c] + rest;
      SectionByte(n, c);
      LeadsOne(BaseVar(n), c);
      SectionRuns(n + [Small(c)], rest);
      LeadsOn(BaseVar(n), [c], BaseVar(n + [Small(c)]), rest, BaseVar(n + [Small(c)] + SmallAll(rest)), []);
      assert n + SmallAll(name) == n + [Small(c)] + SmallAll(rest);
    }
  }

  lemma {:induction false} HeaderGapRuns(n: Bytes, gap: Bytes)
    requires forall i :: 0 <= i < |gap| ==> LineBlank(gap[i])
    ensures Leads(ExtSpace(n), gap, ExtSpace(n), [])
    decreases |gap|
  {
    hide Leads;
    if gap == [] {
      LeadsNowhere(ExtSpace(n));
    } else {
      assert gap == [gap[0]] + gap[1..];
      LeadsOne(ExtSpace(n), gap[0]);
      HeaderGapRuns(n, gap[1..]);
      LeadsOn(ExtSpace(n), [gap[0]], ExtSpace(n), gap[1..], ExtSpace(n), []);
    }
  }

  lemma SubPieceRuns(n: Bytes, p: Piece)
    requires SubPieceOk(p)
    ensures !p.NextLine? && Leads(ExtBody(n), PieceText(p), ExtBody(n + [p.c]), [])
  {
    hide Leads;
    LeadsOne(ExtBody(n), PieceText(p)[0]);
    if p.Escape? {
      LeadsOne(ExtEscape(n), p.c);
      LeadsOn(ExtBody(n), [92], ExtEscape(n), [p.c], ExtBody(n + [p.c]), []);
      assert [92] + [p.c] == [92, p.c];
    }
  }

  lemma {:induction false} SubRuns(n: Bytes, ps: seq<Piece>)
    requires forall i :: 0 <= i < |ps| ==> SubPieceOk(ps[i])
    ensures Leads(ExtBody(n), PiecesText(ps), ExtBody(n + SubMeant(ps)), [])
    decreases |ps|
  {
    hide Leads, SubPieceOk, PieceText;
    if ps == [] {
      LeadsNowhere(ExtBody(n));
      assert n + SubMeant(ps) == n;
    } else {
      SubPieceRuns(n, ps[0]);
      SubRuns(n + [ps[0].c], ps[1..]);
      LeadsOn(ExtBody(n), PieceText(ps[0]), ExtBody(n + [ps[0].c]), PiecesText(ps[1..]),
        ExtBody(n + [ps[0].c] + SubMeant(ps[1..])), []);
      assert n + SubMeant(ps) == n + [ps[0].c] + SubMeant(ps[1..]);
    }
  }

  lemma {:induction false} NameRuns(st: Stem, key: Bytes, name: Bytes)
    requires forall i :: 0 <= i < |name| ==> NameByte(name[i])
    ensures Leads(Name(st, key), name, Name(st, key + SmallAll(name)), [])
    decreases |name|
  {
    hide Leads;
    if name == [] {
      LeadsNowhere(Name(st, key));
      assert key + SmallAll(name) == key;
    } else {
      var c, rest := name[0], name[1..];
      assert name == [c] + rest;
      LeadsOne(Name(st, key), c);
      NameRuns(st, key + [Small(c)], rest);
      LeadsOn(Name(st, key), [c], Name(st, key + [Small(c)]), rest, Name(st, key + [Small(c)] + SmallAll(rest)), []);
      assert key + SmallAll(name) == key + [Small(c)] + SmallAll(rest);
    }
  }

  /** What a name's end, LF or `=`, makes of it. */
  lemma NameEnd(st: Stem, key: Bytes, c: Byte)
    requires c == 10 || c == 61
    ensures Delta(Name(st, key), c) == Delta(NameSpace(st, key), c) ==
      if c == 10 then Top(st, false) else Value(st, key, false, false, 0, [])
    ensures PairOf(Name(st, key), c) == PairOf(NameSpace(st, key), c) == if c == 10 then [Pair(key, None)] else []
  {
  }

  lemma {:induction false} NameGapRuns(st: Stem, key: Bytes, m: Mode, gap: Bytes, c: Byte)
    requires NameGapOk(gap) && (c == 10 || c == 61) && (m == Name(st, key) || m == NameSpace(st, key))
    ensures Leads(m, gap + [c], if c == 10 then Top(st, false) else Value(st, key, false, false, 0, []),
              if c == 10 then [Pair(key, None)] else [])
    decreases |gap|
  {
    hide Leads;
    NameEnd(st, key, c);
    if gap == [] {
      assert gap + [c] == [c];
      LeadsOne(m, c);
    } else {
      LeadsOne(m, gap[0]);
      NameGapRuns(st, key, NameSpace(st, key), gap[1..], c);
      assert gap + [c] == [gap[0]] + (gap[1..] + [c]);
      LeadsOn(m, [gap[0]], NameSpace(st, key), gap[1..] + [c],
        if c == 10 then Top(st, false) else Value(st, key, false, false, 0, []),
        if c == 10 then [Pair(key, None)] else []);
    }
  }

  // ---- values ----------------------------------------------------------------------------------------

  /** Where the blanks at the end of what has been read begin, if there are any. */
  function TrimOf(parts: seq<Part>): nat {
    if parts != [] && BlankPart(parts[|parts| - 1]) then |AllMeant(Unpadded(parts))| else 0
  }

  function ValueMode(st: Stem, key: Bytes, parts: seq<Part>): Mode {
    Value(st, key, false, false, TrimOf(parts), AllMeant(parts))
  }

  lemma {:induction false} UnpaddedFirst(parts: seq<Part>)
    ensures AllMeant(Unpadded(parts)) <= AllMeant(parts)
    ensures AllMeant(Unpadded(parts)) == [] ==> AllMeant(parts) == []
  {
    if parts != [] && BlankPart(parts[|parts| - 1]) { UnpaddedFirst(parts[..|parts| - 1]); }
  }

  /** Cut where its trailing blanks begin, what has been read is the value. */
  lemma TrimmedIs(parts: seq<Part>)
    ensures Trimmed(TrimOf(parts), AllMeant(parts)) == ValueMeant(parts)
  {
    UnpaddedFirst(parts);
    var a, b := AllMeant(Unpadded(parts)), AllMeant(parts);
    assert b[..|a|] == a;
  }

  lemma PartsSnoc(parts: seq<Part>, part: Part)
    ensures BlankPart(part) && AllMeant(parts) == [] ==> AllMeant(parts + [part]) == []
    ensures !BlankPart(part) || AllMeant(parts) != [] ==>
      AllMeant(parts + [part]) ==
        AllMeant(parts) + match part case Bare(p) => PieceMeant(p) case Quote(ps) => PiecesMeant(ps)
    ensures TrimOf(parts + [part]) ==
      if !BlankPart(part) then 0 else if TrimOf(parts) == 0 then |AllMeant(parts)| else TrimOf(parts)
  {
    hide AllMeant, PieceMeant, PiecesMeant;
    assert (parts + [part])[..|parts|] == parts;
    AllMeantAt(parts + [part]);
    UnpaddedFirst(parts);
  }

  lemma AllMeantAt(parts: seq<Part>)
    requires parts != []
    ensures var before, last := AllMeant(parts[..|parts| - 1]), parts[|parts| - 1];
      AllMeant(parts) ==
        if BlankPart(last) && before == [] then []
        else before + match last case Bare(p) => PieceMeant(p) case Quote(ps) => PiecesMeant(ps)
  {
  }

  /** A bare piece. */
  lemma BareRuns(st: Stem, key: Bytes, parts: seq<Part>, p: Piece)
    requires PieceOk(p, false)
    ensures Leads(ValueMode(st, key, parts), PieceText(p), ValueMode(st, key, parts + [Bare(p)]), [])
  {
    hide Leads, AllMeant, TrimOf;
    PartsSnoc(parts, Bare(p));
    var m := ValueMode(st, key, parts);
    LeadsOne(m, PieceText(p)[0]);
    match p {
      case Letter(c) =>
      case Escape(c) =>
        LeadsOne(ValueEscape(st, key, false, AllMeant(parts)), c);
        LeadsOn(m, [92], ValueEscape(st, key, false, AllMeant(parts)), [c],
          ValueMode(st, key, parts + [Bare(p)]), []);
        assert [92] + [c] == [92, c];
      case NextLine =>
        assert AllMeant(parts) + [] == AllMeant(parts);
        LeadsOne(ValueEscape(st, key, false, AllMeant(parts)), 10);
        LeadsOn(m, [92], ValueEscape(st, key, false, AllMeant(parts)), [10],
          ValueMode(st, key, parts + [Bare(p)]), []);
        assert [92] + [10] == [92, 10];
    }
  }

  lemma InsideRuns(st: Stem, key: Bytes, acc: Bytes, p: Piece)
    requires PieceOk(p, true)
    ensures Leads(Value(st, key, true, false, 0, acc), PieceText(p),
              Value(st, key, true, false, 0, acc + PieceMeant(p)), [])
  {
    hide Leads;
    var m, to := Value(st, key, true, false, 0, acc), Value(st, key, true, false, 0, acc + PieceMeant(p));
    LeadsOne(m, PieceText(p)[0]);
    match p {
      case Letter(c) =>
      case Escape(c) =>
        LeadsOne(ValueEscape(st, key, true, acc), c);
        LeadsOn(m, [92], ValueEscape(st, key, true, acc), [c], to, []);
        assert [92] + [c] == [92, c];
      case NextLine =>
        assert acc + [] == acc;
        LeadsOne(ValueEscape(st, key, true, acc), 10);
        LeadsOn(m, [92], ValueEscape(st, key, true, acc), [10], to, []);
        assert [92] + [10] == [92, 10];
    }
  }

  lemma {:induction false} QuotedRuns(st: Stem, key: Bytes, acc: Bytes, ps: seq<Piece>)
    requires forall i :: 0 <= i < |ps| ==> PieceOk(ps[i], true)
    ensures Leads(Value(st, key, true, false, 0, acc), PiecesText(ps),
              Value(st, key, true, false, 0, acc + PiecesMeant(ps)), [])
    decreases |ps|
  {
    hide Leads, PieceOk, PieceText, PieceMeant;
    var m := Value(st, key, true, false, 0, acc);
    if ps == [] {
      LeadsNowhere(m);
      assert acc + PiecesMeant(ps) == acc;
    } else {
      var next := acc + PieceMeant(ps[0]);
      InsideRuns(st, key, acc, ps[0]);
      QuotedRuns(st, key, next, ps[1..]);
      LeadsOn(m, PieceText(ps[0]), Value(st, key, true, false, 0, next), PiecesText(ps[1..]),
        Value(st, key, true, false, 0, next + PiecesMeant(ps[1..])), []);
      assert acc + PiecesMeant(ps) == next + PiecesMeant(ps[1..]);
    }
  }

  lemma QuoteFlips(st: Stem, key: Bytes, quote: bool, trim: nat, acc: Bytes)
    ensures Leads(Value(st, key, quote, false, trim, acc), [34], Value(st, key, !quote, false, 0, acc), [])
  {
    hide Leads;
    LeadsOne(Value(st, key, quote, false, trim, acc), 34);
  }

  lemma PartRuns(st: Stem, key: Bytes, parts: seq<Part>, part: Part)
    requires PartOk(part)
    ensures Leads(ValueMode(st, key, parts), PartText(part), ValueMode(st, key, parts + [part]), [])
  {
    hide Leads, AllMeant, TrimOf, PiecesText, PiecesMeant, PieceOk;
    match part {
      case Bare(p) => BareRuns(st, key, parts, p);
      case Quote(ps) =>
        PartsSnoc(parts, part);
        var acc := AllMeant(parts);
        var to := acc + PiecesMeant(ps);
        QuoteFlips(st, key, false, TrimOf(parts), acc);
        QuotedRuns(st, key, acc, ps);
        QuoteFlips(st, key, true, 0, to);
        LeadsOn(ValueMode(st, key, parts), [34], Value(st, key, true, false, 0, acc), PiecesText(ps),
          Value(st, key, true, false, 0, to), []);
        LeadsOn(ValueMode(st, key, parts), [34] + PiecesText(ps), Value(st, key, true, false, 0, to), [34],
          Value(st, key, false, false, 0, to), []);
    }
  }

  lemma {:induction false} ValueRuns(st: Stem, key: Bytes, parts: seq<Part>, more: seq<Part>)
    requires ValueOk(more)
    ensures Leads(ValueMode(st, key, parts), ValueText(more), ValueMode(st, key, parts + more), [])
    decreases |more|
  {
    hide Leads, PartOk, PartText, ValueMode;
    if more == [] {
      LeadsNowhere(ValueMode(st, key, parts));
      assert parts + more == parts;
    } else {
      PartRuns(st, key, parts, more[0]);
      ValueRuns(st, key, parts + [more[0]], more[1..]);
      assert parts + more == parts + [more[0]] + more[1..];
      LeadsOn(ValueMode(st, key, parts), PartText(more[0]), ValueMode(st, key, parts + [more[0]]),
        ValueText(more[1..]), ValueMode(st, key, parts + more), []);
    }
  }

  lemma {:induction false} WordsRun(st: Stem, key: Bytes, trim: nat, acc: Bytes, words: Bytes)
    requires 10 !in words
    ensures Leads(Value(st, key, false, true, trim, acc), words, Value(st, key, false, true, trim, acc), [])
    decreases |words|
  {
    hide Leads;
    var m := Value(st, key, false, true, trim, acc);
    if words == [] {
      LeadsNowhere(m);
    } else {
      assert words == [words[0]] + words[1..] && words[0] in words;
      LeadsOne(m, words[0]);
      WordsRun(st, key, trim, acc, words[1..]);
      LeadsOn(m, [words[0]], m, words[1..], m, []);
    }
  }

  /** The end of a value's line, with a comment before it or without. */
  lemma TrailerRuns(st: Stem, key: Bytes, trim: nat, acc: Bytes, trailer: Option<Remark>)
    requires trailer.Some? ==> RemarkOk(trailer.value)
    ensures Leads(Value(st, key, false, false, trim, acc), RemarkText(trailer) + [10], Top(st, false),
              [Pair(key, Some(Trimmed(trim, acc)))])
  {
    hide Leads, Trimmed;
    var m, p := Value(st, key, false, false, trim, acc), Pair(key, Some(Trimmed(trim, acc)));
    LeadsOne(m, 10);
    if trailer.None? {
      assert RemarkText(trailer) + [10] == [10];
    } else {
      var r, h := trailer.value, Value(st, key, false, true, trim, acc);
      LeadsOne(m, r.mark);
      WordsRun(st, key, trim, acc, r.words);
      LeadsOne(h, 10);
      LeadsOn(h, r.words, h, [10], Top(st, false), [p]);
      LeadsOn(m, [r.mark], h, r.words + [10], Top(st, false), [p]);
      assert RemarkText(trailer) + [10] == [r.mark] + (r.words + [10]);
    }
  }

  // ---- things ------------------------------------------------------------------------------------------

  lemma {:induction false} LineRuns(st: Stem, words: Bytes)
    requires 10 !in words
    ensures Leads(Top(st, true), words + [10], Top(st, false), [])
    decreases |words|
  {
    hide Leads;
    if words == [] {
      assert words + [10] == [10];
      LeadsOne(Top(st, true), 10);
    } else {
      assert words + [10] == [words[0]] + (words[1..] + [10]) && words[0] in words;
      LeadsOne(Top(st, true), words[0]);
      LineRuns(st, words[1..]);
      LeadsOn(Top(st, true), [words[0]], Top(st, true), words[1..] + [10], Top(st, false), []);
    }
  }

  lemma HeaderRuns(st: Stem, name: Bytes)
    requires name != [] && SectionOk(name)
    ensures Leads(Top(st, false), [91] + name + [93], Top(Stem(SmallAll(name) + [46], true), false), [])
  {
    hide Leads, SmallAll, SectionOk;
    LeadsOne(Top(st, false), 91);
    SectionRuns([], name);
    SmallNotEmpty(name);
    assert [] + SmallAll(name) == SmallAll(name);
    LeadsOne(BaseVar(SmallAll(name)), 93);
    LeadsOn(Top(st, false), [91], BaseVar([]), name, BaseVar(SmallAll(name)), []);
    LeadsOn(Top(st, false), [91] + name, BaseVar(SmallAll(name)), [93], Top(Stem(SmallAll(name) + [46], true), false),
      []);
  }

  lemma SmallNotEmpty(name: Bytes)
    ensures SmallAll(name) == [] <==> name == []
  {
  }

  /** The gap opens what stands in quotes. */
  lemma GapOpens(n: Bytes, gap: Bytes)
    requires HeaderGapOk(gap)
    ensures Leads(BaseVar(n), gap + [34], ExtBody(n + [46]), [])
  {
    hide Leads;
    LeadsOne(BaseVar(n), gap[0]);
    HeaderGapRuns(n, gap[1..]);
    LeadsOne(ExtSpace(n), 34);
    LeadsOn(ExtSpace(n), gap[1..], ExtSpace(n), [34], ExtBody(n + [46]), []);
    LeadsOn(BaseVar(n), [gap[0]], ExtSpace(n), gap[1..] + [34], ExtBody(n + [46]), []);
    assert gap + [34] == [gap[0]] + (gap[1..] + [34]);
  }

  lemma SubHeaderRuns(st: Stem, name: Bytes, gap: Bytes, sub: seq<Piece>)
    requires ThingOk(SubHeader(name, gap, sub))
    ensures Leads(Top(st, false), ThingText(SubHeader(name, gap, sub)),
              Top(Stem(SmallAll(name) + [46] + SubMeant(sub) + [46], false), false), [])
  {
    hide Leads, SmallAll, SectionOk, SubPieceOk, PiecesText, SubMeant, HeaderGapOk;
    var n, b := SmallAll(name), SmallAll(name) + [46] + SubMeant(sub);
    var to := Top(Stem(b + [46], false), false);
    LeadsOne(Top(st, false), 91);
    SectionRuns([], name);
    assert [] + n == n;
    GapOpens(n, gap);
    SubRuns(n + [46], sub);
    LeadsOne(ExtBody(b), 34);
    LeadsOne(ExtClose(b), 93);
    LeadsOn(Top(st, false), [91], BaseVar([]), name, BaseVar(n), []);
    LeadsOn(Top(st, false), [91] + name, BaseVar(n), gap + [34], ExtBody(n + [46]), []);
    LeadsOn(Top(st, false), [91] + name + (gap + [34]), ExtBody(n + [46]), PiecesText(sub), ExtBody(b), []);
    LeadsOn(ExtBody(b), [34], ExtClose(b), [93], to, []);
    LeadsOn(Top(st, false), [91] + name + (gap + [34]) + PiecesText(sub), ExtBody(b), [34] + [93], to, []);
    assert [91] + name + (gap + [34]) + PiecesText(sub) + ([34] + [93]) ==
      [91] + name + gap + [34] + PiecesText(sub) + [34, 93];
  }

  /** A name from its first letter to its end. */
  lemma NameOpens(st: Stem, name: Bytes, gap: Bytes, c: Byte)
    requires NameOk(name) && NameGapOk(gap) && (c == 10 || c == 61)
    ensures var key := st.name + SmallAll(name);
      Leads(Top(st, false), name + gap + [c], if c == 10 then Top(st, false) else Value(st, key, false, false, 0, []),
        if c == 10 then [Pair(key, None)] else [])
  {
    hide Leads;
    var key, a := st.name + SmallAll(name), [Small(name[0])];
    var to := if c == 10 then Top(st, false) else Value(st, key, false, false, 0, []);
    var ps := if c == 10 then [Pair(key, None)] else [];
    LeadsOne(Top(st, false), name[0]);
    NameRuns(st, st.name + a, name[1..]);
    assert name == [name[0]] + name[1..] && key == st.name + a + SmallAll(name[1..]);
    LeadsOn(Top(st, false), [name[0]], Name(st, st.name + a), name[1..], Name(st, key), []);
    NameGapRuns(st, key, Name(st, key), gap, c);
    LeadsOn(Top(st, false), name, Name(st, key), gap + [c], to, ps);
    assert name + gap + [c] == name + (gap + [c]);
  }

  lemma SettingRuns(st: Stem, name: Bytes, gap: Bytes, value: seq<Part>, trailer: Option<Remark>)
    requires ThingOk(Setting(name, gap, value, trailer))
    ensures Leads(Top(st, false), ThingText(Setting(name, gap, value, trailer)), Top(st, false),
              [Pair(st.name + SmallAll(name), Some(ValueMeant(value)))])
  {
    hide Leads, NameOk, NameGapOk, ValueOk, RemarkOk, ValueText, RemarkText, ValueMode, SmallAll;
    var key := st.name + SmallAll(name);
    var ps := [Pair(key, Some(ValueMeant(value)))];
    NameOpens(st, name, gap, 61);
    ValueModeIs(st, key, value);
    ValueRuns(st, key, [], value);
    assert [] + value == value;
    TrailerRuns(st, key, TrimOf(value), AllMeant(value), trailer);
    TrimmedIs(value);
    var start := Value(st, key, false, false, 0, []);
    LeadsOn(start, ValueText(value), ValueMode(st, key, value), RemarkText(trailer) + [10], Top(st, false), ps);
    LeadsOn(Top(st, false), name + gap + [61], start, ValueText(value) + (RemarkText(trailer) + [10]), Top(st, false),
      ps);
    assert name + gap + [61] + (ValueText(value) + (RemarkText(trailer) + [10])) ==
      name + gap + [61] + ValueText(value) + RemarkText(trailer) + [10];
  }

  lemma ValueModeIs(st: Stem, key: Bytes, parts: seq<Part>)
    ensures ValueMode(st, key, []) == Value(st, key, false, false, 0, [])
    ensures ValueMode(st, key, parts) == Value(st, key, false, false, TrimOf(parts), AllMeant(parts))
  {
  }

  lemma ThingRuns(st: Stem, t: Thing)
    requires ThingOk(t)
    ensures Leads(Top(st, false), ThingText(t), Top(StemBehind(st, t), false), ThingMeant(st, t))
  {
    hide Leads, NameOk, NameGapOk, ValueMeant, SmallAll;
    match t {
      case Gap(c) => LeadsOne(Top(st, false), c);
      case Line(remark) =>
        LeadsOne(Top(st, false), remark.mark);
        LineRuns(st, remark.words);
        LeadsOn(Top(st, false), [remark.mark], Top(st, true), remark.words + [10], Top(st, false), []);
        assert RemarkText(Some(remark)) + [10] == [remark.mark] + (remark.words + [10]);
      case Header(name) => HeaderRuns(st, name);
      case SubHeader(name, gap, sub) => SubHeaderRuns(st, name, gap, sub);
      case Flag(name, gap) => NameOpens(st, name, gap, 10);
      case Setting(name, gap, value, trailer) => SettingRuns(st, name, gap, value, trailer);
    }
  }

  /** Things one after the other. */
  lemma {:induction false} ThingsRun(st: Stem, ts: seq<Thing>)
    requires ThingsOk(ts)
    ensures Leads(Top(st, false), ThingsText(ts), Top(StemsBehind(st, ts), false), ThingsMeant(st, ts))
    decreases |ts|
  {
    hide Leads, ThingOk, ThingText, ThingMeant, StemBehind;
    if ts == [] {
      LeadsNowhere(Top(st, false));
    } else {
      ThingRuns(st, ts[0]);
      ThingsRun(StemBehind(st, ts[0]), ts[1..]);
      LeadsBoth(Top(st, false), ThingText(ts[0]), Top(StemBehind(st, ts[0]), false), ThingMeant(st, ts[0]),
        ThingsText(ts[1..]), Top(StemsBehind(st, ts), false), ThingsMeant(StemBehind(st, ts[0]), ts[1..]));
    }
  }

  lemma LeadsBoth(m: Mode, a: Bytes, mid: Mode, ps: seq<Pair>, b: Bytes, to: Mode, qs: seq<Pair>)
    requires Leads(m, a, mid, ps) && Leads(mid, b, to, qs)
    ensures Leads(m, a + b, to, ps + qs)
  {
    RunOn(m, a, b);
  }
}
