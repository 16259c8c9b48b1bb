/**
 What a successful parse guarantees about the recorded events: they tile the file, each
 one stands for exactly the text it should, and `seen` lists the matching entries or the
 last place of the key's section.  Proved for every file by induction over its items.
 */
module ConfigFacts {
  import opened Bytes
  import opened ConfigGrammar
  import opened ConfigScan
  import opened Optional

  function ModeAt(text: Bytes, p: nat): Mode
    requires p <= |text|
  {
    Walk(INIT, text[..p])
  }

  function PairsBefore(text: Bytes, p: nat): seq<Pair>
    requires p <= |text|
  {
    Pairs(INIT, text[..p])
  }

  /** The section in force at a position between two items. */
  function StemAt(text: Bytes, p: nat): Stem
    requires p <= |text|
  {
    if TopLike(ModeAt(text, p)) then AsTop(ModeAt(text, p)).stem else NO_STEM
  }

  predicate Quiet(m: Mode) { TopLike(m) && !AsTop(m).comment }

  predicate InComment(m: Mode) { m.Top? && m.comment }

  /** The header or entry whose first character is at `b`. */
  function ItemAt(text: Bytes, b: nat): Item
    requires b < |text|
  {
    ToTop(Delta(ModeAt(text, b), text[b]), text[b + 1..])
  }

  function ItemEnd(text: Bytes, b: nat): (x: nat)
    requires b < |text|
    ensures b < x <= |text|
  {
    b + 1 + ItemAt(text, b).len
  }

  /** An item that ends at `x` has an event that ends at `e`: a blank CR LF line loses its CR to it. */
  ghost predicate EndsAt(text: Bytes, x: nat, e: nat) {
    e == x || (e == x + 1 && AtCrLf(text, x))
  }

  /** A CR LF starts at `p`. */
  predicate AtCrLf(text: Bytes, p: nat) { p + 1 < |text| && text[p] == CR && text[p + 1] == LF }

  ghost predicate SpanOk(q: RawQuery, text: Bytes, e: Parsed) {
    && e.begin < e.end <= |text|
    && TopLike(ModeAt(text, e.begin)) && !AtCrLf(text, e.begin)
    && (e.ty != Section ==> !e.isKeysSection)
    && match e.ty
       case Entry =>
         && Quiet(ModeAt(text, e.begin)) && IsAlpha(text[e.begin])
         && ItemAt(text, e.begin).mode == Top(StemAt(text, e.begin), false)
         && |ItemAt(text, e.begin).pairs| == 1
         && EndsAt(text, ItemEnd(text, e.begin), e.end)
       case Section =>
         && Quiet(ModeAt(text, e.begin)) && text[e.begin] == LBRACKET
         && ItemAt(text, e.begin).mode.Top? && !ItemAt(text, e.begin).mode.comment
         && ItemAt(text, e.begin).pairs == []
         && EndsAt(text, ItemEnd(text, e.begin), e.end)
         && e.isKeysSection == q.InSection(ItemAt(text, e.begin).mode.stem)
       case Whitespace =>
         && Blank(text, e.begin, e.end, false) && BlankBytes(text, e.begin, e.end)
         && (Quiet(ModeAt(text, e.begin)) || text[e.begin] == LF)
       case Comment =>
         && Quiet(ModeAt(text, e.begin)) && Blank(text, e.begin, e.end, true)
         && (text[e.begin] == HASH || text[e.begin] == SEMICOLON) && WithoutLine(text, e.begin, e.end)
       case Eof => false
  }

  /** Nothing between `b` and `e` but blanks and comments. */
  ghost predicate Blank(text: Bytes, b: nat, e: nat, comment: bool)
    requires b <= e <= |text|
  {
    && ModeAt(text, e) == Top(StemAt(text, b), comment)
    && PairsBefore(text, e) == PairsBefore(text, b)
  }

  predicate BlankBytes(text: Bytes, b: nat, e: nat)
    requires e <= |text|
  {
    forall x :: b <= x < e ==> IsSpace(text[x])
  }

  predicate WithoutLine(text: Bytes, b: nat, e: nat)
    requires e <= |text|
  {
    forall x :: b <= x < e ==> text[x] != LF
  }

  ghost predicate AllOk(q: RawQuery, text: Bytes, spans: seq<Parsed>) {
    forall i :: 0 <= i < |spans| ==> SpanOk(q, text, spans[i])
  }

  predicate Meet(spans: seq<Parsed>) {
    forall i, j :: 0 <= i < |spans| && j == i + 1 < |spans| ==> spans[i].end == spans[j].begin
  }

  /** Nothing precedes `p` but the byte-order mark, and the CR of a CR LF. */
  ghost predicate AtFront(text: Bytes, p: nat)
    requires p <= |text|
  {
    ModeAt(text, p).Bom? || (p > 0 && AtCrLf(text, p - 1) && ModeAt(text, p - 1).Bom?)
  }

  /** The first span is the first thing in the file, nothing is delivered before it, and the last one ends at `pos`. */
  ghost predicate Edged(text: Bytes, spans: seq<Parsed>, pos: nat)
    requires pos <= |text| && forall i :: 0 <= i < |spans| ==> spans[i].begin <= |text|
  {
    && (spans == [] ==> AtFront(text, pos) && PairsBefore(text, pos) == [] && !InComment(ModeAt(text, pos)))
    && (spans != [] ==>
         && spans[|spans| - 1].end == pos
         && AtFront(text, spans[0].begin) && PairsBefore(text, spans[0].begin) == []
         && !InComment(ModeAt(text, spans[0].begin)))
  }

  /** Consecutive spans, the last one ending at `pos`. */
  ghost predicate Tiled(q: RawQuery, text: Bytes, spans: seq<Parsed>, pos: nat) {
    pos <= |text| && AllOk(q, text, spans) && Meet(spans) && Edged(text, spans, pos)
  }

  ghost predicate Matched(q: RawQuery, text: Bytes, e: Parsed) {
    e.ty == Entry && e.begin < |text| && |ItemAt(text, e.begin).pairs| == 1 && q.Matches(ItemAt(text, e.begin).pairs[0])
  }

  /** An event of the key's section behind which a new line may go. */
  ghost predicate Anchor(q: RawQuery, text: Bytes, e: Parsed) {
    (e.ty == Section && e.isKeysSection) || (e.ty == Entry && e.begin < |text| && q.InSection(StemAt(text, e.begin)))
  }

  ghost predicate SeenOk(q: RawQuery, text: Bytes, s: StoreState) {
    && s.parsedNr <= |s.parsed|
    && (if s.keySeen then
         && 0 < s.seenNr <= |s.seen| && s.sectionSeen && s.seenTouched
         && (forall i :: 0 <= i < s.seenNr ==> s.seen[i] < s.parsedNr && Matched(q, text, s.parsed[s.seen[i]]))
         && (forall i, j :: 0 <= i < j < s.seenNr ==> s.seen[i] < s.seen[j])
         && (forall k :: 0 <= k < s.parsedNr && Matched(q, text, s.parsed[k]) ==> k in s.seen[..s.seenNr])
       else
         && s.seenNr == 0 && s.seenTouched == s.sectionSeen && (|s.seen| == if s.seenTouched then 1 else 0)
         && (forall k :: 0 <= k < s.parsedNr ==> !Matched(q, text, s.parsed[k]))
         && (s.seenTouched ==> s.seen[0] < s.parsedNr && Anchor(q, text, s.parsed[s.seen[0]]))
         && (forall k :: 0 <= k < s.parsedNr && (s.seenTouched ==> s.seen[0] < k) ==> !Anchor(q, text, s.parsed[k])))
  }

  /** The store as it would stand if the event in progress ended at `pos`. */
  function Flush(q: RawQuery, s: StoreState, pos: nat, stem: Stem): (f: StoreState)
    requires s.parsedNr <= |s.parsed|
    ensures f.parsedNr <= |f.parsed|
  {
    if s.previousType != Eof then Record(q, s, s.previousType, s.previousOffset, pos, stem) else s
  }

  ghost predicate Good(q: RawQuery, text: Bytes, s: StoreState, pos: nat, stem: Stem) {
    && SeenOk(q, text, s)
    && |s.parsed| == (if s.parsedNr == 0 then 1 else s.parsedNr)
    && Tiled(q, text, s.parsed[..s.parsedNr], pos)
    && s.isKeysSection == q.InSection(stem)
  }

  // ---- well-formed stems and keys ---------------------------------------------------------

  predicate StemOk(stem: Stem) { stem.name == [] || (|stem.name| >= 2 && stem.name[|stem.name| - 1] == DOT) }

  /** A key is its section's stem and a variable name without dots. */
  predicate KeyOk(stem: Stem, key: Bytes) {
    StemOk(stem) && stem.name < key && forall i :: |stem.name| <= i < |key| ==> key[i] != DOT
  }

  predicate ModeOk(m: Mode) {
    match m
    case Top(stem, _) => StemOk(stem)
    case ExtBody(name) => name != []
    case ExtEscape(name) => name != []
    case ExtClose(name) => name != []
    case Name(stem, key) => KeyOk(stem, key)
    case NameSpace(stem, key) => KeyOk(stem, key)
    case Value(stem, key, _, _, trim, acc) => KeyOk(stem, key) && trim <= |acc|
    case ValueEscape(stem, key, _, _) => KeyOk(stem, key)
    case _ => true
  }

  lemma NoDot(c: Byte)
    ensures IsAlpha(c) ==> IsKeyChar(c)
    ensures IsKeyChar(c) ==> Lower(c) != DOT
  {
  }

  lemma DeltaOk(m: Mode, c: Byte)
    requires ModeOk(m)
    ensures ModeOk(Delta(m, c))
  {
    NoDot(c);
    hide IsSpace, IsAlpha, IsKeyChar, Lower;
  }

  lemma {:induction false} WalkOk(m: Mode, r: Bytes)
    requires ModeOk(m)
    ensures ModeOk(Walk(m, r))
    decreases |r|
  {
    if r != [] {
      DeltaOk(m, CharAt(r));
      WalkOk(Delta(m, CharAt(r)), r[CharLen(r)..]);
    }
  }

  predicate InEntry(m: Mode, stem: Stem) {
    ModeOk(m) && (m.Name? || m.NameSpace? || m.Value? || m.ValueEscape?) && m.stem == stem
  }

  lemma EntryChar(m: Mode, stem: Stem, c: Byte)
    requires InEntry(m, stem)
    ensures InEntry(Delta(m, c), stem) ==> PairOf(m, c) == []
    ensures !InEntry(Delta(m, c), stem) && !Delta(m, c).Failed? ==>
      Delta(m, c) == Top(stem, false) && c == LF && |PairOf(m, c)| == 1 && KeyOk(stem, PairOf(m, c)[0].key)
  {
  }

  /** An entry read to its end delivers one pair, under its section's name. */
  lemma {:induction false} EntryItem(m: Mode, stem: Stem, r: Bytes)
    requires InEntry(m, stem)
    ensures var t := ToTop(m, r);
      t.mode.Failed? || (t.mode == Top(stem, false) && |t.pairs| == 1 && KeyOk(stem, t.pairs[0].key))
    decreases |r|, EofRank(m)
  {
    var c, n := if r == [] then LF else CharAt(r), if r == [] then 0 else CharLen(r);
    EntryChar(m, stem, c);
    ItemTakes(m, r, c, n);
    hide *;
    var m1 := Delta(m, c);
    if m1.Failed? || m1.Top? {
      TopIsTopLike(m1);
      ToTopDone(m1, r[n..]);
      assert PairOf(m, c) + [] == PairOf(m, c);
    } else {
      EntryItem(m1, stem, r[n..]);
      assert [] + ToTop(m1, r[n..]).pairs == ToTop(m1, r[n..]).pairs;
    }
  }

  lemma TopIsTopLike(m: Mode)
    ensures m.Top? ==> TopLike(m)
  {
  }

  lemma MatchInSection(q: Query, stem: Stem, p: Pair)
    requires KeyOk(stem, p.key) && q.Matches(p)
    ensures q.InSection(stem) && stem.name == q.key[..q.baselen + 1]
  {
    assert p.key[q.baselen] == DOT && q.baselen < |stem.name|;
    assert p.key[|stem.name| - 1] == stem.name[|stem.name| - 1] == DOT;
  }

  // ---- items and walks ------------------------------------------------------------------

  /** Where `ToTop` stops: at the item's end, or at the end of a text that cuts the item short. */
  ghost predicate ItemWalked(m: Mode, r: Bytes, t: Item)
    requires t.len <= |r|
  {
    if TopLike(Walk(m, r[..t.len])) then Walk(m, r[..t.len]) == t.mode && Pairs(m, r[..t.len]) == t.pairs
    else t.len == |r| && Pairs(m, r) == [] && Finish(Walk(m, r)) == Some(t.pairs)
  }

  predicate InItem(m: Mode) { !TopLike(m) && !m.Bom? && !m.Failed? }

  lemma ItemCharKind(m: Mode, c: Byte)
    requires InItem(m)
    ensures InItem(Delta(m, c)) ==> PairOf(m, c) == []
    ensures InItem(Delta(m, c)) || Delta(m, c).Failed? || Delta(m, c).Top?
  {
  }

  lemma {:induction false} ItemWalk(m: Mode, r: Bytes)
    requires InItem(m) && !ToTop(m, r).mode.Failed?
    ensures ItemWalked(m, r, ToTop(m, r))
    decreases |r|
  {
    hide Delta, PairOf, Walk, Pairs, ToTop, Finish, CharAt, CharLen;
    var t := ToTop(m, r);
    if r == [] {
      FinishItem(m);
      assert r[..t.len] == [];
      WalkNothing(m);
    } else {
      var c, n := CharAt(r), CharLen(r);
      var m1, rest := Delta(m, c), r[n..];
      var t1 := ToTop(m1, rest);
      ItemCharKind(m, c);
      ItemTakes(m, r, c, n);
      WalkTake(m, r, t.len);
      WalkUnfold(m, r);
      if InItem(m1) { ItemWalk(m1, rest); }
      assert PairOf(m, c) + [] == PairOf(m, c) && (forall ps: seq<Pair> :: [] + ps == ps);
      if InItem(m1) {
      } else {
        TopIsTopLike(m1);
        ToTopDone(m1, rest);
        assert rest[..0] == [];
        WalkNothing(m1);
      }
    }
  }

  lemma WalkNothing(m: Mode)
    ensures Walk(m, []) == m && Pairs(m, []) == []
  {
  }

  lemma WalkUnfold(m: Mode, r: Bytes)
    requires r != []
    ensures Walk(m, r) == Walk(Delta(m, CharAt(r)), r[CharLen(r)..])
    ensures Pairs(m, r) == PairOf(m, CharAt(r)) + Pairs(Delta(m, CharAt(r)), r[CharLen(r)..])
  {
  }

  lemma WalkTake(m: Mode, r: Bytes, k: nat)
    requires r != [] && CharLen(r) <= k <= |r|
    ensures Walk(m, r[..k]) == Walk(Delta(m, CharAt(r)), r[CharLen(r)..][..k - CharLen(r)])
    ensures Pairs(m, r[..k]) == PairOf(m, CharAt(r)) + Pairs(Delta(m, CharAt(r)), r[CharLen(r)..][..k - CharLen(r)])
  {
    assert CharLen(r[..k]) == CharLen(r) && CharAt(r[..k]) == CharAt(r);
    assert r[..k][CharLen(r)..] == r[CharLen(r)..][..k - CharLen(r)];
    WalkUnfold(m, r[..k]);
  }

  /** The end of the text ends an item as `Finish` says. */
  lemma FinishItem(m: Mode)
    requires InItem(m)
    ensures var t := ToTop(m, []);
      if t.mode.Failed? then Finish(m) == None else Finish(m) == Some(t.pairs) && t.len == 0
  {
    var m1 := Delta(m, LF);
    var m2 := Delta(m1, LF);
    ItemTakes(m, [], LF, 0);
    assert PairOf(m, LF) + [] == PairOf(m, LF) && [] + (PairOf(m1, LF) + []) == PairOf(m1, LF);
    if m1.Top? || m1.Failed? {
      ToTopDone(m1, []);
    } else {
      assert m.ValueEscape? && m1.Value? && PairOf(m, LF) == [];
      ItemTakes(m1, [], LF, 0);
      ToTopDone(m2, []);
    }
  }

  // ---- one step of the induction --------------------------------------------------------

  /** Not between the two bytes of a CR LF. */
  predicate Whole(text: Bytes, p: nat)
    requires p <= |text|
  {
    !(0 < p < |text| && text[p - 1] == CR && text[p] == LF)
  }

  /** The text up to `x` read on from a position `p` before it. */
  lemma ModeOn(text: Bytes, p: nat, x: nat)
    requires p <= x <= |text|
    requires Whole(text, p) || TopLike(ModeAt(text, p))
    ensures ModeAt(text, x) == Walk(ModeAt(text, p), text[p..x])
    ensures PairsBefore(text, x) == PairsBefore(text, p) + Pairs(ModeAt(text, p), text[p..x])
  {
    assert text[..x] == text[..p] + text[p..x];
    if TopLike(ModeAt(text, p)) {
      WalkConcatTop(INIT, text[..p], text[p..x]);
    } else {
      WalkConcat(INIT, text[..p], text[p..x]);
    }
  }

  /** One whole character. */
  lemma ModeChar(text: Bytes, p: nat)
    requires p < |text| && (Whole(text, p) || TopLike(ModeAt(text, p)))
    ensures var c, n := CharAt(text[p..]), CharLen(text[p..]);
      && ModeAt(text, p + n) == Delta(ModeAt(text, p), c)
      && PairsBefore(text, p + n) == PairsBefore(text, p) + PairOf(ModeAt(text, p), c)
      && Whole(text, p + n)
  {
    var r := text[p..];
    var n := CharLen(r);
    ModeOn(text, p, p + n);
    assert text[p..p + n] == r[..n];
    WalkTake(ModeAt(text, p), r, n);
    hide Delta, PairOf;
    assert r[n..][..0] == [];
    WalkNothing(Delta(ModeAt(text, p), CharAt(r)));
    assert PairOf(ModeAt(text, p), CharAt(r)) + [] == PairOf(ModeAt(text, p), CharAt(r));
  }

  /** The first character of an item takes one byte, and opens it. */
  lemma ItemFirst(text: Bytes, b: nat)
    requires b < |text| && Quiet(ModeAt(text, b)) && (IsAlpha(text[b]) || text[b] == LBRACKET)
    ensures CharLen(text[b..]) == 1 && CharAt(text[b..]) == text[b] && text[b] != CR && TopLike(ModeAt(text, b))
    ensures InItem(Delta(ModeAt(text, b), text[b])) && PairOf(ModeAt(text, b), text[b]) == []
  {
    hide ModeAt;
  }

  /** A header or entry whose first character is at `b`, up to its end. */
  lemma ItemOn(text: Bytes, b: nat)
    requires b < |text| && Quiet(ModeAt(text, b))
    requires IsAlpha(text[b]) || text[b] == LBRACKET
    requires !ItemAt(text, b).mode.Failed?
    ensures var x, t := ItemEnd(text, b), ItemAt(text, b);
      && Whole(text, b + 1)
      && if TopLike(ModeAt(text, x)) then
           ModeAt(text, x) == t.mode && PairsBefore(text, x) == PairsBefore(text, b) + t.pairs
         else x == |text| && PairsBefore(text, x) == PairsBefore(text, b) && Finish(ModeAt(text, x)) == Some(t.pairs)
  {
    hide Delta, PairOf, Walk, Pairs, ToTop, Finish, CharAt, CharLen, IsAlpha, InItem, Quiet;
    var m, c := ModeAt(text, b), text[b];
    var m1, r := Delta(m, c), text[b + 1..];
    ItemFirst(text, b);
    ModeChar(text, b);
    var x, t := ItemEnd(text, b), ItemAt(text, b);
    assert text[b + 1..x] == r[..t.len];
    ModeOn(text, b + 1, x);
    ItemWalk(m1, r);
    ItemSeam(PairsBefore(text, b), Pairs(m1, r[..t.len]), t.pairs);
    if !TopLike(ModeAt(text, x)) {
      assert r[..t.len] == r;
    }
  }

  lemma ItemSeam(before: seq<Pair>, walked: seq<Pair>, pairs: seq<Pair>)
    ensures before + [] == before
    ensures before + [] + walked == before + walked
  {
  }

  function Stretch(s: StoreState, pos: nat): StoreState
    requires 0 < s.parsedNr <= |s.parsed|
  {
    s.(parsed := s.parsed[s.parsedNr - 1 := s.parsed[s.parsedNr - 1].(end := pos)])
  }

  lemma FlushMoves(q: RawQuery, s: StoreState, pos: nat, pos2: nat, stem: Stem)
    requires s.parsedNr <= |s.parsed| && s.previousType != Eof
    ensures Flush(q, s, pos2, stem) == Stretch(Flush(q, s, pos, stem), pos2)
  {
    hide Noted;
    assert Flush(q, s, pos2, stem).parsed == Stretch(Flush(q, s, pos, stem), pos2).parsed;
  }

  /** The last event grows by what still belongs to it. */
  lemma Extend(q: RawQuery, text: Bytes, s: StoreState, pos: nat, pos2: nat, stem: Stem)
    requires Good(q, text, s, pos, stem) && s.parsedNr > 0 && pos2 <= |text|
    requires SpanOk(q, text, s.parsed[s.parsedNr - 1].(end := pos2))
    ensures Good(q, text, Stretch(s, pos2), pos2, stem)
  {
    hide Tiled, SeenOk, SpanOk, ModeAt, PairsBefore, ItemAt, StemAt;
    SeenStretched(q, text, s, pos2);
    TiledStretched(q, text, s.parsed[..s.parsedNr], Stretch(s, pos2).parsed[..s.parsedNr], pos, pos2);
  }

  lemma SeenStretched(q: RawQuery, text: Bytes, s: StoreState, pos2: nat)
    requires SeenOk(q, text, s) && 0 < s.parsedNr <= |s.parsed|
    ensures SeenOk(q, text, Stretch(s, pos2))
  {
    hide ModeAt, PairsBefore, ItemAt, StemAt;
    var t, n := Stretch(s, pos2), s.parsedNr;
    assert forall k :: 0 <= k < n ==> Matched(q, text, t.parsed[k]) == Matched(q, text, s.parsed[k]);
    assert forall k :: 0 <= k < n ==> Anchor(q, text, t.parsed[k]) == Anchor(q, text, s.parsed[k]);
  }

  lemma TiledStretched(q: RawQuery, text: Bytes, was: seq<Parsed>, grown: seq<Parsed>, pos: nat, pos2: nat)
    requires Tiled(q, text, was, pos) && was != [] && pos2 <= |text|
    requires SpanOk(q, text, was[|was| - 1].(end := pos2)) && grown == was[|was| - 1 := was[|was| - 1].(end := pos2)]
    ensures Tiled(q, text, grown, pos2)
  {
    hide SpanOk, ModeAt, PairsBefore, InComment;
    var n := |was| - 1;
    assert forall i :: 0 <= i < n ==> grown[i] == was[i];
    assert AllOk(q, text, grown);
    OkBegins(q, text, grown);
    assert Meet(grown);
  }

  lemma TiledAppend(q: RawQuery, text: Bytes, spans: seq<Parsed>, pos: nat, e: Parsed)
    requires Tiled(q, text, spans, pos) && SpanOk(q, text, e) && e.begin == pos
    ensures Tiled(q, text, spans + [e], e.end)
  {
    SpanEnds(q, text, e);
    OkAppend(q, text, spans, e);
    MeetAppend(spans, e);
    hide SpanOk, PairsBefore, ModeAt, InComment, AllOk, Meet;
    var grown := spans + [e];
    OkBegins(q, text, grown);
    assert grown[|grown| - 1] == e &&
      (if spans == [] then grown[0] == e else grown[0] == spans[0] && spans[|spans| - 1].end == pos);
  }

  lemma OkBegins(q: RawQuery, text: Bytes, spans: seq<Parsed>)
    requires AllOk(q, text, spans)
    ensures forall i :: 0 <= i < |spans| ==> spans[i].begin <= |text|
  {
  }

  lemma OkAppend(q: RawQuery, text: Bytes, spans: seq<Parsed>, e: Parsed)
    requires AllOk(q, text, spans) && SpanOk(q, text, e)
    ensures AllOk(q, text, spans + [e])
  {
    hide SpanOk;
  }

  lemma MeetAppend(spans: seq<Parsed>, e: Parsed)
    requires Meet(spans) && (spans != [] ==> spans[|spans| - 1].end == e.begin)
    ensures Meet(spans + [e])
  {
  }

  lemma SpanEnds(q: RawQuery, text: Bytes, e: Parsed)
    requires SpanOk(q, text, e)
    ensures e.end <= |text|
  {
  }

  /** `r` is `s` with the event `e` recorded behind the others. */
  ghost predicate Grown(s: StoreState, r: StoreState, e: Parsed) {
    && s.parsedNr <= |s.parsed|
    && r.parsedNr == s.parsedNr + 1 == |r.parsed|
    && r.parsed == s.parsed[..s.parsedNr] + [e]
  }

  lemma RecordGrows(q: RawQuery, s: StoreState, ty: EventType, begin: nat, end: nat, stem: Stem)
    requires |s.parsed| == (if s.parsedNr == 0 then 1 else s.parsedNr)
    ensures Grown(s, Record(q, s, ty, begin, end, stem), Parsed(begin, end, ty, ty == Section && q.InSection(stem)))
  {
  }

  /** Only entries match, and a header is a place to insert when it is of the key's section. */
  lemma NoEntryKind(q: RawQuery, text: Bytes, e: Parsed)
    requires e.ty != Entry
    ensures !Matched(q, text, e) && (Anchor(q, text, e) <==> e.ty == Section && e.isKeysSection)
  {
    hide ItemAt, StemAt;
  }

  lemma SeenBlank(q: RawQuery, text: Bytes, s: StoreState, r: StoreState, e: Parsed)
    requires SeenOk(q, text, s) && Grown(s, r, e)
    requires r == s.(parsed := r.parsed, parsedNr := r.parsedNr)
    requires e.ty != Entry && !(e.ty == Section && e.isKeysSection)
    ensures SeenOk(q, text, r)
  {
    hide Matched, Anchor;
    NoEntryKind(q, text, e);
    assert forall k :: 0 <= k < s.parsedNr ==> r.parsed[k] == s.parsed[k];
    assert r.parsed[s.parsedNr] == e;
  }

  /** A header of the key's section becomes the place to insert, until a key is seen. */
  lemma SeenHeader(q: RawQuery, text: Bytes, s: StoreState, r: StoreState, e: Parsed)
    requires SeenOk(q, text, s) && Grown(s, r, e)
    requires e.ty == Section && e.isKeysSection
    requires r == PutSeen(s.(sectionSeen := true), s.parsedNr).(
      parsed := r.parsed, parsedNr := r.parsedNr, isKeysSection := r.isKeysSection)
    ensures SeenOk(q, text, r)
  {
    hide *;
    NoEntryKind(q, text, e);
    if s.keySeen { HeaderBehind(q, text, s, r, e); } else { HeaderFirst(q, text, s, r, e); }
  }

  lemma HeaderBehind(q: RawQuery, text: Bytes, s: StoreState, r: StoreState, e: Parsed)
    requires SeenOk(q, text, s) && Grown(s, r, e) && s.keySeen && !Matched(q, text, e)
    requires r == PutSeen(s.(sectionSeen := true), s.parsedNr).(
      parsed := r.parsed, parsedNr := r.parsedNr, isKeysSection := r.isKeysSection)
    ensures SeenOk(q, text, r)
  {
    hide Matched, Anchor;
    assert forall k :: 0 <= k < s.parsedNr ==> r.parsed[k] == s.parsed[k];
    assert r.parsed[s.parsedNr] == e;
    assert r.seen[..s.seenNr] == s.seen[..s.seenNr];
  }

  lemma HeaderFirst(q: RawQuery, text: Bytes, s: StoreState, r: StoreState, e: Parsed)
    requires SeenOk(q, text, s) && Grown(s, r, e) && !s.keySeen && !Matched(q, text, e) && Anchor(q, text, e)
    requires r == PutSeen(s.(sectionSeen := true), s.parsedNr).(
      parsed := r.parsed, parsedNr := r.parsedNr, isKeysSection := r.isKeysSection)
    ensures SeenOk(q, text, r)
  {
    hide Matched, Anchor;
    assert forall k :: 0 <= k < s.parsedNr ==> r.parsed[k] == s.parsed[k];
    assert r.parsed[s.parsedNr] == e;
  }

  lemma EntryKind(q: RawQuery, text: Bytes, e: Parsed, p: Pair)
    requires e.ty == Entry && e.begin < |text| && ItemAt(text, e.begin).pairs == [p]
    ensures Matched(q, text, e) == q.Matches(p) && Anchor(q, text, e) == q.InSection(StemAt(text, e.begin))
  {
    hide ItemAt, StemAt;
  }

  lemma SeenEntry(q: RawQuery, text: Bytes, s: StoreState, r: StoreState, e: Parsed, p: Pair)
    requires SeenOk(q, text, s) && Grown(s, r, e)
    requires e.ty == Entry && e.begin < |text| && ItemAt(text, e.begin).pairs == [p]
    requires s.isKeysSection == q.InSection(StemAt(text, e.begin))
    requires q.Matches(p) ==> s.isKeysSection
    requires r == OnPair(q, s, p).(parsed := r.parsed, parsedNr := r.parsedNr)
    ensures SeenOk(q, text, r)
  {
    hide *;
    EntryKind(q, text, e, p);
    if s.keySeen { SeenOneMore(q, text, s, r, e, p); } else { SeenFirst(q, text, s, r, e, p); }
  }

  lemma SeenOneMore(q: RawQuery, text: Bytes, s: StoreState, r: StoreState, e: Parsed, p: Pair)
    requires SeenOk(q, text, s) && Grown(s, r, e) && s.keySeen && Matched(q, text, e) == q.Matches(p)
    requires r == OnPair(q, s, p).(parsed := r.parsed, parsedNr := r.parsedNr)
    ensures SeenOk(q, text, r)
  {
    hide Matched, Anchor;
    assert forall k :: 0 <= k < s.parsedNr ==> r.parsed[k] == s.parsed[k];
    assert r.parsed[s.parsedNr] == e;
    if q.Matches(p) {
      hide OnPair, PutSeen, SeenOk;
      SeenPlaced(q, s, p);
      SeenAppend(q, text, s, r, e);
    } else {
      assert r.seen[..s.seenNr] == s.seen[..s.seenNr];
    }
  }

  lemma SeenPlaced(q: RawQuery, s: StoreState, p: Pair)
    requires s.keySeen && q.Matches(p) && s.seenNr <= |s.seen|
    ensures var r := OnPair(q, s, p);
      && r.keySeen && r.seenNr == s.seenNr + 1 <= |r.seen| && r.seen[..r.seenNr] == s.seen[..s.seenNr] + [s.parsedNr]
      && r.sectionSeen == s.sectionSeen && r.seenTouched
  {
  }

  lemma SeenAppend(q: RawQuery, text: Bytes, s: StoreState, r: StoreState, e: Parsed)
    requires SeenOk(q, text, s) && Grown(s, r, e) && s.keySeen && Matched(q, text, e)
    requires r.keySeen && r.seenNr == s.seenNr + 1 <= |r.seen|
    requires r.seen[..r.seenNr] == s.seen[..s.seenNr] + [s.parsedNr]
    requires r.sectionSeen == s.sectionSeen && r.seenTouched
    ensures SeenOk(q, text, r)
  {
    hide *;
    SeenHas(q, text, s);
    GrownHas(s, r, e);
    var was, now := s.seen[..s.seenNr], r.seen[..r.seenNr];
    assert now[s.seenNr] == s.parsedNr && forall i :: 0 <= i < s.seenNr ==> now[i] == was[i];
    forall i | 0 <= i < r.seenNr
      ensures r.seen[i] < r.parsedNr && Matched(q, text, r.parsed[r.seen[i]])
    {
      assert r.seen[i] == now[i];
      if i < s.seenNr { assert s.seen[i] == was[i]; }
    }
    forall i, j | 0 <= i < j < r.seenNr
      ensures r.seen[i] < r.seen[j]
    {
      assert r.seen[i] == now[i] == s.seen[i] && r.seen[j] == now[j];
      if j < s.seenNr { assert s.seen[j] == now[j]; }
    }
    forall k | 0 <= k < r.parsedNr && Matched(q, text, r.parsed[k])
      ensures k in now
    {
      if k < s.parsedNr { assert k in was; }
    }
    SeenBy(q, text, r);
  }

  lemma SeenHas(q: RawQuery, text: Bytes, s: StoreState)
    requires SeenOk(q, text, s) && s.keySeen
    ensures s.parsedNr <= |s.parsed| && 0 < s.seenNr <= |s.seen| && s.sectionSeen && s.seenTouched
    ensures forall i :: 0 <= i < s.seenNr ==> s.seen[i] < s.parsedNr && Matched(q, text, s.parsed[s.seen[i]])
    ensures forall i, j :: 0 <= i < j < s.seenNr ==> s.seen[i] < s.seen[j]
    ensures forall k :: 0 <= k < s.parsedNr && Matched(q, text, s.parsed[k]) ==> k in s.seen[..s.seenNr]
  {
    hide Matched, Anchor;
  }

  lemma SeenBy(q: RawQuery, text: Bytes, s: StoreState)
    requires s.parsedNr <= |s.parsed| && s.keySeen && 0 < s.seenNr <= |s.seen| && s.sectionSeen && s.seenTouched
    requires forall i :: 0 <= i < s.seenNr ==> s.seen[i] < s.parsedNr && Matched(q, text, s.parsed[s.seen[i]])
    requires forall i, j :: 0 <= i < j < s.seenNr ==> s.seen[i] < s.seen[j]
    requires forall k :: 0 <= k < s.parsedNr && Matched(q, text, s.parsed[k]) ==> k in s.seen[..s.seenNr]
    ensures SeenOk(q, text, s)
  {
    hide Matched, Anchor;
  }

  lemma GrownHas(s: StoreState, r: StoreState, e: Parsed)
    requires Grown(s, r, e)
    ensures s.parsedNr <= |s.parsed| && r.parsedNr == s.parsedNr + 1 == |r.parsed| && r.parsed[s.parsedNr] == e
    ensures forall k :: 0 <= k < s.parsedNr ==> r.parsed[k] == s.parsed[k]
  {
  }

  lemma SeenFirst(q: RawQuery, text: Bytes, s: StoreState, r: StoreState, e: Parsed, p: Pair)
    requires SeenOk(q, text, s) && Grown(s, r, e) && !s.keySeen && Matched(q, text, e) == q.Matches(p)
    requires Anchor(q, text, e) == s.isKeysSection && (q.Matches(p) ==> s.isKeysSection)
    requires r == OnPair(q, s, p).(parsed := r.parsed, parsedNr := r.parsedNr)
    ensures SeenOk(q, text, r)
  {
    hide Matched, Anchor;
    assert forall k :: 0 <= k < s.parsedNr ==> r.parsed[k] == s.parsed[k];
    assert r.parsed[s.parsedNr] == e;
    if q.Matches(p) {
      assert r.seen[..r.seenNr] == [s.parsedNr];
    }
  }

  // ---- the induction ----------------------------------------------------------------------

  function StemOf(m: Mode): Stem { if TopLike(m) then AsTop(m).stem else NO_STEM }

  /** Between two items of the parse of `text`. */
  ghost predicate Running(q: RawQuery, text: Bytes, s: StoreState, m: Mode, pos: nat) {
    && pos <= |text| && Whole(text, pos)
    && (TopLike(m) || m.Bom?) && m == ModeAt(text, pos)
    && s.parsedNr <= |s.parsed|
    && (if s.previousType == Eof then s == EMPTY_STORE && m.Bom? else s.previousOffset < pos && m.Top?)
    && (m.Top? ==> (m.comment <==> s.previousType == Comment))
    && Good(q, text, Flush(q, s, pos, StemOf(m)), pos, StemOf(m))
  }

  ghost predicate FinalGood(q: RawQuery, text: Bytes, f: StoreState) {
    && SeenOk(q, text, f)
    && |f.parsed| == (if f.parsedNr == 0 then 1 else f.parsedNr)
    && Tiled(q, text, f.parsed[..f.parsedNr], |text|)
    && (f.parsedNr == 0 ==> f == EMPTY_STORE.(previousOffset := |text|) && ModeAt(text, |text|).Bom?)
  }

  lemma {:induction false} ItemLast(m: Mode, r: Bytes)
    requires InItem(m) && !ToTop(m, r).mode.Failed?
    ensures var x := ToTop(m, r).len; x == |r| || (x > 0 && r[x - 1] != CR)
    decreases |r|
  {
    hide *;
    if r != [] {
      var c, n := CharAt(r), CharLen(r);
      ItemNext(m, r);
      if InItem(Delta(m, c)) {
        ItemLast(Delta(m, c), r[n..]);
      } else {
        CrStays(m);
      }
    }
  }

  /** One character of an item: it is the last byte of what it takes, and the item ends or goes on behind it. */
  lemma ItemNext(m: Mode, r: Bytes)
    requires InItem(m) && r != [] && !ToTop(m, r).mode.Failed?
    ensures var t := ToTop(Delta(m, CharAt(r)), r[CharLen(r)..]);
      !t.mode.Failed? && ToTop(m, r).len == CharLen(r) + t.len && (!InItem(Delta(m, CharAt(r))) ==> t.len == 0)
    ensures InItem(Delta(m, CharAt(r))) || Delta(m, CharAt(r)).Top?
    ensures r[CharLen(r) - 1] == CharAt(r)
  {
    hide Delta, PairOf;
    ItemCharKind(m, CharAt(r));
  }

  lemma CrStays(m: Mode)
    requires InItem(m)
    ensures !Delta(m, CR).Top?
  {
  }

  /** The event in progress ends with the byte before the last of the next character. */
  ghost predicate Reached(q: RawQuery, text: Bytes, s: StoreState, m: Mode, pos: nat)
    requires s.parsedNr <= |s.parsed| && pos < |text| && TopLike(m)
  {
    var o := pos + CharLen(text[pos..]) - 1;
    && Good(q, text, Flush(q, s, o, StemOf(m)), o, StemOf(m))
    && TopLike(ModeAt(text, o)) && AsTop(ModeAt(text, o)) == AsTop(m)
    && PairsBefore(text, o) == PairsBefore(text, pos)
  }

  lemma ReachedIs(q: RawQuery, text: Bytes, s: StoreState, m: Mode, pos: nat)
    requires s.parsedNr <= |s.parsed| && pos < |text| && TopLike(m) && Reached(q, text, s, m, pos)
    ensures var o := pos + CharLen(text[pos..]) - 1;
      && Good(q, text, Flush(q, s, o, StemOf(m)), o, StemOf(m))
      && TopLike(ModeAt(text, o)) && AsTop(ModeAt(text, o)) == AsTop(m)
      && PairsBefore(text, o) == PairsBefore(text, pos)
  {
    hide Good, Flush, ModeAt, PairsBefore;
  }

  /** The event in progress reaches to the first byte of the next one, past the CR of a CR LF. */
  lemma ReachEvent(q: RawQuery, text: Bytes, s: StoreState, m: Mode, pos: nat)
    requires s.parsedNr <= |s.parsed| && pos < |text| && TopLike(m) && Running(q, text, s, m, pos)
    ensures Reached(q, text, s, m, pos)
  {
    hide Good, SpanOk, ModeAt, PairsBefore, Delta, PairOf, ItemAt, Record, Flush, Walk, Pairs;
    var r, stem := text[pos..], StemOf(m);
    if CharLen(r) == 2 {
      ModeOn(text, pos, pos + 1);
      assert text[pos..pos + 1] == [CR] && text[pos + 1] == LF;
      WalkOne(m, CR);
      CrOnTop(m);
      assert PairsBefore(text, pos) + [] == PairsBefore(text, pos);
      var f := Flush(q, s, pos, stem);
      if s.previousType != Eof {
        FlushNr(q, s, pos, stem);
        LastSpan(q, text, f, pos, stem);
        StretchCr(q, text, f.parsed[f.parsedNr - 1], pos);
        FlushMoves(q, s, pos, pos + 1, stem);
        Extend(q, text, f, pos, pos + 1, stem);
      } else {
        assert f == s == Flush(q, s, pos + 1, stem) by { NoFlush(q, s, pos, stem); NoFlush(q, s, pos + 1, stem); }
        NoSpans(q, text, s, pos, pos + 1, stem);
      }
    }
  }

  lemma NoFlush(q: RawQuery, s: StoreState, pos: nat, stem: Stem)
    requires s.parsedNr <= |s.parsed| && s.previousType == Eof
    ensures Flush(q, s, pos, stem) == s
  {
  }

  lemma FlushNr(q: RawQuery, s: StoreState, pos: nat, stem: Stem)
    requires s.parsedNr <= |s.parsed| && s.previousType != Eof
    ensures var f := Flush(q, s, pos, stem); f.parsedNr == s.parsedNr + 1 <= |f.parsed|
  {
  }

  lemma LastSpan(q: RawQuery, text: Bytes, s: StoreState, pos: nat, stem: Stem)
    requires Good(q, text, s, pos, stem) && s.parsedNr > 0
    ensures s.parsedNr <= |s.parsed| && SpanOk(q, text, s.parsed[s.parsedNr - 1])
    ensures s.parsed[s.parsedNr - 1].end == pos <= |text|
  {
    hide SpanOk, PairsBefore, SeenOk;
    assert s.parsedNr <= |s.parsed|;
    assert s.parsed[..s.parsedNr][s.parsedNr - 1] == s.parsed[s.parsedNr - 1];
  }

  lemma NoSpans(q: RawQuery, text: Bytes, s: StoreState, pos: nat, pos2: nat, stem: Stem)
    requires Good(q, text, s, pos, stem) && s.parsedNr == 0 && pos2 <= |text|
    requires PairsBefore(text, pos2) == PairsBefore(text, pos) && !InComment(ModeAt(text, pos2)) && AtFront(text, pos2)
    ensures Good(q, text, s, pos2, stem)
  {
    hide SeenOk, SpanOk, PairsBefore;
    assert s.parsed[..s.parsedNr] == [];
  }

  lemma CrOnTop(m: Mode)
    requires TopLike(m)
    ensures Delta(m, CR) == AsTop(m) && PairOf(m, CR) == []
  {
  }

  lemma StretchCr(q: RawQuery, text: Bytes, e: Parsed, pos: nat)
    requires SpanOk(q, text, e) && e.end == pos < pos + 1 < |text|
    requires text[pos] == CR && text[pos + 1] == LF && Whole(text, pos)
    requires ModeAt(text, pos).Top? && ModeAt(text, pos + 1) == ModeAt(text, pos)
    requires PairsBefore(text, pos + 1) == PairsBefore(text, pos)
    ensures SpanOk(q, text, e.(end := pos + 1))
  {
    hide ModeAt, PairsBefore, ItemAt;
  }

  /** The store right after an event of type `ty` was opened at `o`. */
  function Opened(f: StoreState, ty: EventType, o: nat): StoreState {
    f.(previousType := ty, previousOffset := o)
  }

  /** A blank or a comment opens an event of its own. */
  lemma OpenBlank(q: RawQuery, text: Bytes, f: StoreState, o: nat, pos: nat, ty: EventType, stem: Stem)
    requires Good(q, text, f, o, stem) && o < pos <= |text|
    requires SpanOk(q, text, Parsed(o, pos, ty, false)) && (ty == Whitespace || ty == Comment)
    ensures Good(q, text, Flush(q, Opened(f, ty, o), pos, stem), pos, stem)
  {
    hide SpanOk, PairsBefore, ModeAt;
    var s, e := Opened(f, ty, o), Parsed(o, pos, ty, false);
    var r := Record(q, s, ty, o, pos, stem);
    RecordGrows(q, s, ty, o, pos, stem);
    TiledAppend(q, text, f.parsed[..f.parsedNr], o, e);
    SeenSame(q, text, f, s);
    SeenBlank(q, text, s, r, e);
    assert r.parsed[..r.parsedNr] == f.parsed[..f.parsedNr] + [e];
  }

  /** `seen` does not depend on the event in progress. */
  lemma SeenSame(q: RawQuery, text: Bytes, f: StoreState, s: StoreState)
    requires SeenOk(q, text, f) && s == f.(previousType := s.previousType, previousOffset := s.previousOffset)
    ensures SeenOk(q, text, s)
  {
    hide Matched, Anchor;
  }

  lemma OpenHeader(q: RawQuery, text: Bytes, f: StoreState, o: nat, pos: nat, stem: Stem, stem2: Stem)
    requires Good(q, text, f, o, stem) && o < pos <= |text|
    requires SpanOk(q, text, Parsed(o, pos, Section, q.InSection(stem2))) && stem2 == ItemAt(text, o).mode.stem
    ensures Good(q, text, Flush(q, Opened(f, Section, o), pos, stem2), pos, stem2)
  {
    hide SpanOk, SeenOk, Tiled, PairsBefore, ModeAt, ItemAt;
    var s, e := Opened(f, Section, o), Parsed(o, pos, Section, q.InSection(stem2));
    var r := Record(q, s, Section, o, pos, stem2);
    RecordGrows(q, s, Section, o, pos, stem2);
    TiledAppend(q, text, f.parsed[..f.parsedNr], o, e);
    SeenSame(q, text, f, s);
    assert r.parsed[..r.parsedNr] == f.parsed[..f.parsedNr] + [e];
    HeaderSeen(q, text, s, r, o, pos, stem2);
  }

  lemma HeaderSeen(q: RawQuery, text: Bytes, s: StoreState, r: StoreState, o: nat, pos: nat, stem: Stem)
    requires s.parsedNr <= |s.parsed| && r == Record(q, s, Section, o, pos, stem) && SeenOk(q, text, s)
    requires Grown(s, r, Parsed(o, pos, Section, q.InSection(stem)))
    ensures SeenOk(q, text, r)
  {
    hide SeenOk, Grown;
    var e := Parsed(o, pos, Section, q.InSection(stem));
    if e.isKeysSection {
      SeenHeader(q, text, s, r, e);
    } else {
      GrownKeys(s, r, e);
      SeenBlank(q, text, s, r.(isKeysSection := s.isKeysSection), e);
      KeysFlag(q, text, r.(isKeysSection := s.isKeysSection), r);
    }
  }

  lemma GrownKeys(s: StoreState, r: StoreState, e: Parsed)
    requires Grown(s, r, e)
    ensures Grown(s, r.(isKeysSection := s.isKeysSection), e)
  {
  }

  /** Nor on the section in force. */
  lemma KeysFlag(q: RawQuery, text: Bytes, f: StoreState, s: StoreState)
    requires s == f.(isKeysSection := s.isKeysSection)
    ensures SeenOk(q, text, f) ==> SeenOk(q, text, s)
  {
    hide Matched, Anchor;
  }

  lemma OpenEntry(q: Query, text: Bytes, f: StoreState, o: nat, pos: nat, stem: Stem, p: Pair)
    requires Good(q, text, f, o, stem) && o < pos <= |text|
    requires SpanOk(q, text, Parsed(o, pos, Entry, false)) && ItemAt(text, o).pairs == [p]
    requires StemAt(text, o) == stem && KeyOk(stem, p.key)
    ensures Good(q, text, Flush(q, OnPair(q, Opened(f, Entry, o), p), pos, stem), pos, stem)
  {
    hide SpanOk, PairsBefore, ModeAt, ItemAt, StemAt;
    var s, e := Opened(f, Entry, o), Parsed(o, pos, Entry, false);
    var s1 := OnPair(q, s, p);
    var r := Record(q, s1, Entry, o, pos, stem);
    RecordGrows(q, s1, Entry, o, pos, stem);
    TiledAppend(q, text, f.parsed[..f.parsedNr], o, e);
    SeenSame(q, text, f, s);
    if q.Matches(p) { MatchInSection(q, stem, p); }
    SeenEntry(q, text, s, r, e, p);
    assert r.parsed[..r.parsedNr] == f.parsed[..f.parsedNr] + [e];
  }

  /** More of a comment, or of a run of blanks. */
  lemma StepSame(q: RawQuery, text: Bytes, s: StoreState, m: Mode, pos: nat)
    requires Running(q, text, s, m, pos) && m.Top? && pos < |text|
    requires var c := CharAt(text[pos..]); Delta(m, c) == m && PairOf(m, c) == []
    requires s.previousType == Comment || s.previousType == Whitespace
    ensures Running(q, text, s, m, pos + CharLen(text[pos..]))
  {
    hide *;
    RunningPending(q, text, s, m, pos);
    var n, stem := CharLen(text[pos..]), m.stem;
    RunningHere(q, text, s, m, pos);
    ModeChar(text, pos);
    NothingAdded(PairsBefore(text, pos));
    var f := Flush(q, s, pos, stem);
    FlushType(q, s, pos, stem);
    LastSpan(q, text, f, pos, stem);
    SameChar(m, text, pos);
    StretchBlank(q, text, f.parsed[f.parsedNr - 1], pos, pos + n);
    FlushMoves(q, s, pos, pos + n, stem);
    Extend(q, text, f, pos, pos + n, stem);
    NowRunning(q, text, s, m, pos + n, s.previousType, s.previousOffset);
  }

  lemma RunningPending(q: RawQuery, text: Bytes, s: StoreState, m: Mode, pos: nat)
    requires Running(q, text, s, m, pos) && m.Top?
    ensures s.previousType != Eof && s.previousOffset < pos && (m.comment <==> s.previousType == Comment)
    ensures s.parsedNr <= |s.parsed| && Good(q, text, Flush(q, s, pos, m.stem), pos, m.stem)
  {
    hide Good;
  }

  lemma FlushType(q: RawQuery, s: StoreState, pos: nat, stem: Stem)
    requires s.parsedNr <= |s.parsed| && s.previousType != Eof
    ensures var f := Flush(q, s, pos, stem);
      0 < f.parsedNr <= |f.parsed| && f.parsed[f.parsedNr - 1].ty == s.previousType
  {
  }

  lemma StretchBlank(q: RawQuery, text: Bytes, e: Parsed, pos: nat, pos2: nat)
    requires SpanOk(q, text, e) && e.end == pos < pos2 <= |text| && (e.ty == Whitespace || e.ty == Comment)
    requires ModeAt(text, pos2) == ModeAt(text, pos) && PairsBefore(text, pos2) == PairsBefore(text, pos)
    requires if e.ty == Comment then WithoutLine(text, pos, pos2) else BlankBytes(text, pos, pos2)
    ensures SpanOk(q, text, e.(end := pos2))
  {
    hide ModeAt, PairsBefore, ItemAt, IsSpace;
  }

  /** What may stand in a run of blanks, and in a comment. */
  lemma SameChar(m: Mode, text: Bytes, pos: nat)
    requires m.Top? && pos < |text| && Delta(m, CharAt(text[pos..])) == m
    ensures pos + CharLen(text[pos..]) <= |text|
    ensures if m.comment then WithoutLine(text, pos, pos + CharLen(text[pos..]))
            else BlankBytes(text, pos, pos + CharLen(text[pos..]))
  {
  }

  /** A byte of the byte-order mark. */
  lemma StepBom(q: RawQuery, text: Bytes, s: StoreState, m: Mode, pos: nat)
    requires Running(q, text, s, m, pos) && m.Bom? && pos < |text|
    requires Delta(m, CharAt(text[pos..])).Bom?
    ensures Running(q, text, s, Delta(m, CharAt(text[pos..])), pos + CharLen(text[pos..]))
  {
    hide ModeAt, PairsBefore, Good, Delta, PairOf, CharLen, CharAt, Flush;
    BomWhole(m, text, pos);
    ModeChar(text, pos);
    NothingAdded(PairsBefore(text, pos));
    NoFlush(q, s, pos, NO_STEM);
    NoFlush(q, s, pos + CharLen(text[pos..]), NO_STEM);
    NoSpans(q, text, s, pos, pos + CharLen(text[pos..]), NO_STEM);
  }

  lemma BomWhole(m: Mode, text: Bytes, pos: nat)
    requires m.Bom? && pos < |text| && Whole(text, pos)
    ensures StemOf(m) == NO_STEM && PairOf(m, CharAt(text[pos..])) == []
    ensures Delta(m, CharAt(text[pos..])).Bom? ==> StemOf(Delta(m, CharAt(text[pos..]))) == NO_STEM
  {
  }

  /** A blank or a comment sign that opens an event. */
  lemma StepBlank(q: RawQuery, text: Bytes, s: StoreState, m: Mode, pos: nat, ty: EventType)
    requires Running(q, text, s, m, pos) && TopLike(m) && pos < |text|
    requires EventOf(m, CharAt(text[pos..])) == Some(ty) && (ty == Whitespace || ty == Comment)
    requires !(ty == Whitespace && s.previousType == Whitespace)
    ensures s.parsedNr <= |s.parsed|
    ensures var c, n := CharAt(text[pos..]), CharLen(text[pos..]);
      Running(q, text, DoEvent(q, s, ty, pos + n - 1, StemOf(m)), Delta(m, c), pos + n)
  {
    hide *;
    var c, n, stem := CharAt(text[pos..]), CharLen(text[pos..]), StemOf(m);
    var o := pos + n - 1;
    RunningHere(q, text, s, m, pos);
    ReachEvent(q, text, s, m, pos);
    ReachedIs(q, text, s, m, pos);
    ModeChar(text, pos);
    BlankChar(m, c, ty);
    LastByte(text, pos);
    CharFirst(text[pos..]);
    QuietIs(m, ModeAt(text, o));
    SameOpens(ty, m, ModeAt(text, o), c);
    NotAtCrLf(text, pos);
    assert n == 1 ==> o == pos;
    NothingAdded(PairsBefore(text, pos));
    DoEventOpens(q, s, ty, o, stem);
    BlankSpan(q, text, o, pos + n, ty, stem);
    var f := Flush(q, s, o, stem);
    OpenBlank(q, text, f, o, pos + n, ty, stem);
    OpenedFields(f, ty, o);
    NowRunning(q, text, Opened(f, ty, o), Delta(m, c), pos + n, ty, o);
  }

  lemma LastByte(text: Bytes, pos: nat)
    requires pos < |text|
    ensures var n := CharLen(text[pos..]); pos + n <= |text| && text[pos + n - 1] == CharAt(text[pos..])
  {
  }

  lemma SameOpens(ty: EventType, m: Mode, n: Mode, c: Byte)
    requires Quiet(m) == Quiet(n) && Opens(ty, m, c)
    ensures Opens(ty, n, c)
  {
  }

  lemma NotAtCrLf(text: Bytes, pos: nat)
    requires pos < |text|
    ensures !AtCrLf(text, pos + CharLen(text[pos..]) - 1)
  {
  }

  lemma RunningHere(q: RawQuery, text: Bytes, s: StoreState, m: Mode, pos: nat)
    requires Running(q, text, s, m, pos)
    ensures pos <= |text| && Whole(text, pos) && m == ModeAt(text, pos) && s.parsedNr <= |s.parsed|
  {
    hide Good;
  }

  lemma OpenedFields(f: StoreState, ty: EventType, o: nat)
    ensures var s := Opened(f, ty, o);
      s.previousType == ty && s.previousOffset == o && s.parsed == f.parsed && s.parsedNr == f.parsedNr
  {
  }

  lemma QuietIs(m: Mode, n: Mode)
    requires TopLike(m) && TopLike(n) && AsTop(m) == AsTop(n)
    ensures Quiet(m) == Quiet(n) && StemOf(m) == AsTop(n).stem
  {
  }

  lemma NothingAdded(ps: seq<Pair>)
    ensures ps + [] == ps
  {
  }

  lemma DoEventOpens(q: RawQuery, s: StoreState, ty: EventType, o: nat, stem: Stem)
    requires s.parsedNr <= |s.parsed|
    ensures DoEvent(q, s, ty, o, stem) ==
      if ty == Whitespace && s.previousType == Whitespace then s else Opened(Flush(q, s, o, stem), ty, o)
  {
  }

  lemma BlankSpan(q: RawQuery, text: Bytes, o: nat, pos: nat, ty: EventType, stem: Stem)
    requires o < pos <= |text| && TopLike(ModeAt(text, o)) && AsTop(ModeAt(text, o)).stem == stem
    requires (ty == Whitespace || ty == Comment) && Opens(ty, ModeAt(text, o), text[o])
    requires pos == o + 1 && !AtCrLf(text, o)
    requires ModeAt(text, pos) == Top(stem, ty == Comment) && PairsBefore(text, pos) == PairsBefore(text, o)
    ensures SpanOk(q, text, Parsed(o, pos, ty, false))
  {
    hide ModeAt, PairsBefore, ItemAt;
  }

  lemma NowRunning(q: RawQuery, text: Bytes, s: StoreState, m: Mode, pos: nat, ty: EventType, o: nat)
    requires o < pos <= |text| && Whole(text, pos) && m == ModeAt(text, pos) && m.Top? && (m.comment <==> ty == Comment)
    requires s.parsedNr <= |s.parsed| && s.previousType == ty != Eof && s.previousOffset == o
    requires Good(q, text, Flush(q, s, pos, m.stem), pos, m.stem)
    ensures Running(q, text, s, m, pos)
  {
    hide ModeAt, Good, Flush;
  }

  /** The characters that open a run of blanks, and a comment. */
  predicate Opens(ty: EventType, m: Mode, c: Byte) {
    if ty == Comment then Quiet(m) && (c == HASH || c == SEMICOLON) else IsSpace(c) && (Quiet(m) || c == LF)
  }

  lemma BlankChar(m: Mode, c: Byte, ty: EventType)
    requires TopLike(m) && EventOf(m, c) == Some(ty) && (ty == Whitespace || ty == Comment)
    ensures Delta(m, c) == Top(StemOf(m), ty == Comment) && PairOf(m, c) == []
    ensures Opens(ty, m, c)
  {
  }

  predicate InHeader(m: Mode) { m.BaseVar? || m.ExtSpace? || m.ExtBody? || m.ExtEscape? || m.ExtClose? }

  lemma HeaderChar(m: Mode, c: Byte)
    requires InHeader(m)
    ensures PairOf(m, c) == [] && (c == LF ==> Delta(m, c).Failed?)
    ensures InHeader(Delta(m, c)) || Delta(m, c).Failed? || (Delta(m, c).Top? && !Delta(m, c).comment)
  {
  }

  /** A header that parses ends inside the text and delivers nothing. */
  lemma {:induction false} HeaderItem(m: Mode, r: Bytes)
    requires InHeader(m)
    ensures var t := ToTop(m, r);
      t.mode.Failed? || (t.mode.Top? && !t.mode.comment && t.pairs == [] && Walk(m, r[..t.len]) == t.mode)
    decreases |r|
  {
    hide *;
    var c, n := if r == [] then LF else CharAt(r), if r == [] then 0 else CharLen(r);
    HeaderChar(m, c);
    HeaderNotTop(m);
    ItemTakes(m, r, c, n);
    var t, m1 := ToTop(m, r), Delta(m, c);
    var t1 := ToTop(m1, r[n..]);
    assert [] + t1.pairs == t1.pairs && r[n..][..0] == [];
    if InHeader(m1) {
      HeaderNotTop(m1);
      HeaderItem(m1, r[n..]);
    } else {
      TopIsTopLike(m1);
      ToTopDone(m1, r[n..]);
      WalkNothing(m1);
    }
    if !m1.Failed? { WalkTake(m, r, t.len); }
  }

  lemma HeaderNotTop(m: Mode)
    requires InHeader(m)
    ensures !TopLike(m) && !m.Failed?
  {
  }

  /** A section header. */
  lemma StepHeader(q: RawQuery, text: Bytes, s: StoreState, m: Mode, pos: nat)
    requires Running(q, text, s, m, pos) && Quiet(m) && pos < |text| && text[pos] == LBRACKET
    requires !ItemAt(text, pos).mode.Failed?
    ensures Running(q, text, DoEvent(q, s, Section, pos, StemOf(m)), ItemAt(text, pos).mode, ItemEnd(text, pos))
  {
    hide *;
    var t, x, stem := ItemAt(text, pos), ItemEnd(text, pos), StemOf(m);
    RunningHere(q, text, s, m, pos);
    ItemFirst(text, pos);
    ReachEvent(q, text, s, m, pos);
    ReachedIs(q, text, s, m, pos);
    HeaderMode(text, pos);
    ItemOn(text, pos);
    DoEventOpens(q, s, Section, pos, stem);
    var f := Flush(q, s, pos, stem);
    HeaderSpan(q, text, pos);
    WholeAfter(text, pos);
    OpenHeader(q, text, f, pos, x, stem, t.mode.stem);
    StemOfTop(t.mode);
    OpenedFields(f, Section, pos);
    NowRunning(q, text, Opened(f, Section, pos), t.mode, x, Section, pos);
  }

  lemma StemOfTop(m: Mode)
    requires m.Top?
    ensures StemOf(m) == m.stem && TopLike(m)
  {
  }

  lemma HeaderMode(text: Bytes, b: nat)
    requires b < |text| && Quiet(ModeAt(text, b)) && text[b] == LBRACKET && !ItemAt(text, b).mode.Failed?
    ensures var t := ItemAt(text, b);
      t.mode.Top? && !t.mode.comment && t.pairs == [] && ModeAt(text, ItemEnd(text, b)) == t.mode
  {
    var r, t, x := text[b + 1..], ItemAt(text, b), ItemEnd(text, b);
    assert CharLen(text[b..]) == 1 && CharAt(text[b..]) == LBRACKET && Delta(ModeAt(text, b), LBRACKET) == BaseVar([]);
    ModeChar(text, b);
    HeaderItem(BaseVar([]), r);
    hide *;
    assert text[b + 1..x] == r[..t.len];
    ModeOn(text, b + 1, x);
  }

  lemma HeaderSpan(q: RawQuery, text: Bytes, b: nat)
    requires b < |text| && Quiet(ModeAt(text, b)) && text[b] == LBRACKET
    requires ItemAt(text, b).mode.Top? && !ItemAt(text, b).mode.comment && ItemAt(text, b).pairs == []
    ensures SpanOk(q, text, Parsed(b, ItemEnd(text, b), Section, q.InSection(ItemAt(text, b).mode.stem)))
  {
    hide ModeAt, ItemAt, ItemEnd;
  }

  lemma WholeAfter(text: Bytes, b: nat)
    requires b < |text| && InItem(Delta(ModeAt(text, b), text[b])) && !ItemAt(text, b).mode.Failed? && text[b] != CR
    ensures Whole(text, ItemEnd(text, b))
  {
    hide Delta, ToTop, ModeAt, InItem;
    ItemLast(Delta(ModeAt(text, b), text[b]), text[b + 1..]);
  }

  lemma EntryMode(text: Bytes, b: nat)
    requires b < |text| && Quiet(ModeAt(text, b)) && IsAlpha(text[b]) && !ItemAt(text, b).mode.Failed?
    ensures var t, stem := ItemAt(text, b), StemAt(text, b);
      && t.mode == Top(stem, false) && |t.pairs| == 1 && KeyOk(stem, t.pairs[0].key)
      && Delta(ModeAt(text, b), text[b]) == Name(stem, stem.name + [Lower(text[b])])
  {
    var m := ModeAt(text, b);
    WalkOk(INIT, text[..b]);
    DeltaOk(m, text[b]);
    EntryItem(Delta(m, text[b]), StemAt(text, b), text[b + 1..]);
  }

  lemma EntrySpan(q: RawQuery, text: Bytes, b: nat)
    requires b < |text| && Quiet(ModeAt(text, b)) && IsAlpha(text[b])
    requires ItemAt(text, b).mode == Top(StemAt(text, b), false) && |ItemAt(text, b).pairs| == 1
    ensures SpanOk(q, text, Parsed(b, ItemEnd(text, b), Entry, false))
  {
    hide ModeAt, ItemAt, ItemEnd, StemAt;
  }

  /** What an entry whose first character is at `pos` makes of the store. */
  ghost predicate EntryStepped(q: Query, text: Bytes, s: StoreState, stem: Stem, pos: nat)
    requires pos < |text| && s.parsedNr <= |s.parsed|
  {
    && |ItemAt(text, pos).pairs| == 1 && ItemAt(text, pos).mode == Top(stem, false)
    && var x, s2 := ItemEnd(text, pos), OnPair(q, DoEvent(q, s, Entry, pos, stem), ItemAt(text, pos).pairs[0]);
      && s2.previousType == Entry && s2.parsedNr <= |s2.parsed|
      && Good(q, text, Flush(q, s2, x, stem), x, stem)
      && if TopLike(ModeAt(text, x)) then Running(q, text, s2, Top(stem, false), x) else x == |text|
  }

  lemma EntrySteppedIs(q: Query, text: Bytes, s: StoreState, stem: Stem, pos: nat)
    requires pos < |text| && s.parsedNr <= |s.parsed| && EntryStepped(q, text, s, stem, pos)
    ensures |ItemAt(text, pos).pairs| == 1 && ItemAt(text, pos).mode == Top(stem, false)
    ensures var x, s2 := ItemEnd(text, pos), OnPair(q, DoEvent(q, s, Entry, pos, stem), ItemAt(text, pos).pairs[0]);
      && s2.previousType == Entry && s2.parsedNr <= |s2.parsed|
      && Good(q, text, Flush(q, s2, x, stem), x, stem)
      && if TopLike(ModeAt(text, x)) then Running(q, text, s2, Top(stem, false), x) else x == |text|
  {
    hide Good, Flush, Running, ItemAt, ItemEnd, ModeAt, OnPair, DoEvent;
  }

  lemma EntrySteppedBy(q: Query, text: Bytes, s: StoreState, stem: Stem, pos: nat)
    requires pos < |text| && s.parsedNr <= |s.parsed|
    requires |ItemAt(text, pos).pairs| == 1 && ItemAt(text, pos).mode == Top(stem, false)
    requires var x, s2 := ItemEnd(text, pos), OnPair(q, DoEvent(q, s, Entry, pos, stem), ItemAt(text, pos).pairs[0]);
      && s2.previousType == Entry && s2.parsedNr <= |s2.parsed|
      && Good(q, text, Flush(q, s2, x, stem), x, stem)
      && if TopLike(ModeAt(text, x)) then Running(q, text, s2, Top(stem, false), x) else x == |text|
    ensures EntryStepped(q, text, s, stem, pos)
  {
    hide Good, Flush, Running, ItemAt, ItemEnd, ModeAt, OnPair, DoEvent;
  }

  /** An entry: the callback sees its pair, and the store stays good up to its end. */
  lemma StepEntry(q: Query, text: Bytes, s: StoreState, m: Mode, pos: nat)
    requires s.parsedNr <= |s.parsed| && pos < |text| && IsAlpha(text[pos]) && Quiet(m) && Running(q, text, s, m, pos)
    requires !ItemAt(text, pos).mode.Failed?
    ensures EntryStepped(q, text, s, StemOf(m), pos)
  {
    hide *;
    var t, x, stem := ItemAt(text, pos), ItemEnd(text, pos), StemOf(m);
    RunningHere(q, text, s, m, pos);
    ItemFirst(text, pos);
    ReachEvent(q, text, s, m, pos);
    ReachedIs(q, text, s, m, pos);
    EntryMode(text, pos);
    ItemOn(text, pos);
    StemIs(text, pos);
    var p := t.pairs[0];
    DoEventOpens(q, s, Entry, pos, stem);
    var f := Flush(q, s, pos, stem);
    EntrySpan(q, text, pos);
    assert t.pairs == [p];
    OpenEntry(q, text, f, pos, x, stem, p);
    OnPairKeeps(q, Opened(f, Entry, pos), p);
    OpenedFields(f, Entry, pos);
    StemOfTop(Top(stem, false));
    if TopLike(ModeAt(text, x)) {
      WholeAfter(text, pos);
      NowRunning(q, text, OnPair(q, Opened(f, Entry, pos), p), Top(stem, false), x, Entry, pos);
    }
    EntrySteppedBy(q, text, s, stem, pos);
  }

  lemma StemIs(text: Bytes, b: nat)
    requires b <= |text| && TopLike(ModeAt(text, b))
    ensures StemAt(text, b) == StemOf(ModeAt(text, b))
  {
  }

  lemma OnPairKeeps(q: RawQuery, s: StoreState, p: Pair)
    ensures var r := OnPair(q, s, p);
      r.parsed == s.parsed && r.parsedNr == s.parsedNr &&
      r.previousType == s.previousType && r.previousOffset == s.previousOffset
  {
  }

  /** The end of the text between two items. */
  lemma EndGood(q: RawQuery, text: Bytes, s: StoreState, m: Mode)
    requires Running(q, text, s, m, |text|) && TopLike(m)
    ensures FinalGood(q, text, DoEvent(q, s, Eof, |text|, StemOf(m)))
  {
    DoEventOpens(q, s, Eof, |text|, StemOf(m));
    var f := Flush(q, s, |text|, StemOf(m));
    GoodFinal(q, text, f, StemOf(m));
    if s.previousType != Eof { FlushNr(q, s, |text|, StemOf(m)); }
  }

  lemma GoodFinal(q: RawQuery, text: Bytes, f: StoreState, stem: Stem)
    requires Good(q, text, f, |text|, stem)
    requires f.parsedNr == 0 ==> f == EMPTY_STORE && ModeAt(text, |text|).Bom?
    ensures FinalGood(q, text, Opened(f, Eof, |text|))
  {
    SeenSame(q, text, f, Opened(f, Eof, |text|));
    hide Tiled, SeenOk, ModeAt;
  }

  lemma TopKinds(m: Mode, c: Byte)
    requires TopLike(m) || m.Bom?
    ensures Delta(m, c).Bom? ==> m.Bom? && EventOf(m, c) == None
    ensures !Delta(m, c).Bom? && !TopLike(m) ==> Delta(m, c).Failed?
    ensures !Delta(m, c).Bom? && TopLike(m) ==>
      match EventOf(m, c)
      case None => Delta(m, c).Failed? || (Delta(m, c) == m && m.Top? && m.comment && PairOf(m, c) == [])
      case Some(ty) =>
        && (ty == Whitespace ||
          (Quiet(m) && (ty == Comment || (ty == Section && c == LBRACKET) || (ty == Entry && IsAlpha(c)))))
        && (ty == Whitespace && m.Top? && !m.comment ==> Delta(m, c) == m && PairOf(m, c) == [])
  {
  }

  lemma CharFirst(r: Bytes)
    requires r != []
    ensures CharAt(r) == LF || (CharAt(r) == r[0] && CharLen(r) == 1)
  {
  }

  /** Every state the parse of a good text goes through is good, and so is the last. */
  lemma {:induction false} DriveGood(q: Query, text: Bytes, s: StoreState, m: Mode, pos: nat)
    requires Running(q, text, s, m, pos)
    requires Drive(q, s, m, pos, text[pos..]).Some?
    ensures FinalGood(q, text, Drive(q, s, m, pos, text[pos..]).value)
    decreases |text| - pos
  {
    hide Good, ModeAt, PairsBefore, Drive, DoEvent, Delta, PairOf, EventOf, ItemAt, CharAt, CharLen, FinalGood;
    var r := text[pos..];
    DriveTop(q, s, m, pos, r);
    if r == [] {
      EndGood(q, text, s, m);
    } else {
      var c, n := CharAt(r), CharLen(r);
      assert r[n..] == text[pos + n..];
      TopKinds(m, c);
      CharFirst(r);
      if Delta(m, c).Failed? {
        FailedItem(q, OnEvent(q, s, m, pos + n - 1, c), pos + n, r[n..]);
      } else if Delta(m, c).Bom? {
        StepBom(q, text, s, m, pos);
        DriveGood(q, text, s, Delta(m, c), pos + n);
      } else if EventOf(m, c) == None || (EventOf(m, c) == Some(Whitespace) && s.previousType == Whitespace) {
        DoEventOpens(q, s, Whitespace, pos + n - 1, StemOf(m));
        StepSame(q, text, s, m, pos);
        DriveGood(q, text, s, m, pos + n);
      } else if EventOf(m, c).value == Whitespace || EventOf(m, c).value == Comment {
        StepBlank(q, text, s, m, pos, EventOf(m, c).value);
        DriveGood(q, text, DoEvent(q, s, EventOf(m, c).value, pos + n - 1, StemOf(m)), Delta(m, c), pos + n);
      } else {
        ItemGood(q, text, s, m, pos);
      }
    }
  }

  /** A header or an entry, and the parse that goes on behind it. */
  lemma {:induction false} ItemGood(q: Query, text: Bytes, s: StoreState, m: Mode, pos: nat)
    requires Running(q, text, s, m, pos) && Quiet(m) && pos < |text|
    requires text[pos] == LBRACKET || IsAlpha(text[pos])
    requires Drive(q, s, m, pos, text[pos..]).Some?
    ensures FinalGood(q, text, Drive(q, s, m, pos, text[pos..]).value)
    decreases |text| - pos, 0
  {
    var ty := if text[pos] == LBRACKET then Section else Entry;
    var t, x, s1, stem := ItemAt(text, pos), ItemEnd(text, pos), DoEvent(q, s, ty, pos, StemOf(m)), StemOf(m);
    DriveThrough(q, text, s, m, pos, ty);
    hide *;
    RunningHere(q, text, s, m, pos);
    if t.mode.Failed? {
    } else if ty == Section {
      StepHeader(q, text, s, m, pos);
      HeaderMode(text, pos);
      NoPairs(q, s1);
      DriveGood(q, text, s1, t.mode, x);
    } else {
      StepEntry(q, text, s, m, pos);
      EntrySteppedIs(q, text, s, stem, pos);
      var s2 := OnPair(q, s1, t.pairs[0]);
      OnePair(q, s1, t.pairs);
      if TopLike(ModeAt(text, x)) {
        DriveGood(q, text, s2, Top(stem, false), x);
      } else {
        assert text[x..] == [];
        TopIsTopLike(Top(stem, false));
        DriveTop(q, s2, Top(stem, false), x, []);
        AsTopStem(stem);
        DoEventOpens(q, s2, Eof, x, stem);
        FlushNr(q, s2, x, stem);
        GoodFinal(q, text, Flush(q, s2, x, stem), stem);
      }
    }
  }

  lemma AsTopStem(stem: Stem)
    ensures StemOf(Top(stem, false)) == AsTop(Top(stem, false)).stem == stem
  {
  }

  lemma NoPairs(q: RawQuery, s: StoreState)
    ensures OnPairs(q, s, []) == s
  {
  }

  lemma OnePair(q: RawQuery, s: StoreState, ps: seq<Pair>)
    requires |ps| == 1
    ensures OnPairs(q, s, ps) == OnPair(q, s, ps[0])
  {
    assert ps[1..] == [];
  }

  /** The parse of one header or entry, seen from outside. */
  lemma DriveThrough(q: RawQuery, text: Bytes, s: StoreState, m: Mode, pos: nat, ty: EventType)
    requires s.parsedNr <= |s.parsed| && pos < |text| && m == ModeAt(text, pos) && Quiet(m)
    requires (ty == Section && text[pos] == LBRACKET) || (ty == Entry && IsAlpha(text[pos]))
    ensures var t, s1 := ItemAt(text, pos), DoEvent(q, s, ty, pos, StemOf(m));
      Drive(q, s, m, pos, text[pos..]) ==
        if t.mode.Failed? then None
        else Drive(q, OnPairs(q, s1, t.pairs), t.mode, ItemEnd(text, pos), text[ItemEnd(text, pos)..])
  {
    hide DoEvent, Drive, OnPairs, ToTop;
    var r, c := text[pos..], text[pos];
    assert CharAt(r) == c && CharLen(r) == 1 && r[1..] == text[pos + 1..];
    DriveTop(q, s, m, pos, r);
    assert EventOf(m, c) == Some(ty);
    assert !TopLike(Delta(m, c));
    DriveItem(q, DoEvent(q, s, ty, pos, StemOf(m)), Delta(m, c), pos + 1, text[pos + 1..]);
    assert text[pos + 1..][ItemAt(text, pos).len..] == text[ItemEnd(text, pos)..];
  }

  /** After a parse that succeeds, the store is good. */
  lemma ScanGood(q: Query, text: Bytes)
    requires Scan(q, text).Some?
    ensures FinalGood(q, text, Scan(q, text).value)
  {
    assert text[..0] == [] && text[0..] == text;
    WalkNothing(INIT);
    assert EMPTY_STORE.parsed[..0] == [];
    assert Good(q, text, Flush(q, EMPTY_STORE, 0, NO_STEM), 0, NO_STEM);
    DriveGood(q, text, EMPTY_STORE, INIT, 0);
  }
}
