/**
 The events of a parse, said in bytes: which byte opens an event of which kind, where an event of
 each kind ends, and that together they are the file, from its first byte behind a byte-order mark
 to its last.
 */
module ConfigEvents {
  import opened Bytes
  import opened ConfigFacts
  import opened ConfigGrammar
  import opened ConfigMeaning
  import opened ConfigScan

  /** Every event begins with a byte that tells its kind. */
  lemma EventKinds(q: RawQuery, text: Bytes, s: StoreState, i: nat)
    requires FinalGood(q, text, s) && i < s.parsedNr
    ensures i < |s.parsed| && s.parsed[i].begin < s.parsed[i].end <= |text|
    ensures var e, c := s.parsed[i], text[s.parsed[i].begin];
      && e.ty != Eof && (e.ty == Section <==> c == 91)
      && (e.ty == Comment <==> c == 35 || c == 59)
      && (e.ty == Entry <==> 65 <= c <= 90 || 97 <= c <= 122)
      && (e.ty == Whitespace <==> 9 <= c <= 13 || c == 32)
  {
    hide FinalGood, ModeAt, PairsBefore, ItemAt, ItemEnd;
    EventAt(q, text, s, i);
  }

  /** The last byte before `e` is `c`, but for the CR of a CR LF. */
  predicate ClosedBy(text: Bytes, c: Byte, b: nat, e: nat)
    requires b < e <= |text|
  {
    text[e - 1] == c || (b + 1 < e < |text| && text[e - 2] == c && text[e - 1] == 13 && text[e] == 10)
  }

  /** The bytes of one event, from `b` to `e`. */
  ghost predicate EventBytes(text: Bytes, ty: EventType, b: nat, e: nat)
    requires b < e <= |text|
  {
    match ty
    case Whitespace => forall x :: b <= x < e ==> 9 <= text[x] <= 13 || text[x] == 32
    case Comment => (forall x :: b <= x < e ==> text[x] != 10) && (e == |text| || text[e] == 10)
    case Section => ClosedBy(text, 93, b, e)
    case Entry => ClosedBy(text, 10, b, e) || e == |text|
    case Eof => false
  }

  /**
   Blanks are blanks throughout; a comment goes up to a line end; a header ends with its bracket; an
   entry ends with a line end, or with the file.  The CR of a CR LF right behind either belongs to it.
   */
  lemma EventEnds(q: RawQuery, text: Bytes, s: StoreState, i: nat)
    requires FinalGood(q, text, s) && i < s.parsedNr
    ensures i < |s.parsed| && s.parsed[i].begin < s.parsed[i].end <= |text|
    ensures EventBytes(text, s.parsed[i].ty, s.parsed[i].begin, s.parsed[i].end)
  {
    hide FinalGood, SpanOk, EventBytes;
    EventAt(q, text, s, i);
    var e := s.parsed[i];
    match e.ty {
      case Whitespace => BlanksEnd(q, text, e);
      case Comment => if e.end < |text| { CommentEnds(q, text, s, i); } CommentRuns(q, text, e);
      case Section => HeaderEnds(q, text, e);
      case Entry => EntryEnds(q, text, e);
      case Eof => EofEnds(q, text, e);
    }
  }

  lemma BlanksEnd(q: RawQuery, text: Bytes, e: Parsed)
    requires SpanOk(q, text, e) && e.ty == Whitespace
    ensures EventBytes(text, e.ty, e.begin, e.end)
  {
    hide ModeAt, PairsBefore;
  }

  lemma EofEnds(q: RawQuery, text: Bytes, e: Parsed)
    requires SpanOk(q, text, e)
    ensures e.ty != Eof
  {
    hide ModeAt, PairsBefore, ItemAt, ItemEnd;
  }

  lemma CommentRuns(q: RawQuery, text: Bytes, e: Parsed)
    requires SpanOk(q, text, e) && e.ty == Comment && (e.end == |text| || text[e.end] == 10)
    ensures EventBytes(text, e.ty, e.begin, e.end)
  {
    hide ModeAt, PairsBefore;
  }

  /** Behind a comment only a line end opens an event. */
  lemma CommentEnds(q: RawQuery, text: Bytes, s: StoreState, i: nat)
    requires FinalGood(q, text, s) && i < s.parsedNr <= |s.parsed|
    requires s.parsed[i].ty == Comment && s.parsed[i].end < |text|
    ensures text[s.parsed[i].end] == 10
  {
    hide FinalGood, ModeAt, PairsBefore, ItemAt, ItemEnd;
    EventAt(q, text, s, i);
    EventAt(q, text, s, i + 1);
    assert s.parsed[i + 1].begin == s.parsed[i].end;
    assert !Quiet(ModeAt(text, s.parsed[i].end));
  }

  lemma HeaderEnds(q: RawQuery, text: Bytes, e: Parsed)
    requires SpanOk(q, text, e) && e.ty == Section
    ensures EventBytes(text, e.ty, e.begin, e.end)
  {
    hide ModeAt, PairsBefore, ToTop, RawQuery.InSection;
    HeaderOpens(ModeAt(text, e.begin));
    ItemCloses(BaseVar([]), text[e.begin + 1..]);
  }

  lemma HeaderOpens(m: Mode)
    requires Quiet(m)
    ensures Delta(m, LBRACKET) == BaseVar([])
  {
  }

  lemma EntryOpens(m: Mode, c: Byte)
    requires Quiet(m) && IsAlpha(c)
    ensures InItem(Delta(m, c)) && !InHeader(Delta(m, c))
  {
  }

  lemma EntryEnds(q: RawQuery, text: Bytes, e: Parsed)
    requires SpanOk(q, text, e) && e.ty == Entry
    ensures EventBytes(text, e.ty, e.begin, e.end)
  {
    hide ModeAt, PairsBefore, ToTop, Delta, InItem, InHeader, IsAlpha;
    EntryOpens(ModeAt(text, e.begin), text[e.begin]);
    ItemCloses(Delta(ModeAt(text, e.begin), text[e.begin]), text[e.begin + 1..]);
  }

  /** A header is read up to its bracket, and an entry up to a line end or the end of the file. */
  lemma {:induction false} ItemCloses(m: Mode, r: Bytes)
    requires InItem(m) && !ToTop(m, r).mode.Failed?
    ensures var x := ToTop(m, r).len;
      if InHeader(m) then 0 < x && r[x - 1] == 93 else x == |r| || (0 < x && r[x - 1] == 10)
    decreases |r|
  {
    hide *;
    if r == [] {
      NoMore(m);
    } else {
      var c, n := CharAt(r), CharLen(r);
      ItemNext(m, r);
      Closes(m, c);
      if InItem(Delta(m, c)) {
        ItemCloses(Delta(m, c), r[n..]);
      }
    }
  }

  lemma NoMore(m: Mode)
    requires InItem(m) && !ToTop(m, []).mode.Failed?
    ensures !InHeader(m)
  {
    if InHeader(m) {
      HeaderChar(m, LF);
      ToTopDone(Delta(m, LF), []);
    }
  }

  lemma Closes(m: Mode, c: Byte)
    requires InItem(m)
    ensures InItem(Delta(m, c)) ==> (InHeader(Delta(m, c)) <==> InHeader(m))
    ensures Delta(m, c).Top? ==> c == if InHeader(m) then 93 else 10
  {
  }

  /** The length of the byte-order mark at the front of the file. */
  function MarkLength(text: Bytes): (n: nat)
    ensures n <= |text|
  {
    if [0xEF, 0xBB, 0xBF] <= text then 3 else 0
  }

  /**
   The first event begins where the file does, behind a byte-order mark and the CR of a first CR LF;
   every other begins where the one before it ends; and the last ends with the file.
   */
  lemma EventsMeet(q: RawQuery, text: Bytes, s: StoreState, i: nat)
    requires FinalGood(q, text, s) && i < s.parsedNr
    ensures i < |s.parsed| && s.parsedNr <= |s.parsed|
    ensures i == 0 ==> var b, n := s.parsed[0].begin, MarkLength(text);
      b == n || (b == n + 1 < |text| && text[n] == 13 && text[b] == 10)
    ensures s.parsed[i].end == if i + 1 < s.parsedNr then s.parsed[i + 1].begin else |text|
  {
    hide FinalGood, SpanOk;
    EventAt(q, text, s, i);
    if i == 0 {
      FrontIs(q, text, s);
      EventKinds(q, text, s, 0);
      FirstBegins(text, s.parsed[0].begin);
    }
  }

  lemma FrontIs(q: RawQuery, text: Bytes, s: StoreState)
    requires FinalGood(q, text, s) && 0 < s.parsedNr
    ensures s.parsedNr <= |s.parsed| && s.parsed[0].begin < |text| && AtFront(text, s.parsed[0].begin)
    ensures TopLike(ModeAt(text, s.parsed[0].begin))
  {
    hide SeenOk, ModeAt, PairsBefore, AtFront;
    assert SpanOk(q, text, s.parsed[..s.parsedNr][0]);
  }

  lemma FirstBegins(text: Bytes, b: nat)
    requires b < |text| && AtFront(text, b) && TopLike(ModeAt(text, b)) && text[b] != 0xEF
    ensures var n := MarkLength(text); b == n || (b == n + 1 < |text| && text[n] == 13 && text[b] == 10)
  {
    hide Walk;
    if ModeAt(text, b).Bom? {
      MarkRead(text, b);
    } else {
      ModeOn(text, b - 1, b);
      assert text[b - 1..b] == [CR];
      WalkOne(ModeAt(text, b - 1), CR);
      MarkRead(text, b - 1);
    }
  }

  lemma MarkRead(text: Bytes, b: nat)
    requires b < |text| && ModeAt(text, b).Bom? && ModeAt(text, b).matched !in {1, 2} && text[b] != 0xEF
    ensures b == MarkLength(text)
  {
    hide Walk;
    BomWalk(0, text[..b]);
    if b == 3 {
      assert text[..3] == [0xEF, 0xBB, 0xBF];
    }
  }
}
