/**
 What one parse of a configuration file leaves in the store: the spans of its events and
 the places where an edit may go.  The functions follow the callbacks of config_store.rs
 (`do_event`, `Store::event`, `Store::put_seen`, `Store::entry`), driven by the automaton.
 */
module ConfigScan {
  import opened Bytes
  import opened ConfigGrammar
  import opened Optional

  /** The value pattern; a regular expression is any predicate on the value's bytes. */
  datatype Matcher = Any | Never | Fixed(want: Bytes) | Regex(hits: Bytes -> bool, doNotMatch: bool)

  datatype RawQuery = Query(key: Bytes, baselen: nat, matcher: Matcher, multiReplace: bool) {

    /** `Store::matches` */
    predicate Matches(p: Pair) {
      p.key == key &&
      match matcher
      case Fixed(want) => p.value.None? || p.value.value == want
      case Any => true
      case Never => false
      case Regex(hits, doNotMatch) => (p.value.Some? && hits(p.value.value)) != doNotMatch
    }

    /** Whether a header with stem `stem` opens the key's section. */
    predicate InSection(stem: Stem) {
      && |stem.name| >= 2
      && stem.name[|stem.name| - 1] == DOT
      && |stem.name| - 1 == baselen <= |key|
      && if stem.ignoreCase then LowerAll(stem.name[..baselen]) == LowerAll(key[..baselen])
         else stem.name[..baselen] == key[..baselen]
    }
  }

  /** A key in canonical form: `section[.subsection].name`, cut before its last dot. */
  ghost predicate ValidQuery(q: RawQuery) {
    && 0 < q.baselen < |q.key|
    && q.key[q.baselen] == DOT
    && forall i :: q.baselen < i < |q.key| ==> q.key[i] != DOT
  }

  type Query = q: RawQuery | ValidQuery(q) ghost witness Query([SPACE, DOT], 1, Any, false)

  datatype Parsed = Parsed(begin: nat, end: nat, ty: EventType, isKeysSection: bool)

  datatype StoreState = StoreState(
    parsed: seq<Parsed>, parsedNr: nat,
    seen: seq<nat>, seenNr: nat, seenTouched: bool,
    sectionSeen: bool, isKeysSection: bool, keySeen: bool,
    previousType: EventType, previousOffset: nat)

  const EMPTY_STORE: StoreState :=
    StoreState([Parsed(0, 0, Eof, false)], 0, [], 0, false, false, false, false, Eof, 0)

  function PutSeen(s: StoreState, v: nat): StoreState {
    var grown := if |s.seen| <= s.seenNr then s.seen + seq(s.seenNr + 1 - |s.seen|, _ => 0) else s.seen;
    s.(seen := grown[s.seenNr := v], seenTouched := true)
  }

  /** What a header of the key's section changes besides the spans: it is a place to insert. */
  function Noted(q: RawQuery, s: StoreState, ty: EventType, stem: Stem): StoreState {
    var keys := ty == Section && q.InSection(stem);
    var s1 := if ty == Section then s.(isKeysSection := keys) else s;
    if keys then PutSeen(s1.(sectionSeen := true), s.parsedNr) else s1
  }

  /** A span written at `nr`, past the end if need be. */
  function PutSpan(parsed: seq<Parsed>, nr: nat, e: Parsed): seq<Parsed>
    requires nr <= |parsed|
  {
    if |parsed| <= nr then parsed + [e] else parsed[nr := e]
  }

  /** `Store::event`: record a span. */
  function Record(q: RawQuery, s: StoreState, ty: EventType, begin: nat, end: nat, stem: Stem): StoreState
    requires s.parsedNr <= |s.parsed|
  {
    var e := Parsed(begin, end, ty, ty == Section && q.InSection(stem));
    Noted(q, s, ty, stem).(
      parsed := PutSpan(s.parsed, s.parsedNr, e),
      parsedNr := s.parsedNr + 1)
  }

  /** `do_event`: flush the event in progress and start one of type `ty`. */
  function DoEvent(q: RawQuery, s: StoreState, ty: EventType, offset: nat, stem: Stem): (r: StoreState)
    requires s.parsedNr <= |s.parsed|
    ensures r.parsedNr <= |r.parsed|
  {
    if ty == Whitespace && s.previousType == Whitespace then s
    else
      var s1 := if s.previousType != Eof then Record(q, s, s.previousType, s.previousOffset, offset, stem) else s;
      s1.(previousType := ty, previousOffset := offset)
  }

  /** `Store::entry` */
  function OnPair(q: RawQuery, s: StoreState, p: Pair): StoreState {
    if s.keySeen then
      if q.Matches(p) then PutSeen(s, s.parsedNr).(seenNr := s.seenNr + 1) else s
    else if s.isKeysSection then
      var s1 := PutSeen(s, s.parsedNr).(sectionSeen := true);
      if q.Matches(p) then s1.(seenNr := s1.seenNr + 1, keySeen := true) else s1
    else s
  }

  function OnPairs(q: RawQuery, s: StoreState, ps: seq<Pair>): (r: StoreState)
    ensures r.parsed == s.parsed && r.parsedNr == s.parsedNr
    ensures r.previousType == s.previousType && r.previousOffset == s.previousOffset
    decreases |ps|
  {
    if ps == [] then s else OnPairs(q, OnPair(q, s, ps[0]), ps[1..])
  }

  /** The store after one more character, `c`, whose last byte is just before `pos`. */
  function Feed(q: RawQuery, s: StoreState, m: Mode, pos: nat, c: Byte): (r: StoreState)
    requires s.parsedNr <= |s.parsed| && pos > 0
    ensures r.parsedNr <= |r.parsed|
  {
    OnPairs(q, OnEvent(q, s, m, pos - 1, c), PairOf(m, c))
  }

  /** How many more line ends the end of the text must stand for. */
  function EofRank(m: Mode): nat {
    if TopLike(m) || m.Failed? then 0 else if m.ValueEscape? then 2 else 1
  }

  /** The store after reading all of `r` and the end of the text; `None` is a parse error. */
  function Drive(q: RawQuery, s: StoreState, m: Mode, pos: nat, r: Bytes): (res: Option<StoreState>)
    requires s.parsedNr <= |s.parsed|
    decreases |r|, EofRank(m)
  {
    if m.Failed? then None
    else if r != [] then
      Drive(q, Feed(q, s, m, pos + CharLen(r), CharAt(r)), Delta(m, CharAt(r)), pos + CharLen(r), r[CharLen(r)..])
    else if TopLike(m) then Some(DoEvent(q, s, Eof, pos, AsTop(m).stem))
    else Drive(q, OnPairs(q, s, PairOf(m, LF)), Delta(m, LF), pos, r)
  }

  function Scan(q: RawQuery, text: Bytes): Option<StoreState> { Drive(q, EMPTY_STORE, INIT, 0, text) }

  /** One header or entry read to its end: the mode it leaves, its length and its pairs. */
  datatype Item = Item(mode: Mode, len: nat, pairs: seq<Pair>)

  function ToTop(m: Mode, r: Bytes): (t: Item)
    ensures t.len <= |r|
    ensures TopLike(t.mode) || t.mode.Failed?
    decreases |r|, EofRank(m)
  {
    if TopLike(m) || m.Failed? then Item(m, 0, [])
    else if r == [] then
      var t := ToTop(Delta(m, LF), []);
      Item(t.mode, t.len, PairOf(m, LF) + t.pairs)
    else
      var t := ToTop(Delta(m, CharAt(r)), r[CharLen(r)..]);
      Item(t.mode, CharLen(r) + t.len, PairOf(m, CharAt(r)) + t.pairs)
  }

  lemma {:induction false} OnPairsConcat(q: RawQuery, s: StoreState, a: seq<Pair>, b: seq<Pair>)
    ensures OnPairs(q, OnPairs(q, s, a), b) == OnPairs(q, s, a + b)
    decreases |a|
  {
    if a == [] {
      assert a + b == b;
    } else {
      OnPairsConcat(q, OnPair(q, s, a[0]), a[1..], b);
      assert (a + b)[1..] == a[1..] + b;
    }
  }

  /** One character of an item, or the line end that the end of the text stands for. */
  lemma ItemChar(q: RawQuery, s: StoreState, m: Mode, pos: nat, r: Bytes, c: Byte, n: nat)
    requires s.parsedNr <= |s.parsed|
    requires !TopLike(m) && !m.Failed?
    requires if r == [] then c == LF && n == 0 else c == CharAt(r) && n == CharLen(r)
    ensures Drive(q, s, m, pos, r) == Drive(q, OnPairs(q, s, PairOf(m, c)), Delta(m, c), pos + n, r[n..])
  {
    hide OnPairs, OnPair, DoEvent;
    if r == [] {
      assert r[n..] == [];
    }
  }

  /** The same character, as the item takes it. */
  lemma ItemTakes(m: Mode, r: Bytes, c: Byte, n: nat)
    requires !TopLike(m) && !m.Failed?
    requires if r == [] then c == LF && n == 0 else c == CharAt(r) && n == CharLen(r)
    ensures var t := ToTop(Delta(m, c), r[n..]); ToTop(m, r) == Item(t.mode, n + t.len, PairOf(m, c) + t.pairs)
    ensures r == [] ==> EofRank(Delta(m, c)) < EofRank(m)
  {
    if r == [] {
      assert r[n..] == [];
    }
  }

  /** Inside an item the store only ever sees the item's pairs. */
  lemma {:induction false} DriveItem(q: RawQuery, s: StoreState, m: Mode, pos: nat, r: Bytes)
    requires s.parsedNr <= |s.parsed|
    requires !TopLike(m)
    ensures var t := ToTop(m, r);
      Drive(q, s, m, pos, r) ==
        if t.mode.Failed? then None else Drive(q, OnPairs(q, s, t.pairs), t.mode, pos + t.len, r[t.len..])
    decreases |r|, EofRank(m)
  {
    hide *;
    if m.Failed? {
      FailedItem(q, s, pos, r);
    } else {
      var c, n := if r == [] then LF else CharAt(r), if r == [] then 0 else CharLen(r);
      ItemChar(q, s, m, pos, r, c, n);
      ItemTakes(m, r, c, n);
      var m1, ps, rest := Delta(m, c), PairOf(m, c), r[n..];
      var t1 := ToTop(m1, rest);
      assert rest[t1.len..] == r[n + t1.len..];
      if TopLike(m1) || m1.Failed? {
        ToTopDone(m1, rest);
        FailedItem(q, OnPairs(q, s, ps), pos + n, rest);
        assert ps + [] == ps && rest[0..] == rest;
      } else {
        DriveItem(q, OnPairs(q, s, ps), m1, pos + n, rest);
        OnPairsConcat(q, s, ps, t1.pairs);
      }
    }
  }

  lemma FailedItem(q: RawQuery, s: StoreState, pos: nat, r: Bytes)
    requires s.parsedNr <= |s.parsed|
    ensures Drive(q, s, Failed, pos, r) == None && ToTop(Failed, r) == Item(Failed, 0, [])
  {
  }

  lemma ToTopDone(m: Mode, r: Bytes)
    requires TopLike(m) || m.Failed?
    ensures ToTop(m, r) == Item(m, 0, [])
  {
  }

  /** One character read between items, or the end of the text there. */
  lemma DriveTop(q: RawQuery, s: StoreState, m: Mode, pos: nat, r: Bytes)
    requires s.parsedNr <= |s.parsed|
    requires TopLike(m) || m.Bom?
    ensures r == [] ==>
      Drive(q, s, m, pos, r) == if TopLike(m) then Some(DoEvent(q, s, Eof, pos, AsTop(m).stem)) else None
    ensures r != [] ==>
      var c, n := CharAt(r), CharLen(r);
      Drive(q, s, m, pos, r) == Drive(q, OnEvent(q, s, m, pos + n - 1, c), Delta(m, c), pos + n, r[n..])
  {
    hide DoEvent;
  }

  function OnEvent(q: RawQuery, s: StoreState, m: Mode, offset: nat, c: Byte): (r: StoreState)
    requires s.parsedNr <= |s.parsed|
    ensures r.parsedNr <= |r.parsed|
  {
    match EventOf(m, c)
    case None => s
    case Some(ty) => DoEvent(q, s, ty, offset, AsTop(m).stem)
  }
}
