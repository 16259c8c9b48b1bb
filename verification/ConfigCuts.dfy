/**
 What an edit cuts out of a file and where it puts its line, said on the events of the parse and in
 bytes: exactly when an emptied section goes with its last entry, where a cut begins and ends, what
 is left by an unset, and what a set makes of a file that has its key or has it not.
 */
module ConfigCuts {
  import opened Bytes
  import opened ConfigGrammar
  import opened ConfigScan
  import opened ConfigFacts
  import opened ConfigEdit
  import opened ConfigMeaning
  import opened Optional
  import W = ConfigWriter

  predicate OwnHeader(e: Parsed) { e.ty == Section && e.isKeysSection }

  predicate OtherHeader(e: Parsed) { e.ty == Section && !e.isKeysSection }

  /** Blanks or a header of the key's own section. */
  predicate BlankOrOwn(e: Parsed) { e.ty == Whitespace || OwnHeader(e) }

  predicate AnyOwn(events: seq<Parsed>) { exists x :: 0 <= x < |events| && OwnHeader(events[x]) }

  /**
   Nothing but blanks and own headers between event `b` and event `k`, and before `b` the beginning
   of the file, another section's header, or, if an own header lies between, an entry.
   */
  predicate EmptyBefore(events: seq<Parsed>, b: nat, k: nat)
    requires k <= |events|
  {
    && b <= k && (forall x :: b <= x < k ==> BlankOrOwn(events[x]))
    && (b == 0 || OtherHeader(events[b - 1]) || (events[b - 1].ty == Entry && AnyOwn(events[b..k])))
  }

  /**
   Nothing but blanks, own headers and matches between event `k` and event `e`, which is the end of
   the file or another section's header.
   */
  ghost predicate EmptyBehind(q: RawQuery, text: Bytes, events: seq<Parsed>, k: nat, e: nat) {
    && k < e <= |events| && (forall x :: k < x < e ==> BlankOrOwn(events[x]) || Matched(q, text, events[x]))
    && (e == |events| || OtherHeader(events[e]))
  }

  /** Without match `k` its section is empty from event `b` to event `e`. */
  ghost predicate Emptied(q: RawQuery, text: Bytes, events: seq<Parsed>, k: nat, b: nat, e: nat)
    requires k < |events|
  {
    EmptyBefore(events, b, k) && EmptyBehind(q, text, events, k, e)
  }

  /** The blanks before `at`, back to `e` and no further, line ends excepted. */
  predicate BlanksTo(text: Bytes, e: nat, at: nat)
    requires at <= |text|
  {
    && e <= at && (forall x :: e <= x < at ==> text[x] in {9, 11, 12, 13, 32})
    && (e > 0 ==> text[e - 1] !in {9, 11, 12, 13, 32})
  }

  lemma {:induction false} SwallowedIs(text: Bytes, end: nat)
    requires end <= |text|
    ensures BlanksTo(text, Swallowed(text, end), end)
  {
    if end > 0 && IsSpace(text[end - 1]) && text[end - 1] != LF { SwallowedIs(text, end - 1); }
  }

  // ---- the search backwards -------------------------------------------------------------------

  /** `EmptyBefore`, an own header behind event `a` having been passed already or not. */
  predicate Before(events: seq<Parsed>, b: nat, a: nat, passed: bool)
    requires a <= |events|
  {
    && b <= a && (forall x :: b <= x < a ==> BlankOrOwn(events[x]))
    && (b == 0 || OtherHeader(events[b - 1]) || (events[b - 1].ty == Entry && (passed || AnyOwn(events[b..a]))))
  }

  lemma AnyOwnSnoc(events: seq<Parsed>, b: nat, a: nat)
    requires b < a <= |events|
    ensures AnyOwn(events[b..a]) <==> OwnHeader(events[a - 1]) || AnyOwn(events[b..a - 1])
  {
    if AnyOwn(events[b..a]) {
      var x :| 0 <= x < a - b && OwnHeader(events[b..a][x]);
      assert x < a - b - 1 ==> events[b..a - 1][x] == events[b..a][x];
    }
    if AnyOwn(events[b..a - 1]) {
      var x :| 0 <= x < a - b - 1 && OwnHeader(events[b..a - 1][x]);
      assert events[b..a][x] == events[b..a - 1][x];
    }
    assert events[b..a][a - b - 1] == events[a - 1];
  }

  lemma BeforeNext(events: seq<Parsed>, b: nat, a: nat, passed: bool)
    requires 0 < a <= |events|
    ensures b < a ==>
      (Before(events, b, a, passed) <==>
         BlankOrOwn(events[a - 1]) && Before(events, b, a - 1, passed || OwnHeader(events[a - 1])))
    ensures b == a ==>
      (Before(events, b, a, passed) <==> OtherHeader(events[a - 1]) || (events[a - 1].ty == Entry && passed))
  {
    hide AnyOwn, BlankOrOwn, OwnHeader, OtherHeader;
    if b < a {
      AnyOwnSnoc(events, b, a);
    } else if b == a {
      NoneOwn(events[b..a]);
    }
  }

  lemma NoneOwn(events: seq<Parsed>)
    requires events == []
    ensures !AnyOwn(events)
  {
  }

  /** The search finds `b` exactly when nothing stands in its way before. */
  lemma {:induction false} FirstIs(s: StoreState, a: nat, passed: bool, b: nat)
    requires NoEof(s) && a <= s.parsedNr
    ensures s.parsedNr <= |s.parsed| && (FirstRemoved(s, a, passed) == Some(b) <==> Before(s.parsed, b, a, passed))
    decreases a
  {
    hide Before, AnyOwn;
    if a == 0 {
      BeforeStart(s.parsed, b, passed);
    } else {
      BeforeNext(s.parsed, b, a, passed);
      if b > a { BeforeRange(s.parsed, b, a, passed); }
      if BlankOrOwn(s.parsed[a - 1]) {
        FirstIs(s, a - 1, passed || OwnHeader(s.parsed[a - 1]), b);
        if b == a { BeforeRange(s.parsed, b, a - 1, passed || OwnHeader(s.parsed[a - 1])); }
      }
    }
  }

  lemma BeforeStart(events: seq<Parsed>, b: nat, passed: bool)
    ensures Before(events, b, 0, passed) <==> b == 0
  {
  }

  lemma BeforeRange(events: seq<Parsed>, b: nat, a: nat, passed: bool)
    requires a < b && a <= |events|
    ensures !Before(events, b, a, passed)
  {
  }

  // ---- the search forwards --------------------------------------------------------------------

  lemma BehindNext(q: RawQuery, text: Bytes, events: seq<Parsed>, k: nat, e: nat)
    requires k + 1 < |events| && e > k + 1
    ensures EmptyBehind(q, text, events, k, e) <==>
      (BlankOrOwn(events[k + 1]) || Matched(q, text, events[k + 1])) && EmptyBehind(q, text, events, k + 1, e)
  {
    hide BlankOrOwn, Matched, OtherHeader;
  }

  lemma BehindHere(q: RawQuery, text: Bytes, events: seq<Parsed>, k: nat)
    requires k < |events|
    ensures EmptyBehind(q, text, events, k, k + 1) <==> k + 1 == |events| || OtherHeader(events[k + 1])
    ensures forall e: nat :: e <= k || e > |events| ==> !EmptyBehind(q, text, events, k, e)
  {
    hide BlankOrOwn, Matched, OtherHeader;
  }

  /** How many matches lie before event `e`, counted from match `i`. */
  ghost predicate LastBefore(s: StoreState, i: nat, e: nat, last: nat) {
    && i <= last < s.seenNr <= |s.seen| && s.seen[last] < e
    && (last + 1 < s.seenNr ==> s.seen[last + 1] >= e)
  }

  /** The search finds `e` exactly when nothing stands in its way behind event `a - 1`. */
  lemma {:induction false} KeptIs(q: RawQuery, text: Bytes, s: StoreState, a: nat, seen: nat, e: nat)
    requires FinalGood(q, text, s) && s.keySeen && NoEof(s)
    requires 0 < a <= s.parsedNr && seen < s.seenNr <= |s.seen| && s.seen[seen] < a
    requires seen + 1 < s.seenNr ==> s.seen[seen + 1] >= a
    ensures s.parsedNr <= |s.parsed|
    ensures EmptyBehind(q, text, s.parsed[..s.parsedNr], a - 1, e) <==>
      FirstKept(s, a, seen).Some? && FirstKept(s, a, seen).value.0 == e
    ensures FirstKept(s, a, seen).Some? ==>
      LastBefore(s, seen, FirstKept(s, a, seen).value.0, FirstKept(s, a, seen).value.1)
    decreases s.parsedNr - a
  {
    hide *;
    AllSeen(q, text, s);
    KeptNext(s, a, seen);
    KeptRange(s, a, seen);
    var events := s.parsed[..s.parsedNr];
    BehindHere(q, text, events, a - 1);
    LastIs(s, seen, a, seen);
    if a < s.parsedNr {
      var x := s.parsed[a];
      assert events[a] == x;
      KindsOf(x);
      NoEofAt(s, a);
      IsSeen(q, text, s, a, seen);
      if Matched(q, text, x) { MatchIsEntry(q, text, x); }
      if e > a { BehindNext(q, text, events, a - 1, e); }
      if BlankOrOwn(x) {
        KeptIs(q, text, s, a + 1, seen, e);
        KeptRange(s, a + 1, seen);
      } else if Matched(q, text, x) {
        KeptIs(q, text, s, a + 1, seen + 1, e);
        KeptRange(s, a + 1, seen + 1);
        LastOn(s, seen, FirstKept(s, a + 1, seen + 1), a);
      }
    }
  }

  lemma KindsOf(e: Parsed)
    ensures BlankOrOwn(e) <==> Idle(e)
    ensures OtherHeader(e) <==> e.ty == Section && !BlankOrOwn(e)
    ensures e.ty == Entry || e.ty == Comment ==> !BlankOrOwn(e) && !OtherHeader(e)
    ensures e.ty == Whitespace ==> BlankOrOwn(e)
  {
  }

  lemma NoEofAt(s: StoreState, k: nat)
    requires NoEof(s) && k < s.parsedNr
    ensures s.parsedNr <= |s.parsed| && s.parsed[k].ty != Eof
  {
  }

  lemma KeptRange(s: StoreState, a: nat, seen: nat)
    requires s.parsedNr <= |s.parsed| && s.seenNr <= |s.seen| && a <= s.parsedNr
    ensures FirstKept(s, a, seen).Some? ==> a <= FirstKept(s, a, seen).value.0 <= s.parsedNr
  {
  }

  lemma LastIs(s: StoreState, seen: nat, e: nat, last: nat)
    requires seen <= last < s.seenNr <= |s.seen| && s.seen[last] < e
    requires last + 1 < s.seenNr ==> s.seen[last + 1] >= e
    ensures LastBefore(s, seen, e, last)
  {
  }

  lemma LastOn(s: StoreState, seen: nat, r: Option<(nat, nat)>, a: nat)
    ensures r.Some? && LastBefore(s, seen + 1, r.value.0, r.value.1) ==> LastBefore(s, seen, r.value.0, r.value.1)
  {
  }

  /** A match is the next one recorded. */
  lemma IsSeen(q: RawQuery, text: Bytes, s: StoreState, a: nat, seen: nat)
    requires FinalGood(q, text, s) && s.keySeen && a < s.parsedNr
    requires seen < s.seenNr <= |s.seen| && s.seen[seen] < a && (seen + 1 < s.seenNr ==> s.seen[seen + 1] >= a)
    ensures s.parsedNr <= |s.parsed|
    ensures Matched(q, text, s.parsed[a]) <==> seen + 1 < s.seenNr && s.seen[seen + 1] == a
    ensures seen + 2 < s.seenNr ==> s.seen[seen + 2] >= s.seen[seen + 1] + 1
  {
    hide Matched, Tiled;
    AllSeen(q, text, s);
    if Matched(q, text, s.parsed[a]) {
      assert a in s.seen[..s.seenNr];
      var m :| 0 <= m < s.seenNr && s.seen[m] == a;
      assert m > seen;
    }
  }

  // ---- the cut ----------------------------------------------------------------------------------

  /** Match `i` is cut with its section, or alone. */
  lemma WidenedIs(q: RawQuery, text: Bytes, s: StoreState, i: nat, b: nat, e: nat)
    requires FinalGood(q, text, s) && s.keySeen && Usable(s, text) && i < s.seenNr
    ensures s.parsedNr <= |s.parsed| && i < |s.seen| && s.seen[i] < s.parsedNr
    ensures Emptied(q, text, s.parsed[..s.parsedNr], s.seen[i], b, e) <==>
      Widened(s, text, i).Some? && WideSpan(s, text, i).0 == b && WideSpan(s, text, i).1 == e
  {
    hide *;
    SpansAreEvents(q, text, s);
    AllSeen(q, text, s);
    var k, events := s.seen[i], s.parsed[..s.parsedNr];
    AheadOf(s, i);
    FirstIs(s, k, false, b);
    KeptIs(q, text, s, k + 1, i, e);
    WidenedCases(s, text, i);
    BeforeEvents(s.parsed, s.parsedNr, b, k);
    EmptiedIs(q, text, events, k, b, e);
  }

  lemma AheadOf(s: StoreState, i: nat)
    requires i < s.seenNr <= |s.seen| && forall i, j :: 0 <= i < j < s.seenNr ==> s.seen[i] < s.seen[j]
    ensures i + 1 < s.seenNr ==> s.seen[i + 1] >= s.seen[i] + 1
  {
  }

  lemma WidenedCases(s: StoreState, text: Bytes, i: nat)
    requires Usable(s, text) && s.keySeen && i < s.seenNr
    ensures i < |s.seen| && s.seen[i] < |s.parsed| && s.parsedNr <= |s.parsed| && s.seenNr <= |s.seen|
    ensures Widened(s, text, i).Some? <==>
      FirstRemoved(s, s.seen[i], false).Some? && FirstKept(s, s.seen[i] + 1, i).Some?
    ensures Widened(s, text, i).Some? ==>
      FirstRemoved(s, s.seen[i], false) == Some(WideSpan(s, text, i).0)
      && FirstKept(s, s.seen[i] + 1, i) == Some((WideSpan(s, text, i).1, WideSpan(s, text, i).2))
  {
  }

  lemma BeforeEvents(parsed: seq<Parsed>, n: nat, b: nat, k: nat)
    requires k < n <= |parsed|
    ensures Before(parsed, b, k, false) <==> EmptyBefore(parsed[..n], b, k)
  {
    if b <= k { assert parsed[b..k] == parsed[..n][b..k]; }
  }

  lemma EmptiedIs(q: RawQuery, text: Bytes, events: seq<Parsed>, k: nat, b: nat, e: nat)
    requires k < |events|
    ensures Emptied(q, text, events, k, b, e) <==> EmptyBefore(events, b, k) && EmptyBehind(q, text, events, k, e)
  {
    hide EmptyBefore, EmptyBehind;
  }

  /** The cut leaves out the text from event `b`, with the blanks before it, to event `e`, and the matches there. */
  ghost predicate Cuts(s: StoreState, text: Bytes, c: Cut, i: nat, b: nat, e: nat) {
    && b < e <= s.parsedNr <= |s.parsed| && s.parsed[b].begin <= |text|
    && BlanksTo(text, c.copyEnd, s.parsed[b].begin) && c.replaceEnd == s.parsed[e - 1].end
    && i < c.next <= s.seenNr <= |s.seen| && s.seen[c.next - 1] < e && (c.next < s.seenNr ==> s.seen[c.next] >= e)
  }

  /**
   An unset cuts match `i` out with its whole section, from the first event to go to the last, if
   and only if the section is empty without the match; otherwise it cuts out the match alone.
   */
  lemma CutsExactly(q: RawQuery, text: Bytes, s: StoreState, i: nat)
    requires FinalGood(q, text, s) && s.keySeen && Usable(s, text) && i < s.seenNr
    ensures s.parsedNr <= |s.parsed| && i < |s.seen| && s.seen[i] < s.parsedNr
    ensures forall b, e :: Emptied(q, text, s.parsed[..s.parsedNr], s.seen[i], b, e) ==>
      Cuts(s, text, CutAt(s, text, true, i), i, b, e)
    ensures !(exists b, e :: Emptied(q, text, s.parsed[..s.parsedNr], s.seen[i], b, e)) ==>
      Cuts(s, text, CutAt(s, text, true, i), i, s.seen[i], s.seen[i] + 1)
  {
    hide *;
    WidenedIs(q, text, s, i, 0, 0);
    var events, k := s.parsed[..s.parsedNr], s.seen[i];
    forall b, e | Emptied(q, text, events, k, b, e)
      ensures Cuts(s, text, CutAt(s, text, true, i), i, b, e)
    {
      WidenedIs(q, text, s, i, b, e);
      CutsWide(q, text, s, i);
    }
    if Widened(s, text, i).Some? {
      WidenedIs(q, text, s, i, WideSpan(s, text, i).0, WideSpan(s, text, i).1);
    } else {
      CutsOne(q, text, s, i);
    }
  }

  lemma CutsOne(q: RawQuery, text: Bytes, s: StoreState, i: nat)
    requires FinalGood(q, text, s) && s.keySeen && Usable(s, text) && i < s.seenNr && Widened(s, text, i).None?
    ensures s.parsedNr <= |s.parsed| && s.seen[i] < s.parsedNr
    ensures Cuts(s, text, CutAt(s, text, true, i), i, s.seen[i], s.seen[i] + 1)
  {
    hide Widened, FinalGood, Usable, BlanksTo, Swallowed, Matched;
    AllSeen(q, text, s);
    EventAt(q, text, s, s.seen[i]);
    UsableAt(s, text, i);
    SwallowedIs(text, s.parsed[s.seen[i]].begin);
  }

  lemma UsableAt(s: StoreState, text: Bytes, i: nat)
    requires Usable(s, text) && i < s.seenNr
    ensures s.seenNr <= |s.seen| && s.seen[i] < |s.parsed|
  {
  }

  lemma CutsWide(q: RawQuery, text: Bytes, s: StoreState, i: nat)
    requires FinalGood(q, text, s) && s.keySeen && Usable(s, text) && i < s.seenNr && Widened(s, text, i).Some?
    ensures Cuts(s, text, CutAt(s, text, true, i), i, WideSpan(s, text, i).0, WideSpan(s, text, i).1)
  {
    hide *;
    AllSeen(q, text, s);
    var b, e, last := WideSpan(s, text, i).0, WideSpan(s, text, i).1, WideSpan(s, text, i).2;
    EdgeAtZero(s);
    WidenFacts(q, text, s, i, 0, b, e, last);
    EventAt(q, text, s, b);
    EventAt(q, text, s, e - 1);
    SwallowedIs(text, s.parsed[b].begin);
    WideCut(s, text, i, b, e, last);
    CutsAre(s, text, CutAt(s, text, true, i), i, b, e);
  }

  lemma WideCut(s: StoreState, text: Bytes, i: nat, b: nat, e: nat, last: nat)
    requires Usable(s, text) && s.keySeen && i < s.seenNr && b < s.parsedNr && e <= s.parsedNr
    requires Start(s, text, b) <= |text| && Start(s, text, e) <= |text|
    requires Widened(s, text, i) == Some((Start(s, text, b), Start(s, text, e), last))
    ensures CutAt(s, text, true, i) == Cut(Swallowed(text, Start(s, text, b)), Start(s, text, e), last + 1)
  {
    hide Widened, Swallowed;
  }

  lemma CutsAre(s: StoreState, text: Bytes, c: Cut, i: nat, b: nat, e: nat)
    requires b < e <= s.parsedNr <= |s.parsed| && s.parsed[b].begin <= |text|
    requires BlanksTo(text, c.copyEnd, s.parsed[b].begin) && c.replaceEnd == s.parsed[e - 1].end
    requires i < c.next <= s.seenNr <= |s.seen| && s.seen[c.next - 1] < e
    requires c.next < s.seenNr ==> s.seen[c.next] >= e
    ensures Cuts(s, text, c, i, b, e)
  {
    hide BlanksTo;
  }

  // ---- the file that is left ---------------------------------------------------------------------

  /** What is copied ends its last line. */
  function Ended(copied: Bytes): Bytes {
    if copied != [] && copied[|copied| - 1] != 10 then copied + [10] else copied
  }

  /**
   When all matches lie in one stretch, which goes with its section or is a single match, the file
   is what stands before the stretch, its last line ended, and what stands behind.
   */
  lemma UnsetLeaves(q: RawQuery, text: Bytes, s: StoreState, key: Bytes, comment: Option<Bytes>, b: nat, e: nat)
    requires FinalGood(q, text, s) && s.keySeen && Usable(s, text) && q.baselen < |key|
    requires s.parsedNr <= |s.parsed| && 0 < s.seenNr <= |s.seen| && s.seen[0] < s.parsedNr
    requires
      if exists x, y :: Emptied(q, text, s.parsed[..s.parsedNr], s.seen[0], x, y) then
        Emptied(q, text, s.parsed[..s.parsedNr], s.seen[0], b, e)
      else b == s.seen[0] && e == b + 1
    requires forall m :: 0 <= m < s.seenNr ==> s.seen[m] < e
    ensures Usable(Placed(s), text) && b < e <= s.parsedNr && s.parsed[b].begin <= s.parsed[e - 1].end <= |text|
    ensures exists x ::
      && 0 <= x <= |text| && BlanksTo(text, x, s.parsed[b].begin)
      && Edited(s, text, key, q.baselen, None, comment) == Ended(text[..x]) + text[s.parsed[e - 1].end..]
  {
    hide *;
    AllSeen(q, text, s);
    StaysPlaced(s);
    CutsExactly(q, text, s, 0);
    var c := CutAt(s, text, true, 0);
    CutsOnce(s, text, c, b, e);
    EventAt(q, text, s, b);
    EventAt(q, text, s, e - 1);
    InOrder(q, text, s, b, e - 1);
    EditedUnset(s, text, key, q.baselen, comment);
    SplicedOnce(s, text, c);
    CopiedIs(text, c.copyEnd);
  }

  lemma StaysPlaced(s: StoreState)
    requires s.seenNr != 0
    ensures Placed(s) == s
  {
  }

  lemma CutsOnce(s: StoreState, text: Bytes, c: Cut, b: nat, e: nat)
    requires Cuts(s, text, c, 0, b, e) && forall m :: 0 <= m < s.seenNr ==> s.seen[m] < e
    ensures b < e <= s.parsedNr <= |s.parsed| && s.parsed[b].begin <= |text| && c.copyEnd <= |text|
    ensures BlanksTo(text, c.copyEnd, s.parsed[b].begin) && c.replaceEnd == s.parsed[e - 1].end && c.next == s.seenNr
  {
  }

  lemma {:induction false} InOrder(q: RawQuery, text: Bytes, s: StoreState, a: nat, b: nat)
    requires FinalGood(q, text, s) && a <= b < s.parsedNr <= |s.parsed|
    ensures s.parsed[a].begin <= s.parsed[b].end <= |text|
    decreases b - a
  {
    hide *;
    EventAt(q, text, s, a);
    if a < b {
      InOrder(q, text, s, a + 1, b);
      StartsNext(s, text, a);
    }
  }

  lemma StartsNext(s: StoreState, text: Bytes, k: nat)
    requires k + 1 < s.parsedNr <= |s.parsed|
    ensures Start(s, text, k + 1) == s.parsed[k + 1].begin
  {
  }

  lemma SplicedOnce(s: StoreState, text: Bytes, c: Cut)
    requires Usable(s, text) && 0 < s.seenNr && c == CutAt(s, text, true, 0) && c.next == s.seenNr
    ensures Spliced(s, text, true, 0, 0) == (Copied(text, 0, c.copyEnd), c.replaceEnd)
  {
    hide CutAt, Copied, Usable;
    assert Copied(text, 0, c.copyEnd) + [] == Copied(text, 0, c.copyEnd);
  }

  lemma CopiedIs(text: Bytes, to: nat)
    requires to <= |text|
    ensures Copied(text, 0, to) == Ended(text[..to])
  {
    assert text[0..to] == text[..to];
    assert text[..to] + [] == text[..to];
  }

  // ---- the file a set leaves ---------------------------------------------------------------------

  /** The lines of the one setting, under a new header or not. */
  lemma LinesIn(s: StoreState, key: Bytes, b: nat, v: Bytes, comment: Option<Bytes>)
    requires b < |key|
    ensures NewLines(s, key, b, Some(v), comment) ==
      (if s.sectionSeen then [] else W.SectionLine(key[..b])) + W.PairLine(key[b + 1..], v, comment)
  {
    hide W.SectionLine, W.PairLine;
  }

  lemma EditedSet(s: StoreState, text: Bytes, key: Bytes, b: nat, v: Bytes, comment: Option<Bytes>, c: Cut)
    requires b < |key| && Usable(Placed(s), text) && Placed(s).seenNr == 1 && c == CutAt(Placed(s), text, false, 0)
    ensures Edited(s, text, key, b, Some(v), comment) ==
      Copied(text, 0, c.copyEnd) + NewLines(s, key, b, Some(v), comment) + text[c.replaceEnd..]
  {
    hide CutAt, Copied, Usable, NewLines, Placed, Spliced;
    SplicedStep(Placed(s), text, false, 0, 0, []);
    SplicedDone(Placed(s), text, false, c.next, c.replaceEnd);
    var r := Spliced(Placed(s), text, false, 0, 0);
    assert [] + r.0 == r.0 && [] + Copied(text, 0, c.copyEnd) + [] == Copied(text, 0, c.copyEnd);
  }

  /** A single match is replaced where it stands: what is before it, without the blanks before it on its line, and that
   line ended, the new line, and what is behind the match. */
  lemma SetLeaves(q: RawQuery, text: Bytes, s: StoreState, key: Bytes, v: Bytes, comment: Option<Bytes>)
    requires FinalGood(q, text, s) && s.keySeen && s.seenNr == 1 && Usable(s, text) && q.baselen < |key|
    ensures Usable(Placed(s), text) && s.parsedNr <= |s.parsed| && 0 < |s.seen| && s.seen[0] < s.parsedNr
    ensures s.parsed[s.seen[0]].begin <= s.parsed[s.seen[0]].end <= |text|
    ensures var e := s.parsed[s.seen[0]];
      exists x :: 0 <= x <= |text| && BlanksTo(text, x, e.begin) && Edited(s, text, key, q.baselen, Some(v), comment) ==
        Ended(text[..x]) + W.PairLine(key[q.baselen + 1..], v, comment) + text[e.end..]
  {
    hide FinalGood, Matched, Swallowed, BlanksTo, Edited, Copied, NewLines, W.PairLine, W.SectionLine, Usable;
    AllSeen(q, text, s);
    EventAt(q, text, s, s.seen[0]);
    StaysPlaced(s);
    SeenFacts(q, text, s, 0);
    var e := s.parsed[s.seen[0]];
    var x := Swallowed(text, e.begin);
    SwallowedIs(text, e.begin);
    EditedSet(s, text, key, q.baselen, v, comment, Cut(x, e.end, 1));
    CopiedIs(text, x);
    LinesIn(s, key, q.baselen, v, comment);
    var line := W.PairLine(key[q.baselen + 1..], v, comment);
    assert [] + line == line;
  }

  /**
   With no match the lines go behind event `k`, the last of the key's section or else the last of all,
   and behind the line end that closes it: what is before is kept and its last line ended, and what is
   behind follows.
   */
  lemma InsertLeaves(text: Bytes, s: StoreState, key: Bytes, b: nat, v: Bytes, comment: Option<Bytes>, k: nat)
    requires !s.keySeen && s.seenNr == 0 && Usable(Placed(s), text) && b < |key| && s.parsedNr <= |s.parsed|
    requires if s.seenTouched then |s.seen| > 0 && k == s.seen[0]
             else k == if s.parsedNr == 0 then 0 else s.parsedNr - 1
    ensures k < |s.parsed| && s.parsed[k].end <= |text|
    ensures var end := s.parsed[k].end;
      var y := if 0 < end < |text| && text[end - 1] != 10 && text[end] == 10 then end + 1 else end;
      Edited(s, text, key, b, Some(v), comment) ==
        Ended(text[..y]) + (if s.sectionSeen then [] else W.SectionLine(key[..b]))
        + W.PairLine(key[b + 1..], v, comment) + text[y..]
  {
    hide Edited, Copied, NewLines, W.PairLine, W.SectionLine, Usable;
    PlacedAt(text, s, k);
    var end := s.parsed[k].end;
    var y := if 0 < end < |text| && text[end - 1] != 10 && text[end] == 10 then end + 1 else end;
    EditedSet(s, text, key, b, v, comment, Cut(y, y, 1));
    CopiedIs(text, y);
    LinesIn(s, key, b, v, comment);
    Regrouped(Ended(text[..y]), if s.sectionSeen then [] else W.SectionLine(key[..b]),
      W.PairLine(key[b + 1..], v, comment), text[y..]);
  }

  lemma Regrouped(a: Bytes, h: Bytes, l: Bytes, z: Bytes)
    ensures a + (h + l) + z == a + h + l + z
  {
  }

  lemma PlacedAt(text: Bytes, s: StoreState, k: nat)
    requires !s.keySeen && s.seenNr == 0 && Usable(Placed(s), text) && s.parsedNr <= |s.parsed|
    requires if s.seenTouched then |s.seen| > 0 && k == s.seen[0]
             else k == if s.parsedNr == 0 then 0 else s.parsedNr - 1
    ensures k < |s.parsed| && s.parsed[k].end <= |text| && Placed(s).seenNr == 1
    ensures var y := WithLineEnd(text, s.parsed[k].end); CutAt(Placed(s), text, false, 0) == Cut(y, y, 1)
  {
    hide WithLineEnd, Swallowed, Widened;
  }
}
