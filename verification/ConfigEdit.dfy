/**
 `set_multivar_in_file` of config_store.rs: the file is copied around the spans that
 change, and one line is spliced in.  The functions say what is written; the method does
 it the way the source does.
 */
module ConfigEdit {
  import opened Bytes
  import opened ConfigGrammar
  import opened ConfigScan
  import opened ConfigKey
  import opened ConfigWriter
  import opened Optional
  import F = ConfigFacts
  import S = ConfigSource

  datatype EditResult = Written(out: Bytes) | NothingSet | InvalidFile

  /** What one turn of the copy loop leaves out: it resumes at match number `next`. */
  datatype Cut = Cut(copyEnd: nat, replaceEnd: nat, next: nat)

  /** The store's indices are in range, as they are after every parse. */
  ghost predicate Usable(s: StoreState, text: Bytes) {
    && s.parsedNr <= |s.parsed| && s.seenNr <= |s.seen|
    && (forall k :: 0 <= k < |s.parsed| ==> s.parsed[k].begin <= s.parsed[k].end <= |text|)
    && (forall i :: 0 <= i < s.seenNr ==> s.seen[i] < |s.parsed|)
    && (s.keySeen ==> forall i :: 0 <= i < s.seenNr ==> s.seen[i] < s.parsedNr)
  }

  // ---- widening the cut over an emptied section --------------------------------------------

  /** Backwards from event `i`: the first event to remove, unless something forbids it. */
  function FirstRemoved(s: StoreState, i: nat, sectionSeen: bool): (r: Option<nat>)
    requires i <= |s.parsed|
    ensures r.Some? ==> r.value <= i
  {
    if i == 0 then Some(0)
    else match s.parsed[i - 1].ty
      case Comment => None
      case Entry => if sectionSeen then Some(i) else None
      case Section => if s.parsed[i - 1].isKeysSection then FirstRemoved(s, i - 1, true) else Some(i)
      case _ => FirstRemoved(s, i - 1, sectionSeen)
  }

  /** Forwards from event `i`: the first event to keep and the last match removed. */
  function FirstKept(s: StoreState, i: nat, seen: nat): (r: Option<(nat, nat)>)
    requires s.parsedNr <= |s.parsed| && s.seenNr <= |s.seen|
    ensures r.Some? ==> r.value.1 >= seen && (i <= s.parsedNr ==> i <= r.value.0 <= s.parsedNr)
    decreases s.parsedNr - i
  {
    if i >= s.parsedNr then Some((i, seen))
    else match s.parsed[i].ty
      case Comment => None
      case Section => if s.parsed[i].isKeysSection then FirstKept(s, i + 1, seen) else Some((i, seen))
      case Entry =>
        if seen + 1 < s.seenNr && i == s.seen[seen + 1] then FirstKept(s, i + 1, seen + 1) else None
      case _ => FirstKept(s, i + 1, seen)
  }

  /** `maybe_remove_section`: the span to remove and the last match inside it. */
  function Widened(s: StoreState, text: Bytes, i: nat): (r: Option<(nat, nat, nat)>)
    requires Usable(s, text) && s.keySeen && i < s.seenNr
    ensures r.Some? ==> r.value.0 <= |text| && r.value.1 <= |text| && r.value.2 >= i
  {
    match FirstRemoved(s, s.seen[i], false)
    case None => None
    case Some(first) =>
      match FirstKept(s, s.seen[i] + 1, i)
      case None => None
      case Some((kept, last)) =>
        var end := if kept < s.parsedNr then s.parsed[kept].begin else s.parsed[s.parsedNr - 1].end;
        Some((s.parsed[first].begin, end, last))
  }

  method MaybeRemoveSection(store: S.Store, text: Bytes, beginOffset: nat, endOffset: nat, seenPtr: nat)
      returns (begin: nat, end: nat, seen: nat)
    requires store.Valid() && Usable(store.State(), text) && store.keySeen && seenPtr < store.seenNr
    ensures match Widened(store.State(), text, seenPtr)
      case None => begin == beginOffset && end == endOffset && seen == seenPtr
      case Some(w) => begin == w.0 && end == w.1 && seen == w.2
  {
    ghost var s := store.State();
    var sectionSeen := false;
    seen := seenPtr;
    var i: nat := store.seen[seen];
    while i > 0
      invariant i <= store.seen[seenPtr]
      invariant FirstRemoved(s, store.seen[seenPtr], false) == FirstRemoved(s, i, sectionSeen)
    {
      var p := store.parsed[i - 1];
      if p.ty == Comment {
        return beginOffset, endOffset, seenPtr;
      } else if p.ty == Entry {
        if !sectionSeen {
          return beginOffset, endOffset, seenPtr;
        }
        break;
      } else if p.ty == Section {
        if !p.isKeysSection {
          break;
        }
        sectionSeen := true;
      }
      i := i - 1;
    }
    begin := store.parsed[i].begin;
    assert FirstRemoved(s, store.seen[seenPtr], false) == Some(i);

    i := store.seen[seen] + 1;
    while i < store.parsedNr
      invariant store.seen[seenPtr] < i <= store.parsedNr && seen < store.seenNr
      invariant FirstKept(s, store.seen[seenPtr] + 1, seenPtr) == FirstKept(s, i, seen)
      decreases store.parsedNr - i
    {
      var p := store.parsed[i];
      if p.ty == Comment {
        return beginOffset, endOffset, seenPtr;
      } else if p.ty == Section {
        if p.isKeysSection {
          i := i + 1;
          continue;
        }
        break;
      } else if p.ty == Entry {
        seen := seen + 1;
        if seen < store.seenNr && i == store.seen[seen] {
          i := i + 1;
          continue;
        }
        return beginOffset, endOffset, seenPtr;
      }
      i := i + 1;
    }
    end := if i < store.parsedNr then store.parsed[i].begin else store.parsed[store.parsedNr - 1].end;
  }

  // ---- the copy loop --------------------------------------------------------------------------

  /** Back over the blanks before `end` on its line. */
  function Swallowed(text: Bytes, end: nat): (e: nat)
    requires end <= |text|
    ensures e <= end
  {
    if end > 0 && IsSpace(text[end - 1]) && text[end - 1] != LF then Swallowed(text, end - 1) else end
  }

  /** A header is copied with its line end. */
  function WithLineEnd(text: Bytes, end: nat): (e: nat)
    requires end <= |text|
    ensures end <= e <= |text|
  {
    if 0 < end < |text| && text[end - 1] != LF && text[end] == LF then end + 1 else end
  }

  function CutAt(s: StoreState, text: Bytes, unset: bool, i: nat): (c: Cut)
    requires Usable(s, text) && i < s.seenNr
    ensures c.copyEnd <= |text| && c.replaceEnd <= |text| && c.next > i
  {
    var p := s.parsed[s.seen[i]];
    if !s.keySeen then
      var end := WithLineEnd(text, p.end);
      Cut(end, end, i + 1)
    else
      match if unset then Widened(s, text, i) else None
      case None => Cut(Swallowed(text, p.begin), p.end, i + 1)
      case Some(w) => Cut(Swallowed(text, w.0), w.1, w.2 + 1)
  }

  /** `text[from..to]` as it is copied: never leaving a line open. */
  function Copied(text: Bytes, from: nat, to: nat): Bytes
    requires to <= |text|
  {
    if to > from then text[from..to] + (if text[to - 1] != LF then [LF] else []) else []
  }

  /** The text kept before the last cut, matches `i` and later still to be cut, and where to resume. */
  function Spliced(s: StoreState, text: Bytes, unset: bool, i: nat, from: nat): (r: (Bytes, nat))
    requires Usable(s, text) && from <= |text|
    ensures r.1 <= |text|
    decreases s.seenNr - i
  {
    if i >= s.seenNr then ([], from)
    else
      var c := CutAt(s, text, unset, i);
      var rest := Spliced(s, text, unset, c.next, c.replaceEnd);
      (Copied(text, from, c.copyEnd) + rest.0, rest.1)
  }

  /** With nothing to replace, the last place of the section, or the end, takes the line. */
  function Placed(s: StoreState): StoreState {
    if s.seenNr != 0 then s
    else s.(seen := if s.seenTouched then s.seen else [s.parsedNr - if s.parsedNr != 0 then 1 else 0], seenNr := 1)
  }

  /** What goes in: the line, under a new header when the section was not seen. */
  function NewLines(s: StoreState, key: Bytes, baselen: nat, value: Option<Bytes>, comment: Option<Bytes>): Bytes
    requires baselen < |key|
  {
    match value
    case None => []
    case Some(v) =>
      (if s.sectionSeen then [] else SectionLine(key[..baselen])) + PairLine(key[baselen + 1..], v, comment)
  }

  /** The whole edit of a file that exists, once it has been scanned. */
  function Edited(s: StoreState, text: Bytes, key: Bytes, baselen: nat, value: Option<Bytes>,
      comment: Option<Bytes>): Bytes
    requires baselen < |key| && Usable(Placed(s), text)
  {
    var r := Spliced(Placed(s), text, value.None?, 0, 0);
    r.0 + NewLines(s, key, baselen, value, comment) + text[r.1..]
  }

  /** `repo_config_set_multivar_in_file_gently`; a missing file is `None`. */
  ghost function Edit(q: Query, key: Bytes, contents: Option<Bytes>, value: Option<Bytes>,
      comment: Option<Bytes>): EditResult
    requires q.baselen < |key|
  {
    match contents
    case None =>
      if value.None? then NothingSet
      else Written(SectionLine(key[..q.baselen]) + PairLine(key[q.baselen + 1..], value.value, comment))
    case Some(text) =>
      match Scan(q, text)
      case None => InvalidFile
      case Some(s) =>
        if (s.seenNr == 0 && value.None?) || (s.seenNr > 1 && !q.multiReplace) then NothingSet
        else
          ScanUsable(q, text);
          Written(Edited(s, text, key, q.baselen, value, comment))
  }

  lemma ScanUsable(q: Query, text: Bytes)
    requires Scan(q, text).Some?
    ensures Usable(Placed(Scan(q, text).value), text)
  {
    F.ScanGood(q, text);
    var s := Scan(q, text).value;
    GoodUsable(q, text, s);
  }

  lemma GoodUsable(q: RawQuery, text: Bytes, s: StoreState)
    requires F.FinalGood(q, text, s)
    ensures Usable(Placed(s), text)
  {
    hide F.Matched, F.Anchor, F.ModeAt, F.PairsBefore, F.ItemAt;
    var spans := s.parsed[..s.parsedNr];
    forall k | 0 <= k < s.parsedNr ensures s.parsed[k].begin <= s.parsed[k].end <= |text| {
      assert F.SpanOk(q, text, spans[k]) && spans[k] == s.parsed[k];
    }
  }

  method SetMultivarInFile(contents: Option<Bytes>, key: Bytes, canonicalKey: Bytes, baselen: nat,
      value: Option<Bytes>, matcher: Matcher, comment: Option<Bytes>, multiReplace: bool) returns (r: EditResult)
    requires ValidQuery(Query(canonicalKey, baselen, matcher, multiReplace)) && baselen < |key|
    ensures r == Edit(Query(canonicalKey, baselen, matcher, multiReplace), key, contents, value, comment)
  {
    hide Scan, Usable, Edited, SectionLine, PairLine;
    if contents.None? {
      if value.None? {
        return NothingSet;
      }
      var header := StoreCreateSection(key, baselen);
      var line := WritePair(key, baselen, value.value, comment);
      return Written(header + line);
    }
    var text := contents.value;
    var store := new S.Store(Query(canonicalKey, baselen, matcher, multiReplace));
    ghost var q := store.query;
    var ok := S.ParseSource(text, store);
    if !ok {
      return InvalidFile;
    }
    ScanUsable(q, text);
    if (store.seenNr == 0 && value.None?) || (store.seenNr > 1 && !multiReplace) {
      return NothingSet;
    }
    var out := Rewrite(store, text, key, baselen, value, comment);
    return Written(out);
  }

  /** The part of `set_multivar_in_file` behind its refusals. */
  method Rewrite(store: S.Store, text: Bytes, key: Bytes, baselen: nat, value: Option<Bytes>, comment: Option<Bytes>)
      returns (out: Bytes)
    requires store.Valid() && Usable(Placed(store.State()), text) && baselen < |key|
    modifies store
    ensures out == Edited(old(store.State()), text, key, baselen, value, comment)
  {
    hide Usable, Spliced, SectionLine, PairLine;
    ghost var s0 := store.State();
    if store.seenNr == 0 {
      if !store.seenTouched {
        store.seen := [store.parsedNr - if store.parsedNr != 0 then 1 else 0];
      }
      store.seenNr := 1;
    }
    assert store.State() == Placed(s0);
    var copyBegin;
    out, copyBegin := CopyAround(store, text, value.None?);
    ghost var kept := out;
    if value.Some? {
      if !store.sectionSeen {
        var header := StoreCreateSection(key, baselen);
        out := out + header;
      }
      var line := WritePair(key, baselen, value.value, comment);
      out := out + line;
    }
    assert out == kept + NewLines(s0, key, baselen, value, comment);
    out := out + text[copyBegin..];
  }

  /** The loop that copies the file around the matches; afterwards copying resumes at `copyBegin`. */
  method CopyAround(store: S.Store, text: Bytes, unset: bool) returns (out: Bytes, copyBegin: nat)
    requires store.Valid() && Usable(store.State(), text)
    ensures copyBegin <= |text|
    ensures out == Spliced(store.State(), text, unset, 0, 0).0
    ensures copyBegin == Spliced(store.State(), text, unset, 0, 0).1
  {
    hide Widened, Copied, Swallowed, Spliced, Usable;
    ghost var s := store.State();
    out, copyBegin := [], 0;
    var i: nat := 0;
    assert [] + Spliced(s, text, unset, 0, 0).0 == Spliced(s, text, unset, 0, 0).0;
    while i < store.seenNr
      invariant copyBegin <= |text|
      invariant Spliced(s, text, unset, 0, 0).0 == out + Spliced(s, text, unset, i, copyBegin).0
      invariant Spliced(s, text, unset, 0, 0).1 == Spliced(s, text, unset, i, copyBegin).1
      decreases store.seenNr - i
    {
      var c := NextCut(store, text, unset, i);
      SplicedStep(s, text, unset, i, copyBegin, out);
      var copyEnd := c.copyEnd;
      CopiedParts(text, copyBegin, copyEnd);
      var newLine := copyEnd > 0 && text[copyEnd - 1] != LF;
      if copyEnd > copyBegin {
        out := out + text[copyBegin..copyEnd];
        if newLine {
          out := out + [LF];
        }
      }
      copyBegin := c.replaceEnd;
      i := c.next;
    }
    SplicedDone(s, text, unset, i, copyBegin);
    assert out + [] == out;
  }

  /** One turn of the copy loop, up to the copying itself. */
  method NextCut(store: S.Store, text: Bytes, unset: bool, i: nat) returns (c: Cut)
    requires store.Valid() && Usable(store.State(), text) && i < store.seenNr
    ensures c == CutAt(store.State(), text, unset, i)
  {
    hide Swallowed;
    var j, last := store.seen[i], i;
    if !store.keySeen {
      var end := store.parsed[j].end;
      if end > 0 && end < |text| && text[end - 1] != LF && text[end] == LF {
        end := end + 1;
      }
      return Cut(end, end, i + 1);
    }
    var replaceEnd, end := store.parsed[j].end, store.parsed[j].begin;
    if unset {
      end, replaceEnd, last := MaybeRemoveSection(store, text, end, replaceEnd, i);
    }
    end := SwallowBlanks(text, end);
    return Cut(end, replaceEnd, last + 1);
  }

  lemma SplicedDone(s: StoreState, text: Bytes, unset: bool, i: nat, from: nat)
    requires Usable(s, text) && i >= s.seenNr && from <= |text|
    ensures Spliced(s, text, unset, i, from) == ([], from)
  {
  }

  lemma SplicedStep(s: StoreState, text: Bytes, unset: bool, i: nat, from: nat, out: Bytes)
    requires Usable(s, text) && i < s.seenNr && from <= |text|
    ensures var c := CutAt(s, text, unset, i);
      var r := Spliced(s, text, unset, c.next, c.replaceEnd);
      && Spliced(s, text, unset, i, from).1 == r.1
      && out + Spliced(s, text, unset, i, from).0 == out + Copied(text, from, c.copyEnd) + r.0
  {
    hide Copied, CutAt;
  }

  lemma CopiedParts(text: Bytes, from: nat, to: nat)
    requires to <= |text|
    ensures Copied(text, from, to) ==
      if to > from then (if text[to - 1] != LF then text[from..to] + [LF] else text[from..to]) else []
  {
  }

  method SwallowBlanks(text: Bytes, start: nat) returns (end: nat)
    requires start <= |text|
    ensures end == Swallowed(text, start)
  {
    end := start;
    while end > 0
      invariant end <= start && Swallowed(text, start) == Swallowed(text, end)
    {
      var c := text[end - 1];
      if IsSpace(c) && c != LF {
        end := end - 1;
      } else {
        break;
      }
    }
  }
}
