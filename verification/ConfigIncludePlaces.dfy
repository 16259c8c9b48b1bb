/**
 Where the include walk takes an include, said by the indices of the events: which event ends an
 include's path, what the path is, and which stretches of text go around what it names.
 */
module ConfigIncludePlaces {
  import opened Bytes
  import opened ConfigInclude
  import opened Optional

  /** Event `h` is the last header before event `i`, and opens an include section. */
  predicate Opens(es: seq<Event>, h: int, i: nat)
    requires i <= |es|
  {
    0 <= h < i && es[h].Header? && es[h].isInclude && forall m :: h < m < i ==> !es[m].Header?
  }

  ghost predicate InInclude(es: seq<Event>, i: nat)
    requires i <= |es|
  {
    exists h :: Opens(es, h, i)
  }

  predicate EndsValue(e: Event) { e.Value? || e.ValueDone? }

  /** Event `n` is the last name before event `i`, a path of an include section, and no value has ended since. */
  ghost predicate Names(es: seq<Event>, n: int, i: nat)
    requires i <= |es|
  {
    && 0 <= n < i && es[n].Name? && es[n].isPath && InInclude(es, n)
    && forall m :: n < m < i ==> !es[m].Name? && !es[m].Header? && !EndsValue(es[m])
  }

  ghost predicate AtPath(es: seq<Event>, i: nat)
    requires i <= |es|
  {
    exists n :: Names(es, n, i)
  }

  /** Event `i` ends the path of an include. */
  ghost predicate Takes(es: seq<Event>, i: nat)
    requires i < |es|
  {
    EndsValue(es[i]) && AtPath(es, i)
  }

  /** The parts of a path that goes on, read before event `i` and not yet ended. */
  ghost function Parts(es: seq<Event>, i: nat): Bytes
    requires i <= |es|
  {
    if i == 0 then []
    else if !AtPath(es, i - 1) then Parts(es, i - 1)
    else if es[i - 1].ValueNotDone? then Parts(es, i - 1) + es[i - 1].raw
    else if es[i - 1].ValueDone? then []
    else Parts(es, i - 1)
  }

  /** The path that event `i` ends. */
  ghost function PathAt(es: seq<Event>, i: nat): Bytes
    requires i < |es|
  {
    match es[i]
    case Value(_, raw) => raw
    case ValueDone(_, raw) => Parts(es, i) + raw
    case _ => []
  }

  /** The header event `i` stands under, as it is written. */
  function HeaderAt(es: seq<Event>, i: nat): (h: Bytes)
    requires i <= |es|
    ensures (forall m :: 0 <= m < i ==> !es[m].Header?) ==> h == []
    ensures forall k :: 0 <= k < i && es[k].Header? && (forall m :: k < m < i ==> !es[m].Header?) ==> h == es[k].written
  {
    if i == 0 then [] else if es[i - 1].Header? then es[i - 1].written else HeaderAt(es, i - 1)
  }

  /** The events `from` to `to`, as they are written. */
  function Written(es: seq<Event>, from: nat, to: nat): Bytes
    requires from <= to <= |es|
  {
    if from == to then [] else Written(es, from, to - 1) + es[to - 1].written
  }

  /** The first event from `from` on that ends an include's path, or the number of events. */
  ghost function NextTaken(es: seq<Event>, from: nat): (i: nat)
    requires from <= |es|
    ensures from <= i <= |es| && (i < |es| ==> Takes(es, i)) && forall m :: from <= m < i ==> !Takes(es, m)
    decreases |es| - from
  {
    if from == |es| || Takes(es, from) then from else NextTaken(es, from + 1)
  }

  /** The events from `from` on behind `lead`: each include in its place, its section's header repeated behind it. */
  ghost function Stretches(w: World, at: Place, depth: nat, limit: nat, es: seq<Event>, from: nat,
      lead: Bytes): seq<Mark>
    requires from <= |es|
    decreases |es| - from
  {
    var i := NextTaken(es, from);
    if i == |es| then [Read(Segment(at.shown, lead + Written(es, from, i)))]
    else
      [Read(Segment(at.shown, lead + Written(es, from, i + 1)))]
      + Included(w, at, w.normalize(PathAt(es, i)), depth, limit)
      + Stretches(w, at, depth, limit, es, i + 1, HeaderAt(es, i))
  }

  // ---- one event ------------------------------------------------------------------------------

  lemma InIncludeNext(es: seq<Event>, i: nat)
    requires i < |es|
    ensures !InInclude(es, 0)
    ensures InInclude(es, i + 1) <==> if es[i].Header? then es[i].isInclude else InInclude(es, i)
  {
    var j := i + 1;
    if h :| Opens(es, h, i) { assert !es[i].Header? ==> Opens(es, h, j); }
    if h :| Opens(es, h, j) { assert h < i ==> Opens(es, h, i); }
    assert es[i].Header? && es[i].isInclude ==> Opens(es, i, j);
  }

  lemma AtPathNext(es: seq<Event>, i: nat)
    requires i < |es|
    ensures !AtPath(es, 0)
    ensures AtPath(es, i + 1) <==>
      if es[i].Name? then es[i].isPath && InInclude(es, i)
      else !es[i].Header? && !EndsValue(es[i]) && AtPath(es, i)
  {
    hide InInclude, EndsValue;
    var j := i + 1;
    if n :| Names(es, n, i) {
      assert !es[i].Name? && !es[i].Header? && !EndsValue(es[i]) ==> Names(es, n, j);
    }
    if n :| Names(es, n, j) { assert n < i ==> Names(es, n, i); }
    assert es[i].Name? && es[i].isPath && InInclude(es, i) ==> Names(es, i, j);
  }

  lemma HeaderNext(es: seq<Event>, i: nat)
    requires i < |es|
    ensures HeaderAt(es, 0) == []
    ensures HeaderAt(es, i + 1) == if es[i].Header? then es[i].written else HeaderAt(es, i)
  {
  }

  lemma PartsNext(es: seq<Event>, i: nat)
    requires i < |es|
    ensures Parts(es, 0) == []
    ensures Parts(es, i + 1) ==
      if !AtPath(es, i) then Parts(es, i)
      else if es[i].ValueNotDone? then Parts(es, i) + es[i].raw
      else if es[i].ValueDone? then []
      else Parts(es, i)
  {
    hide AtPath;
  }

  /** The variables of the event loop before event `i`, with includes followed. */
  ghost predicate At(s: Scan, es: seq<Event>, i: nat)
    requires i <= |es|
  {
    && s.header == HeaderAt(es, i) && s.inInclude == InInclude(es, i) && s.atPath == AtPath(es, i)
    && (if s.pending.Some? then s.pending.value else []) == Parts(es, i)
  }

  /** The event loop takes an include exactly where a path ends. */
  lemma EventIs(s: Scan, es: seq<Event>, i: nat)
    requires i < |es| && At(s, es, i)
    ensures var (t, value) := OnEvent(s, es[i]);
      && t.text == s.text + es[i].written
      && (value.Some? <==> Takes(es, i))
      && (value.Some? ==> value.value == PathAt(es, i) && t.header == HeaderAt(es, i))
      && At(if value.Some? then t.(atPath := false, text := t.header) else t, es, i + 1)
  {
    hide InInclude, AtPath, Parts, HeaderAt;
    InIncludeNext(es, i);
    AtPathNext(es, i);
    HeaderNext(es, i);
    PartsNext(es, i);
  }

  lemma NextTakenIs(es: seq<Event>, from: nat, i: nat)
    requires from <= i <= |es| && (i < |es| ==> Takes(es, i)) && forall m :: from <= m < i ==> !Takes(es, m)
    ensures NextTaken(es, from) == i
  {
    hide NextTaken, Takes;
    var j := NextTaken(es, from);
    assert i <= j && j <= i;
  }

  lemma WrittenNext(es: seq<Event>, from: nat, i: nat)
    requires from <= i < |es|
    ensures Written(es, from, i + 1) == Written(es, from, i) + es[i].written
    ensures Written(es, from, from) == [] && Written(es, i + 1, i + 1) == []
  {
  }

  lemma StretchesAt(w: World, at: Place, depth: nat, limit: nat, es: seq<Event>, from: nat, lead: Bytes, i: nat)
    requires from <= i <= |es| && (i < |es| ==> Takes(es, i)) && forall m :: from <= m < i ==> !Takes(es, m)
    ensures Stretches(w, at, depth, limit, es, from, lead) ==
      if i == |es| then [Read(Segment(at.shown, lead + Written(es, from, i)))]
      else
        [Read(Segment(at.shown, lead + Written(es, from, i + 1)))]
        + Included(w, at, w.normalize(PathAt(es, i)), depth, limit)
        + Stretches(w, at, depth, limit, es, i + 1, HeaderAt(es, i))
  {
    hide *;
    NextTakenIs(es, from, i);
    StretchesNext(w, at, depth, limit, es, from, lead, i);
  }

  lemma StretchesNext(w: World, at: Place, depth: nat, limit: nat, es: seq<Event>, from: nat, lead: Bytes, i: nat)
    requires from <= |es| && i == NextTaken(es, from)
    ensures Stretches(w, at, depth, limit, es, from, lead) ==
      if i == |es| then [Read(Segment(at.shown, lead + Written(es, from, i)))]
      else
        [Read(Segment(at.shown, lead + Written(es, from, i + 1)))]
        + Included(w, at, w.normalize(PathAt(es, i)), depth, limit)
        + Stretches(w, at, depth, limit, es, i + 1, HeaderAt(es, i))
  {
    hide NextTaken, Takes, Written, PathAt, HeaderAt, Included;
  }

  lemma FromEventsNext(w: World, at: Place, includes: bool, depth: nat, limit: nat, es: seq<Event>, i: nat, s: Scan)
    requires i <= |es|
    ensures FromEvents(w, at, includes, depth, limit, es[i..], s) ==
      if i == |es| then [Read(Segment(at.shown, s.text))]
      else
        var (t, value) := OnEvent(s, es[i]);
        if value.None? || !includes then FromEvents(w, at, includes, depth, limit, es[i + 1..], t)
        else
          [Read(Segment(at.shown, t.text))]
          + Included(w, at, w.normalize(value.value), depth, limit)
          + FromEvents(w, at, includes, depth, limit, es[i + 1..], t.(atPath := false, text := t.header))
  {
    hide OnEvent, Included;
    if i < |es| { assert es[i..][0] == es[i] && es[i..][1..] == es[i + 1..]; }
  }

  lemma {:induction false} FromEventsIs(w: World, at: Place, depth: nat, limit: nat, es: seq<Event>, i: nat, s: Scan,
      from: nat, lead: Bytes)
    requires from <= i <= |es| && At(s, es, i) && forall m :: from <= m < i ==> !Takes(es, m)
    requires s.text == lead + Written(es, from, i)
    ensures FromEvents(w, at, true, depth, limit, es[i..], s) == Stretches(w, at, depth, limit, es, from, lead)
    decreases |es| - i
  {
    hide OnEvent, Included, At, Takes, PathAt, Stretches, FromEvents, Written, HeaderAt;
    FromEventsNext(w, at, true, depth, limit, es, i, s);
    if i == |es| {
      StretchesAt(w, at, depth, limit, es, from, lead, i);
    } else {
      EventIs(s, es, i);
      WrittenNext(es, from, i);
      var (t, value) := OnEvent(s, es[i]);
      assert t.text == lead + Written(es, from, i + 1);
      if value.None? {
        FromEventsIs(w, at, depth, limit, es, i + 1, t, from, lead);
      } else {
        StretchesAt(w, at, depth, limit, es, from, lead, i);
        var next := t.(atPath := false, text := t.header);
        assert HeaderAt(es, i) + [] == HeaderAt(es, i);
        FromEventsIs(w, at, depth, limit, es, i + 1, next, i + 1, HeaderAt(es, i));
      }
    }
  }

  lemma {:induction false} NothingTaken(w: World, at: Place, depth: nat, limit: nat, es: seq<Event>, i: nat, s: Scan)
    requires i <= |es| && s.text == Written(es, 0, i)
    ensures FromEvents(w, at, false, depth, limit, es[i..], s) == [Read(Segment(at.shown, Written(es, 0, |es|)))]
    decreases |es| - i
  {
    hide Included, FromEvents, Written;
    FromEventsNext(w, at, false, depth, limit, es, i, s);
    if i < |es| {
      WrittenNext(es, 0, i);
      NothingTaken(w, at, depth, limit, es, i + 1, OnEvent(s, es[i]).0);
    }
  }

  lemma StartIs(es: seq<Event>)
    ensures At(Scan([], [], false, false, None), es, 0)
  {
  }

  /**
   What reading a file delivers: all it holds in one stretch where includes are not followed; and
   where they are, a stretch up to each event that ends an include's path, what the path names, and
   the section's header before the next stretch.  A line its parser refuses comes last.
   */
  lemma FileIs(w: World, at: Place, includes: bool, depth: nat, limit: nat)
    requires at.path in w.files && w.files[at.path].Text?
    ensures var f := w.files[at.path];
      Inline(w, at, includes, depth, limit) ==
        (if includes then Stretches(w, at, depth, limit, f.events, 0, [])
         else [Read(Segment(at.shown, Written(f.events, 0, |f.events|)))])
        + (if f.bad.None? then [] else [Dies(BadLine(at.shown, f.bad.value))])
  {
    hide FromEvents, Stretches, At;
    var f := w.files[at.path];
    var start := Scan([], [], false, false, None);
    assert f.events[0..] == f.events && Written(f.events, 0, 0) == [] && [] + Written(f.events, 0, 0) == [];
    StartIs(f.events);
    if includes {
      FromEventsIs(w, at, depth, limit, f.events, 0, start, 0, []);
    } else {
      NothingTaken(w, at, depth, limit, f.events, 0, start);
    }
  }

  // ---- two worlds -----------------------------------------------------------------------------

  /** A file of one include line, which names the file itself. */
  ghost predicate Circular(w: World, at: Place, header: Bytes, name: Bytes, value: Bytes) {
    && at.path in w.files && w.normalize(value) != [] && w.resolve(at, w.normalize(value)) == at
    && w.files[at.path] == Text([Header(header, true), Name(name, true), Value(value, value)], None)
  }

  lemma CircularOnce(w: World, at: Place, header: Bytes, name: Bytes, value: Bytes, depth: nat, limit: nat)
    requires Circular(w, at, header, name, value)
    ensures Inline(w, at, true, depth, limit) ==
      [Read(Segment(at.shown, header + name + value))]
      + (if depth + 1 > limit then [Dies(IncludeDepth(at.shown, at.shown))] else Inline(w, at, true, depth + 1, limit))
      + [Read(Segment(at.shown, header))]
  {
    hide FromEvents, Inline;
    var es := w.files[at.path].events;
    var s0 := Scan([], [], false, false, None);
    var s1 := Scan([] + header, header, true, false, None);
    var s2 := Scan([] + header + name, header, true, true, None);
    var s3 := Scan(header, header, true, false, None);
    InlineOf(w, at, true, depth, limit);
    assert es[0..] == es;
    FromEventsNext(w, at, true, depth, limit, es, 0, s0);
    FromEventsNext(w, at, true, depth, limit, es, 1, s1);
    FromEventsNext(w, at, true, depth, limit, es, 2, s2);
    FromEventsNext(w, at, true, depth, limit, es, 3, s3);
    assert [] + header + name + value == header + name + value;
  }

  lemma InlineOf(w: World, at: Place, includes: bool, depth: nat, limit: nat)
    requires at.path in w.files && w.files[at.path].Text? && w.files[at.path].bad.None?
    ensures Inline(w, at, includes, depth, limit) ==
      FromEvents(w, at, includes, depth, limit, w.files[at.path].events, Scan([], [], false, false, None))
  {
    hide FromEvents;
  }

  /** From `depth` on it is read once for every level up to the tenth, and then the reader dies of it. */
  lemma {:induction false} CircularFrom(w: World, at: Place, header: Bytes, name: Bytes, value: Bytes, depth: nat)
    requires Circular(w, at, header, name, value) && depth <= 10
    ensures UpToStop(Inline(w, at, true, depth, MAX_INCLUDE_DEPTH)) ==
      Result(seq(11 - depth, _ => Segment(at.shown, header + name + value)), Some(IncludeDepth(at.shown, at.shown)))
    decreases 10 - depth
  {
    hide Inline, UpToStop;
    CircularOnce(w, at, header, name, value, depth, MAX_INCLUDE_DEPTH);
    var here := [Read(Segment(at.shown, header + name + value))];
    var rest := [Read(Segment(at.shown, header))];
    var inner := if depth == 10 then [Dies(IncludeDepth(at.shown, at.shown))]
                 else Inline(w, at, true, depth + 1, MAX_INCLUDE_DEPTH);
    UpToStopConcat(here + inner, rest);
    UpToStopConcat(here, inner);
    OneRead(Segment(at.shown, header + name + value));
    OneDies(IncludeDepth(at.shown, at.shown));
    if depth < 10 { CircularFrom(w, at, header, name, value, depth + 1); }
  }

  /** A file that includes itself is read eleven times, up to its include, and no more. */
  lemma CircularDies(w: World, at: Place, header: Bytes, name: Bytes, value: Bytes)
    requires Circular(w, at, header, name, value)
    ensures UpToStop(Inline(w, at, true, 0, MAX_INCLUDE_DEPTH)) ==
      Result(seq(11, _ => Segment(at.shown, header + name + value)), Some(IncludeDepth(at.shown, at.shown)))
  {
    hide *;
    CircularFrom(w, at, header, name, value, 0);
  }

  /** `m` includes `f`, then by a path in two parts a file that is not there, and goes on in another section; there is a
   file of no name, which nothing names. */
  const EVENTS: seq<Event> :=
    [Header([91], true), Name([112], true), Value([102], [102]), Name([112], true), ValueNotDone([109], [109]),
     Other([92]), ValueDone([105], [105]), Header([93], false), Name([112], true), Value([102], [102])]

  function TwoFiles(): World {
    World(map[[109] := Text(EVENTS, None), [102] := Text([Other([120])], Some(7)), [] := Text([Other([121])], None)],
      (from: Place, value: Bytes) => Place(value, from.shown + value), value => value)
  }

  /**
   `f` stands where its include does, the missing file leaves nothing but a cut, and what is not in an include
   section is no include; the bad line of `f` is all a reader dies of.
   */
  lemma TwoFilesRead()
    ensures var ms := Inline(TwoFiles(), Place([109], [77]), true, 0, MAX_INCLUDE_DEPTH);
      ms == [Read(Segment([77], [91, 112, 102])), Read(Segment([77, 102], [120])), Dies(BadLine([77, 102], 7)),
             Read(Segment([77], [91, 112, 109, 92, 105])), Read(Segment([77], [91, 93, 112, 102]))]
      && UpToStop(ms) ==
           Result([Segment([77], [91, 112, 102]), Segment([77, 102], [120])], Some(BadLine([77, 102], 7)))
    ensures Inline(TwoFiles(), Place([109], [77]), false, 0, MAX_INCLUDE_DEPTH) ==
      [Read(Segment([77], [91, 112, 102, 112, 109, 92, 105, 93, 112, 102]))]
    ensures Included(TwoFiles(), Place([109], [77]), [], 0, MAX_INCLUDE_DEPTH) == []
  {
    hide Inline, FromEvents, Included, UpToStop, Written;
    var w, at := TwoFiles(), Place([109], [77]);
    InlineOf(w, at, true, 0, MAX_INCLUDE_DEPTH);
    FirstFile();
    IncludedFiles();
    FileIs(w, at, false, 0, MAX_INCLUDE_DEPTH);
    WrittenAll();
    var a, b := Read(Segment([77], [91, 112, 102])), Read(Segment([77, 102], [120]));
    var c, d := Read(Segment([77], [91, 112, 109, 92, 105])), Read(Segment([77], [91, 93, 112, 102]));
    assert [a] + [b, Dies(BadLine([77, 102], 7))] + ([c] + [] + [d]) == [a, b, Dies(BadLine([77, 102], 7)), c, d];
    assert [a, b, Dies(BadLine([77, 102], 7)), c, d] == [a] + ([b] + ([Dies(BadLine([77, 102], 7))] + [c, d]));
    UpToStopCons(a, [b] + ([Dies(BadLine([77, 102], 7))] + [c, d]));
    UpToStopCons(b, [Dies(BadLine([77, 102], 7))] + [c, d]);
    UpToStopCons(Dies(BadLine([77, 102], 7)), [c, d]);
  }

  lemma WrittenAll()
    ensures Written(EVENTS, 0, 10) == [91, 112, 102, 112, 109, 92, 105, 93, 112, 102]
  {
    hide Written;
    WrittenNext(EVENTS, 0, 0);
    WrittenNext(EVENTS, 0, 1);
    WrittenNext(EVENTS, 0, 2);
    WrittenNext(EVENTS, 0, 3);
    WrittenNext(EVENTS, 0, 4);
    WrittenNext(EVENTS, 0, 5);
    WrittenNext(EVENTS, 0, 6);
    WrittenNext(EVENTS, 0, 7);
    WrittenNext(EVENTS, 0, 8);
    WrittenNext(EVENTS, 0, 9);
  }

  lemma IncludedFiles()
    ensures var w, at := TwoFiles(), Place([109], [77]);
      && Included(w, at, [102], 0, MAX_INCLUDE_DEPTH) == [Read(Segment([77, 102], [120])), Dies(BadLine([77, 102], 7))]
      && Included(w, at, [109, 105], 0, MAX_INCLUDE_DEPTH) == Included(w, at, [], 0, MAX_INCLUDE_DEPTH) == []
  {
    hide FromEvents;
    var w, es := TwoFiles(), [Other([120])];
    var f := Place([102], [77, 102]);
    assert es[0..] == es && [77] + [102] == [77, 102] && [] + [120] == [120];
    assert |[109, 105]| == 2 && [109, 105] !in w.files;
    var s := Scan([], [], false, false, None);
    Reads(w, f, 1, es, 0, s, s.(text := [120]));
    FromEventsNext(w, f, true, 1, MAX_INCLUDE_DEPTH, es, 1, s.(text := [120]));
    assert Inline(w, f, true, 1, MAX_INCLUDE_DEPTH) ==
      [Read(Segment([77, 102], [120]))] + [Dies(BadLine([77, 102], 7))];
  }

  /** An event that ends no include's path. */
  lemma Reads(w: World, at: Place, depth: nat, es: seq<Event>, i: nat, s: Scan, t: Scan)
    requires i < |es| && OnEvent(s, es[i]) == (t, None)
    ensures FromEvents(w, at, true, depth, MAX_INCLUDE_DEPTH, es[i..], s) ==
      FromEvents(w, at, true, depth, MAX_INCLUDE_DEPTH, es[i + 1..], t)
  {
    hide OnEvent;
    FromEventsNext(w, at, true, depth, MAX_INCLUDE_DEPTH, es, i, s);
  }

  /** The beginning of `m`, up to its second include. */
  lemma FirstHalf(w: World, at: Place)
    ensures FromEvents(w, at, true, 0, MAX_INCLUDE_DEPTH, EVENTS, Scan([], [], false, false, None)) ==
      [Read(Segment(at.shown, [91, 112, 102]))] + Included(w, at, w.normalize([102]), 0, MAX_INCLUDE_DEPTH)
      + FromEvents(w, at, true, 0, MAX_INCLUDE_DEPTH, EVENTS[3..], Scan([91], [91], true, false, None))
  {
    hide FromEvents, Included;
    assert EVENTS[0..] == EVENTS;
    assert [] + [91] == [91] && [91] + [112] == [91, 112] && [91, 112] + [102] == [91, 112, 102];
    Reads(w, at, 0, EVENTS, 0, Scan([], [], false, false, None), Scan([91], [91], true, false, None));
    Reads(w, at, 0, EVENTS, 1, Scan([91], [91], true, false, None), Scan([91, 112], [91], true, true, None));
    FromEventsNext(w, at, true, 0, MAX_INCLUDE_DEPTH, EVENTS, 2, Scan([91, 112], [91], true, true, None));
  }

  /** The second include, whose path comes in two parts. */
  lemma SecondHalf(w: World, at: Place)
    ensures FromEvents(w, at, true, 0, MAX_INCLUDE_DEPTH, EVENTS[3..], Scan([91], [91], true, false, None)) ==
      [Read(Segment(at.shown, [91, 112, 109, 92, 105]))]
      + Included(w, at, w.normalize([109, 105]), 0, MAX_INCLUDE_DEPTH)
      + FromEvents(w, at, true, 0, MAX_INCLUDE_DEPTH, EVENTS[7..], Scan([91], [91], true, false, None))
  {
    hide FromEvents, Included;
    assert [91, 112, 109, 92] + [105] == [91, 112, 109, 92, 105] && [109] + [105] == [109, 105];
    PathParts(w, at);
    FromEventsNext(w, at, true, 0, MAX_INCLUDE_DEPTH, EVENTS, 6,
      Scan([91, 112, 109, 92], [91], true, true, Some([109])));
  }

  lemma PathParts(w: World, at: Place)
    ensures FromEvents(w, at, true, 0, MAX_INCLUDE_DEPTH, EVENTS[3..], Scan([91], [91], true, false, None)) ==
      FromEvents(w, at, true, 0, MAX_INCLUDE_DEPTH, EVENTS[6..],
        Scan([91, 112, 109, 92], [91], true, true, Some([109])))
  {
    hide FromEvents, Included;
    assert [91] + [112] == [91, 112] && [91, 112] + [109] == [91, 112, 109] && [] + [109] == [109];
    assert [91, 112, 109] + [92] == [91, 112, 109, 92];
    var s := Scan([91, 112, 109, 92], [91], true, true, Some([109]));
    Reads(w, at, 0, EVENTS, 3, Scan([91], [91], true, false, None), Scan([91, 112], [91], true, true, None));
    Reads(w, at, 0, EVENTS, 4, Scan([91, 112], [91], true, true, None), s.(text := [91, 112, 109]));
    Reads(w, at, 0, EVENTS, 5, s.(text := [91, 112, 109]), s);
  }

  /** The other section, in which a path is no include. */
  lemma OtherSection(w: World, at: Place)
    ensures FromEvents(w, at, true, 0, MAX_INCLUDE_DEPTH, EVENTS[7..], Scan([91], [91], true, false, None)) ==
      [Read(Segment(at.shown, [91, 93, 112, 102]))]
  {
    hide FromEvents, Included;
    assert [91] + [93] == [91, 93] && [91, 93] + [112] == [91, 93, 112] && [91, 93, 112] + [102] == [91, 93, 112, 102];
    var s := Scan([91, 93], [93], false, false, None);
    Reads(w, at, 0, EVENTS, 7, Scan([91], [91], true, false, None), s);
    Reads(w, at, 0, EVENTS, 8, s, s.(text := [91, 93, 112]));
    Reads(w, at, 0, EVENTS, 9, s.(text := [91, 93, 112]), s.(text := [91, 93, 112, 102]));
    FromEventsNext(w, at, true, 0, MAX_INCLUDE_DEPTH, EVENTS, 10, s.(text := [91, 93, 112, 102]));
  }

  lemma FirstFile()
    ensures var w, at := TwoFiles(), Place([109], [77]);
      FromEvents(w, at, true, 0, MAX_INCLUDE_DEPTH, EVENTS, Scan([], [], false, false, None)) ==
        [Read(Segment([77], [91, 112, 102]))] + Included(w, at, [102], 0, MAX_INCLUDE_DEPTH)
        + ([Read(Segment([77], [91, 112, 109, 92, 105]))] + Included(w, at, [109, 105], 0, MAX_INCLUDE_DEPTH)
           + [Read(Segment([77], [91, 93, 112, 102]))])
  {
    hide FromEvents, Included;
    FirstHalf(TwoFiles(), Place([109], [77]));
    SecondHalf(TwoFiles(), Place([109], [77]));
    OtherSection(TwoFiles(), Place([109], [77]));
  }
}
