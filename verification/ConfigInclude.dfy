/**
 The include walk of config.rs: `read_config_file_like_git` and `handle_path_include` over a
 finite file system that may include in circles. Parsing a file into events, spelling a path
 and normalizing a value are parameters of the world.
 */
module ConfigInclude {
  import opened Bytes
  import opened Optional

  /** `MAX_INCLUDE_DEPTH` */
  const MAX_INCLUDE_DEPTH: nat := 10

  /** A parser event with the bytes it is written back as. */
  datatype Event =
    | Header(written: Bytes, isInclude: bool)
    | Name(written: Bytes, isPath: bool)
    | Value(written: Bytes, raw: Bytes)
    | ValueNotDone(written: Bytes, raw: Bytes)
    | ValueDone(written: Bytes, raw: Bytes)
    | Other(written: Bytes)

  /** A file that can be opened: what its parser delivers and the line it refuses, if it can be read. */
  datatype File = Text(events: seq<Event>, bad: Option<nat>) | Unreadable

  /** Where a file is, and the name it is read under. */
  datatype Place = Place(path: Bytes, shown: Bytes)

  datatype World = World(files: map<Bytes, File>, resolve: (Place, Bytes) -> Place, normalize: Bytes -> Bytes)

  datatype Stop = BadLine(shown: Bytes, line: nat) | IncludeDepth(path: Bytes, from: Bytes)

  /** A stretch of text handed to the callback. */
  datatype Segment = Segment(shown: Bytes, text: Bytes)

  // ---- the whole inline order, nothing stopping it -----------------------------------------

  /** What the order passes through: a stretch of text, or what a reader dies of. */
  datatype Mark = Read(segment: Segment) | Dies(stop: Stop)

  /** The variables of the event loop. */
  datatype Scan = Scan(text: Bytes, header: Bytes, inInclude: bool, atPath: bool, pending: Option<Bytes>)

  /** One event, and the raw value it completes if that is an include's path. */
  function OnEvent(s: Scan, e: Event): (Scan, Option<Bytes>) {
    var t := s.(text := s.text + e.written);
    match e
    case Header(written, isInclude) => (t.(header := written, inInclude := isInclude, atPath := false), None)
    case Name(_, isPath) => (t.(atPath := s.inInclude && isPath), None)
    case Value(_, raw) => (t, if s.atPath then Some(raw) else None)
    case ValueNotDone(_, raw) =>
      (if s.atPath then t.(pending := Some((if s.pending.Some? then s.pending.value else []) + raw)) else t, None)
    case ValueDone(_, raw) =>
      if s.atPath then (t.(pending := None), Some((if s.pending.Some? then s.pending.value else []) + raw))
      else (t, None)
    case Other(_) => (t, None)
  }

  /** The marks of a file, its includes in their places, followed to `limit` levels. */
  function Inline(w: World, at: Place, includes: bool, depth: nat, limit: nat): seq<Mark>
    decreases if depth <= limit then limit - depth + 1 else 0, 2, 0
  {
    if at.path !in w.files || w.files[at.path].Unreadable? then []
    else
      var f := w.files[at.path];
      FromEvents(w, at, includes, depth, limit, f.events, Scan([], [], false, false, None))
        + match f.bad { case None => [] case Some(line) => [Dies(BadLine(at.shown, line))] }
  }

  function FromEvents(w: World, at: Place, includes: bool, depth: nat, limit: nat, events: seq<Event>,
      s: Scan): seq<Mark>
    decreases if depth <= limit then limit - depth + 1 else 0, 1, |events|
  {
    if events == [] then [Read(Segment(at.shown, s.text))]
    else
      var (t, value) := OnEvent(s, events[0]);
      if value.None? || !includes then FromEvents(w, at, includes, depth, limit, events[1..], t)
      else
        [Read(Segment(at.shown, t.text))]
        + Included(w, at, w.normalize(value.value), depth, limit)
        + FromEvents(w, at, includes, depth, limit, events[1..], t.(atPath := false, text := t.header))
  }

  function Included(w: World, from: Place, value: Bytes, depth: nat, limit: nat): seq<Mark>
    decreases if depth <= limit then limit - depth + 1 else 0, 0, 0
  {
    if value == [] then []
    else
      var to := w.resolve(from, value);
      if to.path !in w.files then []
      else if depth + 1 > limit then [Dies(IncludeDepth(to.shown, from.shown))]
      else Inline(w, to, true, depth + 1, limit)
  }

  // ---- the reader stops at the first mark it dies of ----------------------------------------

  datatype Result = Result(segments: seq<Segment>, stop: Option<Stop>)

  /** The segments before the first stop, and the stop. */
  function UpToStop(ms: seq<Mark>): Result {
    if ms == [] then Result([], None)
    else match ms[0]
      case Dies(stop) => Result([], Some(stop))
      case Read(segment) => var r := UpToStop(ms[1..]); Result([segment] + r.segments, r.stop)
  }

  /** Reading on where a reader that did not stop left off. */
  function Then(a: Result, b: Result): Result {
    if a.stop.Some? then a else Result(a.segments + b.segments, b.stop)
  }

  lemma UpToStopCons(m: Mark, ms: seq<Mark>)
    ensures UpToStop([]) == Result([], None)
    ensures UpToStop([m] + ms) ==
      match m
      case Dies(stop) => Result([], Some(stop))
      case Read(segment) => Result([segment] + UpToStop(ms).segments, UpToStop(ms).stop)
  {
    assert ([m] + ms)[1..] == ms;
  }

  lemma {:induction false} UpToStopConcat(a: seq<Mark>, b: seq<Mark>)
    ensures UpToStop(a + b) == Then(UpToStop(a), UpToStop(b))
  {
    hide UpToStop;
    if a == [] {
      assert a + b == b;
      UpToStopCons(Dies(BadLine([], 0)), []);
      assert [] + UpToStop(b).segments == UpToStop(b).segments;
    } else {
      UpToStopConcat(a[1..], b);
      UpToStopCons(a[0], a[1..]);
      UpToStopCons(a[0], a[1..] + b);
      assert a == [a[0]] + a[1..] && a + b == [a[0]] + (a[1..] + b);
    }
  }

  lemma ThenAssoc(a: Result, b: Result, c: Result)
    ensures Then(Then(a, b), c) == Then(a, Then(b, c))
  {
    assert a.segments + b.segments + c.segments == a.segments + (b.segments + c.segments);
  }

  lemma OneRead(s: Segment)
    ensures UpToStop([Read(s)]) == Result([s], None)
  {
    assert [Read(s)][1..] == [];
    assert [s] + [] == [s];
  }

  lemma OneDies(s: Stop)
    ensures UpToStop([Dies(s)]) == Result([], Some(s)) && UpToStop([]) == Result([], None)
  {
  }

  /** What is still to come from the events on. */
  function Remaining(w: World, at: Place, includes: bool, depth: nat, events: seq<Event>, s: Scan,
      bad: Option<nat>): Result {
    Then(UpToStop(FromEvents(w, at, includes, depth, MAX_INCLUDE_DEPTH, events, s)), End(at, bad))
  }

  function End(at: Place, bad: Option<nat>): Result {
    Result([], if bad.None? then None else Some(BadLine(at.shown, bad.value)))
  }

  lemma InlineResult(w: World, at: Place, includes: bool, depth: nat)
    requires at.path in w.files && w.files[at.path].Text?
    ensures var f := w.files[at.path];
      UpToStop(Inline(w, at, includes, depth, MAX_INCLUDE_DEPTH)) ==
      Remaining(w, at, includes, depth, f.events, Scan([], [], false, false, None), f.bad)
  {
    hide FromEvents;
    var f := w.files[at.path];
    var end := match f.bad { case None => [] case Some(line) => [Dies(BadLine(at.shown, line))] };
    UpToStopConcat(FromEvents(w, at, includes, depth, MAX_INCLUDE_DEPTH, f.events, Scan([], [], false, false, None)),
      end);
    if f.bad.Some? { OneDies(BadLine(at.shown, f.bad.value)); }
  }

  lemma RemainingNext(w: World, at: Place, includes: bool, depth: nat, events: seq<Event>, s: Scan, bad: Option<nat>)
    requires events != []
    ensures var (t, value) := OnEvent(s, events[0]);
      Remaining(w, at, includes, depth, events, s, bad) ==
      if value.None? || !includes then Remaining(w, at, includes, depth, events[1..], t, bad)
      else
        Then(Result([Segment(at.shown, t.text)], None),
             Then(UpToStop(Included(w, at, w.normalize(value.value), depth, MAX_INCLUDE_DEPTH)),
                  Remaining(w, at, includes, depth, events[1..], t.(atPath := false, text := t.header), bad)))
  {
    hide OnEvent, Included, UpToStop, Then;
    var (t, value) := OnEvent(s, events[0]);
    if value.Some? && includes {
      var here := [Read(Segment(at.shown, t.text))];
      var inner := Included(w, at, w.normalize(value.value), depth, MAX_INCLUDE_DEPTH);
      var rest := FromEvents(w, at, includes, depth, MAX_INCLUDE_DEPTH, events[1..],
        t.(atPath := false, text := t.header));
      UpToStopConcat(here + inner, rest);
      UpToStopConcat(here, inner);
      OneRead(Segment(at.shown, t.text));
      var a, b, c := UpToStop(here), UpToStop(inner), UpToStop(rest);
      ThenAssoc(a, b, c);
      ThenAssoc(a, Then(b, c), End(at, bad));
      ThenAssoc(b, c, End(at, bad));
    }
  }

  lemma RemainingEnd(w: World, at: Place, includes: bool, depth: nat, s: Scan, bad: Option<nat>)
    ensures Remaining(w, at, includes, depth, [], s, bad) == Result([Segment(at.shown, s.text)], End(at, bad).stop)
  {
    OneRead(Segment(at.shown, s.text));
  }

  /** `read_config_file_like_git`: it reads the inline order up to the first thing it dies of. */
  method ReadConfigFile(w: World, at: Place, includes: bool, depth: nat) returns (r: Result)
    requires depth <= MAX_INCLUDE_DEPTH
    ensures r == UpToStop(Inline(w, at, includes, depth, MAX_INCLUDE_DEPTH))
    decreases MAX_INCLUDE_DEPTH - depth, 1
  {
    hide FromEvents, Remaining, Included, UpToStop;
    if at.path !in w.files || w.files[at.path].Unreadable? {
      OneDies(BadLine([], 0));
      return Result([], None);
    }
    var f := w.files[at.path];
    var segments: seq<Segment> := [];
    var s := Scan([], [], false, false, None);
    ghost var whole := UpToStop(Inline(w, at, includes, depth, MAX_INCLUDE_DEPTH));
    InlineResult(w, at, includes, depth);
    assert f.events[0..] == f.events;
    StartThen(Remaining(w, at, includes, depth, f.events, s, f.bad));
    for i := 0 to |f.events|
      invariant whole == Then(Result(segments, None), Remaining(w, at, includes, depth, f.events[i..], s, f.bad))
    {
      RemainingNext(w, at, includes, depth, f.events[i..], s, f.bad);
      assert f.events[i..][0] == f.events[i] && f.events[i..][1..] == f.events[i + 1..];
      var (t, value) := OnEvent(s, f.events[i]);
      s := t;
      if value.None? || !includes { continue; }
      ghost var inner := UpToStop(Included(w, at, w.normalize(value.value), depth, MAX_INCLUDE_DEPTH));
      ghost var later := Remaining(w, at, includes, depth, f.events[i + 1..], t.(atPath := false, text := t.header),
        f.bad);
      ThenAssoc(Result(segments, None), Result([Segment(at.shown, t.text)], None), Then(inner, later));
      segments := segments + [Segment(at.shown, s.text)];
      ThenAssoc(Result(segments, None), inner, later);
      s := s.(atPath := false, text := s.header);
      var sub := HandlePathInclude(w, at, w.normalize(value.value), depth);
      segments := segments + sub.segments;
      if sub.stop.Some? { return Result(segments, sub.stop); }
    }
    RemainingEnd(w, at, includes, depth, s, f.bad);
    assert f.events[|f.events|..] == [];
    segments := segments + [Segment(at.shown, s.text)];
    return Result(segments, if f.bad.Some? then Some(BadLine(at.shown, f.bad.value)) else None);
  }

  lemma StartThen(r: Result)
    ensures Then(Result([], None), r) == r
  {
    assert [] + r.segments == r.segments;
  }

  /** `handle_path_include` */
  method HandlePathInclude(w: World, from: Place, value: Bytes, depth: nat) returns (r: Result)
    requires depth <= MAX_INCLUDE_DEPTH
    ensures r == UpToStop(Included(w, from, value, depth, MAX_INCLUDE_DEPTH))
    decreases MAX_INCLUDE_DEPTH - depth, 0
  {
    hide Inline;
    OneDies(BadLine([], 0));
    if value == [] { return Result([], None); }
    var to := w.resolve(from, value);
    if to.path !in w.files { return Result([], None); }
    OneDies(IncludeDepth(to.shown, from.shown));
    if depth + 1 > MAX_INCLUDE_DEPTH {
      return Result([], Some(IncludeDepth(to.shown, from.shown)));
    }
    r := ReadConfigFile(w, to, true, depth + 1);
  }

  // ---- what the limit means -----------------------------------------------------------------

  /** The order runs into the depth limit. */
  predicate TooDeep(ms: seq<Mark>) { exists i :: 0 <= i < |ms| && ms[i].Dies? && ms[i].stop.IncludeDepth? }

  lemma TooDeepConcat(a: seq<Mark>, b: seq<Mark>)
    ensures TooDeep(a + b) <==> TooDeep(a) || TooDeep(b)
  {
    if TooDeep(a) {
      var i :| 0 <= i < |a| && a[i].Dies? && a[i].stop.IncludeDepth?;
      assert (a + b)[i] == a[i];
    }
    if TooDeep(b) {
      var i :| 0 <= i < |b| && b[i].Dies? && b[i].stop.IncludeDepth?;
      assert (a + b)[|a| + i] == b[i];
    }
  }

  lemma DiesTooDeep(s: Stop)
    requires s.IncludeDepth?
    ensures TooDeep([Dies(s)])
  {
    assert [Dies(s)][0].Dies?;
  }

  /** Where the limit is not reached, following includes any deeper changes nothing. */
  lemma {:induction false} DeeperInline(w: World, at: Place, includes: bool, depth: nat, limit: nat, more: nat)
    requires depth <= limit <= more && !TooDeep(Inline(w, at, includes, depth, limit))
    ensures Inline(w, at, includes, depth, more) == Inline(w, at, includes, depth, limit)
    decreases limit - depth, 2, 0
  {
    hide FromEvents, TooDeep;
    if at.path in w.files && w.files[at.path].Text? {
      var f := w.files[at.path];
      var s := Scan([], [], false, false, None);
      var end := match f.bad { case None => [] case Some(line) => [Dies(BadLine(at.shown, line))] };
      TooDeepConcat(FromEvents(w, at, includes, depth, limit, f.events, s), end);
      DeeperEvents(w, at, includes, depth, limit, more, f.events, s);
    }
  }

  lemma {:induction false} DeeperEvents(w: World, at: Place, includes: bool, depth: nat, limit: nat, more: nat,
      events: seq<Event>, s: Scan)
    requires depth <= limit <= more && !TooDeep(FromEvents(w, at, includes, depth, limit, events, s))
    ensures FromEvents(w, at, includes, depth, more, events, s) == FromEvents(w, at, includes, depth, limit, events, s)
    decreases limit - depth, 1, |events|
  {
    hide OnEvent, Included, TooDeep;
    if events != [] {
      var (t, value) := OnEvent(s, events[0]);
      if value.None? || !includes {
        DeeperEvents(w, at, includes, depth, limit, more, events[1..], t);
      } else {
        var here := [Read(Segment(at.shown, t.text))];
        var inner := Included(w, at, w.normalize(value.value), depth, limit);
        var next := t.(atPath := false, text := t.header);
        TooDeepConcat(here + inner, FromEvents(w, at, includes, depth, limit, events[1..], next));
        TooDeepConcat(here, inner);
        DeeperIncluded(w, at, w.normalize(value.value), depth, limit, more);
        DeeperEvents(w, at, includes, depth, limit, more, events[1..], next);
      }
    }
  }

  lemma {:induction false} DeeperIncluded(w: World, from: Place, value: Bytes, depth: nat, limit: nat, more: nat)
    requires depth <= limit <= more && !TooDeep(Included(w, from, value, depth, limit))
    ensures Included(w, from, value, depth, more) == Included(w, from, value, depth, limit)
    decreases limit - depth, 0, 0
  {
    hide Inline;
    if value != [] {
      var to := w.resolve(from, value);
      if to.path in w.files {
        if depth + 1 > limit {
          DiesTooDeep(IncludeDepth(to.shown, from.shown));
        } else {
          DeeperInline(w, to, true, depth + 1, limit, more);
        }
      }
    }
  }

  /** The reader's verdict is `IncludeDepth` exactly when the inline order reaches a file it can open one level too
   deep before it reaches a bad line; and when the reader stops at nothing, neither would a reader without a limit:
   the order is then finite, and all of it was delivered. */
  lemma VerdictOfOrder(w: World, at: Place, includes: bool, more: nat)
    requires more >= MAX_INCLUDE_DEPTH
    ensures var ms := Inline(w, at, includes, 0, MAX_INCLUDE_DEPTH); var r := UpToStop(ms);
      && (r.stop.Some? && r.stop.value.IncludeDepth? <==>
          exists i :: 0 <= i < |ms| && ms[i].Dies? && ms[i].stop.IncludeDepth? &&
            forall j :: 0 <= j < i ==> ms[j].Read?)
      && (r.stop.None? ==> Inline(w, at, includes, 0, more) == ms && forall j :: 0 <= j < |ms| ==> ms[j].Read?)
  {
    hide Inline;
    var ms := Inline(w, at, includes, 0, MAX_INCLUDE_DEPTH);
    FirstStop(ms);
    if UpToStop(ms).stop.None? { DeeperInline(w, at, includes, 0, MAX_INCLUDE_DEPTH, more); }
  }

  lemma {:induction false} FirstStop(ms: seq<Mark>)
    ensures var r := UpToStop(ms);
      && (r.stop.None? <==> forall j :: 0 <= j < |ms| ==> ms[j].Read?)
      && (r.stop.Some? ==> |r.segments| < |ms| && ms[|r.segments|] == Dies(r.stop.value))
      && (forall j :: 0 <= j < |r.segments| && j < |ms| ==> ms[j] == Read(r.segments[j]))
      && |r.segments| <= |ms|
  {
    if ms != [] { FirstStop(ms[1..]); }
  }
}
