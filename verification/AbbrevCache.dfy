/**
 The stamp of abbrev.rs an abbreviation is cached under, and when a row cached under it may be
 served: over every interleaving of changes to the object directories with readers that take
 the generation first and compute the answer later.
 */
module AbbrevCache {
  import opened Abbrev
  import opened Optional

  /** `push_dir_state`: what a directory looks like to `stat`. */
  datatype Tag = Gone | Stamp(n: nat)

  function TagOf(d: Dir): Tag { if d.Present? then Stamp(d.stamp) else Gone }

  /** What is hashed for an id: the state of every `pack`, and of every fan-out directory of its first byte. */
  datatype Generation = Generation(pack: seq<Tag>, fan: seq<Tag>)

  function GenTag(g: Generation, s: nat, slot: Slot): Tag
    requires s < |g.pack| && s < |g.fan|
  {
    if slot.Pack? then g.pack[s] else g.fan[s]
  }

  function PackTags(d: Disk): (t: seq<Tag>)
    ensures |t| == |d.stores| && forall s :: 0 <= s < |t| ==> t[s] == TagOf(d.stores[s].pack)
  {
    seq(|d.stores|, s requires 0 <= s < |d.stores| => TagOf(d.stores[s].pack))
  }

  function FanTags(d: Disk, b: nat): (t: seq<Tag>)
    requires b < 256 && forall s :: 0 <= s < |d.stores| ==> |d.stores[s].fan| == 256
    ensures |t| == |d.stores| && forall s :: 0 <= s < |t| ==> t[s] == TagOf(d.stores[s].fan[b])
  {
    seq(|d.stores|, s requires 0 <= s < |d.stores| => TagOf(d.stores[s].fan[b]))
  }

  /** The stamp of one process: the packs as it found them, the fan-out directories as it first looked. */
  class StoreStamp {
    const store: seq<Tag>
    const fanout: array<Option<seq<Tag>>>

    ghost predicate Valid()
      reads this
    {
      fanout.Length == 256
    }

    constructor (d: Disk)
      ensures Valid() && fresh(fanout) && store == PackTags(d)
      ensures forall b :: 0 <= b < 256 ==> fanout[b].None?
    {
      store := PackTags(d);
      fanout := new Option<seq<Tag>>[256](_ => None);
    }

    /** `generation`: a fan-out directory is looked at once, and remembered as it was. */
    method GenerationOf(d: Disk, first: nat) returns (g: Generation)
      requires Valid() && first < 256 && forall s :: 0 <= s < |d.stores| ==> |d.stores[s].fan| == 256
      modifies fanout
      ensures fanout[first] == Some(if old(fanout[first]).Some? then old(fanout[first]).value else FanTags(d, first))
      ensures forall b :: 0 <= b < 256 && b != first ==> fanout[b] == old(fanout[b])
      ensures g == Generation(store, fanout[first].value)
    {
      if fanout[first].None? {
        fanout[first] := Some(FanTags(d, first));
      }
      g := Generation(store, fanout[first].value);
    }
  }

  // ---- histories ----------------------------------------------------------------------------

  /**
   What may happen to a directory between two looks: nothing, or its removal, or a change that gives it a new stamp.
   */
  predicate DirStep(x: Dir, y: Dir, before: nat, after: nat) {
    y == x || y.Missing? || before < y.stamp <= after
  }

  ghost predicate DiskStep(a: Disk, b: Disk) {
    && |a.stores| == |b.stores| && a.clock <= b.clock
    && forall s :: 0 <= s < |a.stores| ==>
      && |a.stores[s].fan| == |b.stores[s].fan|
      && DirStep(a.stores[s].pack, b.stores[s].pack, a.clock, b.clock)
      && forall f :: 0 <= f < |a.stores[s].fan| ==> DirStep(a.stores[s].fan[f], b.stores[s].fan[f], a.clock, b.clock)
  }

  ghost predicate IsHistory(h: seq<Disk>) {
    && (forall i :: 0 <= i < |h| ==> DiskOk(h[i]))
    && (forall i :: 0 <= i < |h| - 1 ==> DiskStep(h[i], h[i + 1]))
  }

  lemma StepOf(a: Disk, b: Disk, s: nat, slot: Slot, id: Id)
    requires DiskOk(a) && DiskOk(b) && DiskStep(a, b) && s < |a.stores| && |id| >= MINIMUM_ABBREV
    ensures |a.stores| == |b.stores| && a.clock <= b.clock
    ensures DirStep(DirOf(a, s, slot, id), DirOf(b, s, slot, id), a.clock, b.clock)
    ensures DirOf(a, s, slot, id).Present? ==> DirOf(a, s, slot, id).stamp <= a.clock
  {
    FirstBound(id);
  }

  /** A directory seen later is as it was, or gone, or has a stamp that was not given out before. */
  lemma {:induction false} Later(h: seq<Disk>, i: nat, j: nat, s: nat, slot: Slot, id: Id)
    requires IsHistory(h) && i <= j < |h| && s < |h[i].stores| && |id| >= MINIMUM_ABBREV
    ensures |h[j].stores| == |h[i].stores| && h[i].clock <= h[j].clock
    ensures var x, y := DirOf(h[i], s, slot, id), DirOf(h[j], s, slot, id);
      && (y == x || y.Missing? || y.stamp > h[i].clock)
      && (x.Present? ==> x.stamp <= h[i].clock)
    decreases j - i
  {
    hide DiskOk, DiskStep, DirOf;
    if i == j {
      StampKnown(h[i], s, slot, id);
    } else {
      Later(h, i, j - 1, s, slot, id);
      StepOf(h[j - 1], h[j], s, slot, id);
    }
  }

  lemma StampKnown(d: Disk, s: nat, slot: Slot, id: Id)
    requires DiskOk(d) && s < |d.stores| && |id| >= MINIMUM_ABBREV
    ensures var x := DirOf(d, s, slot, id); x.Present? ==> x.stamp <= d.clock
  {
    FirstBound(id);
  }

  /** A directory found with the stamp it had was never anything else in between. */
  lemma Unchanged(h: seq<Disk>, i: nat, k: nat, j: nat, s: nat, slot: Slot, id: Id)
    requires IsHistory(h) && i <= k <= j < |h| && s < |h[i].stores| && |id| >= MINIMUM_ABBREV
    ensures |h[i].stores| == |h[k].stores| == |h[j].stores|
    ensures var x, y := DirOf(h[i], s, slot, id), DirOf(h[j], s, slot, id);
      x.Present? && TagOf(y) == TagOf(x) ==> y == x && DirOf(h[k], s, slot, id) == x
  {
    hide DiskOk, DirOf, IsHistory;
    Later(h, i, k, s, slot, id);
    Later(h, k, j, s, slot, id);
    Later(h, i, j, s, slot, id);
  }

  // ---- rows ---------------------------------------------------------------------------------

  /** `g` was read for `id` off a run of looks, each directory at its own time, none after the last. */
  ghost predicate ReadFrom(g: Generation, h: seq<Disk>, id: Id, when: (nat, Slot) -> nat)
    requires IsHistory(h) && |h| > 0 && |id| >= MINIMUM_ABBREV
  {
    && |g.pack| == |g.fan| == |h[|h| - 1].stores|
    && forall s: nat, slot :: s < |g.pack| ==>
      when(s, slot) < |h| && s < |h[when(s, slot)].stores| &&
      GenTag(g, s, slot) == TagOf(DirOf(h[when(s, slot)], s, slot, id))
  }

  /** The generation of `id` now is `g`. */
  ghost predicate Current(g: Generation, d: Disk, id: Id)
    requires DiskOk(d) && |id| >= MINIMUM_ABBREV
  {
    |g.pack| == |g.fan| == |d.stores| && forall s: nat, slot :: s < |g.pack| ==>
      TagOf(DirOf(d, s, slot, id)) == GenTag(g, s, slot)
  }

  /** A directory that was there when it was read has changed: no later run can observe this generation again. */
  ghost predicate Dead(g: Generation, d: Disk, id: Id)
    requires DiskOk(d) && |id| >= MINIMUM_ABBREV && |g.pack| == |g.fan| == |d.stores|
  {
    exists s: nat, slot :: s < |g.pack| && GenTag(g, s, slot).Stamp? &&
      TagOf(DirOf(d, s, slot, id)) != GenTag(g, s, slot)
  }

  /** No directory that was missing when it was read is there now. */
  ghost predicate NoneAppeared(g: Generation, d: Disk, id: Id)
    requires DiskOk(d) && |id| >= MINIMUM_ABBREV && |g.pack| == |g.fan| == |d.stores|
  {
    forall s: nat, slot :: s < |g.pack| && GenTag(g, s, slot).Gone? ==> DirOf(d, s, slot, id).Missing?
  }

  /** The disk without the directories of `id` that were missing when they were read. */
  function AsRead(g: Generation, d: Disk, id: Id): (r: Disk)
    requires DiskOk(d) && |id| >= MINIMUM_ABBREV && |g.pack| == |g.fan| == |d.stores|
    ensures |r.stores| == |d.stores| && r.clock == d.clock
  {
    FirstBound(id);
    Disk(seq(|d.stores|, s requires 0 <= s < |d.stores| =>
      Store(if g.pack[s].Gone? then Missing else d.stores[s].pack,
            if g.fan[s].Gone? then d.stores[s].fan[First(id) := Missing] else d.stores[s].fan)), d.clock)
  }

  lemma AsReadDirs(g: Generation, d: Disk, id: Id)
    requires DiskOk(d) && |id| >= MINIMUM_ABBREV && |g.pack| == |g.fan| == |d.stores|
    ensures DiskOk(AsRead(g, d, id)) && DiskStep(d, AsRead(g, d, id))
    ensures forall s: nat, slot :: s < |d.stores| ==>
      DirOf(AsRead(g, d, id), s, slot, id) == if GenTag(g, s, slot).Gone? then Missing else DirOf(d, s, slot, id)
  {
    FirstBound(id);
  }

  /** A row is safe if, however the store goes on from `h`, whenever its generation is the current one its answer is
   what would be computed afresh. */
  ghost predicate SafeRow(h: seq<Disk>, g: Generation, id: Id, len: nat, answer: nat)
    requires |id| >= MINIMUM_ABBREV && |h| > 0
  {
    forall more: seq<Disk> :: IsHistory(h + more) ==> ServedRight(h + more, |h| - 1, g, id, len, answer)
  }

  ghost predicate ServedRight(h: seq<Disk>, from: nat, g: Generation, id: Id, len: nat, answer: nat)
    requires |id| >= MINIMUM_ABBREV && IsHistory(h)
  {
    forall n :: from <= n < |h| && Current(g, h[n], id) ==> UniqueAbbrev(h[n], id, len) == answer
  }

  /** If a directory of the generation is as it was read, it was so when the answer was computed. */
  lemma StillAsRead(h: seq<Disk>, t: nat, n: nat, g: Generation, id: Id, when: (nat, Slot) -> nat, s: nat, slot: Slot)
    requires IsHistory(h) && t <= n < |h| && |id| >= MINIMUM_ABBREV
    requires IsHistory(h[..t + 1]) && ReadFrom(g, h[..t + 1], id, when) && Current(g, h[n], id) && s < |g.pack|
    ensures |h[t].stores| == |g.pack| == |g.fan|
    ensures GenTag(g, s, slot).Stamp? ==>
      DirOf(h[t], s, slot, id) == DirOf(h[n], s, slot, id) && TagOf(DirOf(h[t], s, slot, id)) == GenTag(g, s, slot)
    ensures GenTag(g, s, slot).Gone? ==> DirOf(h[n], s, slot, id).Missing?
  {
    hide DiskOk, DirOf, IsHistory;
    var i := when(s, slot);
    assert h[..t + 1][|h[..t + 1]| - 1] == h[t];
    assert h[..t + 1][i] == h[i];
    Unchanged(h, i, t, n, s, slot, id);
  }

  /** When the generation is current again, the store is for `id` as it was read. */
  lemma CurrentAsRead(h: seq<Disk>, t: nat, n: nat, g: Generation, id: Id, when: (nat, Slot) -> nat)
    requires IsHistory(h) && t <= n < |h| && |id| >= MINIMUM_ABBREV
    requires IsHistory(h[..t + 1]) && ReadFrom(g, h[..t + 1], id, when) && Current(g, h[n], id)
    ensures |h[t].stores| == |g.pack| == |g.fan| && DiskOk(h[t]) && !Dead(g, h[t], id)
    ensures DiskOk(AsRead(g, h[t], id)) && SameFor(AsRead(g, h[t], id), h[n], id)
  {
    hide DiskOk, DirOf, DiskStep, ReadFrom, SameIds;
    LastOf(h, t);
    SizeRead(g, h[..t + 1], id, when);
    AsReadDirs(g, h[t], id);
    forall s: nat, slot | s < |g.pack|
      ensures GenTag(g, s, slot).Stamp? ==> TagOf(DirOf(h[t], s, slot, id)) == GenTag(g, s, slot)
      ensures SameIds(DirOf(AsRead(g, h[t], id), s, slot, id), DirOf(h[n], s, slot, id))
    {
      StillAsRead(h, t, n, g, id, when, s, slot);
      SameSelf(DirOf(h[n], s, slot, id));
    }
  }

  lemma LastOf(h: seq<Disk>, t: nat)
    requires t < |h| && IsHistory(h)
    ensures h[..t + 1][|h[..t + 1]| - 1] == h[t] && DiskOk(h[t])
  {
    hide DiskOk, DiskStep;
  }

  lemma SizeRead(g: Generation, h: seq<Disk>, id: Id, when: (nat, Slot) -> nat)
    requires IsHistory(h) && |h| > 0 && |id| >= MINIMUM_ABBREV && ReadFrom(g, h, id, when)
    ensures |g.pack| == |g.fan| == |h[|h| - 1].stores|
  {
    hide DiskOk, DiskStep;
  }

  lemma SameSelf(x: Dir)
    ensures SameIds(x, x)
  {
  }

  /** A row is safe for ever exactly when its generation can never be current again, or its answer is the one for the
   directories as they were read. */
  lemma RowIsSafe(h: seq<Disk>, g: Generation, id: Id, len: nat, answer: nat, when: (nat, Slot) -> nat)
    requires IsHistory(h) && |h| > 0 && |id| >= MINIMUM_ABBREV && ReadFrom(g, h, id, when)
    ensures |g.pack| == |g.fan| == |h[|h| - 1].stores| && DiskOk(h[|h| - 1])
    ensures var last := h[|h| - 1];
      SafeRow(h, g, id, len, answer) <==> Dead(g, last, id) || UniqueAbbrev(AsRead(g, last, id), id, len) == answer
  {
    hide DiskOk, DirOf, DiskStep, ReadFrom, SameFor, Current, Dead, UniqueAbbrev, IsHistory;
    var last := h[|h| - 1];
    SizeRead(g, h, id, when);
    LastOf(h, |h| - 1);
    if Dead(g, last, id) || UniqueAbbrev(AsRead(g, last, id), id, len) == answer {
      forall more: seq<Disk> | IsHistory(h + more)
        ensures ServedRight(h + more, |h| - 1, g, id, len, answer)
      {
        RightFrom(h, more, g, id, len, answer, when);
      }
    }
    if !Dead(g, last, id) && UniqueAbbrev(AsRead(g, last, id), id, len) != answer {
      var read := AsRead(g, last, id);
      AsReadDirs(g, last, id);
      OneMore(h, read);
      AsReadCurrent(g, last, id);
      assert (h + [read])[|h|] == read;
      WrongThere(h + [read], |h| - 1, |h|, g, id, len, answer);
    }
  }

  lemma WrongThere(h: seq<Disk>, from: nat, n: nat, g: Generation, id: Id, len: nat, answer: nat)
    requires |id| >= MINIMUM_ABBREV && IsHistory(h) && from <= n < |h| && DiskOk(h[n]) && Current(g, h[n], id)
    requires UniqueAbbrev(h[n], id, len) != answer
    ensures !ServedRight(h, from, g, id, len, answer)
  {
    hide DiskOk, DiskStep, Current, UniqueAbbrev;
  }

  lemma OneMore(h: seq<Disk>, d: Disk)
    requires IsHistory(h) && |h| > 0 && DiskOk(d) && DiskStep(h[|h| - 1], d)
    ensures IsHistory(h + [d])
  {
    hide DiskOk, DiskStep;
    var l := h + [d];
    forall i | 0 <= i < |l| - 1
      ensures DiskStep(l[i], l[i + 1])
    {
      if i < |h| - 1 { assert DiskStep(h[i], h[i + 1]); }
    }
  }

  lemma AsReadCurrent(g: Generation, d: Disk, id: Id)
    requires DiskOk(d) && |id| >= MINIMUM_ABBREV && |g.pack| == |g.fan| == |d.stores| && !Dead(g, d, id)
    ensures DiskOk(AsRead(g, d, id)) && Current(g, AsRead(g, d, id), id)
  {
    hide DiskOk, DirOf, DiskStep, AsRead;
    AsReadDirs(g, d, id);
    forall s: nat, slot | s < |g.pack|
      ensures TagOf(DirOf(AsRead(g, d, id), s, slot, id)) == GenTag(g, s, slot)
    {
    }
  }

  lemma RightFrom(h: seq<Disk>, more: seq<Disk>, g: Generation, id: Id, len: nat, answer: nat, when: (nat, Slot) -> nat)
    requires IsHistory(h) && |h| > 0 && |id| >= MINIMUM_ABBREV && ReadFrom(g, h, id, when) && IsHistory(h + more)
    requires |g.pack| == |g.fan| == |h[|h| - 1].stores| && DiskOk(h[|h| - 1])
    requires Dead(g, h[|h| - 1], id) || UniqueAbbrev(AsRead(g, h[|h| - 1], id), id, len) == answer
    ensures ServedRight(h + more, |h| - 1, g, id, len, answer)
  {
    hide DiskOk, DirOf, DiskStep, ReadFrom, SameFor, Current, Dead, UniqueAbbrev, IsHistory, AsRead;
    var l, t := h + more, |h| - 1;
    assert l[..t + 1] == h && l[t] == h[t];
    forall n | t <= n < |l|
      ensures DiskOk(l[n]) && (Current(g, l[n], id) ==> UniqueAbbrev(l[n], id, len) == answer)
    {
      LastOf(l, n);
      if Current(g, l[n], id) {
        CurrentAsRead(l, t, n, g, id, when);
        OnlyItsDirectories(AsRead(g, l[t], id), l[n], id, len);
      }
    }
    ServedRightIs(l, t, g, id, len, answer);
  }

  lemma ServedRightIs(h: seq<Disk>, from: nat, g: Generation, id: Id, len: nat, answer: nat)
    requires |id| >= MINIMUM_ABBREV && IsHistory(h)
    requires forall n :: from <= n < |h| ==>
      DiskOk(h[n]) && (Current(g, h[n], id) ==> UniqueAbbrev(h[n], id, len) == answer)
    ensures ServedRight(h, from, g, id, len, answer)
  {
    hide DiskOk, DiskStep, Current, UniqueAbbrev;
  }

  /** A row whose answer was computed after its generation was read is never served stale, as long as no directory that
   was missing when it was read had been created by then. */
  lemma NeverStale(h: seq<Disk>, g: Generation, id: Id, len: nat, when: (nat, Slot) -> nat)
    requires IsHistory(h) && |h| > 0 && |id| >= MINIMUM_ABBREV && ReadFrom(g, h, id, when)
    requires |g.pack| == |g.fan| == |h[|h| - 1].stores| && DiskOk(h[|h| - 1]) && NoneAppeared(g, h[|h| - 1], id)
    ensures SafeRow(h, g, id, len, UniqueAbbrev(h[|h| - 1], id, len))
  {
    hide DiskOk, DirOf, DiskStep, ReadFrom, Current, Dead, UniqueAbbrev, IsHistory, SafeRow, SameIds, AsRead;
    var last := h[|h| - 1];
    AsReadDirs(g, last, id);
    forall s: nat, slot | s < |last.stores|
      ensures SameIds(DirOf(AsRead(g, last, id), s, slot, id), DirOf(last, s, slot, id))
    {
      SameSelf(DirOf(last, s, slot, id));
    }
    OnlyItsDirectories(AsRead(g, last, id), last, id, len);
    RowIsSafe(h, g, id, len, UniqueAbbrev(last, id, len), when);
  }

  // ---- the case that is not safe --------------------------------------------------------------

  const OURS: Id := [0, 0, 0, 0, 0, 0]
  const THEIRS: Id := [0, 0, 0, 0, 0, 1]

  function NoLoose(): (f: seq<Dir>)
    ensures |f| == 256 && forall b :: 0 <= b < 256 ==> f[b] == Missing
  {
    seq(256, b => Missing)
  }

  /** One packed object and nothing loose; and the same with a colliding loose object in a new fan-out directory. */
  function Packed(): Disk { Disk([Store(Present(1, {OURS}), NoLoose())], 1) }

  function Collided(): Disk { Disk([Store(Present(1, {OURS}), NoLoose()[0 := Present(2, {THEIRS})])], 2) }

  lemma TwoLooks()
    ensures DiskOk(Packed()) && DiskOk(Collided()) && IsHistory([Packed(), Collided()])
  {
  }

  const STALE := Generation([Stamp(1)], [Gone])

  lemma TwoReads()
    ensures IsHistory([Packed(), Collided()]) && ReadFrom(STALE, [Packed(), Collided()], OURS, (s, slot) => 0)
  {
    TwoLooks();
  }

  lemma TwoStores()
    ensures DiskOk(Packed()) && DiskOk(Collided()) && !Dead(STALE, Collided(), OURS)
    ensures DiskOk(AsRead(STALE, Collided(), OURS)) && SameFor(AsRead(STALE, Collided(), OURS), Packed(), OURS)
  {
    TwoLooks();
    AsReadDirs(STALE, Collided(), OURS);
    hide AsRead;
  }

  lemma Lengths()
    ensures UniqueAbbrev(Packed(), OURS, 4) == 4 && UniqueAbbrev(Collided(), OURS, 4) == 6
  {
    var p, c := Packed(), Collided();
    assert Has(p.stores[0].pack, OURS) && Has(c.stores[0].pack, OURS) && Has(c.stores[0].fan[0], THEIRS);
    assert Holds(p, OURS) && Holds(c, OURS) && Holds(c, THEIRS);
    forall o | Holds(p, o)
      ensures o == OURS
    {
    }
    assert !Clash(p, OURS, 4);
    assert OURS[..5] == THEIRS[..5] == [0, 0, 0, 0, 0];
    assert Clash(c, OURS, 5);
    ShorterClash(c, OURS, 5, 4);
    var n := Widened(c, OURS, 4);
    assert n == 6;
  }

  /** The stamp alone does not keep a row from going stale: a fan-out directory that is missing when the generation is
   read, holds a collision when the answer is computed and is removed again leaves a row too long under a generation
   that does come back. */
  lemma MissingComesBack() returns (h: seq<Disk>, g: Generation, id: Id, len: nat, when: (nat, Slot) -> nat)
    ensures IsHistory(h) && |h| > 0 && |id| >= MINIMUM_ABBREV && ReadFrom(g, h, id, when)
    ensures !SafeRow(h, g, id, len, UniqueAbbrev(h[|h| - 1], id, len))
  {
    hide DiskOk, DirOf, DiskStep, ReadFrom, Current, Dead, UniqueAbbrev, IsHistory, SafeRow, SameFor, AsRead, Packed,
      Collided;
    h, g, id, len, when := [Packed(), Collided()], STALE, OURS, 4, (s, slot) => 0;
    TwoReads();
    TwoStores();
    Lengths();
    RowIsSafe(h, g, id, len, 6, when);
    OnlyItsDirectories(AsRead(g, Collided(), OURS), Packed(), OURS, 4);
  }

  // ---- the stamp and the histories -----------------------------------------------------------------

  lemma {:induction false} SameSize(h: seq<Disk>, i: nat, j: nat)
    requires IsHistory(h) && i <= j < |h|
    ensures |h[i].stores| == |h[j].stores|
    decreases j - i
  {
    hide DiskOk;
    if i < j {
      SameSize(h, i, j - 1);
      assert DiskStep(h[j - 1], h[j]);
    }
  }

  /** When the looks of a stamp were taken: the packs at one time, the fan-out directory at another. */
  function Looks(packs: nat, fan: nat): (nat, Slot) -> nat { (s: nat, slot: Slot) => if slot.Pack? then packs else fan }

  lemma TagsAre(d: Disk, id: Id)
    requires DiskOk(d) && |id| >= MINIMUM_ABBREV
    ensures First(id) < 256 && forall s :: 0 <= s < |d.stores| ==> |d.stores[s].fan| == 256
    ensures |PackTags(d)| == |FanTags(d, First(id))| == |d.stores|
    ensures forall s: nat :: s < |d.stores| ==>
      PackTags(d)[s] == TagOf(DirOf(d, s, Pack, id)) && FanTags(d, First(id))[s] == TagOf(DirOf(d, s, Fan, id))
  {
    FirstBound(id);
  }

  /**
   What `generation` gives is read off the history: the packs when the stamp was made, the fan-out
   directory of the first byte when it was first asked for; and it is current exactly as long as a stamp
   made afresh would give the same.
   */
  lemma StampIsRead(h: seq<Disk>, id: Id, packs: nat, fan: nat)
    requires IsHistory(h) && packs < |h| && fan < |h| && |id| >= MINIMUM_ABBREV
    ensures First(id) < 256
    ensures forall i :: 0 <= i < |h| ==>
      DiskOk(h[i]) && forall s :: 0 <= s < |h[i].stores| ==> |h[i].stores[s].fan| == 256
    ensures var g := Generation(PackTags(h[packs]), FanTags(h[fan], First(id)));
      && ReadFrom(g, h, id, Looks(packs, fan))
      && (Current(g, h[|h| - 1], id) <==>
            g == Generation(PackTags(h[|h| - 1]), FanTags(h[|h| - 1], First(id))))
  {
    hide DiskStep, DirOf, First, TagOf, PackTags, FanTags, DiskOk;
    forall i | 0 <= i < |h|
      ensures DiskOk(h[i]) && forall s :: 0 <= s < |h[i].stores| ==> |h[i].stores[s].fan| == 256
    {
      TagsAre(h[i], id);
    }
    var n := |h| - 1;
    TagsAre(h[packs], id);
    TagsAre(h[fan], id);
    TagsAre(h[n], id);
    SameSize(h, packs, n);
    SameSize(h, fan, n);
    LooksRead(h, id, packs, fan, Generation(PackTags(h[packs]), FanTags(h[fan], First(id))));
    CurrentIs(h[n], id, Generation(PackTags(h[packs]), FanTags(h[fan], First(id))));
  }

  lemma LooksRead(h: seq<Disk>, id: Id, packs: nat, fan: nat, g: Generation)
    requires IsHistory(h) && packs < |h| && fan < |h| && |id| >= MINIMUM_ABBREV && DiskOk(h[packs]) && DiskOk(h[fan])
    requires |h[packs].stores| == |h[fan].stores| == |h[|h| - 1].stores| == |g.pack| == |g.fan|
    requires forall s: nat :: s < |g.pack| ==>
      g.pack[s] == TagOf(DirOf(h[packs], s, Pack, id)) && g.fan[s] == TagOf(DirOf(h[fan], s, Fan, id))
    ensures ReadFrom(g, h, id, Looks(packs, fan))
  {
    hide DiskStep, DirOf, TagOf, DiskOk;
    forall s: nat, slot | s < |g.pack|
      ensures Looks(packs, fan)(s, slot) < |h| && s < |h[Looks(packs, fan)(s, slot)].stores|
      ensures DiskOk(h[Looks(packs, fan)(s, slot)])
      ensures GenTag(g, s, slot) == TagOf(DirOf(h[Looks(packs, fan)(s, slot)], s, slot, id))
    {
      if slot.Pack? { assert slot == Pack; } else { assert slot == Fan; }
    }
  }

  lemma CurrentIs(d: Disk, id: Id, g: Generation)
    requires DiskOk(d) && |id| >= MINIMUM_ABBREV && |g.pack| == |g.fan| == |d.stores|
    requires First(id) < 256 && forall s :: 0 <= s < |d.stores| ==> |d.stores[s].fan| == 256
    ensures Current(g, d, id) <==> g == Generation(PackTags(d), FanTags(d, First(id)))
  {
    hide DirOf, First, TagOf, DiskOk;
    TagsAre(d, id);
    var f := Generation(PackTags(d), FanTags(d, First(id)));
    if Current(g, d, id) {
      forall s: nat | s < |d.stores|
        ensures g.pack[s] == f.pack[s] && g.fan[s] == f.fan[s]
      {
        assert GenTag(g, s, Pack) == TagOf(DirOf(d, s, Pack, id)) && GenTag(g, s, Fan) == TagOf(DirOf(d, s, Fan, id));
      }
      assert g.pack == f.pack && g.fan == f.fan;
    }
    if g == f {
      forall s: nat, slot | s < |g.pack|
        ensures TagOf(DirOf(d, s, slot, id)) == GenTag(g, s, slot)
      {
        if slot.Pack? { assert slot == Pack; } else { assert slot == Fan; }
      }
    }
  }
}
