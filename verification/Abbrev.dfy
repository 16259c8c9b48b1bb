/**
 Abbreviated object names, abbrev.rs: the shortest unique prefix as a function of the object
 store, the stamp an abbreviation is cached under, and when a cached one may be served.
 `hash_key` is taken to be injective, so a generation is what was hashed.
 */
module Abbrev {

  type Nibble = d: int | 0 <= d < 16
  type Id = seq<Nibble>

  const MINIMUM_ABBREV: nat := 4

  // ---- the automatic length -----------------------------------------------------------------

  function BitLength(n: nat): nat { if n == 0 then 0 else 1 + BitLength(n / 2) }

  function Power(b: nat, e: nat): nat { if e == 0 then 1 else b * Power(b, e - 1) }

  /** `auto_abbrev` over a count of packed objects. */
  function AutoAbbrev(count: nat, hexsz: nat): nat {
    var len := (BitLength(count) + 1) / 2;
    var floor := if len < 7 then 7 else len;
    if hexsz < floor then hexsz else floor
  }

  lemma {:induction false} BitLengthBounds(n: nat)
    ensures n < Power(2, BitLength(n)) && (n > 0 ==> Power(2, BitLength(n) - 1) <= n)
  {
    if n > 0 { BitLengthBounds(n / 2); }
  }

  lemma {:induction false} PowerOfFour(e: nat)
    ensures Power(4, e) == Power(2, 2 * e)
  {
    if e > 0 {
      PowerOfFour(e - 1);
      assert Power(2, 2 * e) == 2 * Power(2, 2 * e - 1);
    }
  }

  lemma {:induction false} PowerGrows(a: nat, b: nat)
    requires a <= b
    ensures Power(2, a) <= Power(2, b)
  {
    if a < b { PowerGrows(a, b - 1); }
  }

  /** The automatic length is the least one of at least seven at which there are four times as many names, length for
   length, as squares of the count need: `4^len > count`, with the hash width as its limit. */
  lemma AutoAbbrevIsLeast(count: nat, hexsz: nat, other: nat)
    requires hexsz >= 7
    ensures var len := AutoAbbrev(count, hexsz);
      && 7 <= len <= hexsz
      && (len < hexsz ==> Power(4, len) > count)
      && (7 <= other < len ==> Power(4, other) <= count)
  {
    BitLengthBounds(count);
    var b, len := BitLength(count), AutoAbbrev(count, hexsz);
    if len < hexsz {
      PowerOfFour(len);
      PowerGrows(b, 2 * len);
    }
    if 7 <= other < len {
      PowerOfFour(other);
      PowerGrows(2 * other, b - 1);
    }
  }

  // ---- the store ----------------------------------------------------------------------------

  /** A directory of object names; `stamp` is its inode and ctime, never the same after a change. */
  datatype Dir = Missing | Present(stamp: nat, ids: set<Id>)

  /** One objects directory: its `pack`, and its 256 loose fan-out directories. */
  datatype Store = Store(pack: Dir, fan: seq<Dir>)

  /** The primary objects directory and its alternates; `clock` has passed every stamp given out. */
  datatype Disk = Disk(stores: seq<Store>, clock: nat)

  function First(id: Id): nat
    requires |id| >= 2
  {
    id[0] as int * 16 + id[1] as int
  }

  predicate DirOk(d: Dir, clock: nat) {
    d.Present? ==> d.stamp <= clock && forall id :: id in d.ids ==> |id| >= MINIMUM_ABBREV
  }

  predicate DiskOk(d: Disk) {
    forall s :: 0 <= s < |d.stores| ==>
      && |d.stores[s].fan| == 256 && DirOk(d.stores[s].pack, d.clock)
      && forall b :: 0 <= b < 256 ==>
        && DirOk(d.stores[s].fan[b], d.clock)
        && (d.stores[s].fan[b].Present? ==> forall id :: id in d.stores[s].fan[b].ids ==> First(id) == b)
  }

  predicate Has(d: Dir, id: Id) { d.Present? && id in d.ids }

  /** Some directory of the store holds the object. */
  ghost predicate Holds(d: Disk, id: Id) {
    exists s :: 0 <= s < |d.stores| &&
      (Has(d.stores[s].pack, id) || exists b :: 0 <= b < |d.stores[s].fan| && Has(d.stores[s].fan[b], id))
  }

  /** Another object shares the first `m` digits. */
  ghost predicate Clash(d: Disk, id: Id, m: nat) {
    m <= |id| && exists o :: Holds(d, o) && o != id && |o| >= m && o[..m] == id[..m]
  }

  /** The first length from `m` on at which nothing clashes. */
  ghost function Widened(d: Disk, id: Id, m: nat): (n: nat)
    requires m <= |id|
    ensures m <= n <= |id| && (n < |id| ==> !Clash(d, id, n)) && forall k :: m <= k < n ==> Clash(d, id, k)
    decreases |id| - m
  {
    if m < |id| && Clash(d, id, m) then Widened(d, id, m + 1) else m
  }

  /** `unique_abbrev`: the length an id is cut to. */
  ghost function UniqueAbbrev(d: Disk, id: Id, len: nat): (n: nat)
    ensures n <= |id|
  {
    if len == 0 || len >= |id| then |id|
    else
      var from := if len < MINIMUM_ABBREV then MINIMUM_ABBREV else len;
      if from >= |id| then |id| else if !Holds(d, id) then from else Widened(d, id, from)
  }

  /** A prefix that clashes makes every shorter one clash. */
  lemma ShorterClash(d: Disk, id: Id, m: nat, k: nat)
    requires k <= m && Clash(d, id, m)
    ensures Clash(d, id, k)
  {
    hide Holds;
    var o :| Holds(d, o) && o != id && |o| >= m && o[..m] == id[..m];
    assert o[..k] == o[..m][..k] == id[..m][..k] == id[..k];
  }

  /** The prefix given is unique, at least four digits, and no shorter one from the length asked for would be unique. */
  lemma UniqueIsShortest(d: Disk, id: Id, len: nat)
    requires 0 < len && MINIMUM_ABBREV < |id| && Holds(d, id)
    ensures var n := UniqueAbbrev(d, id, len);
      && MINIMUM_ABBREV <= n && (n < |id| ==> !Clash(d, id, n))
      && forall k :: MINIMUM_ABBREV <= k < n && len <= k ==> Clash(d, id, k)
  {
  }

  // ---- what an abbreviation depends on --------------------------------------------------------

  datatype Slot = Pack | Fan

  /** The directory of store `s` an abbreviation of `id` depends on. */
  function DirOf(d: Disk, s: nat, slot: Slot, id: Id): Dir
    requires DiskOk(d) && s < |d.stores| && |id| >= MINIMUM_ABBREV
  {
    FirstBound(id);
    if slot.Pack? then d.stores[s].pack else d.stores[s].fan[First(id)]
  }

  lemma FirstBound(id: Id)
    requires |id| >= 2
    ensures 0 <= First(id) < 256
  {
  }

  /** Both disks have the same contents where `id` looks. */
  ghost predicate SameFor(a: Disk, b: Disk, id: Id)
    requires DiskOk(a) && DiskOk(b) && |id| >= MINIMUM_ABBREV
  {
    |a.stores| == |b.stores| && forall s, slot :: 0 <= s < |a.stores| ==>
      SameIds(DirOf(a, s, slot, id), DirOf(b, s, slot, id))
  }

  predicate SameIds(x: Dir, y: Dir) { (if x.Present? then x.ids else {}) == if y.Present? then y.ids else {} }

  /** An object that shares four digits with `id` is held by both or by neither. */
  lemma SameHolds(a: Disk, b: Disk, id: Id, o: Id)
    requires DiskOk(a) && DiskOk(b) && |id| >= MINIMUM_ABBREV && SameFor(a, b, id) && Holds(a, o)
    requires |o| >= MINIMUM_ABBREV && o[..MINIMUM_ABBREV] == id[..MINIMUM_ABBREV]
    ensures Holds(b, o)
  {
    var s :| 0 <= s < |a.stores| &&
      (Has(a.stores[s].pack, o) || exists f :: 0 <= f < |a.stores[s].fan| && Has(a.stores[s].fan[f], o));
    SameFirst(o, id);
    FirstBound(id);
    if Has(a.stores[s].pack, o) {
      assert SameIds(DirOf(a, s, Pack, id), DirOf(b, s, Pack, id));
      assert Has(b.stores[s].pack, o);
    } else {
      var f :| 0 <= f < |a.stores[s].fan| && Has(a.stores[s].fan[f], o);
      assert f == First(id);
      assert SameIds(DirOf(a, s, Fan, id), DirOf(b, s, Fan, id));
      assert Has(b.stores[s].fan[f], o);
    }
  }

  lemma SameFirst(o: Id, id: Id)
    requires |o| >= MINIMUM_ABBREV && |id| >= MINIMUM_ABBREV && o[..MINIMUM_ABBREV] == id[..MINIMUM_ABBREV]
    ensures First(o) == First(id)
  {
    assert o[..MINIMUM_ABBREV][0] == o[0] && o[..MINIMUM_ABBREV][1] == o[1];
    assert id[..MINIMUM_ABBREV][0] == id[0] && id[..MINIMUM_ABBREV][1] == id[1];
  }

  lemma SameClash(a: Disk, b: Disk, id: Id, m: nat)
    requires DiskOk(a) && DiskOk(b) && |id| >= MINIMUM_ABBREV
    requires SameFor(a, b, id) && m >= MINIMUM_ABBREV && Clash(a, id, m)
    ensures Clash(b, id, m)
  {
    hide Holds, SameFor;
    var o :| Holds(a, o) && o != id && |o| >= m && o[..m] == id[..m];
    assert o[..m][..MINIMUM_ABBREV] == id[..m][..MINIMUM_ABBREV];
    SameHolds(a, b, id, o);
  }

  lemma {:induction false} SameWidened(a: Disk, b: Disk, id: Id, m: nat)
    requires DiskOk(a) && DiskOk(b) && |id| >= MINIMUM_ABBREV
    requires SameFor(a, b, id) && SameFor(b, a, id) && MINIMUM_ABBREV <= m <= |id|
    ensures Widened(a, id, m) == Widened(b, id, m)
    decreases |id| - m
  {
    hide Clash, SameFor, DiskOk;
    if Clash(a, id, m) { SameClash(a, b, id, m); }
    if Clash(b, id, m) { SameClash(b, a, id, m); }
    if m < |id| { SameWidened(a, b, id, m + 1); }
  }

  /** Only the packs and the loose objects that share the first byte matter: what changes in the other fan-out
   directories never alters the answer. */
  lemma OnlyItsDirectories(a: Disk, b: Disk, id: Id, len: nat)
    requires DiskOk(a) && DiskOk(b) && |id| >= MINIMUM_ABBREV && SameFor(a, b, id)
    ensures UniqueAbbrev(a, id, len) == UniqueAbbrev(b, id, len)
  {
    hide Holds, DiskOk, Clash;
    SameBack(a, b, id);
    if Holds(a, id) { SameHolds(a, b, id, id); }
    if Holds(b, id) { SameHolds(b, a, id, id); }
    var from := if len < MINIMUM_ABBREV then MINIMUM_ABBREV else len;
    if from < |id| { SameWidened(a, b, id, from); }
  }

  lemma SameBack(a: Disk, b: Disk, id: Id)
    requires DiskOk(a) && DiskOk(b) && |id| >= MINIMUM_ABBREV && SameFor(a, b, id)
    ensures SameFor(b, a, id)
  {
    hide DiskOk, SameIds;
    forall s, slot | 0 <= s < |b.stores|
      ensures SameIds(DirOf(b, s, slot, id), DirOf(a, s, slot, id))
    {
      SameIdsBack(DirOf(a, s, slot, id), DirOf(b, s, slot, id));
    }
  }

  lemma SameIdsBack(x: Dir, y: Dir)
    ensures SameIds(x, y) ==> SameIds(y, x)
  {
  }

  /**
   Of a name nobody holds nothing is known to be ambiguous: it is cut to the length asked for, of at least four; and
   no length, or one as long as the name, asks for all of it.
   */
  lemma CutLength(d: Disk, id: Id, len: nat)
    ensures len == 0 || len >= |id| ==> UniqueAbbrev(d, id, len) == |id|
    ensures !Holds(d, id) && 4 <= len <= |id| ==> UniqueAbbrev(d, id, len) == len
    ensures !Holds(d, id) && 0 < len < 4 <= |id| ==> UniqueAbbrev(d, id, len) == 4
    ensures Holds(d, id) && 0 < len < 4 < |id| ==> UniqueAbbrev(d, id, len) == UniqueAbbrev(d, id, 4)
  {
    hide Holds, Clash;
  }
}
