/**
 The tokenizer of config_store.rs in its own form: a cursor that is advanced in place,
 one method per C function, and a store that the events and entries are written into.
 Each method is proved to compute what the automaton of ConfigGrammar computes.
 */
module ConfigSource {
  import opened Bytes
  import opened ConfigGrammar
  import opened ConfigScan
  import opened Optional

  /** `c` is the first character of `r`, which stands at `at`; behind it, at `next`, lies `rest`. */
  ghost predicate Took(r: Bytes, c: Byte, at: nat, next: nat, rest: Bytes) {
    if r == [] then c == LF && next == at && rest == []
    else c == CharAt(r) && next == at + CharLen(r) && rest == r[CharLen(r)..]
  }

  /** `struct config_source` over a memory buffer. */
  class Source {
    const buf: Bytes
    var pos: nat
    var eof: bool
    var stem: Bytes
    var subsectionCaseSensitive: bool

    constructor (buf: Bytes)
      ensures Valid() && this.buf == buf && pos == 0 && !eof && Cursor() == NO_STEM && Rest() == buf
    {
      this.buf := buf;
      pos, eof, stem, subsectionCaseSensitive := 0, false, [], true;
      new;
      assert buf[0..] == buf;
    }

    ghost predicate Valid()
      reads this
    {
      pos <= |buf| && (eof ==> pos == |buf|)
    }

    ghost function Rest(): Bytes
      requires Valid()
      reads this
    {
      buf[pos..]
    }

    function Cursor(): Stem
      reads this
    {
      Stem(stem, subsectionCaseSensitive)
    }

    method FGetC() returns (c: Option<Byte>)
      requires Valid()
      modifies `pos
      ensures Valid()
      ensures old(pos) == |buf| ==> c == None && pos == old(pos)
      ensures old(pos) < |buf| ==> c == Some(buf[old(pos)]) && pos == old(pos) + 1
    {
      if pos < |buf| {
        c := Some(buf[pos]);
        pos := pos + 1;
      } else {
        c := None;
      }
    }

    method UnGetC()
      modifies `pos
      ensures pos == if old(pos) > 0 then old(pos) - 1 else 0
    {
      if pos > 0 {
        pos := pos - 1;
      }
    }

    /** CR LF folds to LF, and the end of the buffer reads as LF with `eof` set. */
    method NextChar() returns (c: Byte)
      requires Valid()
      modifies `pos, `eof
      ensures Valid() && pos >= old(pos) && eof == (pos == old(pos)) && (eof ==> c == LF)
      ensures Took(old(Rest()), c, old(pos), pos, Rest())
    {
      var b := FGetC();
      if b == Some(CR) {
        b := FGetC();
        if b != Some(LF) {
          if b.Some? {
            UnGetC();
          }
          b := Some(CR);
        }
      }
      match b {
        case Some(x) => c := x;
        case None =>
          eof := true;
          c := LF;
      }
    }
  }

  /** An item began at `start`; from `at` on, where `r` lies, it is read from mode `m`. */
  ghost predicate Continues(whole: Item, m: Mode, r: Bytes, start: nat, at: nat) {
    at >= start && whole == Item(ToTop(m, r).mode, at - start + ToTop(m, r).len, ToTop(m, r).pairs)
  }

  lemma ContinuesStart(m: Mode, r: Bytes, start: nat)
    ensures Continues(ToTop(m, r), m, r, start, start)
  {
  }

  /** One character of an item, read or standing for the end of the text. */
  lemma ContinuesStep(whole: Item, m: Mode, r: Bytes, start: nat, at: nat, c: Byte, next: nat, rest: Bytes)
    requires Continues(whole, m, r, start, at) && Took(r, c, at, next, rest)
    requires !TopLike(m) && !m.Failed? && PairOf(m, c) == []
    ensures Continues(whole, Delta(m, c), rest, start, next)
  {
    hide Delta, PairOf;
    var t := ToTop(Delta(m, c), rest);
    assert [] + t.pairs == t.pairs;
  }

  /** The character that ends an item. */
  lemma ContinuesEnd(whole: Item, m: Mode, r: Bytes, start: nat, at: nat, c: Byte, next: nat, rest: Bytes)
    requires Continues(whole, m, r, start, at) && Took(r, c, at, next, rest)
    requires !TopLike(m) && !m.Failed? && (TopLike(Delta(m, c)) || Delta(m, c).Failed?)
    ensures next >= start && whole == Item(Delta(m, c), next - start, PairOf(m, c))
  {
    hide Delta, PairOf;
    ToTopDone(Delta(m, c), rest);
    assert PairOf(m, c) + [] == PairOf(m, c);
  }

  lemma ValueChar(st: Stem, key: Bytes, quote: bool, hash: bool, trim: nat, acc: Bytes, c: Byte)
    ensures Delta(Value(st, key, quote, hash, trim, acc), c) == ValueStep(st, key, quote, hash, trim, acc, c)
    ensures PairOf(Value(st, key, quote, hash, trim, acc), c) ==
      if c == LF && !quote then [Pair(key, Some(Trimmed(trim, acc)))] else []
    ensures ValueStep(st, key, quote, hash, trim, acc, c).Top? || ValueStep(st, key, quote, hash, trim, acc, c).Failed?
      <==> c == LF
  {
  }

  lemma EscapeChar(st: Stem, key: Bytes, quote: bool, acc: Bytes, c: Byte)
    ensures Delta(ValueEscape(st, key, quote, acc), c) == EscapeStep(st, key, quote, acc, c)
    ensures PairOf(ValueEscape(st, key, quote, acc), c) == []
  {
  }

  /** The character behind a backslash: what it stands for, nothing for a line end, or a refusal. */
  method ReadEscape(cs: Source, ghost st: Stem, ghost key: Bytes, ghost quote: bool, ghost value: Bytes,
                    ghost whole: Item, ghost start: nat) returns (e: Option<Bytes>)
    requires cs.Valid() && start <= cs.pos
    requires Continues(whole, ValueEscape(st, key, quote, value), cs.Rest(), start, cs.pos)
    modifies cs`pos, cs`eof
    ensures cs.Valid() && old(cs.pos) <= cs.pos
    ensures if e.None? then whole.mode.Failed?
      else Continues(whole, Value(st, key, quote, false, 0, value + e.value), cs.Rest(), start, cs.pos)
  {
    hide ToTop, Took, Delta, PairOf, Continues, Source.Rest;
    ghost var m, r, at := ValueEscape(st, key, quote, value), cs.Rest(), cs.pos;
    var c := cs.NextChar();
    EscapeChar(st, key, quote, value, c);
    if c != LF && c != LOWER_T && c != LOWER_B && c != LOWER_N && c != BACKSLASH && c != DQUOTE {
      ContinuesEnd(whole, m, r, start, at, c, cs.pos, cs.Rest());
      return None;
    }
    ContinuesStep(whole, m, r, start, at, c, cs.pos, cs.Rest());
    if c == LF {
      assert value + [] == value;
      return Some([]);
    }
    return Some([if c == LOWER_T then TAB else if c == LOWER_B then BS else if c == LOWER_N then LF else c]);
  }

  /** `parse_value` */
  method ParseValue(cs: Source, ghost st: Stem, ghost key: Bytes) returns (v: Option<Bytes>)
    requires cs.Valid()
    modifies cs`pos, cs`eof
    ensures cs.Valid() && old(cs.pos) <= cs.pos
    ensures var t := ToTop(Value(st, key, false, false, 0, []), old(cs.Rest()));
      if v.None? then t.mode.Failed?
      else t == Item(Top(st, false), cs.pos - old(cs.pos), [Pair(key, v)])
  {
    hide ToTop, Took, Delta, PairOf, Continues, Source.Rest;
    var quote, hash := false, false;
    var trim: nat, value: Bytes := 0, [];
    ghost var whole := ToTop(Value(st, key, false, false, 0, []), cs.Rest());
    ghost var start := cs.pos;
    ContinuesStart(Value(st, key, quote, hash, trim, value), cs.Rest(), start);
    while true
      invariant cs.Valid() && start <= cs.pos && trim <= |value|
      invariant Continues(whole, Value(st, key, quote, hash, trim, value), cs.Rest(), start, cs.pos)
      decreases |cs.buf| - cs.pos
    {
      ghost var m, r, at := Value(st, key, quote, hash, trim, value), cs.Rest(), cs.pos;
      var c := cs.NextChar();
      ValueChar(st, key, quote, hash, trim, value, c);
      if c == LF {
        ContinuesEnd(whole, m, r, start, at, c, cs.pos, cs.Rest());
        if quote {
          return None;
        }
        if trim != 0 {
          value := value[..trim];
        }
        return Some(value);
      }
      ContinuesStep(whole, m, r, start, at, c, cs.pos, cs.Rest());
      if hash {
        continue;
      }
      if IsSpace(c) && !quote {
        if trim == 0 {
          trim := |value|;
        }
        if value != [] {
          value := value + [c];
        }
        continue;
      }
      if !quote && (c == SEMICOLON || c == HASH) {
        hash := true;
        continue;
      }
      if trim != 0 {
        trim := 0;
      }
      if c == BACKSLASH {
        var e := ReadEscape(cs, st, key, quote, value, whole, start);
        if e.None? {
          return None;
        }
        value := value + e.value;
        continue;
      }
      if c == DQUOTE {
        quote := !quote;
        continue;
      }
      value := value + [c];
    }
  }

  lemma NameChar(st: Stem, key: Bytes, c: Byte)
    ensures Delta(Name(st, key), c) == if IsKeyChar(c) then Name(st, key + [Lower(c)]) else NameTail(st, key, c)
    ensures Delta(NameSpace(st, key), c) == NameTail(st, key, c)
    ensures PairOf(Name(st, key), c) == PairOf(NameSpace(st, key), c) == if c == LF then [Pair(key, None)] else []
    ensures IsKeyChar(c) ==> c != LF
  {
  }

  lemma ContinuesInto(whole: Item, m: Mode, r: Bytes, start: nat, at: nat, c: Byte)
    requires c != LF ==> Continues(whole, m, r, start, at)
    ensures c != LF ==> at >= start && whole == Item(ToTop(m, r).mode, at - start + ToTop(m, r).len, ToTop(m, r).pairs)
  {
  }

  /** The first loop of `get_value`: the rest of the name, and the character behind it, not yet accounted for. */
  method ReadName(cs: Source, ghost st: Stem, name: Bytes, ghost whole: Item)
      returns (key: Bytes, c: Byte, ghost r: Bytes, ghost at: nat)
    requires cs.Valid() && Continues(whole, Name(st, name), cs.Rest(), cs.pos, cs.pos)
    modifies cs`pos, cs`eof
    ensures cs.Valid() && old(cs.pos) <= at <= cs.pos && !IsKeyChar(c) && (cs.eof ==> c == LF)
    ensures Continues(whole, Name(st, key), r, old(cs.pos), at) && Took(r, c, at, cs.pos, cs.Rest())
  {
    hide ToTop, Took, Continues, Delta, PairOf, Source.Rest, IsKeyChar, Lower;
    key := name;
    ghost var start := cs.pos;
    r, at := cs.Rest(), cs.pos;
    c := cs.NextChar();
    NameChar(st, key, c);
    while !(cs.eof || !IsKeyChar(c))
      invariant cs.Valid() && start <= at <= cs.pos && (cs.eof ==> c == LF && !IsKeyChar(c))
      invariant Continues(whole, Name(st, key), r, start, at) && Took(r, c, at, cs.pos, cs.Rest())
      decreases |cs.buf| - cs.pos, !cs.eof
    {
      NameChar(st, key, c);
      ContinuesStep(whole, Name(st, key), r, start, at, c, cs.pos, cs.Rest());
      key := key + [Lower(c)];
      r, at := cs.Rest(), cs.pos;
      c := cs.NextChar();
      NameChar(st, key, c);
    }
  }

  /** `get_value` up to its callback: the rest of the name, then the optional value. */
  method GetValue(cs: Source, ghost st: Stem, name: Bytes) returns (p: Option<Pair>)
    requires cs.Valid()
    modifies cs`pos, cs`eof
    ensures cs.Valid() && old(cs.pos) <= cs.pos
    ensures var t := ToTop(Name(st, name), old(cs.Rest()));
      if p.None? then t.mode.Failed?
      else t == Item(Top(st, false), cs.pos - old(cs.pos), [p.value])
  {
    hide ToTop, Took, Continues, Delta, PairOf, Source.Rest, IsKeyChar;
    ghost var whole, start := ToTop(Name(st, name), cs.Rest()), cs.pos;
    ContinuesStart(Name(st, name), cs.Rest(), start);
    var key, c, r, at := ReadName(cs, st, name, whole);
    ghost var m := Name(st, key);
    while c == SPACE || c == TAB
      invariant cs.Valid() && start <= at <= cs.pos && (cs.eof ==> c == LF)
      invariant (m == Name(st, key) && !IsKeyChar(c)) || m == NameSpace(st, key)
      invariant Continues(whole, m, r, start, at) && Took(r, c, at, cs.pos, cs.Rest())
      decreases |cs.buf| - cs.pos, !cs.eof
    {
      NameChar(st, key, c);
      ContinuesStep(whole, m, r, start, at, c, cs.pos, cs.Rest());
      m, r, at := NameSpace(st, key), cs.Rest(), cs.pos;
      c := cs.NextChar();
    }
    NameChar(st, key, c);
    if c == LF {
      ContinuesEnd(whole, m, r, start, at, c, cs.pos, cs.Rest());
      return Some(Pair(key, None));
    }
    if c != EQUALS {
      ContinuesEnd(whole, m, r, start, at, c, cs.pos, cs.Rest());
      return None;
    }
    ContinuesStep(whole, m, r, start, at, c, cs.pos, cs.Rest());
    ContinuesInto(whole, Value(st, key, false, false, 0, []), cs.Rest(), start, cs.pos, c);
    var v := ParseValue(cs, st, key);
    if v.None? {
      return None;
    }
    return Some(Pair(key, v));
  }

  lemma HeaderChar(name: Bytes, c: Byte)
    ensures Delta(ExtSpace(name), c) ==
      if IsSpace(c) then (if c == LF then Failed else ExtSpace(name))
      else if c == DQUOTE then ExtBody(name + [DOT]) else Failed
    ensures PairOf(ExtSpace(name), c) == []
  {
  }

  /** `get_extended_base_var`: the `"subsection"` half of a header, kept verbatim. */
  method GetExtendedBaseVar(cs: Source, name: Bytes, first: Byte) returns (r: Option<Bytes>)
    requires cs.Valid() && IsSpace(first)
    modifies cs`pos, cs`eof, cs`subsectionCaseSensitive
    ensures cs.Valid() && old(cs.pos) <= cs.pos && !cs.subsectionCaseSensitive
    ensures first == LF ==> r == None
    ensures first != LF ==>
      var t := ToTop(ExtSpace(name), old(cs.Rest()));
      if r.None? then t.mode.Failed?
      else r.value != [] && t == Item(Top(Stem(r.value + [DOT], false), false), cs.pos - old(cs.pos), [])
  {
    hide ToTop;
    cs.subsectionCaseSensitive := false;
    if first == LF {
      return None;
    }
    r := Subsection(cs, name);
  }

  /** `get_extended_base_var` once the flag is set and a line end ruled out. */
  method Subsection(cs: Source, name: Bytes) returns (r: Option<Bytes>)
    requires cs.Valid()
    modifies cs`pos, cs`eof
    ensures cs.Valid() && old(cs.pos) <= cs.pos
    ensures var t := ToTop(ExtSpace(name), old(cs.Rest()));
      if r.None? then t.mode.Failed?
      else r.value != [] && t == Item(Top(Stem(r.value + [DOT], false), false), cs.pos - old(cs.pos), [])
  {
    hide ToTop, Took, Delta, PairOf, Continues, Source.Rest;
    ghost var start, whole := cs.pos, ToTop(ExtSpace(name), cs.Rest());
    ghost var r0, at := cs.Rest(), cs.pos;
    ContinuesStart(ExtSpace(name), r0, start);
    var c := cs.NextChar();
    while IsSpace(c)
      invariant cs.Valid() && start <= at <= cs.pos && (cs.eof ==> c == LF)
      invariant Continues(whole, ExtSpace(name), r0, start, at) && Took(r0, c, at, cs.pos, cs.Rest())
      decreases |cs.buf| - cs.pos, !cs.eof
    {
      HeaderChar(name, c);
      if c == LF {
        ContinuesEnd(whole, ExtSpace(name), r0, start, at, c, cs.pos, cs.Rest());
        return None;
      }
      ContinuesStep(whole, ExtSpace(name), r0, start, at, c, cs.pos, cs.Rest());
      r0, at := cs.Rest(), cs.pos;
      c := cs.NextChar();
    }
    HeaderChar(name, c);
    if c != DQUOTE {
      ContinuesEnd(whole, ExtSpace(name), r0, start, at, c, cs.pos, cs.Rest());
      return None;
    }
    ContinuesStep(whole, ExtSpace(name), r0, start, at, c, cs.pos, cs.Rest());
    r := ExtendedBody(cs, name + [DOT], whole, start);
  }

  lemma SubsectionChar(name: Bytes, c: Byte)
    ensures Delta(ExtBody(name), c) ==
      if c == LF then Failed
      else if c == DQUOTE then ExtClose(name)
      else if c == BACKSLASH then ExtEscape(name)
      else ExtBody(name + [c])
    ensures Delta(ExtEscape(name), c) == if c == LF then Failed else ExtBody(name + [c])
    ensures Delta(ExtClose(name), c) == if c == RBRACKET then Top(Stem(name + [DOT], false), false) else Failed
    ensures PairOf(ExtBody(name), c) == PairOf(ExtEscape(name), c) == PairOf(ExtClose(name), c) == []
  {
  }

  /** The second loop of `get_extended_base_var`, up to the closing `"]`. */
  method ExtendedBody(cs: Source, name: Bytes, ghost whole: Item, ghost start: nat) returns (r: Option<Bytes>)
    requires cs.Valid() && start <= cs.pos && name != []
    requires Continues(whole, ExtBody(name), cs.Rest(), start, cs.pos)
    modifies cs`pos, cs`eof
    ensures cs.Valid() && old(cs.pos) <= cs.pos
    ensures if r.None? then whole.mode.Failed?
      else r.value != [] && whole == Item(Top(Stem(r.value + [DOT], false), false), cs.pos - start, [])
  {
    hide ToTop, Took, Delta, PairOf, Continues, Source.Rest;
    var sub := name;
    ghost var r0, at := cs.Rest(), cs.pos;
    while true
      invariant cs.Valid() && start <= cs.pos && old(cs.pos) <= cs.pos && sub != []
      invariant Continues(whole, ExtBody(sub), cs.Rest(), start, cs.pos)
      decreases |cs.buf| - cs.pos
    {
      r0, at := cs.Rest(), cs.pos;
      var c := cs.NextChar();
      SubsectionChar(sub, c);
      if c == LF {
        ContinuesEnd(whole, ExtBody(sub), r0, start, at, c, cs.pos, cs.Rest());
        return None;
      }
      ContinuesStep(whole, ExtBody(sub), r0, start, at, c, cs.pos, cs.Rest());
      if c == DQUOTE {
        break;
      }
      if c == BACKSLASH {
        r0, at := cs.Rest(), cs.pos;
        c := cs.NextChar();
        SubsectionChar(sub, c);
        if c == LF {
          ContinuesEnd(whole, ExtEscape(sub), r0, start, at, c, cs.pos, cs.Rest());
          return None;
        }
        ContinuesStep(whole, ExtEscape(sub), r0, start, at, c, cs.pos, cs.Rest());
      }
      sub := sub + [c];
    }
    r0, at := cs.Rest(), cs.pos;
    var c := cs.NextChar();
    SubsectionChar(sub, c);
    ContinuesEnd(whole, ExtClose(sub), r0, start, at, c, cs.pos, cs.Rest());
    if c == RBRACKET {
      return Some(sub);
    }
    return None;
  }

  lemma BaseChar(name: Bytes, c: Byte)
    ensures Delta(BaseVar(name), c) == BaseStep(name, c) && PairOf(BaseVar(name), c) == []
  {
  }

  /** `get_base_var`: the header's name, lower-cased up to the subsection. */
  method GetBaseVar(cs: Source) returns (r: Option<Bytes>)
    requires cs.Valid()
    modifies cs`pos, cs`eof, cs`subsectionCaseSensitive
    ensures cs.Valid() && old(cs.pos) <= cs.pos
    ensures var t := ToTop(BaseVar([]), old(cs.Rest()));
      if r.None? || r.value == [] then t.mode.Failed?
      else t == Item(Top(Stem(r.value + [DOT], cs.subsectionCaseSensitive), false), cs.pos - old(cs.pos), [])
  {
    hide ToTop, Took, Delta, PairOf, Continues;
    cs.subsectionCaseSensitive := true;
    var name: Bytes := [];
    ghost var start, whole := cs.pos, ToTop(BaseVar([]), cs.Rest());
    ContinuesStart(BaseVar([]), cs.Rest(), start);
    while true
      invariant cs.Valid() && start <= cs.pos && cs.subsectionCaseSensitive
      invariant Continues(whole, BaseVar(name), cs.Rest(), start, cs.pos)
      decreases |cs.buf| - cs.pos
    {
      ghost var r0, at := cs.Rest(), cs.pos;
      var c := cs.NextChar();
      BaseChar(name, c);
      if cs.eof || c == RBRACKET {
        ContinuesEnd(whole, BaseVar(name), r0, start, at, c, cs.pos, cs.Rest());
        return if cs.eof then None else Some(name);
      }
      if IsSpace(c) {
        if c == LF {
          ContinuesEnd(whole, BaseVar(name), r0, start, at, c, cs.pos, cs.Rest());
        } else {
          ContinuesStep(whole, BaseVar(name), r0, start, at, c, cs.pos, cs.Rest());
        }
        ContinuesInto(whole, ExtSpace(name), cs.Rest(), start, cs.pos, c);
        r := GetExtendedBaseVar(cs, name, c);
        return;
      }
      if !IsKeyChar(c) && c != DOT {
        ContinuesEnd(whole, BaseVar(name), r0, start, at, c, cs.pos, cs.Rest());
        return None;
      }
      ContinuesStep(whole, BaseVar(name), r0, start, at, c, cs.pos, cs.Rest());
      name := name + [Lower(c)];
    }
  }

  /** The store the callbacks fill while a file is parsed. */
  class Store {
    const query: RawQuery
    var parsed: seq<Parsed>
    var parsedNr: nat
    var seen: seq<nat>
    var seenNr: nat
    var seenTouched: bool
    var sectionSeen: bool
    var isKeysSection: bool
    var keySeen: bool
    var previousType: EventType
    var previousOffset: nat

    constructor (query: RawQuery)
      ensures Valid() && this.query == query && State() == EMPTY_STORE
    {
      this.query := query;
      parsed, parsedNr, seen, seenNr, seenTouched := [Parsed(0, 0, Eof, false)], 0, [], 0, false;
      sectionSeen, isKeysSection, keySeen, previousType, previousOffset := false, false, false, Eof, 0;
    }

    ghost predicate Valid()
      reads this
    {
      parsedNr <= |parsed|
    }

    ghost function State(): StoreState
      reads this
    {
      StoreState(parsed, parsedNr, seen, seenNr, seenTouched, sectionSeen, isKeysSection, keySeen,
                 previousType, previousOffset)
    }

    method PutSeen(v: nat)
      modifies `seen, `seenTouched
      ensures State() == ConfigScan.PutSeen(old(State()), v)
    {
      if |seen| <= seenNr {
        seen := seen + seq(seenNr + 1 - |seen|, _ => 0);
      }
      seen := seen[seenNr := v];
      seenTouched := true;
    }

    method PutSpan(e: Parsed)
      requires Valid()
      modifies `parsed
      ensures Valid() && parsed == ConfigScan.PutSpan(old(parsed), parsedNr, e)
      ensures parsedNr < |parsed| && parsed[parsedNr] == e
      ensures forall f :: ConfigScan.PutSpan(parsed, parsedNr, f) == ConfigScan.PutSpan(old(parsed), parsedNr, f)
    {
      if |parsed| <= parsedNr {
        parsed := parsed + [Parsed(0, 0, Eof, false)];
      }
      parsed := parsed[parsedNr := e];
    }

    /** What `event` does for a header besides its span. */
    method NoteHeader(stem: Stem)
      requires Valid()
      modifies `isKeysSection, `sectionSeen, `seen, `seenTouched
      ensures State() == Noted(query, old(State()), Section, stem) && isKeysSection == query.InSection(stem)
    {
      hide ConfigScan.PutSeen;
      isKeysSection := query.InSection(stem);
      if isKeysSection {
        sectionSeen := true;
        PutSeen(parsedNr);
      }
    }

    method Event(ty: EventType, begin: nat, end: nat, stem: Stem)
      requires Valid()
      modifies this
      ensures Valid() && State() == Record(query, old(State()), ty, begin, end, stem)
    {
      hide ConfigScan.PutSpan;
      PutSpan(Parsed(begin, end, ty, false));
      if ty == Section {
        NoteHeader(stem);
        PutSpan(parsed[parsedNr].(isKeysSection := isKeysSection));
      }
      parsedNr := parsedNr + 1;
    }

    /** The key/value callback. */
    method Entry(p: Pair)
      requires Valid()
      modifies this
      ensures Valid() && State() == OnPair(query, old(State()), p)
    {
      if keySeen {
        if query.Matches(p) {
          PutSeen(parsedNr);
          seenNr := seenNr + 1;
        }
      } else if isKeysSection {
        PutSeen(parsedNr);
        sectionSeen := true;
        if query.Matches(p) {
          seenNr := seenNr + 1;
          keySeen := true;
        }
      }
    }
  }

  method DoEvent(cs: Source, ty: EventType, store: Store)
    requires cs.Valid() && store.Valid() && (ty != Eof ==> cs.pos > 0)
    modifies store
    ensures store.Valid()
    ensures store.State() ==
      ConfigScan.DoEvent(store.query, old(store.State()), ty, if ty == Eof then cs.pos else cs.pos - 1, cs.Cursor())
  {
    if ty == Whitespace && store.previousType == Whitespace {
      return;
    }
    var offset := cs.pos;
    if ty != Eof {
      offset := offset - 1;
    }
    if store.previousType != Eof {
      store.Event(store.previousType, store.previousOffset, offset, cs.Cursor());
    }
    store.previousType := ty;
    store.previousOffset := offset;
  }

  /** Where the main loop of `parse_source` stands, as a mode of the automaton. */
  ghost function LoopMode(inBom: bool, bom: nat, stem: Stem, comment: bool): Mode {
    if inBom then Bom(bom) else Top(stem, comment)
  }

  /** How one character of the main loop moves the automaton and what it tells the store. */
  lemma LoopChar(q: RawQuery, s: StoreState, inBom: bool, bom: nat, stem: Stem, comment: bool, pos: nat, r: Bytes)
    requires s.parsedNr <= |s.parsed|
    requires inBom ==> bom <= 3 && stem == NO_STEM && !comment
    ensures var d := Drive(q, s, LoopMode(inBom, bom, stem, comment), pos, r);
      var c, p, rest := if r == [] then LF else CharAt(r), pos + if r == [] then 0 else CharLen(r),
        if r == [] then [] else r[CharLen(r)..];
      if inBom && bom < 3 && c == BOM[bom] then d == Drive(q, s, Bom(bom + 1), p, rest)
      else if inBom && 0 < bom < 3 then d == None
      else if r == [] then d == Some(ConfigScan.DoEvent(q, s, Eof, p, stem))
      else d == AfterChar(q, s, stem, comment, c, p, rest)
  {
    hide Drive, ConfigScan.DoEvent;
    var m := LoopMode(inBom, bom, stem, comment);
    DriveTop(q, s, m, pos, r);
    if r != [] { FailedDrive(q, s, pos + CharLen(r), r[CharLen(r)..]); }
  }

  /** The rest of the parse once `c`, read between items, has been told to the store. */
  ghost function AfterChar(q: RawQuery, s: StoreState, stem: Stem, comment: bool, c: Byte, pos: nat, rest: Bytes)
      : Option<StoreState>
    requires s.parsedNr <= |s.parsed| && pos > 0
  {
    if c == LF then Drive(q, ConfigScan.DoEvent(q, s, Whitespace, pos - 1, stem), Top(stem, false), pos, rest)
    else if comment then Drive(q, s, Top(stem, comment), pos, rest)
    else if IsSpace(c) then Drive(q, ConfigScan.DoEvent(q, s, Whitespace, pos - 1, stem), Top(stem, comment), pos, rest)
    else if c == HASH || c == SEMICOLON then
      Drive(q, ConfigScan.DoEvent(q, s, Comment, pos - 1, stem), Top(stem, true), pos, rest)
    else if c == LBRACKET then Drive(q, ConfigScan.DoEvent(q, s, Section, pos - 1, stem), BaseVar([]), pos, rest)
    else if !IsAlpha(c) then None
    else Drive(q, ConfigScan.DoEvent(q, s, Entry, pos - 1, stem), Name(stem, stem.name + [Lower(c)]), pos, rest)
  }

  lemma FailedDrive(q: RawQuery, s: StoreState, pos: nat, r: Bytes)
    requires s.parsedNr <= |s.parsed|
    ensures Drive(q, s, Failed, pos, r) == None
  {
  }

  lemma FewPairs(q: RawQuery, s: StoreState, p: Pair)
    ensures OnPairs(q, s, []) == s && OnPairs(q, s, [p]) == OnPair(q, s, p)
  {
    assert [p][1..] == [];
  }

  /** The `[` arm of `parse_source`. */
  method ReadHeader(cs: Source, ghost q: RawQuery, ghost s: StoreState) returns (ok: bool)
    requires cs.Valid() && s.parsedNr <= |s.parsed|
    modifies cs
    ensures cs.Valid() && old(cs.pos) <= cs.pos
    ensures Drive(q, s, BaseVar([]), old(cs.pos), old(cs.Rest())) ==
      if ok then Drive(q, s, Top(cs.Cursor(), false), cs.pos, cs.Rest()) else None
  {
    hide Drive, ToTop;
    ghost var r := cs.Rest();
    DriveItem(q, s, BaseVar([]), cs.pos, r);
    var v := GetBaseVar(cs);
    if v.None? || v.value == [] {
      return false;
    }
    FewPairs(q, s, Pair([], None));
    cs.stem := v.value + [DOT];
    assert r[ToTop(BaseVar([]), r).len..] == cs.Rest();
    return true;
  }

  /** The arm of `parse_source` that reads an entry whose name is `name` so far. */
  method ReadEntry(cs: Source, store: Store, name: Bytes) returns (ok: bool)
    requires cs.Valid() && store.Valid()
    modifies cs`pos, cs`eof, store
    ensures cs.Valid() && store.Valid() && old(cs.pos) <= cs.pos
    ensures Drive(store.query, old(store.State()), Name(cs.Cursor(), name), old(cs.pos), old(cs.Rest())) ==
      if ok then Drive(store.query, store.State(), Top(cs.Cursor(), false), cs.pos, cs.Rest()) else None
  {
    hide Drive, ToTop, OnPair, OnPairs;
    ghost var r, m, q, s := cs.Rest(), Name(cs.Cursor(), name), store.query, store.State();
    DriveItem(q, s, m, cs.pos, r);
    var kv := GetValue(cs, cs.Cursor(), name);
    if kv.None? {
      return false;
    }
    FewPairs(q, s, kv.value);
    store.Entry(kv.value);
    assert r[ToTop(m, r).len..] == cs.Rest();
    return true;
  }

  /** A character of the main loop behind the byte order mark, other than the end of the file. */
  method TakeChar(cs: Source, store: Store, c: Byte, comment: bool, baselen: nat)
      returns (ok: bool, comment2: bool, baselen2: nat)
    requires cs.Valid() && store.Valid() && cs.pos > 0 && baselen == |cs.stem|
    modifies cs, store
    ensures cs.Valid() && store.Valid() && old(cs.pos) <= cs.pos && baselen2 == |cs.stem|
    ensures AfterChar(store.query, old(store.State()), old(cs.Cursor()), comment, c, old(cs.pos), old(cs.Rest())) ==
      if ok then Drive(store.query, store.State(), Top(cs.Cursor(), comment2), cs.pos, cs.Rest()) else None
  {
    hide Drive, ConfigScan.DoEvent;
    ok, comment2, baselen2 := true, comment, baselen;
    if c == LF {
      DoEvent(cs, Whitespace, store);
      comment2 := false;
      return;
    }
    if comment {
      return;
    }
    if IsSpace(c) {
      DoEvent(cs, Whitespace, store);
      return;
    }
    if c == HASH || c == SEMICOLON {
      DoEvent(cs, Comment, store);
      comment2 := true;
      return;
    }
    if c == LBRACKET {
      DoEvent(cs, Section, store);
      ok := ReadHeader(cs, store.query, store.State());
      baselen2 := |cs.stem|;
      comment2 := false;
      return;
    }
    if !IsAlpha(c) {
      ok := false;
      return;
    }
    DoEvent(cs, Entry, store);
    var name := cs.stem[..if baselen < |cs.stem| then baselen else |cs.stem|] + [Lower(c)];
    assert name == cs.stem + [Lower(c)];
    ok := ReadEntry(cs, store, name);
    comment2 := false;
  }

  /** The byte order mark's share of a turn of the main loop, for a character `c` just read. */
  method TakeMark(c: Byte, inBom: bool, bom: nat) returns (ok: bool, inBom2: bool, bom2: nat, taken: bool)
    requires bom <= 3
    ensures bom2 <= 3 && ok == !(inBom && 0 < bom < 3 && c != BOM[bom])
    ensures taken == (inBom && bom < 3 && c == BOM[bom]) && (taken ==> c != LF)
    ensures ok ==> (inBom2 == taken && bom2 == if taken then bom + 1 else bom)
  {
    ok, inBom2, bom2, taken := true, inBom, bom, false;
    if inBom {
      if bom < |BOM| {
        if c == BOM[bom] {
          bom2, taken := bom + 1, true;
          return;
        }
        if bom != 0 {
          ok := false;
          return;
        }
      }
      inBom2 := false;
    }
  }

  /** What `Scan` gives is still what reading on from mode `m` gives. */
  ghost predicate Ahead(q: RawQuery, text: Bytes, s: StoreState, m: Mode, pos: nat, rest: Bytes) {
    s.parsedNr <= |s.parsed| && Scan(q, text) == Drive(q, s, m, pos, rest)
  }

  lemma AheadIs(q: RawQuery, text: Bytes, s: StoreState, m: Mode, pos: nat, rest: Bytes)
    requires s.parsedNr <= |s.parsed| && Scan(q, text) == Drive(q, s, m, pos, rest)
    ensures Ahead(q, text, s, m, pos, rest)
  {
  }

  lemma AheadAtStart(q: RawQuery, text: Bytes)
    ensures Ahead(q, text, EMPTY_STORE, LoopMode(true, 0, NO_STEM, false), 0, text)
  {
  }

  /** One turn of the main loop, which reads `c` and leaves `r2` ahead at `pos2`. */
  lemma LoopTurn(q: RawQuery, text: Bytes, s: StoreState, inBom: bool, bom: nat, stem: Stem, comment: bool, pos: nat,
      r: Bytes, c: Byte, pos2: nat, r2: Bytes)
    requires inBom ==> bom <= 3 && stem == NO_STEM && !comment
    requires Ahead(q, text, s, LoopMode(inBom, bom, stem, comment), pos, r)
    requires Took(r, c, pos, pos2, r2)
    ensures s.parsedNr <= |s.parsed|
    ensures inBom && bom < 3 && c == BOM[bom] ==> Ahead(q, text, s, LoopMode(true, bom + 1, stem, comment), pos2, r2)
    ensures inBom && 0 < bom < 3 && c != BOM[bom] ==> Scan(q, text) == None
    ensures !(inBom && bom < 3 && (bom > 0 || c == BOM[bom])) ==>
      Scan(q, text) ==
        if pos2 == pos then Some(ConfigScan.DoEvent(q, s, Eof, pos2, stem))
        else AfterChar(q, s, stem, comment, c, pos2, r2)
  {
    hide Scan, Drive, AfterChar, CharAt, CharLen, ConfigScan.DoEvent;
    LoopChar(q, s, inBom, bom, stem, comment, pos, r);
  }

  /** `parse_source`: the whole file, driving the store's callbacks; false is a bad line. */
  method ParseSource(contents: Bytes, store: Store) returns (ok: bool)
    requires store.State() == EMPTY_STORE
    modifies store
    ensures store.Valid()
    ensures ok == Scan(store.query, contents).Some?
    ensures ok ==> store.State() == Scan(store.query, contents).value
  {
    hide Scan, Drive, Took, ConfigScan.DoEvent, AfterChar, Ahead, LoopMode, Source.Rest;
    var cs := new Source(contents);
    var comment, baselen, bom, inBom, taken := false, 0, 0, true, false;
    AheadAtStart(store.query, contents);
    while true
      invariant fresh(cs) && cs.Valid() && store.Valid()
      invariant bom <= 3 && baselen == |cs.stem| && (inBom ==> cs.Cursor() == NO_STEM && !comment)
      invariant Ahead(store.query, contents, store.State(), LoopMode(inBom, bom, cs.Cursor(), comment), cs.pos,
        cs.Rest())
      decreases |cs.buf| - cs.pos
    {
      ghost var r, pos := cs.Rest(), cs.pos;
      var c := cs.NextChar();
      LoopTurn(store.query, contents, store.State(), inBom, bom, cs.Cursor(), comment, pos, r, c, cs.pos, cs.Rest());
      ok, inBom, bom, taken := TakeMark(c, inBom, bom);
      if !ok {
        return;
      }
      if taken {
        continue;
      }
      if c == LF && cs.eof {
        DoEvent(cs, Eof, store);
        return true;
      }
      ok, comment, baselen := TakeChar(cs, store, c, comment, baselen);
      if !ok {
        return;
      }
      AheadIs(store.query, contents, store.State(), Top(cs.Cursor(), comment), cs.pos, cs.Rest());
      LoopModeTop(bom, cs.Cursor(), comment);
    }
  }

  lemma LoopModeTop(bom: nat, stem: Stem, comment: bool)
    ensures LoopMode(false, bom, stem, comment) == Top(stem, comment)
  {
  }
}
