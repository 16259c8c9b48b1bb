/**
 The configuration grammar as an automaton fed one character at a time.

 The tokenizer in config_store.rs pulls characters through nested loops.  This module
 states the same language as a transition function, so that "parse the text p + s" is
 "parse p, then parse s from where p left off".  ConfigSource proves that the pulling
 tokenizer computes exactly this.
 */
module ConfigGrammar {
  import opened Bytes
  import opened Optional

  /** One delivered `(key, value)`; a key without `=` has no value. */
  datatype Pair = Pair(key: Bytes, value: Option<Bytes>)

  datatype EventType = Section | Entry | Whitespace | Comment | Eof

  /** `cs->var` with the flag the last header set: how it is compared to a key's section. */
  datatype Stem = Stem(name: Bytes, ignoreCase: bool)

  const NO_STEM: Stem := Stem([], true)

  const BOM: Bytes := [0xEF, 0xBB, 0xBF]

  datatype Mode =
    | Bom(matched: nat)
    | Top(stem: Stem, comment: bool)
    | BaseVar(name: Bytes)
    | ExtSpace(name: Bytes)
    | ExtBody(name: Bytes)
    | ExtEscape(name: Bytes)
    | ExtClose(name: Bytes)
    | Name(stem: Stem, key: Bytes)
    | NameSpace(stem: Stem, key: Bytes)
    | Value(stem: Stem, key: Bytes, quote: bool, hash: bool, trim: nat, acc: Bytes)
    | ValueEscape(stem: Stem, key: Bytes, quote: bool, acc: Bytes)
    | Failed

  const INIT: Mode := Bom(0)

  /** Between two items: nothing but blanks, comments, headers and entries lie before. */
  predicate TopLike(m: Mode) { m.Top? || (m.Bom? && (m.matched == 0 || m.matched >= 3)) }

  /** The byte-order mark, absent or complete, leaves no trace. */
  function AsTop(m: Mode): (t: Mode)
    requires TopLike(m)
    ensures t.Top?
  {
    if m.Top? then m else Top(NO_STEM, false)
  }

  function TopStep(stem: Stem, comment: bool, c: Byte): Mode {
    if c == LF then Top(stem, false)
    else if comment || IsSpace(c) then Top(stem, comment)
    else if c == HASH || c == SEMICOLON then Top(stem, true)
    else if c == LBRACKET then BaseVar([])
    else if !IsAlpha(c) then Failed
    else Name(stem, stem.name + [Lower(c)])
  }

  function BaseStep(name: Bytes, c: Byte): Mode {
    if c == RBRACKET then (if name == [] then Failed else Top(Stem(name + [DOT], true), false))
    else if IsSpace(c) then (if c == LF then Failed else ExtSpace(name))
    else if !IsKeyChar(c) && c != DOT then Failed
    else BaseVar(name + [Lower(c)])
  }

  function NameTail(stem: Stem, key: Bytes, c: Byte): Mode {
    if c == SPACE || c == TAB then NameSpace(stem, key)
    else if c == LF then Top(stem, false)
    else if c == EQUALS then Value(stem, key, false, false, 0, [])
    else Failed
  }

  function ValueStep(stem: Stem, key: Bytes, quote: bool, hash: bool, trim: nat, acc: Bytes, c: Byte): Mode {
    if c == LF then (if quote then Failed else Top(stem, false))
    else if hash then Value(stem, key, quote, hash, trim, acc)
    else if IsSpace(c) && !quote then
      Value(stem, key, quote, hash, if trim == 0 then |acc| else trim, if acc == [] then acc else acc + [c])
    else if !quote && (c == SEMICOLON || c == HASH) then Value(stem, key, quote, true, trim, acc)
    else if c == BACKSLASH then ValueEscape(stem, key, quote, acc)
    else if c == DQUOTE then Value(stem, key, !quote, hash, 0, acc)
    else Value(stem, key, quote, hash, 0, acc + [c])
  }

  function EscapeStep(stem: Stem, key: Bytes, quote: bool, acc: Bytes, c: Byte): Mode {
    if c == LF then Value(stem, key, quote, false, 0, acc)
    else if c == LOWER_T then Value(stem, key, quote, false, 0, acc + [TAB])
    else if c == LOWER_B then Value(stem, key, quote, false, 0, acc + [BS])
    else if c == LOWER_N then Value(stem, key, quote, false, 0, acc + [LF])
    else if c == BACKSLASH || c == DQUOTE then Value(stem, key, quote, false, 0, acc + [c])
    else Failed
  }

  function Delta(m: Mode, c: Byte): Mode {
    match m
    case Bom(k) =>
      if k < 3 && c == BOM[k] then Bom(k + 1)
      else if k == 0 || k >= 3 then TopStep(NO_STEM, false, c)
      else Failed
    case Top(stem, comment) => TopStep(stem, comment, c)
    case BaseVar(name) => BaseStep(name, c)
    case ExtSpace(name) =>
      if IsSpace(c) then (if c == LF then Failed else m)
      else if c == DQUOTE then ExtBody(name + [DOT])
      else Failed
    case ExtBody(name) =>
      if c == LF then Failed
      else if c == DQUOTE then ExtClose(name)
      else if c == BACKSLASH then ExtEscape(name)
      else ExtBody(name + [c])
    case ExtEscape(name) => if c == LF then Failed else ExtBody(name + [c])
    case ExtClose(name) => if c == RBRACKET then Top(Stem(name + [DOT], false), false) else Failed
    case Name(stem, key) => if IsKeyChar(c) then Name(stem, key + [Lower(c)]) else NameTail(stem, key, c)
    case NameSpace(stem, key) => NameTail(stem, key, c)
    case Value(stem, key, quote, hash, trim, acc) => ValueStep(stem, key, quote, hash, trim, acc, c)
    case ValueEscape(stem, key, quote, acc) => EscapeStep(stem, key, quote, acc, c)
    case Failed => Failed
  }

  function Trimmed(trim: nat, acc: Bytes): Bytes {
    if 0 < trim <= |acc| then acc[..trim] else acc
  }

  /** The pair, if any, that character `c` completes. */
  function PairOf(m: Mode, c: Byte): seq<Pair> {
    if c != LF then []
    else match m
      case Name(_, key) => [Pair(key, None)]
      case NameSpace(_, key) => [Pair(key, None)]
      case Value(_, key, quote, _, trim, acc) => if quote then [] else [Pair(key, Some(Trimmed(trim, acc)))]
      case _ => []
  }

  /** The event, if any, that character `c` opens.  Only characters read between items open one. */
  function EventOf(m: Mode, c: Byte): Option<EventType> {
    if !TopLike(m) || Delta(m, c).Bom? then None
    else
      var t := AsTop(m);
      if c == LF then Some(Whitespace)
      else if t.comment then None
      else if IsSpace(c) then Some(Whitespace)
      else if c == HASH || c == SEMICOLON then Some(Comment)
      else if c == LBRACKET then Some(Section)
      else if IsAlpha(c) then Some(Entry)
      else None
  }

  // ---- characters: CR LF reads as LF ------------------------------------------------

  function CharLen(r: Bytes): (n: nat)
    requires r != []
    ensures 1 <= n <= |r|
  {
    if r[0] == CR && |r| >= 2 && r[1] == LF then 2 else 1
  }

  function CharAt(r: Bytes): Byte
    requires r != []
  {
    if CharLen(r) == 2 then LF else r[0]
  }

  /** Where the automaton stands after the whole of `r`. */
  function Walk(m: Mode, r: Bytes): Mode
    decreases |r|
  {
    if r == [] then m else Walk(Delta(m, CharAt(r)), r[CharLen(r)..])
  }

  /** The pairs completed inside `r`. */
  function Pairs(m: Mode, r: Bytes): seq<Pair>
    decreases |r|
  {
    if r == [] then []
    else PairOf(m, CharAt(r)) + Pairs(Delta(m, CharAt(r)), r[CharLen(r)..])
  }

  /**
   What the end of the text makes of mode `m`: it reads as one more LF, and as another
   after an escape.  `None` is a parse error.
   */
  function Finish(m: Mode): Option<seq<Pair>> {
    var m1 := Delta(m, LF);
    if m1.Top? then Some(PairOf(m, LF))
    else if m1.Value? && Delta(m1, LF).Top? then Some(PairOf(m1, LF))
    else if m.Bom? && m.matched >= 3 then Some([])
    else None
  }

  /** All pairs of a text read from mode `m`; `None` when the text does not parse. */
  function EntriesFrom(m: Mode, r: Bytes): Option<seq<Pair>> {
    match Finish(Walk(m, r))
    case None => None
    case Some(last) => Some(Pairs(m, r) + last)
  }

  /** What a configuration file means. */
  function Entries(text: Bytes): Option<seq<Pair>> { EntriesFrom(INIT, text) }

  function Prefixed(ps: seq<Pair>, rest: Option<seq<Pair>>): Option<seq<Pair>> {
    match rest
    case None => None
    case Some(qs) => Some(ps + qs)
  }

  // ---- composition -------------------------------------------------------------------

  lemma WalkFailed(r: Bytes)
    ensures Walk(Failed, r) == Failed && Pairs(Failed, r) == []
    decreases |r|
  {
    if r != [] { WalkFailed(r[CharLen(r)..]); }
  }

  lemma CharsOfConcat(p: Bytes, s: Bytes)
    requires p != []
    requires |p| > 1 || p[0] != CR || s == [] || s[0] != LF
    ensures CharLen(p + s) == CharLen(p) && CharAt(p + s) == CharAt(p)
    ensures (p + s)[CharLen(p)..] == p[CharLen(p)..] + s
  {
  }

  /** Feeding `p + s` is feeding `p`, then `s`, unless the seam cuts a CR LF in two. */
  lemma {:induction false} WalkConcat(m: Mode, p: Bytes, s: Bytes)
    requires p == [] || p[|p| - 1] != CR || s == [] || s[0] != LF
    ensures Walk(m, p + s) == Walk(Walk(m, p), s)
    ensures Pairs(m, p + s) == Pairs(m, p) + Pairs(Walk(m, p), s)
    decreases |p|
  {
    hide Delta, PairOf;
    if p == [] {
      assert p + s == s;
    } else {
      var m1, rest := Delta(m, CharAt(p)), p[CharLen(p)..];
      CharsOfConcat(p, s);
      WalkConcat(m1, rest, s);
      assert Walk(m, p + s) == Walk(m1, rest + s);
      assert Pairs(m, p + s) == PairOf(m, CharAt(p)) + Pairs(m1, rest + s);
      assert Walk(m, p) == Walk(m1, rest);
      assert Pairs(m, p) == PairOf(m, CharAt(p)) + Pairs(m1, rest);
    }
  }

  /** A lone CR that ends between items was read as a blank there. */
  lemma CrKeepsTop(m: Mode)
    requires TopLike(Delta(m, CR))
    ensures TopLike(m) && Delta(m, CR) == AsTop(m) && PairOf(m, CR) == []
    ensures Delta(m, LF) == Top(AsTop(m).stem, false) == Delta(Delta(m, CR), LF)
    ensures PairOf(m, LF) == [] == PairOf(Delta(m, CR), LF)
  {
  }

  /** A CR LF cut in two between items reads as a blank and a line end. */
  lemma SplitCrLf(k: Mode, s: Bytes)
    requires TopLike(Walk(k, [CR])) && s != [] && s[0] == LF
    ensures Walk(k, [CR] + s) == Walk(Walk(k, [CR]), s)
    ensures Pairs(k, [CR]) == [] && Pairs(k, [CR] + s) == Pairs(Walk(k, [CR]), s)
  {
    WalkOne(k, CR);
    CrKeepsTop(k);
    assert ([CR] + s)[2..] == s[1..];
    assert CharAt([CR] + s) == LF == CharAt(s) && CharLen(s) == 1;
  }

  /** Between items the seam may fall anywhere, even inside a CR LF. */
  lemma {:induction false} WalkConcatTop(m: Mode, p: Bytes, s: Bytes)
    requires TopLike(Walk(m, p))
    ensures Walk(m, p + s) == Walk(Walk(m, p), s)
    ensures Pairs(m, p + s) == Pairs(m, p) + Pairs(Walk(m, p), s)
  {
    hide Delta, PairOf;
    if p == [] || p[|p| - 1] != CR || s == [] || s[0] != LF {
      WalkConcat(m, p, s);
    } else {
      var q := p[..|p| - 1];
      var k, tail := Walk(m, q), [CR] + s;
      assert p == q + [CR] && p + s == q + tail;
      assert Walk(m, p) == Walk(k, [CR]) && Pairs(m, p) == Pairs(m, q) + Pairs(k, [CR]) by {
        WalkConcat(m, q, [CR]);
      }
      assert Walk(m, p + s) == Walk(k, tail) && Pairs(m, p + s) == Pairs(m, q) + Pairs(k, tail) by {
        WalkConcat(m, q, tail);
      }
      SplitCrLf(k, s);
    }
  }

  lemma EntriesConcatTop(m: Mode, p: Bytes, s: Bytes)
    requires TopLike(Walk(m, p))
    ensures EntriesFrom(m, p + s) == Prefixed(Pairs(m, p), EntriesFrom(Walk(m, p), s))
  {
    WalkConcatTop(m, p, s);
    match Finish(Walk(m, p + s))
    case None =>
    case Some(last) => assert Pairs(m, p) + Pairs(Walk(m, p), s) + last == Pairs(m, p) + (Pairs(Walk(m, p), s) + last);
  }

  lemma WalkOne(m: Mode, c: Byte)
    ensures Walk(m, [c]) == Delta(m, c) && Pairs(m, [c]) == PairOf(m, c)
  {
    assert CharLen([c]) == 1 && CharAt([c]) == c && [c][1..] == [];
    assert Walk(Delta(m, c), []) == Delta(m, c);
  }
}
