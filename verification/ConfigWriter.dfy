/**
 The two lines an edit can write, `store_create_section` and `write_pair` of
 config_store.rs, and what the grammar reads back from them.
 */
module ConfigWriter {
  import opened Bytes
  import opened ConfigGrammar
  import opened ConfigKey
  import opened Optional
  import F = ConfigFacts

  // ---- the section header -----------------------------------------------------------------

  /** A subsection's bytes with `"` and `\` escaped. */
  function Escaped(s: Bytes): Bytes {
    if s == [] then []
    else (if s[0] == DQUOTE || s[0] == BACKSLASH then [BACKSLASH, s[0]] else [s[0]]) + Escaped(s[1..])
  }

  lemma EscapedCons(c: Byte, s: Bytes)
    ensures Escaped([c] + s) == (if c == DQUOTE || c == BACKSLASH then [BACKSLASH, c] else [c]) + Escaped(s)
  {
    assert ([c] + s)[1..] == s;
  }

  lemma {:induction false} EscapedSnoc(s: Bytes, c: Byte)
    ensures Escaped(s + [c]) == Escaped(s) + Escaped([c])
  {
    hide Escaped;
    if s == [] {
      EscapedNil();
      assert s + [c] == [c] && [] + Escaped([c]) == Escaped([c]);
    } else {
      EscapedSnoc(s[1..], c);
      EscapedCons(s[0], s[1..]);
      EscapedCons(s[0], s[1..] + [c]);
      assert s == [s[0]] + s[1..] && s + [c] == [s[0]] + (s[1..] + [c]);
    }
  }

  lemma EscapedNil()
    ensures Escaped([]) == []
  {
  }

  lemma EscapedNext(base: Bytes, from: nat, i: nat)
    requires from <= i < |base|
    ensures Escaped(base[from..i + 1]) ==
      Escaped(base[from..i]) + if base[i] == DQUOTE || base[i] == BACKSLASH then [BACKSLASH, base[i]] else [base[i]]
  {
    EscapedSnoc(base[from..i], base[i]);
    assert base[from..i + 1] == base[from..i] + [base[i]];
    assert [base[i]][1..] == [];
  }

  /** `[section "sub"]` for a base with a dot, `[section]` for one without. */
  function SectionLine(base: Bytes): Bytes {
    var d := FirstDot(base);
    if d < |base| then [LBRACKET] + base[..d] + [SPACE, DQUOTE] + Escaped(base[d + 1..]) + [DQUOTE, RBRACKET, LF]
    else [LBRACKET] + base + [RBRACKET, LF]
  }

  lemma SectionLineParts(base: Bytes)
    ensures var d := FirstDot(base);
      && (d < |base| ==>
            SectionLine(base) ==
              [LBRACKET] + base[..d] + [SPACE, DQUOTE] + Escaped(base[d + 1..]) + [DQUOTE, RBRACKET, LF])
      && (d == |base| ==> SectionLine(base) == [LBRACKET] + base + [RBRACKET, LF])
  {
    hide FirstDot, Escaped;
  }

  /** The escaping loop of `store_create_section`. */
  method Escape(base: Bytes, from: nat) returns (sb: Bytes)
    requires from <= |base|
    ensures sb == Escaped(base[from..])
  {
    hide Escaped;
    sb := [];
    EscapedNil();
    assert base[from..from] == [];
    for i := from to |base|
      invariant sb == Escaped(base[from..i])
    {
      EscapedNext(base, from, i);
      if base[i] == DQUOTE || base[i] == BACKSLASH {
        sb := sb + [BACKSLASH];
      }
      sb := sb + [base[i]];
    }
    assert base[from..|base|] == base[from..];
  }

  /** `store_create_section` */
  method StoreCreateSection(key: Bytes, baselen: nat) returns (sb: Bytes)
    requires baselen <= |key|
    ensures sb == SectionLine(key[..baselen])
  {
    var base := key[..baselen];
    var d := 0;
    while d < |base| && base[d] != DOT
      invariant d <= FirstDot(base)
    {
      d := d + 1;
    }
    hide *;
    SectionLineParts(base);
    sb := [LBRACKET];
    if d < |base| {
      var sub := Escape(base, d + 1);
      sb := sb + base[..d] + [SPACE, DQUOTE] + sub + [DQUOTE, RBRACKET, LF];
    } else {
      sb := sb + base + [RBRACKET, LF];
    }
  }

  /** What a key's section may hold: key characters up to the first dot, no line end after it. */
  predicate BaseOk(base: Bytes) {
    && (forall i :: 0 <= i < FirstDot(base) ==> IsKeyChar(base[i]))
    && (forall i :: FirstDot(base) <= i < |base| ==> base[i] != LF)
    && base != []
  }

  /** The stem the header of `base` puts in force. */
  function BaseStem(base: Bytes): Stem {
    var d := FirstDot(base);
    Stem(LowerAll(base[..d]) + base[d..] + [DOT], d == |base|)
  }

  lemma {:induction false} BaseRun(name: Bytes, s: Bytes)
    requires forall i :: 0 <= i < |s| ==> IsKeyChar(s[i])
    ensures Walk(BaseVar(name), s) == BaseVar(name + LowerAll(s)) && Pairs(BaseVar(name), s) == []
    decreases |s|
  {
    hide Walk, Pairs, Delta, PairOf, IsKeyChar, LowerAll;
    if s == [] {
      F.WalkNothing(BaseVar(name));
      assert name + LowerAll(s) == name;
    } else {
      BaseByte(name, s[0]);
      BaseRun(name + [Lower(s[0])], s[1..]);
      assert s == [s[0]] + s[1..];
      KeyCharIsNoEnd(s[0]);
      Then(BaseVar(name), [s[0]], s[1..]);
      assert name + [Lower(s[0])] + LowerAll(s[1..]) == name + LowerAll(s);
    }
  }

  lemma KeyCharIsNoEnd(c: Byte)
    requires IsKeyChar(c)
    ensures c != CR && c != LF
  {
  }

  lemma BaseByte(name: Bytes, c: Byte)
    requires IsKeyChar(c)
    ensures Walk(BaseVar(name), [c]) == BaseVar(name + [Lower(c)]) && Pairs(BaseVar(name), [c]) == []
  {
    WalkOne(BaseVar(name), c);
  }

  /** `s` is read on from where a silent `p` left off. */
  lemma Then(m: Mode, p: Bytes, s: Bytes)
    requires (p == [] || p[|p| - 1] != CR || s == [] || s[0] != LF) && Pairs(m, p) == []
    ensures Walk(m, p + s) == Walk(Walk(m, p), s) && Pairs(m, p + s) == Pairs(Walk(m, p), s)
  {
    hide Delta, PairOf;
    WalkConcat(m, p, s);
    assert [] + Pairs(Walk(m, p), s) == Pairs(Walk(m, p), s);
  }

  lemma {:induction false} NoLineEnds(s: Bytes)
    requires LF !in s
    ensures LF !in Escaped(s)
  {
    if s != [] { NoLineEnds(s[1..]); }
  }

  lemma {:induction false} SubRun(name: Bytes, s: Bytes)
    requires LF !in s
    ensures Walk(ExtBody(name), Escaped(s)) == ExtBody(name + s) && Pairs(ExtBody(name), Escaped(s)) == []
    decreases |s|
  {
    hide Walk, Pairs, Delta, PairOf;
    if s == [] {
      F.WalkNothing(ExtBody(name));
      assert name + s == name;
    } else {
      var head := if s[0] == DQUOTE || s[0] == BACKSLASH then [BACKSLASH, s[0]] else [s[0]];
      SubByte(name, s[0]);
      SubRun(name + [s[0]], s[1..]);
      NoLineEnds(s[1..]);
      Then(ExtBody(name), head, Escaped(s[1..]));
      assert name + [s[0]] + s[1..] == name + s;
    }
  }

  lemma SubByte(name: Bytes, c: Byte)
    requires c != LF
    ensures var head := if c == DQUOTE || c == BACKSLASH then [BACKSLASH, c] else [c];
      Walk(ExtBody(name), head) == ExtBody(name + [c]) && Pairs(ExtBody(name), head) == []
  {
    if c == DQUOTE || c == BACKSLASH {
      WalkTwo(ExtBody(name), BACKSLASH, c);
    } else {
      WalkOne(ExtBody(name), c);
    }
  }

  lemma WalkTwo(m: Mode, a: Byte, b: Byte)
    requires a != CR || b != LF
    ensures Walk(m, [a, b]) == Delta(Delta(m, a), b)
    ensures Pairs(m, [a, b]) == PairOf(m, a) + PairOf(Delta(m, a), b)
  {
    hide Delta, PairOf;
    assert CharLen([a, b]) == 1 && CharAt([a, b]) == a && [a, b][1..] == [b];
    WalkOne(Delta(m, a), b);
  }

  lemma KeyCharsEnd(s: Bytes)
    requires forall i :: 0 <= i < |s| ==> IsKeyChar(s[i])
    ensures s != [] ==> s[|s| - 1] != CR
  {
    if s != [] { assert IsKeyChar(s[|s| - 1]); }
  }

  lemma SubHeader(m: Mode, sec: Bytes, sub: Bytes)
    requires F.Quiet(m) && (forall i :: 0 <= i < |sec| ==> IsKeyChar(sec[i])) && LF !in sub
    ensures var line := [LBRACKET] + sec + [SPACE, DQUOTE] + Escaped(sub) + [DQUOTE, RBRACKET, LF];
      && Walk(m, line) == Top(Stem(LowerAll(sec) + [DOT] + sub + [DOT], false), false)
      && Pairs(m, line) == []
  {
    hide Walk, Pairs, Delta, PairOf, Escaped, F.Quiet, IsKeyChar, LowerAll;
    KeyCharsEnd(sec);
    var low, tail := LowerAll(sec), [DQUOTE, RBRACKET, LF];
    Bracket(m);
    BaseRun([], sec);
    assert [] + low == low;
    SpaceQuote(low);
    NoLineEnds(sub);
    SubRun(low + [DOT], sub);
    HeaderTail(low + [DOT] + sub);
    var r3 := Escaped(sub) + tail;
    var r2 := [SPACE, DQUOTE] + r3;
    var r1 := sec + r2;
    Then(ExtBody(low + [DOT]), Escaped(sub), tail);
    Then(BaseVar(low), [SPACE, DQUOTE], r3);
    Then(BaseVar([]), sec, r2);
    Then(m, [LBRACKET], r1);
    assert [LBRACKET] + sec + [SPACE, DQUOTE] + Escaped(sub) + tail == [LBRACKET] + r1;
  }

  lemma PlainHeader(m: Mode, sec: Bytes)
    requires F.Quiet(m) && (forall i :: 0 <= i < |sec| ==> IsKeyChar(sec[i])) && sec != []
    ensures var line := [LBRACKET] + sec + [RBRACKET, LF];
      Walk(m, line) == Top(Stem(LowerAll(sec) + [DOT], true), false) && Pairs(m, line) == []
  {
    hide Walk, Pairs, Delta, PairOf, Escaped, F.Quiet, IsKeyChar, LowerAll;
    KeyCharsEnd(sec);
    var low := LowerAll(sec);
    Bracket(m);
    BaseRun([], sec);
    assert [] + low == low;
    BaseTail(low);
    Then(BaseVar([]), sec, [RBRACKET, LF]);
    Then(m, [LBRACKET], sec + [RBRACKET, LF]);
    assert [LBRACKET] + sec + [RBRACKET, LF] == [LBRACKET] + (sec + [RBRACKET, LF]);
  }

  /** A header written between two items puts its section in force, and delivers nothing. */
  lemma HeaderReads(m: Mode, base: Bytes)
    requires F.Quiet(m) && BaseOk(base)
    ensures Walk(m, SectionLine(base)) == Top(BaseStem(base), false)
    ensures Pairs(m, SectionLine(base)) == []
  {
    hide Walk, Pairs, Delta, PairOf, Escaped, F.Quiet;
    var d := FirstDot(base);
    if d < |base| {
      SubHeader(m, base[..d], base[d + 1..]);
      assert base[d..] == [DOT] + base[d + 1..];
      assert LowerAll(base[..d]) + [DOT] + base[d + 1..] == LowerAll(base[..d]) + base[d..];
    } else {
      PlainHeader(m, base);
      assert base[..d] == base && base[d..] == [] && LowerAll(base) + [] == LowerAll(base);
    }
  }

  lemma Bracket(m: Mode)
    requires F.Quiet(m)
    ensures Walk(m, [LBRACKET]) == BaseVar([]) && Pairs(m, [LBRACKET]) == []
  {
    WalkOne(m, LBRACKET);
  }

  lemma SpaceQuote(name: Bytes)
    ensures Walk(BaseVar(name), [SPACE, DQUOTE]) == ExtBody(name + [DOT]) && Pairs(BaseVar(name), [SPACE, DQUOTE]) == []
  {
    WalkTwo(BaseVar(name), SPACE, DQUOTE);
  }

  lemma HeaderTail(name: Bytes)
    requires name != []
    ensures Walk(ExtBody(name), [DQUOTE, RBRACKET, LF]) == Top(Stem(name + [DOT], false), false)
    ensures Pairs(ExtBody(name), [DQUOTE, RBRACKET, LF]) == []
  {
    WalkTwo(ExtBody(name), DQUOTE, RBRACKET);
    WalkOne(Top(Stem(name + [DOT], false), false), LF);
    assert [DQUOTE, RBRACKET, LF] == [DQUOTE, RBRACKET] + [LF];
    WalkConcat(ExtBody(name), [DQUOTE, RBRACKET], [LF]);
  }

  lemma BaseTail(name: Bytes)
    requires name != []
    ensures Walk(BaseVar(name), [RBRACKET, LF]) == Top(Stem(name + [DOT], true), false)
    ensures Pairs(BaseVar(name), [RBRACKET, LF]) == []
  {
    WalkTwo(BaseVar(name), RBRACKET, LF);
  }

  // ---- the `name = value` line --------------------------------------------------------------

  function EncodedByte(c: Byte): Bytes {
    if c == LF then [BACKSLASH, LOWER_N]
    else if c == TAB then [BACKSLASH, LOWER_T]
    else if c == DQUOTE || c == BACKSLASH then [BACKSLASH, c]
    else [c]
  }

  function Encoded(v: Bytes): Bytes {
    if v == [] then [] else EncodedByte(v[0]) + Encoded(v[1..])
  }

  lemma {:induction false} EncodedSnoc(v: Bytes, c: Byte)
    ensures Encoded(v + [c]) == Encoded(v) + EncodedByte(c)
  {
    if v == [] {
      assert v + [c] == [c] && [c][1..] == [];
      assert EncodedByte(c) + Encoded([]) == EncodedByte(c) && [] + EncodedByte(c) == EncodedByte(c);
    } else {
      EncodedSnoc(v[1..], c);
      assert (v + [c])[1..] == v[1..] + [c];
    }
  }

  lemma EncodedNext(v: Bytes, i: nat)
    requires i < |v|
    ensures Encoded(v[..i + 1]) == Encoded(v[..i]) + EncodedByte(v[i])
  {
    assert v[..i + 1] == v[..i] + [v[i]];
    EncodedSnoc(v[..i], v[i]);
  }

  predicate NeedsQuoteByte(c: Byte) { c == SEMICOLON || c == HASH || c == CR }

  /** Only edge spaces, comment signs and CR put the value in quotes. */
  predicate NeedsQuote(v: Bytes) {
    v != [] && (v[0] == SPACE || v[|v| - 1] == SPACE || exists i :: 0 <= i < |v| && NeedsQuoteByte(v[i]))
  }

  function Quotes(v: Bytes): Bytes { if NeedsQuote(v) then [DQUOTE] else [] }

  const EQUALS_SIGN: Bytes := [SPACE, EQUALS, SPACE]

  function Trailer(comment: Option<Bytes>): Bytes { if comment.Some? then comment.value else [] }

  function PairLine(name: Bytes, v: Bytes, comment: Option<Bytes>): Bytes {
    [TAB] + name + EQUALS_SIGN + Quotes(v) + Encoded(v) + Quotes(v) + Trailer(comment) + [LF]
  }

  /** `write_pair` */
  method WritePair(key: Bytes, baselen: nat, value: Bytes, comment: Option<Bytes>) returns (sb: Bytes)
    requires baselen < |key|
    ensures sb == PairLine(key[baselen + 1..], value, comment)
  {
    hide Encoded, EncodedByte;
    var quote: Bytes := [];
    if value != [] && value[0] == SPACE {
      quote := [DQUOTE];
    }
    for i := 0 to |value|
      invariant quote ==
        if value != [] && (value[0] == SPACE || exists j :: 0 <= j < i && NeedsQuoteByte(value[j])) then [DQUOTE]
        else []
    {
      if value[i] == SEMICOLON || value[i] == HASH || value[i] == CR {
        assert NeedsQuoteByte(value[i]);
        quote := [DQUOTE];
      }
    }
    if value != [] && value[|value| - 1] == SPACE {
      quote := [DQUOTE];
    }
    assert quote == Quotes(value);
    var head := [TAB] + key[baselen + 1..] + EQUALS_SIGN + quote;
    sb := head;
    EncodedNil();
    assert value[..0] == [];
    for i := 0 to |value|
      invariant sb == head + Encoded(value[..i])
    {
      EncodedNext(value, i);
      EncodedCases(value[i]);
      var c := value[i];
      if c == LF {
        sb := sb + [BACKSLASH, LOWER_N];
      } else if c == TAB {
        sb := sb + [BACKSLASH, LOWER_T];
      } else if c == DQUOTE || c == BACKSLASH {
        sb := sb + [BACKSLASH, c];
      } else {
        sb := sb + [c];
      }
    }
    assert value[..|value|] == value;
    sb := sb + quote;
    if comment.Some? {
      sb := sb + comment.value;
    }
    sb := sb + [LF];
  }

  lemma EncodedNil()
    ensures Encoded([]) == []
  {
  }

  lemma EncodedCases(c: Byte)
    ensures EncodedByte(c) == if c == LF then [BACKSLASH, LOWER_N] else if c == TAB then [BACKSLASH, LOWER_T]
      else if c == DQUOTE || c == BACKSLASH then [BACKSLASH, c] else [c]
  {
  }

  // ---- reading the value back ---------------------------------------------------------------

  /** The blanks `write_pair` leaves unescaped. */
  predicate RawBlank(c: Byte) { c == SPACE || c == VT || c == FF }

  /** The value reader's trim mark and buffer after `v` written without quotes. */
  function RawRead(trim: nat, acc: Bytes, v: Bytes): (nat, Bytes)
    decreases |v|
  {
    if v == [] then (trim, acc)
    else if RawBlank(v[0]) then
      RawRead(if trim == 0 then |acc| else trim, if acc == [] then acc else acc + [v[0]], v[1..])
    else RawRead(0, acc + [v[0]], v[1..])
  }

  /** What `parse_value` makes of the written form of `v`. */
  function ReadBack(v: Bytes): Bytes {
    if NeedsQuote(v) then v else Trimmed(RawRead(0, [], v).0, RawRead(0, [], v).1)
  }

  lemma EncodedStart(v: Bytes)
    ensures Encoded(v) != [] ==> Encoded(v)[0] != LF
  {
  }

  lemma QuotedByte(st: Stem, key: Bytes, acc: Bytes, c: Byte)
    ensures Walk(Value(st, key, true, false, 0, acc), EncodedByte(c)) == Value(st, key, true, false, 0, acc + [c])
    ensures Pairs(Value(st, key, true, false, 0, acc), EncodedByte(c)) == []
  {
    var m := Value(st, key, true, false, 0, acc);
    if c == LF { WalkTwo(m, BACKSLASH, LOWER_N); }
    else if c == TAB { WalkTwo(m, BACKSLASH, LOWER_T); }
    else if c == DQUOTE || c == BACKSLASH { WalkTwo(m, BACKSLASH, c); }
    else { WalkOne(m, c); }
  }

  lemma PlainByte(st: Stem, key: Bytes, trim: nat, acc: Bytes, c: Byte)
    requires !NeedsQuoteByte(c)
    ensures var m2 := if RawBlank(c)
        then Value(st, key, false, false, if trim == 0 then |acc| else trim, if acc == [] then acc else acc + [c])
        else Value(st, key, false, false, 0, acc + [c]);
      && Walk(Value(st, key, false, false, trim, acc), EncodedByte(c)) == m2
      && Pairs(Value(st, key, false, false, trim, acc), EncodedByte(c)) == []
  {
    var m := Value(st, key, false, false, trim, acc);
    if c == LF { WalkTwo(m, BACKSLASH, LOWER_N); }
    else if c == TAB { WalkTwo(m, BACKSLASH, LOWER_T); }
    else if c == DQUOTE || c == BACKSLASH { WalkTwo(m, BACKSLASH, c); }
    else { WalkOne(m, c); }
  }

  lemma {:induction false} QuotedRun(st: Stem, key: Bytes, acc: Bytes, v: Bytes)
    ensures Walk(Value(st, key, true, false, 0, acc), Encoded(v)) == Value(st, key, true, false, 0, acc + v)
    ensures Pairs(Value(st, key, true, false, 0, acc), Encoded(v)) == []
    decreases |v|
  {
    hide Walk, Pairs, Delta, PairOf, EncodedByte;
    var m := Value(st, key, true, false, 0, acc);
    if v == [] {
      F.WalkNothing(m);
      assert acc + v == acc;
    } else {
      QuotedByte(st, key, acc, v[0]);
      QuotedRun(st, key, acc + [v[0]], v[1..]);
      EncodedStart(v[1..]);
      Then(m, EncodedByte(v[0]), Encoded(v[1..]));
      assert acc + [v[0]] + v[1..] == acc + v;
    }
  }

  lemma {:induction false} PlainRun(st: Stem, key: Bytes, trim: nat, acc: Bytes, v: Bytes)
    requires forall i :: 0 <= i < |v| ==> !NeedsQuoteByte(v[i])
    ensures var t := RawRead(trim, acc, v);
      && Walk(Value(st, key, false, false, trim, acc), Encoded(v)) == Value(st, key, false, false, t.0, t.1)
      && Pairs(Value(st, key, false, false, trim, acc), Encoded(v)) == []
    decreases |v|
  {
    hide Walk, Pairs, Delta, PairOf, EncodedByte, NeedsQuoteByte;
    var m := Value(st, key, false, false, trim, acc);
    if v == [] {
      F.WalkNothing(m);
    } else {
      PlainByte(st, key, trim, acc, v[0]);
      if RawBlank(v[0]) {
        PlainRun(st, key, if trim == 0 then |acc| else trim, if acc == [] then acc else acc + [v[0]], v[1..]);
      } else {
        PlainRun(st, key, 0, acc + [v[0]], v[1..]);
      }
      EncodedStart(v[1..]);
      Then(m, EncodedByte(v[0]), Encoded(v[1..]));
    }
  }

  // ---- the comment trailer ------------------------------------------------------------------

  predicate IsBlank(c: Byte) { c == SPACE || c == TAB }

  function LeadingBlanks(s: Bytes): (k: nat)
    ensures k <= |s| && (forall i :: 0 <= i < k ==> IsBlank(s[i])) && (k < |s| ==> !IsBlank(s[k]))
  {
    if s == [] || !IsBlank(s[0]) then 0 else 1 + LeadingBlanks(s[1..])
  }

  /** Blanks, a `#`, and no line end: what may follow a value on its line. */
  predicate TrailerOk(t: Bytes) {
    var k := LeadingBlanks(t);
    0 < k < |t| && t[k] == HASH && LF !in t
  }

  predicate CommentOk(comment: Option<Bytes>) { comment.Some? ==> TrailerOk(comment.value) }

  /** `prepare_comment` of porcelain/config.rs; a comment of several lines is refused. */
  function PrepareComment(c: Bytes): (r: Option<Bytes>)
    ensures r.Some? <==> LF !in c
    ensures CommentOk(r)
  {
    if LF in c then None
    else
      var k := LeadingBlanks(c);
      var hash := k < |c| && c[k] == HASH;
      if hash && k > 0 then Some(c)
      else if hash then
        BlankThen(c);
        Some([SPACE] + c)
      else
        BlankThen([HASH, SPACE] + c);
        assert [SPACE] + ([HASH, SPACE] + c) == [SPACE, HASH, SPACE] + c;
        Some([SPACE, HASH, SPACE] + c)
  }

  lemma BlankThen(c: Bytes)
    requires c != [] && c[0] == HASH && LF !in c
    ensures TrailerOk([SPACE] + c)
  {
    BlankFirst(SPACE, c);
  }

  lemma BlankFirst(b: Byte, s: Bytes)
    requires IsBlank(b)
    ensures LeadingBlanks([b] + s) == 1 + LeadingBlanks(s)
  {
    assert ([b] + s)[1..] == s;
  }

  /** Blanks after a value never reach it. */
  lemma {:induction false} BlankRun(st: Stem, key: Bytes, trim: nat, acc: Bytes, s: Bytes)
      returns (trim2: nat, acc2: Bytes)
    requires trim <= |acc| && forall i :: 0 <= i < |s| ==> IsBlank(s[i])
    ensures Walk(Value(st, key, false, false, trim, acc), s) == Value(st, key, false, false, trim2, acc2)
    ensures Pairs(Value(st, key, false, false, trim, acc), s) == []
    ensures trim2 <= |acc2| && Trimmed(trim2, acc2) == Trimmed(trim, acc)
    decreases |s|
  {
    hide Walk, Pairs, Delta, PairOf;
    var m := Value(st, key, false, false, trim, acc);
    if s == [] {
      F.WalkNothing(m);
      trim2, acc2 := trim, acc;
    } else {
      var t1 := if trim == 0 then |acc| else trim;
      var a1 := if acc == [] then acc else acc + [s[0]];
      BlankByte(st, key, trim, acc, s[0]);
      trim2, acc2 := BlankRun(st, key, t1, a1, s[1..]);
      assert s == [s[0]] + s[1..];
      Then(m, [s[0]], s[1..]);
    }
  }

  lemma BlankByte(st: Stem, key: Bytes, trim: nat, acc: Bytes, c: Byte)
    requires IsBlank(c)
    ensures Walk(Value(st, key, false, false, trim, acc), [c]) ==
      Value(st, key, false, false, if trim == 0 then |acc| else trim, if acc == [] then acc else acc + [c])
    ensures Pairs(Value(st, key, false, false, trim, acc), [c]) == []
  {
    WalkOne(Value(st, key, false, false, trim, acc), c);
  }

  /** Nothing in a comment matters up to its line end. */
  lemma {:induction false} HashRun(st: Stem, key: Bytes, trim: nat, acc: Bytes, s: Bytes)
    requires LF !in s
    ensures var m := Value(st, key, false, true, trim, acc);
      Walk(m, s + [LF]) == Top(st, false) && Pairs(m, s + [LF]) == [Pair(key, Some(Trimmed(trim, acc)))]
    decreases |s|
  {
    var m := Value(st, key, false, true, trim, acc);
    if s == [] || (s == [CR]) {
      if s == [CR] {
        assert CharAt(s + [LF]) == LF && CharLen(s + [LF]) == 2 && (s + [LF])[2..] == [];
      } else {
        assert s + [LF] == [LF];
        WalkOne(m, LF);
      }
    } else {
      assert CharLen(s + [LF]) == 1 && CharAt(s + [LF]) == s[0] && (s + [LF])[1..] == s[1..] + [LF];
      assert Delta(m, s[0]) == m && PairOf(m, s[0]) == [];
      HashRun(st, key, trim, acc, s[1..]);
    }
  }

  lemma ValueEnds(st: Stem, key: Bytes, trim: nat, acc: Bytes)
    requires trim <= |acc|
    ensures var m := Value(st, key, false, false, trim, acc);
      Walk(m, [LF]) == Top(st, false) && Pairs(m, [LF]) == [Pair(key, Some(Trimmed(trim, acc)))]
  {
    WalkOne(Value(st, key, false, false, trim, acc), LF);
  }

  lemma HashOpens(st: Stem, key: Bytes, trim: nat, acc: Bytes)
    ensures var m := Value(st, key, false, false, trim, acc);
      Walk(m, [HASH]) == Value(st, key, false, true, trim, acc) && Pairs(m, [HASH]) == []
  {
    WalkOne(Value(st, key, false, false, trim, acc), HASH);
  }

  lemma TrailerIs(t: Bytes)
    requires TrailerOk(t)
    ensures var k := LeadingBlanks(t); 0 < k < |t| && t[k] == HASH && LF !in t && t[k - 1] != CR
  {
    hide LeadingBlanks;
    assert IsBlank(t[LeadingBlanks(t) - 1]);
  }

  lemma CutOut(t: Bytes, k: nat)
    requires 0 < k < |t|
    ensures t + [LF] == t[..k] + ([t[k]] + (t[k + 1..] + [LF])) && t[..k][k - 1] == t[k - 1]
  {
    assert t == t[..k] + [t[k]] + t[k + 1..];
  }

  lemma NoneBehind(t: Bytes, k: nat, c: Byte)
    requires k <= |t| && c !in t
    ensures c !in t[k..]
  {
  }

  lemma TrailerParts(t: Bytes)
    requires TrailerOk(t)
    ensures var k := LeadingBlanks(t);
      && 0 < k < |t| && LF !in t[k + 1..] && t + [LF] == t[..k] + ([HASH] + (t[k + 1..] + [LF]))
      && t[..k][k - 1] != CR
  {
    hide *;
    TrailerIs(t);
    CutOut(t, LeadingBlanks(t));
    NoneBehind(t, LeadingBlanks(t) + 1, LF);
  }

  lemma ValueTail(st: Stem, key: Bytes, trim: nat, acc: Bytes, comment: Option<Bytes>)
    requires trim <= |acc| && CommentOk(comment)
    ensures var m, s := Value(st, key, false, false, trim, acc), Trailer(comment) + [LF];
      Walk(m, s) == Top(st, false) && Pairs(m, s) == [Pair(key, Some(Trimmed(trim, acc)))]
  {
    hide Walk, Pairs, Delta, PairOf, TrailerOk, LeadingBlanks, Trimmed;
    var m := Value(st, key, false, false, trim, acc);
    if comment.None? {
      ValueEnds(st, key, trim, acc);
      assert [] + [LF] == [LF];
    } else {
      var t := comment.value;
      var k := LeadingBlanks(t);
      TrailerParts(t);
      var trim2, acc2 := BlankRun(st, key, trim, acc, t[..k]);
      var m2 := Value(st, key, false, false, trim2, acc2);
      HashOpens(st, key, trim2, acc2);
      HashRun(st, key, trim2, acc2, t[k + 1..]);
      Then(m2, [HASH], t[k + 1..] + [LF]);
      Then(m, t[..k], [HASH] + (t[k + 1..] + [LF]));
    }
  }

  lemma {:induction false} RawReadTrim(trim: nat, acc: Bytes, v: Bytes)
    requires trim <= |acc|
    ensures RawRead(trim, acc, v).0 <= |RawRead(trim, acc, v).1|
    decreases |v|
  {
    if v != [] {
      if RawBlank(v[0]) {
        RawReadTrim(if trim == 0 then |acc| else trim, if acc == [] then acc else acc + [v[0]], v[1..]);
      } else {
        RawReadTrim(0, acc + [v[0]], v[1..]);
      }
    }
  }

  lemma QuoteFlips(st: Stem, key: Bytes, quote: bool, acc: Bytes)
    ensures var m := Value(st, key, quote, false, 0, acc);
      Walk(m, [DQUOTE]) == Value(st, key, !quote, false, 0, acc) && Pairs(m, [DQUOTE]) == []
  {
    WalkOne(Value(st, key, quote, false, 0, acc), DQUOTE);
  }

  lemma QuotedReads(st: Stem, key: Bytes, v: Bytes, comment: Option<Bytes>)
    requires CommentOk(comment)
    ensures var m, s := Value(st, key, false, false, 0, []),
      [DQUOTE] + (Encoded(v) + ([DQUOTE] + (Trailer(comment) + [LF])));
      Walk(m, s) == Top(st, false) && Pairs(m, s) == [Pair(key, Some(v))]
  {
    hide Walk, Pairs, Delta, PairOf, Encoded, CommentOk, Trailer;
    var tail := Trailer(comment) + [LF];
    QuoteFlips(st, key, false, []);
    QuoteFlips(st, key, true, v);
    QuotedRun(st, key, [], v);
    assert [] + v == v && Trimmed(0, v) == v;
    ValueTail(st, key, 0, v, comment);
    EncodedStart(v);
    Then(Value(st, key, true, false, 0, v), [DQUOTE], tail);
    Then(Value(st, key, true, false, 0, []), Encoded(v), [DQUOTE] + tail);
    assert (Encoded(v) + ([DQUOTE] + tail))[0] != LF;
    Then(Value(st, key, false, false, 0, []), [DQUOTE], Encoded(v) + ([DQUOTE] + tail));
  }

  lemma PlainReads(st: Stem, key: Bytes, v: Bytes, comment: Option<Bytes>)
    requires CommentOk(comment) && forall i :: 0 <= i < |v| ==> !NeedsQuoteByte(v[i])
    ensures var m, s, t :=
      Value(st, key, false, false, 0, []), Encoded(v) + (Trailer(comment) + [LF]), RawRead(0, [], v);
      Walk(m, s) == Top(st, false) && Pairs(m, s) == [Pair(key, Some(Trimmed(t.0, t.1)))]
  {
    hide Walk, Pairs, Delta, PairOf, Encoded, CommentOk, Trailer, NeedsQuoteByte;
    var t := RawRead(0, [], v);
    PlainRun(st, key, 0, [], v);
    RawReadTrim(0, [], v);
    ValueTail(st, key, t.0, t.1, comment);
    NoCrEnd(v);
    Then(Value(st, key, false, false, 0, []), Encoded(v), Trailer(comment) + [LF]);
  }

  /** From the blank after `=` to the end of the line. */
  lemma ValueReads(st: Stem, key: Bytes, v: Bytes, comment: Option<Bytes>)
    requires CommentOk(comment)
    ensures var m, s := Value(st, key, false, false, 0, []),
      Quotes(v) + Encoded(v) + Quotes(v) + Trailer(comment) + [LF];
      Walk(m, s) == Top(st, false) && Pairs(m, s) == [Pair(key, Some(ReadBack(v)))]
  {
    hide Walk, Pairs, Encoded, CommentOk, Trailer;
    var tail := Trailer(comment) + [LF];
    if NeedsQuote(v) {
      QuotedReads(st, key, v, comment);
      assert [DQUOTE] + Encoded(v) + [DQUOTE] + Trailer(comment) + [LF] == [DQUOTE] + (Encoded(v) + ([DQUOTE] + tail));
    } else {
      PlainReads(st, key, v, comment);
      assert [] + Encoded(v) + [] + Trailer(comment) + [LF] == Encoded(v) + tail;
    }
  }

  lemma {:induction false} NoCrEnd(v: Bytes)
    requires forall i :: 0 <= i < |v| ==> !NeedsQuoteByte(v[i])
    ensures Encoded(v) != [] ==> Encoded(v)[|Encoded(v)| - 1] != CR
  {
    if v != [] {
      NoCrEnd(v[1..]);
      assert !NeedsQuoteByte(v[0]);
    }
  }

  // ---- the whole line -----------------------------------------------------------------------

  /** A variable name: a letter, then key characters. */
  predicate NameOk(name: Bytes) {
    name != [] && IsAlpha(name[0]) && forall i :: 0 <= i < |name| ==> IsKeyChar(name[i])
  }

  lemma NameByte(st: Stem, key: Bytes, c: Byte)
    requires IsKeyChar(c)
    ensures Walk(Name(st, key), [c]) == Name(st, key + [Lower(c)]) && Pairs(Name(st, key), [c]) == [] && c != CR
  {
    WalkOne(Name(st, key), c);
  }

  lemma {:induction false} NameRun(st: Stem, key: Bytes, s: Bytes)
    requires forall i :: 0 <= i < |s| ==> IsKeyChar(s[i])
    ensures Walk(Name(st, key), s) == Name(st, key + LowerAll(s)) && Pairs(Name(st, key), s) == []
    decreases |s|
  {
    hide Walk, Pairs, IsKeyChar, Lower, LowerAll;
    if s == [] {
      F.WalkNothing(Name(st, key));
      assert key + LowerAll(s) == key;
    } else {
      LowerCons(s);
      NameByte(st, key, s[0]);
      NameRun(st, key + [Lower(s[0])], s[1..]);
      Then(Name(st, key), [s[0]], s[1..]);
      assert [s[0]] + s[1..] == s;
      assert key + [Lower(s[0])] + LowerAll(s[1..]) == key + ([Lower(s[0])] + LowerAll(s[1..]));
    }
  }

  lemma LowerCons(s: Bytes)
    requires s != []
    ensures LowerAll(s) == [Lower(s[0])] + LowerAll(s[1..])
  {
  }

  lemma TabThenLetter(m: Mode, c: Byte)
    requires F.Quiet(m) && IsAlpha(c)
    ensures var st := AsTop(m).stem;
      Walk(m, [TAB, c]) == Name(st, st.name + [Lower(c)]) && Pairs(m, [TAB, c]) == []
  {
    WalkTwo(m, TAB, c);
  }

  lemma EqualsReads(st: Stem, key: Bytes)
    ensures Walk(Name(st, key), EQUALS_SIGN) == Value(st, key, false, false, 0, [])
    ensures Pairs(Name(st, key), EQUALS_SIGN) == []
  {
    EqualsOpens(st, key);
    FirstBlank(st, key);
    hide Walk, Pairs, Delta, PairOf;
    Then(Name(st, key), [SPACE, EQUALS], [SPACE]);
    assert EQUALS_SIGN == [SPACE, EQUALS] + [SPACE];
  }

  lemma EqualsOpens(st: Stem, key: Bytes)
    ensures Walk(Name(st, key), [SPACE, EQUALS]) == Value(st, key, false, false, 0, [])
    ensures Pairs(Name(st, key), [SPACE, EQUALS]) == []
  {
    WalkTwo(Name(st, key), SPACE, EQUALS);
  }

  lemma FirstBlank(st: Stem, key: Bytes)
    ensures var m := Value(st, key, false, false, 0, []); Walk(m, [SPACE]) == m && Pairs(m, [SPACE]) == []
  {
    WalkOne(Value(st, key, false, false, 0, []), SPACE);
  }

  lemma NameParts(name: Bytes)
    requires NameOk(name)
    ensures IsAlpha(name[0]) && (forall i :: 0 <= i < |name[1..]| ==> IsKeyChar(name[1..][i]))
    ensures name[0] != CR && (name[1..] != [] ==> name[1..][|name[1..]| - 1] != CR && name[1..][0] != LF)
    ensures LowerAll(name) == [Lower(name[0])] + LowerAll(name[1..])
  {
    KeyCharsEnd(name[1..]);
    if |name| > 1 { assert IsKeyChar(name[1]); }
  }

  /** A name that has been begun, its value and its line end. */
  lemma RestOfPair(st: Stem, key: Bytes, rest: Bytes, line: Bytes, p: Pair)
    requires (forall i :: 0 <= i < |rest| ==> IsKeyChar(rest[i])) && (rest != [] ==> rest[|rest| - 1] != CR)
    requires var m := Value(st, key + LowerAll(rest), false, false, 0, []);
      Walk(m, line) == Top(st, false) && Pairs(m, line) == [p]
    ensures var s := rest + (EQUALS_SIGN + line);
      Walk(Name(st, key), s) == Top(st, false) && Pairs(Name(st, key), s) == [p]
  {
    hide Walk, Pairs, IsKeyChar, LowerAll;
    NameRun(st, key, rest);
    EqualsReads(st, key + LowerAll(rest));
    Then(Name(st, key + LowerAll(rest)), EQUALS_SIGN, line);
    Then(Name(st, key), rest, EQUALS_SIGN + line);
  }

  /** The written line, read between two items, is one pair under the section in force. */
  lemma PairReads(m: Mode, name: Bytes, v: Bytes, comment: Option<Bytes>)
    requires F.Quiet(m) && NameOk(name) && CommentOk(comment)
    ensures var st := AsTop(m).stem;
      && Walk(m, PairLine(name, v, comment)) == Top(st, false)
      && Pairs(m, PairLine(name, v, comment)) == [Pair(st.name + LowerAll(name), Some(ReadBack(v)))]
  {
    hide Walk, Pairs, Encoded, Quotes, ReadBack, CommentOk, Trailer, LowerAll, IsKeyChar, NameOk;
    NameParts(name);
    var st, rest := AsTop(m).stem, name[1..];
    var key := st.name + [Lower(name[0])];
    assert key + LowerAll(rest) == st.name + LowerAll(name);
    TabThenLetter(m, name[0]);
    ValueReads(st, key + LowerAll(rest), v, comment);
    var line := Quotes(v) + Encoded(v) + Quotes(v) + Trailer(comment) + [LF];
    RestOfPair(st, key, rest, line, Pair(st.name + LowerAll(name), Some(ReadBack(v))));
    Then(m, [TAB, name[0]], rest + (EQUALS_SIGN + line));
    PairLineParts(name, v, comment);
  }

  lemma PairLineParts(name: Bytes, v: Bytes, comment: Option<Bytes>)
    requires name != []
    ensures PairLine(name, v, comment) == [TAB, name[0]] +
      (name[1..] + (EQUALS_SIGN + (Quotes(v) + Encoded(v) + Quotes(v) + Trailer(comment) + [LF])))
  {
    hide Encoded, Quotes, Trailer;
    assert [TAB] + name == [TAB, name[0]] + name[1..];
  }

  // ---- which values survive -------------------------------------------------------------------

  lemma {:induction false} RawReadAll(trim: nat, acc: Bytes, v: Bytes)
    requires acc != []
    ensures RawRead(trim, acc, v).1 == acc + v
    ensures v != [] && !RawBlank(v[|v| - 1]) ==> RawRead(trim, acc, v).0 == 0
    ensures v != [] && RawBlank(v[|v| - 1]) ==> 0 < RawRead(trim, acc, v).0
    ensures v == [] ==> RawRead(trim, acc, v).0 == trim
    ensures trim < |acc| ==> RawRead(trim, acc, v).0 < |acc + v|
    decreases |v|
  {
    if v == [] {
      assert acc + v == acc;
    } else {
      var t1 := if trim == 0 then |acc| else trim;
      assert acc + [v[0]] + v[1..] == acc + v;
      if RawBlank(v[0]) { RawReadAll(t1, acc + [v[0]], v[1..]); } else { RawReadAll(0, acc + [v[0]], v[1..]); }
    }
  }

  lemma {:induction false} RawReadShort(trim: nat, acc: Bytes, v: Bytes)
    ensures |RawRead(trim, acc, v).1| <= |acc| + |v|
    decreases |v|
  {
    if v != [] {
      if RawBlank(v[0]) {
        RawReadShort(if trim == 0 then |acc| else trim, if acc == [] then acc else acc + [v[0]], v[1..]);
      } else {
        RawReadShort(0, acc + [v[0]], v[1..]);
      }
    }
  }

  predicate EdgeBlank(c: Byte) { c == VT || c == FF }

  /** The bytes a value may not begin or end with unless it is quoted for another reason. */
  predicate Survives(v: Bytes) {
    NeedsQuote(v) || v == [] || (!EdgeBlank(v[0]) && !EdgeBlank(v[|v| - 1]))
  }

  /** Exactly the values that are not edged by an unquoted VT or FF come back byte for byte. */
  lemma ReadBackExact(v: Bytes)
    ensures ReadBack(v) == v <==> Survives(v)
  {
    if !NeedsQuote(v) && v != [] {
      var first, rest := v[0], v[1..];
      if RawBlank(first) {
        RawReadShort(0, [], rest);
      } else {
        RawReadAll(0, [first], rest);
        assert [first] + rest == v;
        assert [] + [first] == [first];
        if rest != [] { assert v[|v| - 1] == rest[|rest| - 1]; }
      }
    }
  }
}
