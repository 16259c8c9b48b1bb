/**
 `split_cmdline` of alias.rs: word splitting with quotes and backslashes, and the ways of
 writing words down that it undoes.
 */
module SplitCmdline {
  import opened Bytes

  datatype Split = Words(words: seq<Bytes>) | BadEnding | UnclosedQuote

  /** `u8::is_ascii_whitespace`, which leaves out the vertical tab. */
  predicate IsBlank(c: Byte) { c == SPACE || c == TAB || c == LF || c == FF || c == CR }

  /** The bytes of `s` behind its leading blanks. */
  function SkipBlanks(s: Bytes): (r: Bytes)
    ensures |r| <= |s|
  {
    if s != [] && IsBlank(s[0]) then SkipBlanks(s[1..]) else s
  }

  /** The rest of the scan, with `quoted` the quote that is open or 0. */
  function Scan(s: Bytes, quoted: Byte, cur: Bytes, tokens: seq<Bytes>): Split
    decreases |s|
  {
    if s == [] then
      if quoted != NUL then UnclosedQuote else Words(tokens + [cur])
    else if quoted == NUL && IsBlank(s[0]) then Scan(SkipBlanks(s[1..]), quoted, [], tokens + [cur])
    else if quoted == NUL && (s[0] == SQUOTE || s[0] == DQUOTE) then Scan(s[1..], s[0], cur, tokens)
    else if s[0] == quoted then Scan(s[1..], NUL, cur, tokens)
    else if s[0] == BACKSLASH && quoted != SQUOTE then
      if |s| == 1 then BadEnding else Scan(s[2..], quoted, cur + [s[1]], tokens)
    else Scan(s[1..], quoted, cur + [s[0]], tokens)
  }

  /** What the scan makes of the byte at `src`. */
  lemma ScanAt(bytes: Bytes, src: nat, quoted: Byte, cur: Bytes, tokens: seq<Bytes>)
    requires src <= |bytes|
    ensures src == |bytes| ==>
      Scan(bytes[src..], quoted, cur, tokens) == if quoted != NUL then UnclosedQuote else Words(tokens + [cur])
    ensures src < |bytes| ==> (
      var c, rest := bytes[src], bytes[src + 1..];
      Scan(bytes[src..], quoted, cur, tokens) ==
        if quoted == NUL && IsBlank(c) then Scan(SkipBlanks(rest), NUL, [], tokens + [cur])
        else if quoted == NUL && (c == SQUOTE || c == DQUOTE) then Scan(rest, c, cur, tokens)
        else if c == quoted then Scan(rest, NUL, cur, tokens)
        else if c == BACKSLASH && quoted != SQUOTE then
          if src + 1 == |bytes| then BadEnding else Scan(bytes[src + 2..], quoted, cur + [bytes[src + 1]], tokens)
        else Scan(rest, quoted, cur + [c], tokens))
  {
    hide SkipBlanks, IsBlank;
    if src < |bytes| {
      assert bytes[src..][0] == bytes[src] && bytes[src..][1..] == bytes[src + 1..];
      if src + 1 < |bytes| {
        assert bytes[src..][1] == bytes[src + 1] && bytes[src..][2..] == bytes[src + 2..];
      }
    }
  }

  lemma SkipAt(bytes: Bytes, src: nat)
    requires src <= |bytes|
    ensures SkipBlanks(bytes[src..]) ==
      if src < |bytes| && IsBlank(bytes[src]) then SkipBlanks(bytes[src + 1..]) else bytes[src..]
  {
    hide IsBlank;
    if src < |bytes| { assert bytes[src..][1..] == bytes[src + 1..]; }
  }

  /** `split_cmdline` */
  method SplitLine(bytes: Bytes) returns (r: Split)
    ensures r == Scan(bytes, NUL, [], [])
  {
    hide Scan, SkipBlanks, IsBlank;
    var tokens: seq<Bytes>, cur: Bytes, quoted: Byte, src := [], [], NUL, 0;
    assert bytes[0..] == bytes;
    while src < |bytes|
      invariant src <= |bytes| && Scan(bytes[src..], quoted, cur, tokens) == Scan(bytes, NUL, [], [])
    {
      ScanAt(bytes, src, quoted, cur, tokens);
      var c := bytes[src];
      if quoted == NUL && IsBlank(c) {
        ghost var blanks := src + 1;
        tokens := tokens + [cur];
        cur := [];
        src := src + 1;
        while src < |bytes| && IsBlank(bytes[src])
          invariant blanks <= src <= |bytes| && SkipBlanks(bytes[src..]) == SkipBlanks(bytes[blanks..])
        {
          SkipAt(bytes, src);
          src := src + 1;
        }
        SkipAt(bytes, src);
      } else if quoted == NUL && (c == SQUOTE || c == DQUOTE) {
        quoted := c;
        src := src + 1;
      } else if c == quoted {
        quoted := NUL;
        src := src + 1;
      } else {
        var ch := c;
        if c == BACKSLASH && quoted != SQUOTE {
          src := src + 1;
          if src >= |bytes| { return BadEnding; }
          ch := bytes[src];
        }
        cur := cur + [ch];
        src := src + 1;
      }
    }
    ScanAt(bytes, src, quoted, cur, tokens);
    if quoted != NUL { return UnclosedQuote; }
    return Words(tokens + [cur]);
  }

  // ---- which lines are refused ------------------------------------------------------------

  /** Where the quoting stands after a prefix: the open quote, and whether a backslash waits for its byte. */
  datatype Quoting = Quoting(open: Byte, escaping: bool)

  function Quote(q: Quoting, c: Byte): Quoting {
    if q.escaping then q.(escaping := false)
    else if c == BACKSLASH && q.open != SQUOTE then q.(escaping := true)
    else if q.open == NUL then (if c == SQUOTE || c == DQUOTE then Quoting(c, false) else q)
    else if c == q.open then Quoting(NUL, false)
    else q
  }

  function QuotingAfter(q: Quoting, s: Bytes): Quoting
    decreases |s|
  {
    if s == [] then q else QuotingAfter(Quote(q, s[0]), s[1..])
  }

  lemma {:induction false} SkipKeepsQuoting(s: Bytes)
    ensures QuotingAfter(Quoting(NUL, false), SkipBlanks(s)) == QuotingAfter(Quoting(NUL, false), s)
  {
    if s != [] && IsBlank(s[0]) { SkipKeepsQuoting(s[1..]); }
  }

  lemma {:induction false} ScanQuoting(s: Bytes, quoted: Byte, cur: Bytes, tokens: seq<Bytes>)
    requires quoted == NUL || quoted == SQUOTE || quoted == DQUOTE
    ensures var q := QuotingAfter(Quoting(quoted, false), s); var r := Scan(s, quoted, cur, tokens);
      && (r == BadEnding <==> q.escaping)
      && (r == UnclosedQuote <==> !q.escaping && q.open != NUL)
    decreases |s|
  {
    if s == [] {
    } else if quoted == NUL && IsBlank(s[0]) {
      SkipKeepsQuoting(s[1..]);
      ScanQuoting(SkipBlanks(s[1..]), quoted, [], tokens + [cur]);
    } else if quoted == NUL && (s[0] == SQUOTE || s[0] == DQUOTE) {
      ScanQuoting(s[1..], s[0], cur, tokens);
    } else if s[0] == quoted {
      ScanQuoting(s[1..], NUL, cur, tokens);
    } else if s[0] == BACKSLASH && quoted != SQUOTE {
      if |s| > 1 {
        assert s[1..][1..] == s[2..];
        ScanQuoting(s[2..], quoted, cur + [s[1]], tokens);
      } else {
        assert s[1..] == [];
      }
    } else {
      ScanQuoting(s[1..], quoted, cur + [s[0]], tokens);
    }
  }

  /**
   A line is refused exactly when a backslash outside single quotes has nothing behind it, or else a quote is left
   open.
   */
  lemma RefusedLines(s: Bytes)
    ensures var q := QuotingAfter(Quoting(NUL, false), s); var r := Scan(s, NUL, [], []);
      && (r == BadEnding <==> q.escaping)
      && (r == UnclosedQuote <==> !q.escaping && q.open != NUL)
  {
    ScanQuoting(s, NUL, [], []);
  }

  // ---- what it inverts --------------------------------------------------------------------

  /** A stretch of a word, and how it is written. */
  datatype Piece =
    | Single(bytes: Bytes)   // '...'
    | Double(bytes: Bytes)   // "...", with `"` and `\` escaped
    | Slashed(bytes: Bytes)  // a backslash before every byte
    | Bare(bytes: Bytes)     // as it is

  predicate PlainByte(c: Byte) { !IsBlank(c) && c != SQUOTE && c != DQUOTE && c != BACKSLASH && c != NUL }

  /** The bytes can be written that way. */
  predicate Writable(p: Piece) {
    match p
    case Single(b) => SQUOTE !in b
    case Bare(b) => forall i :: 0 <= i < |b| ==> PlainByte(b[i])
    case _ => true
  }

  function InDouble(b: Bytes): Bytes {
    if b == [] then []
    else (if b[0] == DQUOTE || b[0] == BACKSLASH then [BACKSLASH, b[0]] else [b[0]]) + InDouble(b[1..])
  }

  function WithSlashes(b: Bytes): Bytes {
    if b == [] then [] else [BACKSLASH, b[0]] + WithSlashes(b[1..])
  }

  function Written(p: Piece): Bytes {
    match p
    case Single(b) => [SQUOTE] + b + [SQUOTE]
    case Double(b) => [DQUOTE] + InDouble(b) + [DQUOTE]
    case Slashed(b) => WithSlashes(b)
    case Bare(b) => b
  }

  function Meant(w: seq<Piece>): Bytes { if w == [] then [] else w[0].bytes + Meant(w[1..]) }

  function WrittenWord(w: seq<Piece>): Bytes { if w == [] then [] else Written(w[0]) + WrittenWord(w[1..]) }

  lemma Assoc(a: Bytes, b: Bytes, c: Bytes)
    ensures a + b + c == a + (b + c)
  {
  }

  lemma ScanCons(c: Byte, rest: Bytes, quoted: Byte, cur: Bytes, tokens: seq<Bytes>)
    requires quoted == NUL || quoted == SQUOTE || quoted == DQUOTE
    ensures (if quoted == NUL then PlainByte(c) else c != quoted && (c == BACKSLASH ==> quoted == SQUOTE)) ==>
      Scan([c] + rest, quoted, cur, tokens) == Scan(rest, quoted, cur + [c], tokens)
    ensures quoted == NUL && (c == SQUOTE || c == DQUOTE) ==>
      Scan([c] + rest, quoted, cur, tokens) == Scan(rest, c, cur, tokens)
    ensures quoted != NUL && c == quoted ==> Scan([c] + rest, quoted, cur, tokens) == Scan(rest, NUL, cur, tokens)
    ensures quoted != SQUOTE ==>
      Scan([BACKSLASH, c] + rest, quoted, cur, tokens) == Scan(rest, quoted, cur + [c], tokens)
  {
    assert ([c] + rest)[1..] == rest;
    assert ([BACKSLASH, c] + rest)[2..] == rest;
  }

  lemma {:induction false} SingleRun(b: Bytes, rest: Bytes, cur: Bytes, tokens: seq<Bytes>)
    requires SQUOTE !in b
    ensures Scan(b + rest, SQUOTE, cur, tokens) == Scan(rest, SQUOTE, cur + b, tokens)
    decreases |b|
  {
    hide Scan;
    if b == [] {
      assert b + rest == rest && cur + b == cur;
    } else {
      ScanCons(b[0], b[1..] + rest, SQUOTE, cur, tokens);
      SingleRun(b[1..], rest, cur + [b[0]], tokens);
      assert b + rest == [b[0]] + (b[1..] + rest) && cur + [b[0]] + b[1..] == cur + b;
    }
  }

  lemma {:induction false} DoubleRun(b: Bytes, rest: Bytes, cur: Bytes, tokens: seq<Bytes>)
    ensures Scan(InDouble(b) + rest, DQUOTE, cur, tokens) == Scan(rest, DQUOTE, cur + b, tokens)
    decreases |b|
  {
    hide Scan;
    if b == [] {
      assert InDouble(b) + rest == rest && cur + b == cur;
    } else {
      var tail := InDouble(b[1..]);
      var head := if b[0] == DQUOTE || b[0] == BACKSLASH then [BACKSLASH, b[0]] else [b[0]];
      ScanCons(b[0], tail + rest, DQUOTE, cur, tokens);
      DoubleRun(b[1..], rest, cur + [b[0]], tokens);
      Assoc(head, tail, rest);
      assert cur + [b[0]] + b[1..] == cur + b;
    }
  }

  lemma {:induction false} SlashRun(b: Bytes, rest: Bytes, cur: Bytes, tokens: seq<Bytes>)
    ensures Scan(WithSlashes(b) + rest, NUL, cur, tokens) == Scan(rest, NUL, cur + b, tokens)
    decreases |b|
  {
    hide Scan;
    if b == [] {
      assert WithSlashes(b) + rest == rest && cur + b == cur;
    } else {
      var tail := WithSlashes(b[1..]);
      ScanCons(b[0], tail + rest, NUL, cur, tokens);
      SlashRun(b[1..], rest, cur + [b[0]], tokens);
      Assoc([BACKSLASH, b[0]], tail, rest);
      assert cur + [b[0]] + b[1..] == cur + b;
    }
  }

  lemma {:induction false} BareRun(b: Bytes, rest: Bytes, cur: Bytes, tokens: seq<Bytes>)
    requires forall i :: 0 <= i < |b| ==> PlainByte(b[i])
    ensures Scan(b + rest, NUL, cur, tokens) == Scan(rest, NUL, cur + b, tokens)
    decreases |b|
  {
    hide Scan, PlainByte;
    if b == [] {
      assert b + rest == rest && cur + b == cur;
    } else {
      ScanCons(b[0], b[1..] + rest, NUL, cur, tokens);
      BareRun(b[1..], rest, cur + [b[0]], tokens);
      assert b + rest == [b[0]] + (b[1..] + rest) && cur + [b[0]] + b[1..] == cur + b;
    }
  }

  lemma PieceRun(p: Piece, rest: Bytes, cur: Bytes, tokens: seq<Bytes>)
    requires Writable(p)
    ensures Scan(Written(p) + rest, NUL, cur, tokens) == Scan(rest, NUL, cur + p.bytes, tokens)
  {
    hide Scan, InDouble, WithSlashes;
    match p
    case Single(b) =>
      ScanCons(SQUOTE, b + ([SQUOTE] + rest), NUL, cur, tokens);
      SingleRun(b, [SQUOTE] + rest, cur, tokens);
      ScanCons(SQUOTE, rest, SQUOTE, cur + b, tokens);
      assert Written(p) + rest == [SQUOTE] + (b + ([SQUOTE] + rest));
    case Double(b) =>
      ScanCons(DQUOTE, InDouble(b) + ([DQUOTE] + rest), NUL, cur, tokens);
      DoubleRun(b, [DQUOTE] + rest, cur, tokens);
      ScanCons(DQUOTE, rest, DQUOTE, cur + b, tokens);
      assert Written(p) + rest == [DQUOTE] + (InDouble(b) + ([DQUOTE] + rest));
    case Slashed(b) => SlashRun(b, rest, cur, tokens);
    case Bare(b) => BareRun(b, rest, cur, tokens);
  }

  predicate WritableWord(w: seq<Piece>) { (forall i :: 0 <= i < |w| ==> Writable(w[i])) && WrittenWord(w) != [] }

  lemma {:induction false} WordRun(w: seq<Piece>, rest: Bytes, cur: Bytes, tokens: seq<Bytes>)
    requires forall i :: 0 <= i < |w| ==> Writable(w[i])
    ensures Scan(WrittenWord(w) + rest, NUL, cur, tokens) == Scan(rest, NUL, cur + Meant(w), tokens)
    decreases |w|
  {
    hide Scan, Written;
    if w == [] {
      assert WrittenWord(w) + rest == rest && cur + Meant(w) == cur;
    } else {
      PieceRun(w[0], WrittenWord(w[1..]) + rest, cur, tokens);
      WordRun(w[1..], rest, cur + w[0].bytes, tokens);
      Assoc(Written(w[0]), WrittenWord(w[1..]), rest);
      Assoc(cur, w[0].bytes, Meant(w[1..]));
    }
  }

  predicate IsGap(g: Bytes) { g != [] && forall i :: 0 <= i < |g| ==> IsBlank(g[i]) }

  lemma {:induction false} SkipRun(g: Bytes, rest: Bytes)
    requires (forall i :: 0 <= i < |g| ==> IsBlank(g[i])) && rest != [] && !IsBlank(rest[0])
    ensures SkipBlanks(g + rest) == rest
  {
    if g == [] {
      assert g + rest == rest;
    } else {
      SkipRun(g[1..], rest);
      assert (g + rest)[1..] == g[1..] + rest;
    }
  }

  lemma GapRun(g: Bytes, rest: Bytes, cur: Bytes, tokens: seq<Bytes>)
    requires IsGap(g) && rest != [] && !IsBlank(rest[0])
    ensures Scan(g + rest, NUL, cur, tokens) == Scan(rest, NUL, [], tokens + [cur])
  {
    SkipRun(g[1..], rest);
    assert (g + rest)[1..] == g[1..] + rest;
  }

  /** The first byte written for a word is not blank. */
  lemma {:induction false} WordStart(w: seq<Piece>)
    requires WritableWord(w)
    ensures !IsBlank(WrittenWord(w)[0])
  {
    if Written(w[0]) == [] {
      assert WrittenWord(w) == WrittenWord(w[1..]);
      WordStart(w[1..]);
    } else {
      PieceStart(w[0]);
      assert WrittenWord(w)[0] == Written(w[0])[0];
    }
  }

  lemma PieceStart(p: Piece)
    requires Writable(p) && Written(p) != []
    ensures !IsBlank(Written(p)[0])
  {
  }

  /** Words written down in any of these ways, with blanks between them. */
  function Line(ws: seq<seq<Piece>>, gaps: seq<Bytes>): Bytes
    requires |ws| == |gaps| + 1
  {
    if gaps == [] then WrittenWord(ws[0]) else WrittenWord(ws[0]) + (gaps[0] + Line(ws[1..], gaps[1..]))
  }

  function MeantWords(ws: seq<seq<Piece>>): seq<Bytes> { if ws == [] then [] else [Meant(ws[0])] + MeantWords(ws[1..]) }

  lemma {:induction false} LineRun(ws: seq<seq<Piece>>, gaps: seq<Bytes>, tokens: seq<Bytes>)
    requires |ws| == |gaps| + 1 && (forall i :: 0 <= i < |ws| ==> WritableWord(ws[i]))
    requires forall i :: 0 <= i < |gaps| ==> IsGap(gaps[i])
    ensures Scan(Line(ws, gaps), NUL, [], tokens) == Words(tokens + MeantWords(ws))
    ensures Line(ws, gaps) != [] && !IsBlank(Line(ws, gaps)[0])
    decreases |gaps|
  {
    hide Scan, Meant, WrittenWord;
    var w := ws[0];
    WordStart(w);
    assert [] + Meant(w) == Meant(w);
    if gaps == [] {
      WordRun(w, [], [], tokens);
      assert WrittenWord(w) + [] == WrittenWord(w);
      LastWord(Meant(w), tokens);
      assert ws[1..] == [];
      assert MeantWords(ws) == [Meant(w)];
    } else {
      var rest := Line(ws[1..], gaps[1..]);
      LineRun(ws[1..], gaps[1..], tokens + [Meant(w)]);
      WordRun(w, gaps[0] + rest, [], tokens);
      GapRun(gaps[0], rest, Meant(w), tokens);
      assert tokens + [Meant(w)] + MeantWords(ws[1..]) == tokens + MeantWords(ws);
    }
  }

  lemma LastWord(cur: Bytes, tokens: seq<Bytes>)
    ensures Scan([], NUL, cur, tokens) == Words(tokens + [cur])
  {
  }

  /**
   Splitting undoes the writing: any words, written piece by piece in any of the ways and set apart by blanks, come
   back.
   */
  lemma SplitInverts(ws: seq<seq<Piece>>, gaps: seq<Bytes>)
    requires |ws| == |gaps| + 1 && (forall i :: 0 <= i < |ws| ==> WritableWord(ws[i]))
    requires forall i :: 0 <= i < |gaps| ==> IsGap(gaps[i])
    ensures Scan(Line(ws, gaps), NUL, [], []) == Words(MeantWords(ws))
  {
    LineRun(ws, gaps, []);
    assert [] + MeantWords(ws) == MeantWords(ws);
  }

  lemma EveryWordWritable(w: Bytes)
    ensures WritableWord([Double(w)]) && Meant([Double(w)]) == w
  {
    OnePiece(Double(w));
  }

  lemma OnePiece(p: Piece)
    ensures Meant([p]) == p.bytes && WrittenWord([p]) == Written(p)
  {
    assert [p][1..] == [];
    assert p.bytes + [] == p.bytes;
    assert Written(p) + [] == Written(p);
  }

  /** Every word in double quotes, one space between them. */
  function InQuotes(ws: seq<Bytes>): (r: seq<seq<Piece>>)
    ensures |r| == |ws| && forall i :: 0 <= i < |ws| ==> r[i] == [Double(ws[i])]
  {
    seq(|ws|, i requires 0 <= i < |ws| => [Double(ws[i])])
  }

  function Spaces(n: nat): (r: seq<Bytes>)
    ensures |r| == n && forall i :: 0 <= i < n ==> r[i] == [SPACE]
  {
    seq(n, _ => [SPACE])
  }

  lemma {:induction false} MeantInQuotes(ws: seq<Bytes>)
    ensures MeantWords(InQuotes(ws)) == ws
  {
    hide Meant;
    if ws != [] {
      EveryWordWritable(ws[0]);
      MeantInQuotes(ws[1..]);
      assert InQuotes(ws)[1..] == InQuotes(ws[1..]);
    }
  }

  /** Any list of words but the empty one is what some line splits into. */
  lemma QuotedComesBack(ws: seq<Bytes>)
    requires ws != []
    ensures Scan(Line(InQuotes(ws), Spaces(|ws| - 1)), NUL, [], []) == Words(ws)
  {
    hide Scan, WritableWord, Line, MeantWords;
    forall i | 0 <= i < |ws| ensures WritableWord(InQuotes(ws)[i]) { EveryWordWritable(ws[i]); }
    SplitInverts(InQuotes(ws), Spaces(|ws| - 1));
    MeantInQuotes(ws);
  }

  // ---- which bytes set words apart ----------------------------------------------------------------

  /** Between two letters exactly TAB, LF, FF, CR and a space make two words; a quote opens, a backslash and a NUL
   vanish, and any other byte stays in its word. */
  lemma SetsApart(a: Byte, c: Byte, b: Byte)
    requires PlainByte(a) && PlainByte(b)
    ensures Scan([a, c, b], 0, [], []) ==
      if c == 9 || c == 10 || c == 12 || c == 13 || c == 32 then Words([[a], [b]])
      else if c == 34 || c == 39 then UnclosedQuote
      else if c == 92 || c == 0 then Words([[a, b]])
      else Words([[a, c, b]])
  {
    hide Scan, SkipBlanks;
    var s := [a, c, b];
    assert s[0..] == s && s[1..] == [c, b] && s[2..] == [b] && s[3..] == [];
    var none: Bytes := [];
    var words: seq<Bytes> := [];
    assert none + [a] == [a] && [a] + [b] == [a, b] && [a] + [c] == [a, c] && [a, c] + [b] == [a, c, b];
    assert words + [[a]] == [[a]] && [[a]] + [[b]] == [[a], [b]] && words + [[a, b]] == [[a, b]];
    assert words + [[a, c, b]] == [[a, c, b]] && none + [b] == [b];
    ScanAt(s, 0, NUL, none, words);
    ScanAt(s, 1, NUL, [a], words);
    SkipAt(s, 2);
    ScanAt(s, 2, NUL, none, [[a]]);
    ScanAt(s, 2, NUL, [a], words);
    ScanAt(s, 2, NUL, [a, c], words);
    ScanAt(s, 3, NUL, [b], [[a]]);
    ScanAt(s, 3, NUL, [a, b], words);
    ScanAt(s, 3, NUL, [a, c, b], words);
    if c == 34 || c == 39 {
      ScanAt(s, 2, c, [a], words);
      ScanAt(s, 3, c, [a, b], words);
    }
  }

  /** In double quotes a backslash stands for the byte behind it, whatever that is; in single quotes for itself. */
  lemma InsideQuotes(c: Byte)
    ensures Scan([34, 92, c, 34], 0, [], []) == Words([[c]])
    ensures c != 39 && c != 0 ==> Scan([39, 92, c, 39], 0, [], []) == Words([[92, c]])
  {
    hide Scan, SkipBlanks;
    var s, t := [34, 92, c, 34], [39, 92, c, 39];
    var none: Bytes := [];
    var words: seq<Bytes> := [];
    assert s[0..] == s && s[4..] == [] && t[0..] == t && t[4..] == [];
    assert none + [c] == [c] && none + [92] == [92] && [92] + [c] == [92, c];
    assert words + [[c]] == [[c]] && words + [[92, c]] == [[92, c]];
    ScanAt(s, 0, NUL, none, words);
    ScanAt(s, 1, DQUOTE, none, words);
    ScanAt(s, 3, DQUOTE, [c], words);
    ScanAt(s, 4, NUL, [c], words);
    ScanAt(t, 0, NUL, none, words);
    ScanAt(t, 1, SQUOTE, none, words);
    ScanAt(t, 2, SQUOTE, [92], words);
    ScanAt(t, 3, SQUOTE, [92, c], words);
    ScanAt(t, 4, NUL, [92, c], words);
  }

  /** Blanks in a row set apart once; those at an end leave an empty word there. */
  lemma BlanksAtEnds(a: Byte, b: Byte)
    requires PlainByte(a) && PlainByte(b)
    ensures Scan([a, 32, 9, b], 0, [], []) == Words([[a], [b]])
    ensures Scan([32, a, 32], 0, [], []) == Words([[], [a], []]) && Scan([], 0, [], []) == Words([[]])
  {
    hide Scan, SkipBlanks;
    TwoBlanks(a, b);
    var s := [32, a, 32];
    var none: Bytes := [];
    var words: seq<Bytes> := [];
    assert s[0..] == s && s[3..] == [] && none[0..] == none;
    assert none + [a] == [a] && words + [none] == [[]];
    assert [none] + [[a]] == [[], [a]] && [none, [a]] + [none] == [[], [a], []];
    ScanAt(none, 0, NUL, none, words);
    ScanAt(s, 0, NUL, none, words);
    SkipAt(s, 1);
    ScanAt(s, 1, NUL, none, [none]);
    ScanAt(s, 2, NUL, [a], [none]);
    SkipAt(s, 3);
    ScanAt(s, 3, NUL, none, [none, [a]]);
  }

  lemma TwoBlanks(a: Byte, b: Byte)
    requires PlainByte(a) && PlainByte(b)
    ensures Scan([a, 32, 9, b], 0, [], []) == Words([[a], [b]])
  {
    hide Scan, SkipBlanks;
    var s := [a, 32, 9, b];
    var none: Bytes := [];
    var words: seq<Bytes> := [];
    assert s[0..] == s && s[4..] == [];
    assert none + [a] == [a] && none + [b] == [b] && words + [[a]] == [[a]] && [[a]] + [[b]] == [[a], [b]];
    ScanAt(s, 0, NUL, none, words);
    ScanAt(s, 1, NUL, [a], words);
    SkipAt(s, 2);
    SkipAt(s, 3);
    ScanAt(s, 3, NUL, none, [[a]]);
    ScanAt(s, 4, NUL, [b], [[a]]);
  }
}
