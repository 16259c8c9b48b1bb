/** Configuration keys: `parse_config_key` of config.rs. */
module ConfigKey {
  import opened Bytes

  datatype KeyResult = Canon(key: Bytes) | NoSection | NoName | BadByte(at: nat) | BadNewline(at: nat)

  /** `key` splits at its last dot, `b`, into a section with an optional subsection, and a name. */
  predicate SplitsAt(key: Bytes, b: nat) {
    0 < b < |key| && key[b] == DOT && forall i :: b < i < |key| ==> key[i] != DOT
  }

  /** The index of the first dot, or the length when there is none. */
  function FirstDot(key: Bytes): (d: nat)
    ensures d <= |key| && (d < |key| ==> key[d] == DOT) && forall i :: 0 <= i < d ==> key[i] != DOT
  {
    if key == [] || key[0] == DOT then 0 else 1 + FirstDot(key[1..])
  }

  /** Byte `i` of a key cut at `b` may stand there. */
  predicate ByteOk(key: Bytes, b: nat, i: nat)
    requires i < |key|
  {
    if i < FirstDot(key) || i > b then IsKeyChar(key[i]) && (i == b + 1 ==> IsAlpha(key[i]))
    else key[i] != LF
  }

  predicate WellFormedKey(key: Bytes, b: nat) {
    SplitsAt(key, b) && b + 1 < |key| && forall i :: 0 <= i < |key| ==> ByteOk(key, b, i)
  }

  /** Section and name fold to lower case; what lies between keeps its spelling. */
  function Canonical(key: Bytes, b: nat): (c: Bytes)
    ensures |c| == |key|
  {
    seq(|key|, i requires 0 <= i < |key| => if i < FirstDot(key) || i > b then Lower(key[i]) else key[i])
  }

  /** `parse_config_key` */
  method ParseConfigKey(key: Bytes) returns (r: KeyResult, baselen: nat)
    ensures r.Canon? ==> WellFormedKey(key, baselen) && r.key == Canonical(key, baselen)
    ensures r == NoSection <==> !exists b :: SplitsAt(key, b)
    ensures r == NoName ==> SplitsAt(key, |key| - 1)
    ensures r.BadByte? || r.BadNewline? ==>
      && SplitsAt(key, baselen) && baselen + 1 < |key| && r.at < |key|
      && !ByteOk(key, baselen, r.at) && (forall i :: 0 <= i < r.at ==> ByteOk(key, baselen, i))
      && (r.BadNewline? <==> FirstDot(key) <= r.at <= baselen)
  {
    baselen := |key|;
    while baselen > 0 && key[baselen - 1] != DOT
      invariant baselen <= |key| && forall i :: baselen <= i < |key| ==> key[i] != DOT
    {
      baselen := baselen - 1;
    }
    if baselen <= 1 {
      return NoSection, 0;
    }
    baselen := baselen - 1;
    assert SplitsAt(key, baselen);
    if baselen + 1 >= |key| {
      return NoName, baselen;
    }
    var canonical: Bytes := [];
    var dot := false;
    for i := 0 to |key|
      invariant dot <==> FirstDot(key) < i
      invariant forall j :: 0 <= j < i ==> ByteOk(key, baselen, j)
      invariant canonical == Canonical(key, baselen)[..i]
    {
      var c := key[i];
      if c == DOT {
        dot := true;
      }
      if !dot || i > baselen {
        if !IsKeyChar(c) || (i == baselen + 1 && !IsAlpha(c)) {
          return BadByte(i), baselen;
        }
        c := Lower(c);
      } else if c == LF {
        return BadNewline(i), baselen;
      }
      canonical := canonical + [c];
    }
    return Canon(canonical), baselen;
  }
}
