/**
 The three forms of a trie key: bytes, nibbles with an optional terminator, and the compact
 ("hex prefix") form of Appendix C of the Ethereum yellow paper.
 */
module HexPrefix {
  import opened Rlp
  import opened MerkleTrie

  // ---------------------------------------------------------------- the forms as functions

  /** Two nibbles for every byte. */
  function Nibbles(s: Bytes): (n: Bytes)
    ensures |n| == 2 * |s| && forall i :: 0 <= i < |n| ==> n[i] < 16
  {
    if s == [] then [] else [s[0] / 16, s[0] % 16] + Nibbles(s[1..])
  }

  /** One byte for every two nibbles. */
  function Pack(n: Bytes): (s: Bytes)
    requires forall i :: 0 <= i < |n| ==> n[i] < 16
    ensures |s| == |n| / 2
  {
    if |n| < 2 then [] else [n[0] * 16 + n[1]] + Pack(n[2..])
  }

  /** Key bytes as terminated nibbles. */
  function KeyHex(s: Bytes): (k: Bytes)
    ensures |k| == 2 * |s| + 1 && IsKey(k)
  {
    Nibbles(s) + [TERM]
  }

  /** A run of nibbles without its terminator. */
  function Body(hex: Bytes): (b: Bytes)
    requires Run(hex)
    ensures forall i :: 0 <= i < |b| ==> b[i] < 16
    ensures HasTerm(hex) ==> hex == b + [TERM]
    ensures !HasTerm(hex) ==> hex == b
  {
    if HasTerm(hex) then hex[..|hex| - 1] else hex
  }

  /** The flag of the compact form: the terminator and the oddness of the length. */
  function Flag(term: bool, odd: bool): (f: Byte)
    ensures f < 4
  {
    (if term then 2 else 0) + if odd then 1 else 0
  }

  /** The nibbles of the compact form: a flag, padding after an even flag, the run. */
  function Flagged(hex: Bytes): (n: Bytes)
    requires Run(hex)
    ensures |n| % 2 == 0 && |n| > 0 && forall i :: 0 <= i < |n| ==> n[i] < 16
  {
    var b := Body(hex);
    if |b| % 2 == 1 then [Flag(HasTerm(hex), true)] + b else [Flag(HasTerm(hex), false), 0] + b
  }

  /** The compact form. */
  function Compact(hex: Bytes): (c: Bytes)
    requires Run(hex)
    ensures |c| > 0
  {
    Pack(Flagged(hex))
  }

  /** Back from the compact form. */
  function Expand(c: Bytes): Bytes
    requires |c| > 0
  {
    var base := KeyHex(c);
    var base := if base[0] < 2 then base[..|base| - 1] else base;
    base[2 - base[0] % 2..]
  }

  // ---------------------------------------------------------------- round trips

  lemma {:induction false} NibblesOfPack(n: Bytes)
    requires (forall i :: 0 <= i < |n| ==> n[i] < 16) && |n| % 2 == 0
    ensures Nibbles(Pack(n)) == n
  {
    if n != [] {
      NibblesOfPack(n[2..]);
      assert n == [n[0], n[1]] + n[2..];
      assert Pack(n)[1..] == Pack(n[2..]);
    }
  }

  lemma {:induction false} PackOfNibbles(s: Bytes)
    ensures Pack(Nibbles(s)) == s
  {
    if s != [] {
      PackOfNibbles(s[1..]);
      assert Nibbles(s)[2..] == Nibbles(s[1..]);
      assert s == [s[0]] + s[1..];
    }
  }

  /** The nibbles that an expansion leaves behind its flag. */
  lemma ExpandNibbles(c: Bytes)
    requires |c| > 0
    ensures var n := Nibbles(c);
            && |n| >= 2 && Run(Expand(c)) && Body(Expand(c)) == n[2 - n[0] % 2..]
            && (HasTerm(Expand(c)) <==> n[0] >= 2)
  {
    hide Nibbles;
    var n := Nibbles(c);
    assert KeyHex(c)[..|n|] == n;
    var body := n[2 - n[0] % 2..];
    assert Expand(c) == if n[0] < 2 then body else body + [TERM];
  }

  lemma FlaggedBody(hex: Bytes)
    requires Run(hex)
    ensures var n := Flagged(hex); Body(hex) == n[2 - n[0] % 2..] && (HasTerm(hex) <==> n[0] >= 2)
  {
    hide Body, HasTerm;
    var n, b := Flagged(hex), Body(hex);
    if |b| % 2 == 1 {
      assert n[1..] == b;
    } else {
      assert n[2..] == b;
    }
  }

  /** The compact form loses nothing. */
  lemma ExpandCompact(hex: Bytes)
    requires Run(hex)
    ensures Expand(Compact(hex)) == hex
  {
    hide Nibbles, Pack, Expand, Flagged, Run, HasTerm, Body;
    NibblesOfPack(Flagged(hex));
    ExpandNibbles(Compact(hex));
    FlaggedBody(hex);
  }

  lemma SameHead(f: Bytes, n: Bytes, k: nat)
    requires |f| >= k && |n| >= k && f[k..] == n[k..]
    ensures f == n <==> f[..k] == n[..k]
  {
    assert f == f[..k] + f[k..] && n == n[..k] + n[k..];
  }

  lemma FlaggedFrom(hex: Bytes, n: Bytes)
    requires Run(hex) && |n| >= 2 && |n| % 2 == 0 && Body(hex) == n[2 - n[0] % 2..] && (HasTerm(hex) <==> n[0] >= 2)
    ensures Flagged(hex) == n <==> n[0] < 4 && (n[0] % 2 == 0 ==> n[1] == 0)
  {
    hide Run, Body, HasTerm;
    var f := Flagged(hex);
    if n[0] % 2 == 1 {
      assert f == [Flag(n[0] >= 2, true)] + n[1..];
      SameHead(f, n, 1);
    } else {
      assert f == [Flag(n[0] >= 2, false), 0] + n[2..];
      SameHead(f, n, 2);
    }
  }

  lemma FlaggedExpand(c: Bytes)
    requires |c| > 0
    ensures Run(Expand(c)) && |Nibbles(c)| >= 2
    ensures Flagged(Expand(c)) == Nibbles(c) <==>
            Nibbles(c)[0] < 4 && (Nibbles(c)[0] % 2 == 0 ==> Nibbles(c)[1] == 0)
  {
    hide Nibbles, Expand, Run, Body, HasTerm, Flagged;
    ExpandNibbles(c);
    FlaggedFrom(Expand(c), Nibbles(c));
  }

  /** A compact string is what its expansion compacts to exactly when its flag nibble is one of
      the four in use and an even flag is followed by a zero. */
  lemma CompactExpand(c: Bytes)
    requires |c| > 0
    ensures Run(Expand(c))
    ensures Compact(Expand(c)) == c <==>
            c[0] / 16 < 4 && (c[0] / 16 % 2 == 0 ==> c[0] % 16 == 0)
  {
    hide Pack, Expand, Flagged, Flag;
    FlaggedExpand(c);
    assert Nibbles(c)[0] == c[0] / 16 && Nibbles(c)[1] == c[0] % 16;
    PackOfNibbles(c);
    NibblesOfPack(Flagged(Expand(c)));
  }

  /** Distinct keys stay distinct, and none is a prefix of another. */
  lemma KeysPart(a: Bytes, b: Bytes)
    ensures StartsWith(KeyHex(a), KeyHex(b)) ==> a == b
  {
    if StartsWith(KeyHex(a), KeyHex(b)) {
      KeyAfter(KeyHex(a), KeyHex(b));
      assert Nibbles(a) == KeyHex(a)[..2 * |a|] == KeyHex(b)[..2 * |b|] == Nibbles(b);
      PackOfNibbles(a);
      PackOfNibbles(b);
    }
  }

  // ---------------------------------------------------------------- the conversions as code

  lemma {:induction false} PackAt(n: Bytes, j: nat)
    requires (forall i :: 0 <= i < |n| ==> n[i] < 16) && 2 * j + 1 < |n|
    ensures Pack(n)[j] == n[2 * j] * 16 + n[2 * j + 1]
  {
    if j > 0 {
      PackAt(n[2..], j - 1);
    }
  }

  lemma {:induction false} NibblesAt(s: Bytes, j: nat)
    requires j < |s|
    ensures Nibbles(s)[2 * j] == s[j] / 16 && Nibbles(s)[2 * j + 1] == s[j] % 16
  {
    if j > 0 {
      NibblesAt(s[1..], j - 1);
    }
  }

  /** `decodeNibbles`: fills a buffer from `from` on. */
  method DecodeNibbles(nibbles: Bytes, bytes: array<Byte>, from: nat)
    requires (forall i :: 0 <= i < |nibbles| ==> nibbles[i] < 16) && |nibbles| % 2 == 0
    requires from + |nibbles| / 2 <= bytes.Length
    modifies bytes
    ensures bytes[..] == old(bytes[..from]) + Pack(nibbles) + old(bytes[from + |nibbles| / 2..])
  {
    hide Pack;
    var bi, ni := from, 0;
    while ni < |nibbles|
      invariant 0 <= ni <= |nibbles| && ni % 2 == 0 && bi == from + ni / 2
      invariant forall j :: 0 <= j < bytes.Length ==> bytes[j] == if from <= j < bi then Pack(nibbles)[j - from]
                                                      else old(bytes[j])
      decreases |nibbles| - ni
    {
      PackAt(nibbles, ni / 2);
      bytes[bi] := nibbles[ni] * 16 + nibbles[ni + 1];
      bi, ni := bi + 1, ni + 2;
    }
  }

  /** `keybytesToHex` */
  method KeybytesToHex(s: Bytes) returns (hex: array<Byte>)
    ensures fresh(hex) && hex[..] == KeyHex(s)
  {
    hide Nibbles;
    var l := |s| * 2 + 1;
    hex := new Byte[l];
    var i := 0;
    while i < |s|
      invariant 0 <= i <= |s| && hex.Length == l
      invariant forall j :: 0 <= j < 2 * i ==> hex[j] == Nibbles(s)[j]
    {
      NibblesAt(s, i);
      hex[i * 2] := s[i] / 16;
      hex[i * 2 + 1] := s[i] % 16;
      i := i + 1;
    }
    hex[l - 1] := TERM;
  }

  /** The compact form: a byte with the flag and the first nibble of an odd run, then the rest. */
  lemma FlaggedParts(hex: Bytes, first: Byte, rest: Bytes)
    requires Run(hex)
    requires var b := Body(hex);
             if |b| % 2 == 1 then first == Flag(HasTerm(hex), true) * 16 + b[0] && rest == b[1..]
             else first == Flag(HasTerm(hex), false) * 16 && rest == b
    ensures (forall i :: 0 <= i < |rest| ==> rest[i] < 16) && Compact(hex) == [first] + Pack(rest)
  {
    hide Pack, Body, Run;
    var n := Flagged(hex);
    if |Body(hex)| % 2 == 1 {
      assert n[0] == Flag(HasTerm(hex), true) && n[1] == Body(hex)[0];
    } else {
      assert n[0] == Flag(HasTerm(hex), false) && n[1] == 0;
    }
    assert n[2..] == rest;
    PackFirst(n);
  }

  lemma PackFirst(n: Bytes)
    requires |n| >= 2 && forall i :: 0 <= i < |n| ==> n[i] < 16
    ensures Pack(n) == [n[0] * 16 + n[1]] + Pack(n[2..])
  {
  }

  lemma BodyIs(hex: Bytes)
    requires Run(hex)
    ensures Body(hex) == if HasTerm(hex) then hex[..|hex| - 1] else hex
    ensures forall i :: 0 <= i < |Body(hex)| ==> Body(hex)[i] < 16
  {
  }

  /** `hexToCompact` */
  method HexToCompact(hex: Bytes) returns (buf: array<Byte>)
    requires Run(hex)
    ensures fresh(buf) && buf[..] == Compact(hex)
  {
    hide Pack, Body, Run, Compact;
    var terminator, h := 0, hex;
    BodyIs(hex);
    if HasTerm(hex) {
      terminator, h := 1, hex[..|hex| - 1];
    }
    buf := new Byte[|h| / 2 + 1];
    buf[0] := terminator * 32;
    if |h| % 2 == 1 {
      buf[0] := buf[0] + 16;
      buf[0] := buf[0] + h[0];
      h := h[1..];
    }
    FlaggedParts(hex, buf[0], h);
    assert buf[..1] == [buf[0]];
    DecodeNibbles(h, buf, 1);
  }

  /** `hexToKeybytes`: undoes `keybytesToHex`, with or without the terminator. */
  method HexToKeybytes(hex: Bytes) returns (key: array<Byte>)
    requires Run(hex) && |Body(hex)| % 2 == 0
    ensures fresh(key) && Nibbles(key[..]) == Body(hex)
    ensures forall s :: hex == KeyHex(s) ==> key[..] == s
  {
    var h := if HasTerm(hex) then hex[..|hex| - 1] else hex;
    key := new Byte[|h| / 2];
    DecodeNibbles(h, key, 0);
    assert key[..] == Pack(h);
    NibblesOfPack(h);
    forall s | hex == KeyHex(s) ensures key[..] == s {
      assert h == Nibbles(s);
      PackOfNibbles(s);
    }
  }

  /** `compactToHex` */
  method CompactToHex(compact: Bytes) returns (hex: Bytes)
    requires |compact| > 0
    ensures hex == Expand(compact)
    ensures forall run :: Run(run) && compact == Compact(run) ==> hex == run
  {
    var buf := KeybytesToHex(compact);
    var base := buf[..];
    if base[0] < 2 {
      base := base[..|base| - 1];
    }
    var chop := 2 - base[0] % 2;
    hex := base[chop..];
    forall run | Run(run) && compact == Compact(run) ensures hex == run {
      ExpandCompact(run);
    }
  }

  /** `prefixLen` */
  method CommonPrefix(a: Bytes, b: Bytes) returns (i: nat)
    ensures i == PrefixLen(a, b)
  {
    var length := if |b| < |a| then |b| else |a|;
    i := 0;
    while i < length && a[i] == b[i]
      invariant 0 <= i <= length
      invariant PrefixLen(a, b) == i + PrefixLen(a[i..], b[i..])
    {
      assert a[i..][1..] == a[i + 1..] && b[i..][1..] == b[i + 1..];
      i := i + 1;
    }
  }
}
