/**
 Recursive length prefix encoding: the recursive definition of Appendix B of the Ethereum
 yellow paper, the slice parser (`Split`, `CountValues`), and the proof that the two are
 inverse to each other.
 */
module Rlp {
  import opened Common

  type Byte = b: int | 0 <= b < 256
  type Bytes = seq<Byte>

  const MAX_UINT64 := 0xFFFF_FFFF_FFFF_FFFF
  /** The length of a Go slice is an `int`. */
  const MAX_INT64 := 0x7FFF_FFFF_FFFF_FFFF

  /** What the codec transports: byte strings and lists. */
  datatype Item = Str(bytes: Bytes) | List(items: seq<Item>)

  // ---------------------------------------------------------------- big-endian integers

  /** The least number of big-endian bytes that represent `n`. */
  function IntBytes(n: nat): Bytes
    decreases n
  {
    if n < 256 then [n] else IntBytes(n / 256) + [n % 256]
  }

  /** The integer a big-endian byte string stands for. */
  function BigEndian(b: Bytes): nat {
    if b == [] then 0 else BigEndian(b[..|b| - 1]) * 256 + b[|b| - 1]
  }

  function Pow256(k: nat): nat {
    if k == 0 then 1 else 256 * Pow256(k - 1)
  }

  lemma {:induction false} BigEndianIntBytes(n: nat)
    ensures BigEndian(IntBytes(n)) == n && |IntBytes(n)| > 0
    ensures n > 0 ==> IntBytes(n)[0] != 0
    decreases n
  {
    if n < 256 {
      assert IntBytes(n)[..0] == [];
    } else {
      BigEndianIntBytes(n / 256);
      var b := IntBytes(n / 256) + [n % 256];
      assert b[..|b| - 1] == IntBytes(n / 256);
    }
  }

  lemma {:induction false} IntBytesBigEndian(b: Bytes)
    requires |b| > 0 && b[0] != 0
    ensures IntBytes(BigEndian(b)) == b && BigEndian(b) > 0
  {
    var front, last := b[..|b| - 1], b[|b| - 1];
    if |b| == 1 {
      assert BigEndian(front) == 0;
    } else {
      assert front[0] == b[0];
      IntBytesBigEndian(front);
      var n := BigEndian(b);
      assert n / 256 == BigEndian(front) && n % 256 == last;
      assert front + [last] == b;
    }
  }

  lemma {:induction false} IntBytesLength(n: nat, k: nat)
    requires k > 0
    ensures |IntBytes(n)| <= k <==> n < Pow256(k)
    decreases n
  {
    if n < 256 {
      Pow256AtLeast(k);
    } else if k == 1 {
      BigEndianIntBytes(n / 256);
    } else {
      IntBytesLength(n / 256, k - 1);
    }
  }

  lemma {:induction false} Pow256AtLeast(k: nat)
    requires k > 0
    ensures Pow256(k) >= 256
  {
    if k > 1 { Pow256AtLeast(k - 1); }
  }

  lemma Pow256Eight()
    ensures Pow256(8) == MAX_UINT64 + 1
  {
    assert Pow256(3) == 256 * 256 * 256;
    assert Pow256(6) == Pow256(3) * 256 * 256 * 256;
  }

  /** A 64-bit integer takes at most eight bytes. */
  lemma IntBytesOfUint64(n: nat)
    requires n <= MAX_UINT64
    ensures 1 <= |IntBytes(n)| <= 8
  {
    Pow256Eight();
    IntBytesLength(n, 8);
    BigEndianIntBytes(n);
  }

  /** The low `k` bytes of an integer, most significant first. */
  function LowBytes(i: nat, k: nat): Bytes {
    if k == 0 then [] else LowBytes(i / 256, k - 1) + [i % 256]
  }

  /** `putint`: a switch on the size of the integer, one arm per byte count. */
  function PutInt(i: nat): Bytes {
    if i < 0x100 then LowBytes(i, 1)
    else if i < 0x1_0000 then LowBytes(i, 2)
    else if i < 0x100_0000 then LowBytes(i, 3)
    else if i < 0x1_0000_0000 then LowBytes(i, 4)
    else if i < 0x100_0000_0000 then LowBytes(i, 5)
    else if i < 0x1_0000_0000_0000 then LowBytes(i, 6)
    else if i < 0x100_0000_0000_0000 then LowBytes(i, 7)
    else LowBytes(i, 8)
  }

  lemma {:induction false} LowBytesMinimal(i: nat, k: nat)
    requires k > 0 && (if k == 1 then i < 256 else Pow256(k - 1) <= i < Pow256(k))
    ensures LowBytes(i, k) == IntBytes(i)
  {
    if k == 1 {
      assert LowBytes(i / 256, 0) == [];
    } else {
      if k == 2 { assert Pow256(1) == 256; } else { Pow256AtLeast(k - 1); }
      LowBytesMinimal(i / 256, k - 1);
    }
  }

  /** The unrolled switch writes the minimal big-endian form of any 64-bit integer. */
  lemma PutIntMinimal(i: nat)
    requires i <= MAX_UINT64
    ensures PutInt(i) == IntBytes(i)
  {
    Pow256Eight();
    assert Pow256(1) == 0x100 && Pow256(2) == 0x1_0000 && Pow256(3) == 0x100_0000;
    assert Pow256(4) == 0x1_0000_0000 && Pow256(5) == 0x100_0000_0000;
    assert Pow256(6) == 0x1_0000_0000_0000 && Pow256(7) == 0x100_0000_0000_0000;
    var k := if i < 0x100 then 1 else if i < 0x1_0000 then 2 else if i < 0x100_0000 then 3
             else if i < 0x1_0000_0000 then 4 else if i < 0x100_0000_0000 then 5
             else if i < 0x1_0000_0000_0000 then 6 else if i < 0x100_0000_0000_0000 then 7 else 8;
    LowBytesMinimal(i, k);
  }

  /** `intsize`: shifts until nothing is left. */
  method IntSize(i: nat) returns (size: nat)
    ensures size == |IntBytes(i)|
  {
    size := 1;
    var rest: nat := i / 256;
    while rest != 0
      invariant |IntBytes(i)| == if rest == 0 then size else size + |IntBytes(rest)|
      decreases rest
    {
      rest := rest / 256;
      size := size + 1;
    }
  }

  // ---------------------------------------------------------------- encoding

  /** `puthead`: a string or list header for a payload of `size` bytes; tag arithmetic is on bytes. */
  function Header(smallTag: Byte, largeTag: Byte, size: nat): Bytes {
    if size < 56 then [(smallTag + size) % 256]
    else [(largeTag + |IntBytes(size)|) % 256] + IntBytes(size)
  }

  function EncodeString(b: Bytes): Bytes {
    if |b| == 1 && b[0] <= 0x7F then b else Header(0x80, 0xB7, |b|) + b
  }

  function EncodeList(payload: Bytes): Bytes {
    Header(0xC0, 0xF7, |payload|) + payload
  }

  /** The recursive definition of the encoding. */
  function Encode(x: Item): Bytes {
    match x
    case Str(b) => EncodeString(b)
    case List(items) => EncodeList(EncodeAll(items))
  }

  function EncodeAll(xs: seq<Item>): Bytes {
    if xs == [] then [] else Encode(xs[0]) + EncodeAll(xs[1..])
  }

  // ---------------------------------------------------------------- the slice parser

  datatype Kind = ByteKind | StringKind | ListKind

  datatype Error = UnexpectedEOF | CanonSize | ValueTooLarge | ExpectedString | ExpectedList

  datatype Result<+T> = Ok(value: T) | Err(error: Error)

  /** A type tag: how many bytes it takes and how many bytes of content follow it. */
  datatype Tag = Tag(kind: Kind, tagSize: nat, contentSize: nat)

  /** `readSize`: a separate size of `slen` bytes, which must be minimal and at least 56. */
  function ReadSize(b: Bytes, slen: nat): Result<nat>
    requires 1 <= slen <= 8
  {
    if slen > |b| then Err(UnexpectedEOF)
    else
      var s := BigEndian(b[..slen]);
      if s < 56 || b[0] == 0 then Err(CanonSize) else Ok(s)
  }

  /** The tag at the start of `buf`, before its size is compared with the buffer. */
  function ReadTag(buf: Bytes): Result<Tag>
    requires |buf| > 0
  {
    var b := buf[0];
    if b < 0x80 then Ok(Tag(ByteKind, 0, 1))
    else if b < 0xB8 then
      if b == 0x81 && |buf| > 1 && buf[1] < 128 then Err(CanonSize) else Ok(Tag(StringKind, 1, b - 0x80))
    else if b < 0xC0 then
      var r := ReadSize(buf[1..], b - 0xB7);
      if r.Err? then Err(r.error) else Ok(Tag(StringKind, b - 0xB7 + 1, r.value))
    else if b < 0xF8 then Ok(Tag(ListKind, 1, b - 0xC0))
    else
      var r := ReadSize(buf[1..], b - 0xF7);
      if r.Err? then Err(r.error) else Ok(Tag(ListKind, b - 0xF7 + 1, r.value))
  }

  /** `readKind`: rejects empty input and values larger than the buffer. */
  function ReadKind(buf: Bytes): (r: Result<Tag>)
    ensures r.Ok? ==> r.value.tagSize + r.value.contentSize <= |buf| && r.value.tagSize + r.value.contentSize > 0
  {
    if |buf| == 0 then Err(UnexpectedEOF)
    else
      var r := ReadTag(buf);
      if r.Err? then r
      else if r.value.contentSize > |buf| - r.value.tagSize then Err(ValueTooLarge)
      else r
  }

  datatype Piece = Piece(kind: Kind, content: Bytes, rest: Bytes)

  /** `Split`: the content of the first value and the bytes after it. */
  function Split(b: Bytes): Result<Piece> {
    var r := ReadKind(b);
    if r.Err? then Err(r.error)
    else
      var Tag(k, ts, cs) := r.value;
      Ok(Piece(k, b[ts..ts + cs], b[ts + cs..]))
  }

  /** What a value with this kind and content looks like when encoded. */
  function Whole(k: Kind, content: Bytes): Bytes {
    match k
    case ListKind => EncodeList(content)
    case _ => EncodeString(content)
  }

  /** The kind under which the parser reports a value. */
  function KindOf(x: Item): Kind {
    if x.List? then ListKind else if |x.bytes| == 1 && x.bytes[0] <= 0x7F then ByteKind else StringKind
  }

  function ContentOf(x: Item): Bytes {
    if x.List? then EncodeAll(x.items) else x.bytes
  }

  function SmallTag(k: Kind): Byte {
    if k == ListKind then 0xC0 else 0x80
  }

  function LargeTag(k: Kind): Byte {
    if k == ListKind then 0xF7 else 0xB7
  }

  lemma ShortTag(k: Kind, size: nat, tail: Bytes)
    requires k != ByteKind && size < 56
    requires k == StringKind && size == 1 ==> |tail| > 0 && tail[0] >= 128
    ensures ReadTag(Header(SmallTag(k), LargeTag(k), size) + tail) == Ok(Tag(k, 1, size))
  {
  }

  lemma LongSize(size: nat, tail: Bytes)
    requires 56 <= size <= MAX_UINT64
    ensures 1 <= |IntBytes(size)| <= 8 && ReadSize(IntBytes(size) + tail, |IntBytes(size)|) == Ok(size)
  {
    IntBytesOfUint64(size);
    BigEndianIntBytes(size);
    assert (IntBytes(size) + tail)[..|IntBytes(size)|] == IntBytes(size);
  }

  lemma LongTag(k: Kind, size: nat, tail: Bytes)
    requires k != ByteKind && 56 <= size <= MAX_UINT64
    ensures ReadTag(Header(SmallTag(k), LargeTag(k), size) + tail) == Ok(Tag(k, 1 + |IntBytes(size)|, size))
  {
    hide IntBytes, BigEndian, ReadSize;
    LongSize(size, tail);
    var sz := IntBytes(size);
    var buf := [LargeTag(k) + |sz|] + sz + tail;
    assert Header(SmallTag(k), LargeTag(k), size) + tail == buf;
    assert buf[1..] == sz + tail;
  }

  lemma ByteTag(b: Bytes)
    requires |b| > 0 && b[0] < 0x80
    ensures ReadKind(b) == Ok(Tag(ByteKind, 0, 1))
  {
  }

  lemma TagOfHeader(k: Kind, content: Bytes, rest: Bytes)
    requires k != ByteKind && |content| <= MAX_UINT64
    requires k == StringKind && |content| == 1 ==> content[0] >= 128
    ensures var h := Header(SmallTag(k), LargeTag(k), |content|);
            ReadKind(h + (content + rest)) == Ok(Tag(k, |h|, |content|))
  {
    if |content| < 56 {
      ShortTag(k, |content|, content + rest);
    } else {
      LongTag(k, |content|, content + rest);
    }
  }

  lemma SplitByTag(h: Bytes, k: Kind, content: Bytes, rest: Bytes)
    requires ReadKind(h + (content + rest)) == Ok(Tag(k, |h|, |content|))
    ensures Split(h + (content + rest)) == Ok(Piece(k, content, rest))
  {
    hide ReadKind;
    var b := h + (content + rest);
    assert b[|h|..|h| + |content|] == content && b[|h| + |content|..] == rest;
  }

  /** Whatever follows it, an encoded value splits into its own kind and content. */
  lemma SplitWhole(k: Kind, content: Bytes, rest: Bytes)
    requires |content| <= MAX_UINT64
    requires k != ListKind ==> (k == ByteKind <==> |content| == 1 && content[0] <= 0x7F)
    ensures Split(Whole(k, content) + rest) == Ok(Piece(k, content, rest))
  {
    hide ReadKind, Split, Header;
    if k == ByteKind {
      ByteTag(content + rest);
      assert [] + (content + rest) == content + rest;
      SplitByTag([], k, content, rest);
    } else {
      var h := Header(SmallTag(k), LargeTag(k), |content|);
      TagOfHeader(k, content, rest);
      SplitByTag(h, k, content, rest);
      assert h + (content + rest) == (h + content) + rest;
    }
  }

  lemma SizeOfTag(b: Bytes, slen: nat)
    requires 1 <= slen <= 8 && |b| > 0 && ReadSize(b[1..], slen).Ok?
    ensures slen < |b| && 56 <= ReadSize(b[1..], slen).value
    ensures b[..slen + 1] == [b[0]] + IntBytes(ReadSize(b[1..], slen).value)
    ensures |IntBytes(ReadSize(b[1..], slen).value)| == slen
  {
    var sz := b[1..][..slen];
    assert sz == b[1..slen + 1] && sz[0] == b[1];
    IntBytesBigEndian(sz);
    assert b[..slen + 1] == [b[0]] + sz;
  }

  lemma HeaderOfTag(b: Bytes)
    requires |b| > 0 && ReadTag(b).Ok? && ReadTag(b).value.tagSize <= |b|
    ensures var Tag(k, ts, cs) := ReadTag(b).value;
            && (k == ByteKind <==> b[0] < 0x80) && (k == ByteKind ==> ts == 0 && cs == 1)
            && (k != ByteKind ==> ts > 0 && b[..ts] == Header(SmallTag(k), LargeTag(k), cs))
            && (k == StringKind && cs == 1 && |b| > 1 ==> ts == 1 && b[1] >= 128)
  {
    hide ReadSize, IntBytes;
    if 0x80 <= b[0] < 0xB8 || 0xC0 <= b[0] < 0xF8 {
      assert b[..1] == [b[0]];
    } else if b[0] >= 0x80 {
      SizeOfTag(b, if b[0] < 0xC0 then b[0] - 0xB7 else b[0] - 0xF7);
    }
  }

  /** Only canonical encodings are accepted: what `Split` returns, put together again, is its input. */
  lemma SplitIsCanonical(b: Bytes)
    requires Split(b).Ok?
    ensures var p := Split(b).value;
            && b == Whole(p.kind, p.content) + p.rest && |p.rest| < |b|
            && (p.kind == ListKind ==> |p.content| < |b|)
            && (p.kind != ListKind ==> (p.kind == ByteKind <==> |p.content| == 1 && p.content[0] <= 0x7F))
  {
    hide ReadTag, Header, Whole, SmallTag, LargeTag;
    HeaderOfTag(b);
    var Tag(k, ts, cs) := ReadKind(b).value;
    Reassembled(b, k, ts, cs);
  }

  /** A header and what follows it, put together. */
  lemma Reassembled(b: Bytes, k: Kind, ts: nat, cs: nat)
    requires ts + cs <= |b| && (k == ByteKind <==> |b| > 0 && b[0] < 0x80)
    requires if k == ByteKind then ts == 0 && cs == 1 else ts > 0 && b[..ts] == Header(SmallTag(k), LargeTag(k), cs)
    requires k == StringKind && cs == 1 ==> ts == 1 && b[1] >= 128
    ensures var content := b[ts..ts + cs];
            && b == Whole(k, content) + b[ts + cs..]
            && (k != ListKind ==> (k == ByteKind <==> |content| == 1 && content[0] <= 0x7F))
  {
    hide Header;
    var content := b[ts..ts + cs];
    assert b == b[..ts] + content + b[ts + cs..];
    if k == ByteKind {
      assert content[0] == b[0] && b[..ts] + content == content;
    } else if cs == 1 {
      assert content[0] == b[ts];
    }
  }

  // ---------------------------------------------------------------- recursive use of the parser

  /** Decodes one value by splitting recursively; also returns what follows it. */
  function Parse(b: Bytes): (r: Option<(Item, Bytes)>)
    ensures r.Some? ==> |r.value.1| < |b|
    decreases |b|, 0
  {
    var s := Split(b);
    if s.Err? then None
    else
      var Piece(k, content, rest) := s.value;
      SplitIsCanonical(b);
      if k != ListKind then Some((Str(content), rest))
      else
        var xs := ParseAll(content);
        if xs.None? then None else Some((List(xs.value), rest))
  }

  function ParseAll(b: Bytes): Option<seq<Item>>
    decreases |b|, 1
  {
    if b == [] then Some([])
    else
      var r := Parse(b);
      if r.None? then None
      else
        var tail := ParseAll(r.value.1);
        if tail.None? then None else Some([r.value.0] + tail.value)
  }

  /** Decoding undoes encoding, whatever follows the value. */
  lemma {:induction false} ParseEncode(x: Item, rest: Bytes)
    requires |Encode(x)| <= MAX_UINT64
    ensures Parse(Encode(x) + rest) == Some((x, rest))
    decreases x, 1
  {
    hide Split;
    SplitWhole(KindOf(x), ContentOf(x), rest);
    assert Whole(KindOf(x), ContentOf(x)) == Encode(x);
    if x.List? { ParseAllEncode(x.items); }
  }

  lemma {:induction false} ParseAllEncode(xs: seq<Item>)
    requires |EncodeAll(xs)| <= MAX_UINT64
    ensures ParseAll(EncodeAll(xs)) == Some(xs)
    decreases xs, 0
  {
    hide Parse;
    if xs != [] {
      ParseEncode(xs[0], EncodeAll(xs[1..]));
      EncodeNonEmpty(xs[0]);
      ParseAllEncode(xs[1..]);
      assert [xs[0]] + xs[1..] == xs;
    }
  }

  lemma EncodeNonEmpty(x: Item)
    ensures |Encode(x)| > 0
  {
  }

  /** Encoding undoes decoding: nothing but the encoding of an item decodes to it. */
  lemma {:induction false} ParseIsCanonical(b: Bytes)
    requires Parse(b).Some?
    ensures b == Encode(Parse(b).value.0) + Parse(b).value.1
    decreases |b|, 0
  {
    hide Split;
    SplitIsCanonical(b);
    var Piece(k, content, rest) := Split(b).value;
    if k == ListKind { ParseAllIsCanonical(content); }
  }

  lemma {:induction false} ParseAllIsCanonical(b: Bytes)
    requires ParseAll(b).Some?
    ensures b == EncodeAll(ParseAll(b).value)
    decreases |b|, 1
  {
    hide Parse;
    if b != [] {
      ParseIsCanonical(b);
      var (x, rest) := Parse(b).value;
      ParseAllIsCanonical(rest);
      assert ([x] + ParseAll(rest).value)[1..] == ParseAll(rest).value;
    }
  }

  /** The codec is a bijection: a slice decodes to an item exactly when it is its encoding. */
  lemma DecodingIsExact(b: Bytes, x: Item)
    requires |b| <= MAX_INT64
    ensures Parse(b) == Some((x, [])) <==> b == Encode(x)
  {
    hide Parse, Encode;
    if b == Encode(x) {
      ParseEncode(x, []);
      assert Encode(x) + [] == b;
    }
    if Parse(b) == Some((x, [])) {
      ParseIsCanonical(b);
    }
  }

  /** No encoding is a proper prefix of another. */
  lemma EncodingIsPrefixFree(x: Item, y: Item, r: Bytes, s: Bytes)
    requires |Encode(x)| <= MAX_UINT64 && |Encode(y)| <= MAX_UINT64
    requires Encode(x) + r == Encode(y) + s
    ensures x == y && r == s
  {
    hide Parse, Encode;
    ParseEncode(x, r);
    ParseEncode(y, s);
  }

  // ---------------------------------------------------------------- counting values

  /** The number of values in a slice, without looking inside them. */
  function Values(b: Bytes): Result<nat>
    decreases |b|
  {
    if b == [] then Ok(0)
    else
      var r := ReadKind(b);
      if r.Err? then Err(r.error)
      else
        var rest := Values(b[r.value.tagSize + r.value.contentSize..]);
        if rest.Err? then rest else Ok(rest.value + 1)
  }

  /** `CountValues`: steps over one value at a time. */
  method CountValues(b: Bytes) returns (r: Result<nat>)
    ensures r == Values(b)
  {
    var rest, i := b, 0;
    while |rest| > 0
      invariant Values(b) == if Values(rest).Err? then Values(rest) else Ok(i + Values(rest).value)
      decreases |rest|
    {
      var t := ReadKind(rest);
      if t.Err? {
        return Err(t.error);
      }
      rest := rest[t.value.tagSize + t.value.contentSize..];
      i := i + 1;
    }
    return Ok(i);
  }

  lemma {:induction false} ValuesOfList(xs: seq<Item>)
    requires |EncodeAll(xs)| <= MAX_UINT64
    ensures Values(EncodeAll(xs)) == Ok(|xs|)
  {
    hide ReadKind;
    if xs != [] {
      var x, rest := xs[0], EncodeAll(xs[1..]);
      EncodeNonEmpty(x);
      SplitWhole(KindOf(x), ContentOf(x), rest);
      assert Whole(KindOf(x), ContentOf(x)) == Encode(x);
      ValuesOfList(xs[1..]);
    }
  }
}
