/**
 The two-pass encoder: string data is appended at once, list headers are remembered with their
 position and filled in when the list ends, and only the output pass interleaves the two.
 */
module RlpEncoder {
  import opened Rlp

  /** A list header: its index in the string data, and the size of the list's payload.  Until
      the list ends, `size` holds the header bytes that were pending when it started. */
  datatype ListHead = ListHead(offset: nat, size: nat)

  function HeadBytes(h: ListHead): Bytes {
    Header(0xC0, 0xF7, h.size)
  }

  /** Headers in the order of their positions, all between `lo` and `hi`. */
  ghost predicate Ascending(heads: seq<ListHead>, lo: nat, hi: nat) {
    if heads == [] then lo <= hi
    else lo <= heads[0].offset <= hi && Ascending(heads[1..], heads[0].offset, hi)
  }

  /** String data from `pos` on with the given headers interleaved. */
  ghost function Render(str: Bytes, heads: seq<ListHead>, pos: nat): Bytes
    requires Ascending(heads, pos, |str|)
    decreases |heads|
  {
    if heads == [] then str[pos..]
    else str[pos..heads[0].offset] + HeadBytes(heads[0]) + Render(str, heads[1..], heads[0].offset)
  }

  lemma {:induction false} AscendingWithin(heads: seq<ListHead>, lo: nat, hi: nat)
    requires Ascending(heads, lo, hi)
    ensures lo <= hi
  {
  }

  /** Rendering up to a position and on from there gives the whole. */
  lemma {:induction false} RenderSplit(str: Bytes, front: seq<ListHead>, back: seq<ListHead>, pos: nat, mid: nat)
    requires Ascending(front, pos, mid) && Ascending(back, mid, |str|)
    ensures pos <= mid <= |str| && Ascending(front + back, pos, |str|)
    ensures Render(str, front + back, pos) == Render(str[..mid], front, pos) + Render(str, back, mid)
    decreases |front|
  {
    hide HeadBytes;
    AscendingWithin(front, pos, mid);
    AscendingWithin(back, mid, |str|);
    if front == [] {
      assert front + back == back;
      RenderLead(str, back, pos, mid);
    } else {
      var h := front[0];
      RenderSplit(str, front[1..], back, h.offset, mid);
      assert (front + back)[1..] == front[1..] + back;
      assert str[pos..h.offset] == str[..mid][pos..h.offset];
      Assoc(str[pos..h.offset] + HeadBytes(h), Render(str[..mid], front[1..], h.offset), Render(str, back, mid));
    }
  }

  lemma Assoc(a: Bytes, b: Bytes, c: Bytes)
    ensures a + (b + c) == (a + b) + c
  {
  }

  lemma {:induction false} RenderLead(str: Bytes, heads: seq<ListHead>, pos: nat, mid: nat)
    requires pos <= mid <= |str| && Ascending(heads, mid, |str|)
    ensures Ascending(heads, pos, |str|)
    ensures Render(str, heads, pos) == str[..mid][pos..] + Render(str, heads, mid)
  {
    hide HeadBytes;
    if heads == [] {
      assert str[pos..] == str[..mid][pos..] + str[mid..];
    } else {
      var a, b := str[..mid][pos..], str[mid..heads[0].offset];
      var c, d := HeadBytes(heads[0]), Render(str, heads[1..], heads[0].offset);
      assert str[pos..heads[0].offset] == a + b;
      assert (a + b) + c + d == a + (b + c + d);
    }
  }

  /** The contents of an encoder buffer. */
  datatype Buf = Buf(str: Bytes, lheads: seq<ListHead>, lhsize: nat)

  /** `b` has grown out of `a` by exactly the rendering of `out`; header bytes are counted but
      not placed yet. */
  ghost predicate Grown(a: Buf, b: Buf, out: Bytes) {
    && |a.str| <= |b.str| && b.str[..|a.str|] == a.str
    && |a.lheads| <= |b.lheads| && b.lheads[..|a.lheads|] == a.lheads
    && Ascending(b.lheads[|a.lheads|..], |a.str|, |b.str|)
    && Render(b.str, b.lheads[|a.lheads|..], |a.str|) == out
    && b.lhsize == a.lhsize + |out| - (|b.str| - |a.str|)
  }

  lemma GrownString(a: Buf, b: Bytes)
    ensures Grown(a, a.(str := a.str + EncodeString(b)), EncodeString(b))
  {
    hide EncodeString;
    assert a.lheads[|a.lheads|..] == [];
    assert (a.str + EncodeString(b))[|a.str|..] == EncodeString(b);
  }

  lemma GrownNothing(a: Buf)
    ensures Grown(a, a, [])
  {
    assert a.lheads[|a.lheads|..] == [];
    assert a.str[|a.str|..] == [];
  }

  lemma GrownTrans(a: Buf, b: Buf, c: Buf, out1: Bytes, out2: Bytes)
    requires Grown(a, b, out1) && Grown(b, c, out2)
    ensures Grown(a, c, out1 + out2)
  {
    hide Render, Ascending;
    var front, back := b.lheads[|a.lheads|..], c.lheads[|b.lheads|..];
    RenderSplit(c.str, front, back, |a.str|, |b.str|);
    assert c.lheads == c.lheads[..|b.lheads|] + back;
    assert c.lheads[|a.lheads|..] == front + back;
    assert c.str[..|b.str|] == b.str;
    assert c.str[..|a.str|] == c.str[..|b.str|][..|a.str|];
    assert c.lheads[..|a.lheads|] == c.lheads[..|b.lheads|][..|a.lheads|];
  }

  /** The buffer with a list opened; the header remembers what was pending. */
  function Opened(a: Buf): Buf {
    a.(lheads := a.lheads + [ListHead(|a.str|, a.lhsize)])
  }

  /** The buffer with the list that was opened as number `i` closed. */
  function Closed(c: Buf, i: nat): Buf
    requires i < |c.lheads| && c.lheads[i].offset + c.lheads[i].size <= |c.str| + c.lhsize
  {
    var size := |c.str| + c.lhsize - c.lheads[i].offset - c.lheads[i].size;
    Buf(c.str, c.lheads[i := c.lheads[i].(size := size)], c.lhsize + |Header(0xC0, 0xF7, size)|)
  }

  /** Closing a list puts the header with the exact payload size in front of the payload. */
  lemma GrownList(a: Buf, c: Buf, payload: Bytes)
    requires Grown(Opened(a), c, payload)
    ensures |a.lheads| < |c.lheads| && c.lheads[|a.lheads|] == ListHead(|a.str|, a.lhsize)
    ensures |c.str| + c.lhsize - |a.str| - a.lhsize == |payload|
    ensures Grown(a, Closed(c, |a.lheads|), EncodeList(payload))
  {
    var i := |a.lheads|;
    var b := Opened(a);
    assert c.lheads[..i + 1] == b.lheads;
    assert c.lheads[i] == c.lheads[..i + 1][i];
    var d := Closed(c, i);
    var inner := c.lheads[i + 1..];
    hide Header;
    var h := ListHead(|a.str|, |payload|);
    assert d.lheads[i] == h && d.lheads[i + 1..] == inner;
    assert d.lheads[i..] == [h] + inner;
    assert d.lheads[i..][1..] == inner;
    assert d.lheads[..i] == c.lheads[..i + 1][..i] == a.lheads;
    assert d.str[|a.str|..|a.str|] == [];
  }

  class EncBuf {
    var str: Bytes
    var lheads: seq<ListHead>
    var lhsize: nat

    constructor ()
      ensures Contents() == Buf([], [], 0)
    {
      str, lheads, lhsize := [], [], 0;
    }

    function Contents(): Buf
      reads this
    {
      Buf(str, lheads, lhsize)
    }

    function Size(): nat
      reads this
    {
      |str| + lhsize
    }

    /** Appends a string: a short one alone, any other after its header. */
    method PutString(b: Bytes)
      requires |b| <= MAX_UINT64
      modifies this`str
      ensures str == old(str) + EncodeString(b)
    {
      if |b| == 1 && b[0] <= 0x7F {
        str := str + b;
      } else {
        PutStringHeader(|b|);
        hide Header;
        str := str + b;
        assert str == old(str) + (Header(0x80, 0xB7, |b|) + b);
      }
    }

    method PutStringHeader(size: nat)
      requires size <= MAX_UINT64
      modifies this`str
      ensures str == old(str) + Header(0x80, 0xB7, size)
    {
      hide IntBytes;
      if size < 56 {
        str := str + [0x80 + size];
      } else {
        PutIntMinimal(size);
        IntBytesOfUint64(size);
        var sizeBytes := PutInt(size);
        str := str + ([0xB7 + |sizeBytes|] + sizeBytes);
      }
    }

    /** Opens a list and returns the number of its header. */
    method OpenList() returns (i: nat)
      modifies this`lheads
      ensures Contents() == Opened(old(Contents())) && i == |old(lheads)|
    {
      i := |lheads|;
      lheads := lheads + [ListHead(|str|, lhsize)];
    }

    /** Closes a list: its header gets the size of everything written since, headers included. */
    method CloseList(i: nat)
      requires i < |lheads| && lheads[i].offset + lheads[i].size <= Size()
      modifies this`lheads, this`lhsize
      ensures Contents() == Closed(old(Contents()), i)
    {
      var size := Size() - lheads[i].offset - lheads[i].size;
      lheads := lheads[i := lheads[i].(size := size)];
      if size < 56 {
        lhsize := lhsize + 1;
      } else {
        var n := IntSize(size);
        lhsize := lhsize + 1 + n;
      }
    }

    /** Encodes an item at the end of the buffer. */
    method Put(x: Item)
      requires |Encode(x)| <= MAX_UINT64
      modifies this
      ensures Grown(old(Contents()), Contents(), Encode(x))
      decreases x, 1
    {
      hide EncodeString, EncodeList, Grown, Closed, Opened;
      match x {
        case Str(b) =>
          ContentFits(x);
          GrownString(Contents(), b);
          PutString(b);
        case List(items) =>
          ContentFits(x);
          var i := OpenList();
          PutAll(items);
          GrownList(old(Contents()), Contents(), EncodeAll(items));
          CloseList(i);
      }
    }

    method PutAll(xs: seq<Item>)
      requires |EncodeAll(xs)| <= MAX_UINT64
      modifies this
      ensures Grown(old(Contents()), Contents(), EncodeAll(xs))
      decreases xs, 0
    {
      hide Grown, Encode;
      ghost var a := Contents();
      if xs == [] {
        GrownNothing(a);
      } else {
        Put(xs[0]);
        ghost var b := Contents();
        PutAll(xs[1..]);
        GrownTrans(a, b, Contents(), Encode(xs[0]), EncodeAll(xs[1..]));
      }
    }
  }

  // ---------------------------------------------------------------- output

  lemma GrownRenders(b: Buf, out: Bytes)
    requires Grown(Buf([], [], 0), b, out)
    ensures Ascending(b.lheads, 0, |b.str|) && Render(b.str, b.lheads, 0) == out
    ensures |b.str| + b.lhsize == |out|
  {
    assert b.lheads[0..] == b.lheads;
  }

  /** The output still to come after the first `i` headers and `pos` bytes of string data. */
  ghost predicate Left(b: Buf, i: nat, pos: nat, out: Bytes) {
    && i <= |b.lheads| && Ascending(b.lheads[i..], pos, |b.str|)
    && Render(b.str, b.lheads[i..], pos) == out
  }

  lemma LeftStart(b: Buf, out: Bytes)
    requires Ascending(b.lheads, 0, |b.str|) && Render(b.str, b.lheads, 0) == out
    ensures Left(b, 0, 0, out)
  {
    assert b.lheads[0..] == b.lheads;
  }

  lemma LeftHead(b: Buf, i: nat, pos: nat, out: Bytes) returns (rest: Bytes)
    requires Left(b, i, pos, out) && i < |b.lheads|
    ensures pos <= b.lheads[i].offset <= |b.str|
    ensures out == b.str[pos..b.lheads[i].offset] + HeadBytes(b.lheads[i]) + rest
    ensures Left(b, i + 1, b.lheads[i].offset, rest)
    ensures Left(b, i, b.lheads[i].offset, HeadBytes(b.lheads[i]) + rest)
  {
    hide HeadBytes;
    assert b.lheads[i..][1..] == b.lheads[i + 1..];
    rest := Render(b.str, b.lheads[i + 1..], b.lheads[i].offset);
    var off := b.lheads[i].offset;
    assert b.str[off..off] == [];
  }

  lemma LeftTail(b: Buf, pos: nat, out: Bytes)
    requires Left(b, |b.lheads|, pos, out)
    ensures pos <= |b.str| && out == b.str[pos..]
    ensures Left(b, |b.lheads|, |b.str|, [])
  {
    assert b.lheads[|b.lheads|..] == [];
  }

  /** Copies `src` into `out` at `pos`. */
  method CopyInto(out: array<Byte>, pos: nat, src: Bytes)
    requires pos + |src| <= out.Length
    modifies out
    ensures out[..pos] == old(out[..pos]) && out[pos..pos + |src|] == src
  {
    for i := 0 to |src|
      invariant out[..pos] == old(out[..pos])
      invariant out[pos..pos + i] == src[..i]
    {
      out[pos + i] := src[i];
    }
  }

  /** `toBytes`: one output buffer of the exact size, filled front to back. */
  method ToBytes(b: Buf, ghost whole: Bytes) returns (out: array<Byte>)
    requires Ascending(b.lheads, 0, |b.str|) && Render(b.str, b.lheads, 0) == whole
    requires |b.str| + b.lhsize == |whole|
    ensures out[..] == whole && fresh(out)
  {
    hide HeadBytes, Left, Render, Ascending;
    out := new Byte[|b.str| + b.lhsize];
    var strpos: nat, pos: nat := 0, 0;
    LeftStart(b, whole);
    ghost var left := whole;
    for i := 0 to |b.lheads|
      invariant pos <= out.Length && Left(b, i, strpos, left)
      invariant out[..pos] + left == whole
    {
      var head := b.lheads[i];
      ghost var done := out[..pos];
      left := LeftHead(b, i, strpos, left);
      var data, enc := b.str[strpos..head.offset], HeadBytes(head);
      CopyInto(out, pos, data);
      CopyInto(out, pos + |data|, enc);
      AppendTwo(out, pos, done, data, enc);
      Assoc(done, data + enc, left);
      pos := pos + |data| + |enc|;
      strpos := head.offset;
    }
    LeftTail(b, strpos, left);
    CopyInto(out, pos, b.str[strpos..]);
    assert out[..] == out[..pos] + out[pos..];
  }

  lemma AppendTwo(out: array<Byte>, pos: nat, done: Bytes, x: Bytes, y: Bytes)
    requires pos + |x| + |y| <= out.Length
    requires out[..pos] == done && out[pos..pos + |x|] == x && out[pos + |x|..pos + |x| + |y|] == y
    ensures out[..pos + |x| + |y|] == done + (x + y)
  {
  }

  /** `toWriter`: the same pieces handed to a writer, which may fail at any write. */
  method ToWriter(b: Buf, ghost whole: Bytes) returns (ok: bool, written: Bytes)
    requires Ascending(b.lheads, 0, |b.str|) && Render(b.str, b.lheads, 0) == whole
    ensures ok ==> written == whole
    ensures !ok ==> written <= whole
  {
    hide HeadBytes, Left, Render, Ascending;
    ok, written := true, [];
    var strpos: nat := 0;
    LeftStart(b, whole);
    ghost var left := whole;
    for i := 0 to |b.lheads|
      invariant Left(b, i, strpos, left)
      invariant written + left == whole
    {
      var head := b.lheads[i];
      left := LeftHead(b, i, strpos, left);
      var data, enc := b.str[strpos..head.offset], HeadBytes(head);
      Assoc(written, data + enc, left);
      Assoc(written, data, enc);
      if |data| > 0 {
        ok := *;
        if !ok { return; }
        written := written + data;
        strpos := head.offset;
      }
      ok := *;
      if !ok { return; }
      written := written + enc;
      assert strpos == head.offset;
    }
    LeftTail(b, strpos, left);
    if strpos < |b.str| {
      ok := *;
      if !ok { return; }
      written := written + b.str[strpos..];
    }
  }

  /** `encReader`: hands the encoding out piece by piece, in whatever portions it is asked for. */
  class EncReader {
    const buf: Buf
    var atEnd: bool      // the buffer has been given back
    var lhpos: nat
    var strpos: nat
    var piece: Bytes     // next piece to be read; empty when there is none
    ghost var rest: Bytes

    ghost predicate Valid()
      reads this
    {
      if atEnd then piece == [] && rest == [] else Left(buf, lhpos, strpos, rest)
    }

    /** Everything that has not been read yet. */
    ghost function Unread(): Bytes
      reads this
    {
      piece + rest
    }

    constructor (b: Buf, ghost whole: Bytes)
      requires Ascending(b.lheads, 0, |b.str|) && Render(b.str, b.lheads, 0) == whole
      ensures Valid() && Unread() == whole
    {
      buf, atEnd, lhpos, strpos, piece, rest := b, false, 0, 0, [], whole;
      LeftStart(b, whole);
    }

    /** Fetches the next piece unless one is pending. */
    method Next()
      requires Valid()
      modifies this`lhpos, this`strpos, this`piece, this`rest
      ensures Valid() && Unread() == old(Unread())
      ensures piece == [] <==> Unread() == []
    {
      hide HeadBytes, Left;
      if atEnd || piece != [] {
        return;
      }
      if lhpos < |buf.lheads| {
        var head := buf.lheads[lhpos];
        ghost var after := LeftHead(buf, lhpos, strpos, rest);
        HeadNonEmpty(head);
        if head.offset > strpos {
          piece := buf.str[strpos..head.offset];
          strpos := head.offset;
          rest := HeadBytes(head) + after;
          assert piece + rest == old(rest);
        } else {
          assert buf.str[strpos..head.offset] == [];
          lhpos := lhpos + 1;
          piece := HeadBytes(head);
          rest := after;
        }
      } else {
        LeftIndex(buf, lhpos, strpos, rest);
        LeftTail(buf, strpos, rest);
        if strpos < |buf.str| {
          piece := buf.str[strpos..];
          strpos := |buf.str|;
          rest := [];
        }
      }
    }

    /** Reads up to `n` bytes; reports the end once nothing is left. */
    method Read(n: nat) returns (out: Bytes, eof: bool)
      requires Valid()
      modifies this
      ensures Valid() && old(Unread()) == out + Unread()
      ensures |out| == if n < |old(Unread())| then n else |old(Unread())|
      ensures eof <==> |old(Unread())| <= n
    {
      hide Left;
      out := [];
      while true
        invariant Valid() && old(Unread()) == out + Unread() && |out| <= n
        decreases |Unread()|
      {
        Next();
        if piece == [] {
          atEnd, rest := true, [];
          return out, true;
        }
        var k := if n - |out| < |piece| then n - |out| else |piece|;
        assert piece == piece[..k] + piece[k..];
        out := out + piece[..k];
        if k < |piece| {
          piece := piece[k..];
          return out, false;
        }
        piece := [];
      }
    }
  }

  lemma HeadNonEmpty(h: ListHead)
    ensures |HeadBytes(h)| > 0
  {
  }

  lemma LeftIndex(b: Buf, i: nat, pos: nat, out: Bytes)
    requires Left(b, i, pos, out)
    ensures i <= |b.lheads|
  {
  }

  /** Reading with any sequence of buffer sizes yields the encoding in order, and all of it once
      the sizes add up to enough. */
  method ReadAll(x: Item, sizes: seq<nat>) returns (out: Bytes, eof: bool)
    requires |Encode(x)| <= MAX_UINT64
    ensures out <= Encode(x) && (eof ==> out == Encode(x))
    ensures sizes != [] && Total(sizes) >= |Encode(x)| ==> eof
  {
    hide Encode, Grown, Total, Left;
    var e := new EncBuf();
    e.Put(x);
    GrownRenders(e.Contents(), Encode(x));
    TotalNone(sizes);
    var r := new EncReader(e.Contents(), Encode(x));
    out, eof := [], false;
    for i := 0 to |sizes|
      invariant r.Valid() && fresh(r) && Encode(x) == out + r.Unread()
      invariant eof ==> r.Unread() == []
      invariant i > 0 && Total(sizes[..i]) >= |Encode(x)| ==> eof
      invariant !eof ==> |out| == Total(sizes[..i])
    {
      TotalNext(sizes, i);
      var chunk, end := r.Read(sizes[i]);
      Assoc(out, chunk, r.Unread());
      out, eof := out + chunk, end;
    }
    assert sizes[..|sizes|] == sizes;
  }

  function Total(sizes: seq<nat>): nat {
    if sizes == [] then 0 else Total(sizes[..|sizes| - 1]) + sizes[|sizes| - 1]
  }

  lemma TotalNext(sizes: seq<nat>, i: nat)
    requires i < |sizes|
    ensures Total(sizes[..i + 1]) == Total(sizes[..i]) + sizes[i]
  {
    assert sizes[..i + 1][..i] == sizes[..i];
  }

  lemma TotalNone(sizes: seq<nat>)
    ensures Total(sizes[..0]) == 0
  {
  }

  /** Encoding an item with the two-pass encoder gives its recursive encoding. */
  method EncodeToBytes(x: Item) returns (out: array<Byte>)
    requires |Encode(x)| <= MAX_UINT64
    ensures out[..] == Encode(x)
  {
    hide Encode, Grown;
    var e := new EncBuf();
    e.Put(x);
    GrownRenders(e.Contents(), Encode(x));
    out := ToBytes(e.Contents(), Encode(x));
  }

  lemma ContentFits(x: Item)
    ensures |ContentOf(x)| <= |Encode(x)|
  {
  }
}
