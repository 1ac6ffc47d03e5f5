/**
 The stream decoder: it reads type tags and contents from an input it cannot look back into,
 and keeps a stack of the lists it is inside of.  Decoding a byte slice into an interface value
 accepts exactly what recursive use of `Split` accepts.
 */
module RlpStream {
  import opened Common
  import opened Rlp

  /** A list being decoded: how many of its `size` bytes have been read. */
  datatype Frame = Frame(pos: nat, size: nat)

  /** What a type tag announces: its own length and the size of the content behind it. */
  datatype Head = Head(kind: Kind, length: nat, size: nat)

  /** The result of a stream operation; `Eol` marks the end of the innermost list. */
  datatype Outcome<+T> = Done(value: T) | Eol | Failed

  /** The tag at the start of a window, as the stream reads it. */
  function TagOf(w: Bytes): Option<Head> {
    if w == [] then None
    else if w[0] < 0x80 then Some(Head(ByteKind, 1, 0))
    else if w[0] < 0xB8 then Some(Head(StringKind, 1, w[0] - 0x80))
    else if w[0] < 0xC0 then LongTagOf(w, StringKind, w[0] - 0xB7)
    else if w[0] < 0xF8 then Some(Head(ListKind, 1, w[0] - 0xC0))
    else LongTagOf(w, ListKind, w[0] - 0xF7)
  }

  function LongTagOf(w: Bytes, k: Kind, slen: nat): Option<Head>
    requires 1 <= slen <= 8
  {
    if 1 + slen > |w| then None
    else
      var s := BigEndian(w[1..1 + slen]);
      if s < 56 || w[1] == 0 then None else Some(Head(k, 1 + slen, s))
  }

  /** The tag promises a value that lies within the window and is canonical. */
  ghost predicate Fits(w: Bytes, h: Head) {
    && h.length <= |w| && h.size <= |w| - h.length
    && (h.kind == StringKind && h.size == 1 ==> w[h.length] >= 128)
  }

  ghost function PieceOf(w: Bytes, h: Head): Piece
    requires TagOf(w) == Some(h) && Fits(w, h)
  {
    if h.kind == ByteKind then Piece(ByteKind, w[..1], w[1..])
    else Piece(h.kind, w[h.length..h.length + h.size], w[h.length + h.size..])
  }

  lemma LongTagAgrees(w: Bytes, k: Kind, slen: nat)
    requires 1 <= slen <= 8 && |w| > 0
    ensures var r := ReadSize(w[1..], slen);
            && LongTagOf(w, k, slen) == (if r.Ok? then Some(Head(k, 1 + slen, r.value)) else None)
            && (r.Ok? ==> r.value >= 56 && slen < |w|)
  {
    if slen < |w| {
      assert w[1..][..slen] == w[1..1 + slen];
      assert w[1..][0] == w[1];
    }
  }

  /** Stream tag, size check and canonical check together accept exactly what `Split` accepts. */
  lemma TagAgrees(w: Bytes)
    ensures Split(w).Ok? <==> TagOf(w).Some? && Fits(w, TagOf(w).value)
    ensures Split(w).Ok? ==> Split(w).value == PieceOf(w, TagOf(w).value)
  {
    hide BigEndian, ReadSize, LongTagOf;
    if w != [] {
      if 0xB8 <= w[0] < 0xC0 { LongTagAgrees(w, StringKind, w[0] - 0xB7); }
      if 0xF8 <= w[0] { LongTagAgrees(w, ListKind, w[0] - 0xF7); }
    }
  }

  function AdvanceTop(stack: seq<Frame>, n: nat): seq<Frame> {
    if stack == [] then []
    else
      var k := |stack| - 1;
      stack[k := Frame(stack[k].pos + n, stack[k].size)]
  }

  class Stream {
    const input: Bytes
    var off: nat                // position of the reader
    var remaining: nat          // bytes left under the input limit
    var kind: Option<Kind>      // kind of the value ahead, if its tag has been read
    var size: nat
    var byteval: Byte
    var stack: seq<Frame>

    /** Every list frame keeps its position within its size, and the innermost one lies within
        the input. */
    ghost predicate Valid()
      reads this
    {
      && off <= |input| && remaining == |input| - off
      && (forall i :: 0 <= i < |stack| ==> stack[i].pos <= stack[i].size)
      && (stack != [] ==> Top().size - Top().pos <= remaining)
    }

    function Top(): Frame
      requires stack != []
      reads this
    {
      stack[|stack| - 1]
    }

    /** What may still be read: the rest of the innermost list, or of the input. */
    ghost function Window(): Bytes
      requires Valid()
      reads this
    {
      if stack == [] then input[off..] else input[off..off + (Top().size - Top().pos)]
    }

    constructor (b: Bytes)
      ensures Valid() && stack == [] && kind == None && Window() == b && input == b && off == 0
    {
      input, off, remaining, kind, size, byteval, stack := b, 0, |b|, None, 0, 0, [];
    }

    /** Announces a read of `n` bytes to the enclosing list and to the input limit. */
    method WillRead(n: nat) returns (ok: bool)
      requires Valid()
      modifies this`kind, this`stack, this`remaining
      ensures ok <==> n <= old(|Window()|)
      ensures ok ==> stack == AdvanceTop(old(stack), n) && remaining == old(remaining) - n && kind == None
    {
      kind := None;
      if |stack| > 0 {
        if n > Top().size - Top().pos {
          return false;
        }
        stack := AdvanceTop(stack, n);
      }
      if n > remaining {
        return false;
      }
      remaining := remaining - n;
      return true;
    }

    /** Reads exactly `n` bytes. */
    method ReadFull(n: nat) returns (ok: bool, b: Bytes)
      requires Valid()
      modifies this`kind, this`stack, this`remaining, this`off
      ensures ok <==> n <= old(|Window()|)
      ensures ok ==> Valid() && b == old(Window())[..n] && Window() == old(Window())[n..]
      ensures ok ==> stack == AdvanceTop(old(stack), n) && off == old(off) + n && kind == None
    {
      b := [];
      ok := WillRead(n);
      if ok {
        b := input[off..off + n];
        off := off + n;
      }
    }

    method ReadByte() returns (ok: bool, b: Byte)
      requires Valid()
      modifies this`kind, this`stack, this`remaining, this`off
      ensures ok <==> old(Window()) != []
      ensures ok ==> Valid() && b == old(Window())[0] && Window() == old(Window())[1..]
      ensures ok ==> stack == AdvanceTop(old(stack), 1) && off == old(off) + 1 && kind == None
    {
      var bs;
      ok, bs := ReadFull(1);
      b := if ok then bs[0] else 0;
    }

    /** Reads an integer of one to eight bytes; only the longer ones are checked for a leading
        zero here. */
    method ReadUint(n: nat) returns (ok: bool, v: nat)
      requires Valid() && 1 <= n <= 8
      modifies this`kind, this`stack, this`remaining, this`off
      ensures ok <==> n <= old(|Window()|) && (n == 1 || old(Window())[0] != 0)
      ensures ok ==> Valid() && v == BigEndian(old(Window())[..n]) && Window() == old(Window())[n..]
      ensures ok ==> stack == AdvanceTop(old(stack), n) && off == old(off) + n && kind == None
    {
      var bs;
      ok, bs := ReadFull(n);
      v := 0;
      if ok {
        v := BigEndian(bs);
        ok := n == 1 || bs[0] != 0;
      }
    }

    /** Reads a type tag, without comparing its size with what is left. */
    method ReadTag() returns (ok: bool, k: Kind, n: nat)
      requires Valid()
      modifies this`kind, this`stack, this`remaining, this`off, this`byteval
      ensures ok <==> TagOf(old(Window())).Some?
      ensures ok ==> old(Window()) != []
      ensures ok ==> var h := TagOf(old(Window())).value;
                     && k == h.kind && n == h.size && h.length <= old(|Window()|)
                     && Valid() && Window() == old(Window())[h.length..]
                     && stack == AdvanceTop(old(stack), h.length) && off == old(off) + h.length
                     && (k == ByteKind ==> byteval == old(Window())[0])
    {
      hide LongTagOf, BigEndian, AdvanceTop;
      ghost var w := Window();
      AdvanceOneMore(stack);
      k, n := ByteKind, 0;
      var b;
      ok, b := ReadByte();
      if !ok {
        return;
      }
      byteval := 0;
      if b < 0x80 {
        byteval := b;
      } else if b < 0xB8 {
        k, n := StringKind, b - 0x80;
      } else if b < 0xC0 {
        k := StringKind;
        LongTagKind(w, b - 0xB7);
        ok, n := ReadLongSize(b - 0xB7, w);
      } else if b < 0xF8 {
        k, n := ListKind, b - 0xC0;
      } else {
        k := ListKind;
        LongTagKind(w, b - 0xF7);
        ok, n := ReadLongSize(b - 0xF7, w);
      }
    }

    /** Reads a separate size behind the first byte of the window `w`. */
    method ReadLongSize(slen: nat, ghost w: Bytes) returns (ok: bool, n: nat)
      requires Valid() && 1 <= slen <= 8 && |w| > 0 && Window() == w[1..]
      modifies this`kind, this`stack, this`remaining, this`off
      ensures ok <==> LongTagOf(w, ListKind, slen).Some?
      ensures ok ==> && LongTagOf(w, ListKind, slen).value.size == n
                     && Valid() && Window() == w[1 + slen..]
                     && stack == AdvanceTop(old(stack), slen) && off == old(off) + slen
    {
      hide BigEndian;
      ok, n := ReadUint(slen);
      if ok {
        assert w[1..][..slen] == w[1..1 + slen];
        if slen == 1 { BigEndianSingle(w[1..2]); }
        ok := n >= 56;
      }
    }

    /** The kind and size of the next value; the tag is read once and remembered. */
    method NextKind() returns (r: Outcome<(Kind, nat)>)
      requires Valid() && kind == None
      modifies this
      ensures old(stack) != [] && old(Window()) == [] ==> r == Eol && Moved([], 0, old(off), old(stack))
      ensures old(stack) == [] || old(Window()) != [] ==>
                var w := old(Window());
                && (r.Done? <==> TagOf(w).Some? && Announced(w, TagOf(w).value))
                && r != Eol
                && (r.Done? ==> var h := TagOf(w).value; r.value == (h.kind, h.size)
                                                         && Tagged(w, h, old(off), old(stack)))
    {
      hide TagOf, AdvanceTop;
      if |stack| > 0 && Top().pos == Top().size {
        AtListEnd();
        MoveStart();
        return Eol;
      }
      r := TagKind();
    }

    lemma AtListEnd()
      requires Valid() && |stack| > 0 && Top().pos == Top().size
      ensures Window() == []
    {
    }

    /** The kind and size of a value that is not the end of a list. */
    method TagKind() returns (r: Outcome<(Kind, nat)>)
      requires Valid() && kind == None && (stack == [] || Window() != [])
      modifies this
      ensures var w := old(Window());
              && (r.Done? <==> TagOf(w).Some? && Announced(w, TagOf(w).value))
              && r != Eol
              && (r.Done? ==> var h := TagOf(w).value; r.value == (h.kind, h.size)
                                                       && Tagged(w, h, old(off), old(stack)))
    {
      hide TagOf, AdvanceTop;
      var ok, k, n := ReadTag();
      if !ok {
        return Failed;
      }
      kind, size := Some(k), n;
      if |stack| == 0 && n > remaining {
        return Failed;
      }
      if |stack| > 0 && n > Top().size - Top().pos {
        return Failed;
      }
      return Done((k, n));
    }

    /** The tag `h` at the start of `w` has just been read. */
    ghost predicate Tagged(w: Bytes, h: Head, off0: nat, stack0: seq<Frame>)
      reads this
    {
      && Valid() && 0 < |w| && h.length <= |w| && Window() == w[h.length..]
      && kind == Some(h.kind) && size == h.size && h.size <= |w| - h.length
      && stack == AdvanceTop(stack0, h.length) && off == off0 + h.length
      && (h.kind == ByteKind ==> byteval == w[0])
    }

    /** The stream has moved `n` bytes ahead of `w` and is ready for the next value. */
    ghost predicate Moved(w: Bytes, n: nat, off0: nat, stack0: seq<Frame>)
      reads this
    {
      && Valid() && n <= |w| && Window() == w[n..] && kind == None
      && stack == AdvanceTop(stack0, n) && off == off0 + n
    }

    /** Reads the content of a byte or string whose tag has been read. */
    method ReadBytes(ghost w: Bytes, ghost h: Head, ghost off0: nat,
                     ghost stack0: seq<Frame>) returns (ok: bool, b: Bytes)
      requires TagOf(w) == Some(h) && Tagged(w, h, off0, stack0) && h.kind != ListKind
      modifies this
      ensures ok <==> Fits(w, h)
      ensures ok ==> b == PieceOf(w, h).content && Moved(w, |w| - |PieceOf(w, h).rest|, off0, stack0)
    {
      ByteHead(w, h);
      hide TagOf;
      if kind == Some(ByteKind) {
        kind := None;
        assert w[..1] == [w[0]];
        return true, [byteval];
      }
      ok, b := ReadString(w, h, off0, stack0);
    }

    method ReadString(ghost w: Bytes, ghost h: Head, ghost off0: nat,
                      ghost stack0: seq<Frame>) returns (ok: bool, b: Bytes)
      requires Tagged(w, h, off0, stack0)
      modifies this
      ensures ok <==> h.size != 1 || w[h.length] >= 128
      ensures ok ==> b == w[h.length..h.length + h.size] && Moved(w, h.length + h.size, off0, stack0)
    {
      hide AdvanceTop;
      AdvanceTwice(stack0, h.length, h.size);
      SliceParts(w, h.length, h.size);
      var n := size;
      ok, b := ReadFull(n);
      if n == 1 && b[0] < 128 {
        ok := false;
      }
    }

    /** Enters a list whose tag has been read; its content becomes the window. */
    method List(ghost w: Bytes, ghost h: Head, ghost off0: nat, ghost stack0: seq<Frame>)
      requires Tagged(w, h, off0, stack0)
      modifies this`stack, this`kind, this`size
      ensures Valid() && kind == None && off == old(off)
      ensures stack == AdvanceTop(stack0, h.length) + [Frame(0, h.size)]
      ensures Window() == w[h.length..h.length + h.size]
    {
      hide AdvanceTop;
      stack := stack + [Frame(0, size)];
      kind := None;
      size := 0;
      assert w[h.length..][..h.size] == w[h.length..h.length + h.size];
      assert input[off..][..h.size] == input[off..off + h.size];
    }

    /** Leaves a list that has been read to its end; the enclosing one moves past it. */
    method ListEnd(ghost w: Bytes, ghost n: nat, ghost off0: nat, ghost stack0: seq<Frame>) returns (ok: bool)
      requires Valid() && stack != [] && Window() == [] && stack[..|stack| - 1] == AdvanceTop(stack0, n)
      requires off == off0 + n + Top().size && |w| >= n + Top().size && Spans(w, off0, stack0)
      modifies this`stack, this`kind, this`size
      ensures ok && Moved(w, n + old(Top()).size, off0, stack0)
    {
      var tos := Top();
      if tos.pos != tos.size {
        return false;
      }
      AdvanceTwice(stack0, n, tos.size);
      stack := stack[..|stack| - 1];
      if |stack| > 0 {
        stack := AdvanceTop(stack, tos.size);
      }
      kind := None;
      size := 0;
      return true;
    }

    /** `w` is the window of a stream at `off0` with that stack. */
    ghost predicate Spans(w: Bytes, off0: nat, stack0: seq<Frame>) {
      && off0 + |w| <= |input| && w == input[off0..off0 + |w|]
      && (forall i :: 0 <= i < |stack0| ==> stack0[i].pos <= stack0[i].size)
      && (if stack0 == [] then off0 + |w| == |input|
          else |w| == stack0[|stack0| - 1].size - stack0[|stack0| - 1].pos)
    }

    lemma SpansWindow()
      requires Valid()
      ensures Spans(Window(), off, stack)
    {
    }

    /** Decodes the next value into an interface value: a byte string or a list. */
    method DecodeInterface() returns (r: Outcome<Item>)
      requires Valid() && kind == None
      modifies this
      ensures old(stack) != [] && old(Window()) == [] ==> r == Eol && Moved([], 0, old(off), old(stack))
      ensures old(stack) == [] || old(Window()) != [] ==> r != Eol && Decoded(r, old(Window()), old(off), old(stack))
      decreases |Window()|, 1
    {
      hide Valid, Window, Parse, TagOf, Tagged, Moved, Fits, PieceOf, Spans, AdvanceTop;
      ghost var w, off0, stack0 := Window(), off, stack;
      SpansWindow();
      var next := NextKind();
      if next.Eol? {
        return Eol;
      }
      ParseByTag(w);
      if !next.Done? {
        return Failed;
      }
      ghost var h := TagOf(w).value;
      if next.value.0 == ListKind {
        ParseList(w, h);
        r := DecodeListSlice(w, h, off0, stack0);
      } else {
        ParseString(w, h);
        var ok, b := ReadBytes(w, h, off0, stack0);
        r := if ok then Done(Str(b)) else Failed;
      }
    }

    /** Decodes a list whose tag has been read. */
    method DecodeListSlice(ghost w: Bytes, ghost h: Head, ghost off0: nat,
                           ghost stack0: seq<Frame>) returns (r: Outcome<Item>)
      requires Tagged(w, h, off0, stack0) && Spans(w, off0, stack0) && 0 < h.length
      modifies this
      ensures var xs := ParseAll(w[h.length..h.length + h.size]);
              && r != Eol && (r.Done? <==> xs.Some?)
              && (r.Done? ==> r.value == Item.List(xs.value) && Moved(w, h.length + h.size, off0, stack0))
      decreases |w|, 0
    {
      hide ParseAll, AdvanceTop;
      var n := size;
      ghost var content := w[h.length..h.length + h.size];
      List(w, h, off0, stack0);
      ghost var inner := stack;
      var xs := DecodeElems();
      if xs.Done? {
        EnteredTop(inner, AdvanceTop(stack0, h.length), h.size);
        var ok := ListEnd(w, h.length, off0, stack0);
        r := Done(Item.List(xs.value));
      } else {
        r := Failed;
      }
    }

    /** Decodes the elements of the innermost list up to its end. */
    method DecodeElems() returns (r: Outcome<seq<Item>>)
      requires Valid() && kind == None && stack != []
      modifies this
      ensures r != Eol && (r.Done? <==> ParseAll(old(Window())).Some?)
      ensures r.Done? ==> r.value == ParseAll(old(Window())).value
      ensures r.Done? ==> Moved(old(Window()), old(|Window()|), old(off), old(stack))
      decreases |Window()|, 3
    {
      ghost var w, off0, stack0 := Window(), off, stack;
      var items: seq<Item> := [];
      ghost var n := 0;
      MoveStart();
      JoinedEnds(w, []);
      hide ParseAll, Moved, InProgress;
      while true
        invariant InProgress(w, n, items, off0, stack0)
        decreases |w| - n
      {
        ghost var m;
        var x;
        x, m := DecodeElem(w, n, items, off0, stack0);
        if x.Eol? {
          return Done(items);
        }
        if x.Failed? {
          return Failed;
        }
        items := items + [x.value];
        n := m;
      }
    }

    /** `n` bytes of the list content `w` have been decoded into `items`. */
    ghost predicate InProgress(w: Bytes, n: nat, items: seq<Item>, off0: nat, stack0: seq<Frame>)
      reads this
    {
      && Moved(w, n, off0, stack0) && stack0 != []
      && ParseAll(w) == Joined(items, ParseAll(w[n..]))
    }

    /** Decodes one element, or notices the end of the list. */
    method DecodeElem(ghost w: Bytes, ghost n: nat, ghost items: seq<Item>, ghost off0: nat, ghost stack0: seq<Frame>)
      returns (x: Outcome<Item>, ghost m: nat)
      requires InProgress(w, n, items, off0, stack0)
      modifies this
      ensures x.Eol? ==> ParseAll(w) == Some(items) && Moved(w, |w|, off0, stack0)
      ensures x.Failed? ==> ParseAll(w).None?
      ensures x.Done? ==> n < m <= |w| && InProgress(w, m, items + [x.value], off0, stack0)
      decreases |w| - n, 2
    {
      AdvanceNonEmpty(stack0, n);
      hide Parse, ParseAll, Joined, AdvanceTop;
      JoinedEnds(w[n..], items);
      x := DecodeInterface();
      m := n;
      if x.Eol? {
        assert w[n..] == [];
        MoveOn(w, n, 0, off0, stack0);
      } else if x.Done? {
        ParseAllStep(w, n, items);
        m := n + (|w[n..]| - |Parse(w[n..]).value.1|);
        MoveOn(w, n, m - n, off0, stack0);
      }
    }

    lemma MoveStart()
      requires Valid() && kind == None
      ensures Moved(Window(), 0, off, stack) && Window()[0..] == Window()
    {
    }

    lemma MoveOn(w: Bytes, n: nat, m: nat, off0: nat, stack0: seq<Frame>)
      requires n + m <= |w| && Moved(w[n..], m, off0 + n, AdvanceTop(stack0, n)) && stack0 != []
      ensures Moved(w, n + m, off0, stack0) && stack != []
    {
      AdvanceTwice(stack0, n, m);
      assert w[n..][m..] == w[n + m..];
    }

    /** The outcome agrees with recursive splitting of the window. */
    ghost predicate Decoded(r: Outcome<Item>, w: Bytes, off0: nat, stack0: seq<Frame>)
      reads this
    {
      && (r.Done? <==> Parse(w).Some?)
      && (r.Done? ==> r.value == Parse(w).value.0 && Moved(w, |w| - |Parse(w).value.1|, off0, stack0))
    }
  }

  function Joined(items: seq<Item>, tail: Option<seq<Item>>): Option<seq<Item>> {
    if tail.None? then None else Some(items + tail.value)
  }

  lemma JoinedEnds(w: Bytes, items: seq<Item>)
    ensures items == [] ==> Joined(items, ParseAll(w)) == ParseAll(w)
    ensures w == [] ==> Joined(items, ParseAll(w)) == Some(items)
    ensures w != [] && Parse(w).None? ==> Joined(items, ParseAll(w)).None?
  {
    hide Parse;
    assert items + [] == items;
    if items == [] && ParseAll(w).Some? { assert items + ParseAll(w).value == ParseAll(w).value; }
  }

  lemma ParseAllStep(w: Bytes, n: nat, items: seq<Item>)
    requires n < |w| && Parse(w[n..]).Some?
    ensures var (x, rest) := Parse(w[n..]).value;
            && |rest| < |w[n..]| && rest == w[n + (|w[n..]| - |rest|)..]
            && Joined(items, ParseAll(w[n..])) == Joined(items + [x], ParseAll(rest))
  {
    hide Parse;
    ParseIsCanonical(w[n..]);
    var (x, rest) := Parse(w[n..]).value;
    EncodeNonEmpty(x);
    hide Encode;
    assert w[n..][|w[n..]| - |rest|..] == rest;
    if ParseAll(rest).Some? {
      assert items + ([x] + ParseAll(rest).value) == items + [x] + ParseAll(rest).value;
    }
  }

  lemma EnteredTop(stack: seq<Frame>, outer: seq<Frame>, n: nat)
    requires stack == outer + [Frame(0, n)]
    ensures AdvanceTop(stack, n) == outer + [Frame(n, n)] && AdvanceTop(stack, n)[..|outer|] == outer
  {
  }

  /** The tag has been read and its size fits. */
  ghost predicate Announced(w: Bytes, h: Head) {
    TagOf(w) == Some(h) && h.length <= |w| && h.size <= |w| - h.length
  }

  lemma ParseByTag(w: Bytes)
    ensures Parse(w).Some? ==> TagOf(w).Some? && Announced(w, TagOf(w).value)
  {
    hide Split;
    TagAgrees(w);
  }

  lemma ParseString(w: Bytes, h: Head)
    requires Announced(w, h) && h.kind != ListKind
    ensures Parse(w).Some? <==> Fits(w, h)
    ensures Fits(w, h) ==> Parse(w).value == (Str(PieceOf(w, h).content), PieceOf(w, h).rest)
  {
    hide Split;
    TagAgrees(w);
  }

  lemma ParseList(w: Bytes, h: Head)
    requires Announced(w, h) && h.kind == ListKind
    ensures 0 < h.length
    ensures var xs := ParseAll(w[h.length..h.length + h.size]);
            Parse(w) == if xs.Some? then Some((List(xs.value), w[h.length + h.size..])) else None
  {
    hide Split;
    TagAgrees(w);
  }

  lemma ByteHead(w: Bytes, h: Head)
    requires TagOf(w) == Some(h)
    ensures h.kind == ByteKind ==> h.length == 1 && h.size == 0 && |w| > 0
  {
  }

  lemma BigEndianSingle(b: Bytes)
    requires |b| == 1
    ensures BigEndian(b) == b[0]
  {
    assert b[..0] == [];
  }

  lemma AdvanceNonEmpty(stack: seq<Frame>, n: nat)
    ensures AdvanceTop(stack, n) == [] <==> stack == []
  {
  }

  /** The kind makes no difference to a long tag, but for the kind itself. */
  lemma LongTagKind(w: Bytes, slen: nat)
    requires 1 <= slen <= 8
    ensures var l, s := LongTagOf(w, ListKind, slen), LongTagOf(w, StringKind, slen);
            && (l.Some? <==> s.Some?) && (l.Some? ==> s.value == l.value.(kind := StringKind))
            && (l.Some? ==> l.value.kind == ListKind && l.value.length == 1 + slen <= |w|)
  {
  }

  lemma AdvanceOneMore(stack: seq<Frame>)
    ensures forall n: nat :: AdvanceTop(AdvanceTop(stack, 1), n) == AdvanceTop(stack, 1 + n)
  {
    forall n: nat ensures AdvanceTop(AdvanceTop(stack, 1), n) == AdvanceTop(stack, 1 + n) {
      AdvanceTwice(stack, 1, n);
    }
  }

  lemma SliceParts(w: Bytes, a: nat, n: nat)
    requires a + n <= |w|
    ensures w[a..][..n] == w[a..a + n] && w[a..][n..] == w[a + n..]
  {
  }

  lemma AdvanceTwice(stack: seq<Frame>, m: nat, n: nat)
    ensures AdvanceTop(AdvanceTop(stack, m), n) == AdvanceTop(stack, m + n)
  {
  }

  /** Decodes a byte slice that must hold exactly one value.  It succeeds exactly on encodings,
      and then returns the item that was encoded. */
  method DecodeBytes(b: Bytes) returns (r: Option<Item>)
    requires |b| <= MAX_INT64
    ensures r.Some? ==> Encode(r.value) == b
    ensures r.None? ==> forall x :: Encode(x) != b
  {
    hide Parse, Encode;
    var s := new Stream(b);
    var x := s.DecodeInterface();
    r := if x.Done? && s.off == |b| then Some(x.value) else None;
    forall y
      ensures Encode(y) == b ==> r == Some(y)
    {
      DecodingIsExact(b, y);
    }
    if r.Some? { DecodingIsExact(b, r.value); }
  }
}
