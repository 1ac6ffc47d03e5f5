/**
 Ordered iteration: a stack of half-visited nodes walks the trie in pre-order, loading nodes on
 the way, and a seek skips everything before a start key. The iterator yields the entries from
 the start key on, each once, in increasing order of their paths.
 */
module TrieIterator {
  import opened Common
  import opened Rlp
  import opened MerkleTrie
  import opened HexPrefix
  import opened TrieNode
  import opened LazyTrie

  // ---------------------------------------------------------------- byte order

  /** `bytes.Compare(a, b) < 0` */
  predicate Less(a: Bytes, b: Bytes) {
    b != [] && (a == [] || a[0] < b[0] || (a[0] == b[0] && Less(a[1..], b[1..])))
  }

  lemma {:induction false} LessTrans(a: Bytes, b: Bytes, c: Bytes)
    requires Less(a, b) && Less(b, c)
    ensures Less(a, c)
  {
    if a != [] && a[0] == b[0] == c[0] {
      LessTrans(a[1..], b[1..], c[1..]);
    }
  }

  lemma {:induction false} LessTotal(a: Bytes, b: Bytes)
    ensures a == b || Less(a, b) || Less(b, a)
    ensures !(Less(a, b) && Less(b, a)) && !Less(a, a)
  {
    if a != [] && b != [] {
      LessTotal(a[1..], b[1..]);
      assert a == [a[0]] + a[1..] && b == [b[0]] + b[1..];
    }
    if a != [] { LessTotal(a[1..], a[1..]); }
  }

  /** Under a common front, what follows decides. */
  lemma {:induction false} LessAfter(p: Bytes, a: Bytes, b: Bytes)
    ensures Less(p + a, p + b) <==> Less(a, b)
  {
    if p == [] {
      assert p + a == a && p + b == b;
    } else {
      assert (p + a)[1..] == p[1..] + a && (p + b)[1..] == p[1..] + b;
      LessAfter(p[1..], a, b);
    }
  }

  /** A string is not less than its front. */
  lemma {:induction false} FrontLess(a: Bytes, p: Bytes)
    requires StartsWith(a, p)
    ensures !Less(a, p)
  {
    if p != [] {
      StartsHead(a, p);
      StartsInParts(a, p, 1);
      FrontLess(a[1..], p[1..]);
    }
  }

  /** Everything behind a string that is less than a key and no front of it is less as well. */
  lemma {:induction false} LessCarries(a: Bytes, p: Bytes, key: Bytes)
    requires StartsWith(a, p) && Less(p, key) && !StartsWith(key, p)
    ensures Less(a, key)
  {
    StartsHead(a, p);
    if p[0] == key[0] {
      StartsInParts(a, p, 1);
      StartsInParts(key, p, 1);
      assert key[..1] == p[..1];
      LessCarries(a[1..], p[1..], key[1..]);
    }
  }

  // ---------------------------------------------------------------- entries in order

  datatype Entry = Entry(path: Bytes, value: Bytes)

  /** The entries below a path, left to right. */
  ghost function EntriesOf(t: Trie, p: Bytes): seq<Entry>
    requires Wf(t)
    decreases t, 1
  {
    match t
    case Nil => []
    case Value(v) => [Entry(p, v)]
    case Short(key, val) => EntriesOf(val, p + key)
    case Full(_) => EntriesFrom(t, p, 0)
  }

  ghost function EntriesFrom(t: Trie, p: Bytes, i: nat): seq<Entry>
    requires Wf(t) && t.Full? && i <= 17
    decreases t, 0, 17 - i
  {
    if i == 17 then [] else EntriesOf(t.children[i], p + [i]) + EntriesFrom(t, p, i + 1)
  }

  ghost predicate Under(es: seq<Entry>, p: Bytes) {
    forall i :: 0 <= i < |es| ==> StartsWith(es[i].path, p)
  }

  ghost predicate Sorted(es: seq<Entry>) {
    forall i, j :: 0 <= i < j < |es| ==> Less(es[i].path, es[j].path)
  }

  lemma UnderLonger(es: seq<Entry>, p: Bytes, q: Bytes)
    requires Under(es, p + q)
    ensures Under(es, p)
  {
    forall i | 0 <= i < |es| ensures StartsWith(es[i].path, p) {
      var a := es[i].path;
      assert a[..|p|] == a[..|p + q|][..|p|] == p;
    }
  }

  lemma {:induction false} EntriesUnder(t: Trie, p: Bytes)
    requires Wf(t)
    ensures Under(EntriesOf(t, p), p)
    decreases t, 1
  {
    match t
    case Nil =>
    case Value(v) =>
    case Short(key, val) =>
      EntriesUnder(val, p + key);
      UnderLonger(EntriesOf(val, p + key), p, key);
    case Full(_) =>
      EntriesFromUnder(t, p, 0);
  }

  lemma {:induction false} EntriesFromUnder(t: Trie, p: Bytes, i: nat)
    requires Wf(t) && t.Full? && i <= 17
    ensures Under(EntriesFrom(t, p, i), p)
    decreases t, 0, 17 - i
  {
    if i < 17 {
      EntriesUnder(t.children[i], p + [i]);
      UnderLonger(EntriesOf(t.children[i], p + [i]), p, [i]);
      EntriesFromUnder(t, p, i + 1);
    }
  }

  /** All entries from a child on come after those of the children before it. */
  ghost predicate AllAfter(es: seq<Entry>, p: Bytes, i: nat) {
    forall j :: 0 <= j < |es| ==> StartsWith(es[j].path, p) && |es[j].path| > |p| && es[j].path[|p|] >= i
  }

  lemma {:induction false} EntriesFromAfter(t: Trie, p: Bytes, i: nat)
    requires Wf(t) && t.Full? && i <= 17
    ensures AllAfter(EntriesFrom(t, p, i), p, i)
    decreases 17 - i
  {
    if i < 17 {
      var es := EntriesOf(t.children[i], p + [i]);
      EntriesUnder(t.children[i], p + [i]);
      forall j | 0 <= j < |es| ensures StartsWith(es[j].path, p) && |es[j].path| > |p| && es[j].path[|p|] == i {
        var a := es[j].path;
        assert a[..|p| + 1] == p + [i];
        assert a[..|p|] == a[..|p| + 1][..|p|] && a[|p|] == a[..|p| + 1][|p|];
      }
      EntriesFromAfter(t, p, i + 1);
    }
  }

  lemma SortedConcat(a: seq<Entry>, b: seq<Entry>)
    requires Sorted(a) && Sorted(b)
    requires forall i, j :: 0 <= i < |a| && 0 <= j < |b| ==> Less(a[i].path, b[j].path)
    ensures Sorted(a + b)
  {
  }

  lemma SplitLess(a: Bytes, b: Bytes, p: Bytes)
    requires StartsWith(a, p) && StartsWith(b, p) && |a| > |p| && |b| > |p| && a[|p|] < b[|p|]
    ensures Less(a, b)
  {
    assert a == p + a[|p|..] && b == p + b[|p|..];
    LessAfter(p, a[|p|..], b[|p|..]);
  }

  lemma {:induction false} EntriesSorted(t: Trie, p: Bytes)
    requires Wf(t)
    ensures Sorted(EntriesOf(t, p))
    decreases t, 1
  {
    match t
    case Nil =>
    case Value(v) =>
    case Short(key, val) => EntriesSorted(val, p + key);
    case Full(_) => EntriesFromSorted(t, p, 0);
  }

  lemma {:induction false} EntriesFromSorted(t: Trie, p: Bytes, i: nat)
    requires Wf(t) && t.Full? && i <= 17
    ensures Sorted(EntriesFrom(t, p, i))
    decreases t, 0, 17 - i
  {
    if i < 17 {
      var a, b := EntriesOf(t.children[i], p + [i]), EntriesFrom(t, p, i + 1);
      EntriesSorted(t.children[i], p + [i]);
      EntriesFromSorted(t, p, i + 1);
      EntriesUnder(t.children[i], p + [i]);
      EntriesFromAfter(t, p, i + 1);
      forall x, y | 0 <= x < |a| && 0 <= y < |b| ensures Less(a[x].path, b[y].path) {
        ChildFirst(a[x].path, b[y].path, p, i);
      }
      SortedConcat(a, b);
    }
  }

  lemma ChildFirst(a: Bytes, b: Bytes, p: Bytes, i: Byte)
    requires StartsWith(a, p + [i]) && StartsWith(b, p) && |b| > |p| && b[|p|] > i
    ensures Less(a, b)
  {
    assert a[..|p| + 1] == p + [i];
    assert a[..|p|] == a[..|p| + 1][..|p|] && a[|p|] == a[..|p| + 1][|p|];
    SplitLess(a, b, p);
  }

  // ---------------------------------------------------------------- entries are the contents

  /** Whatever is listed is in the trie. */
  lemma {:induction false} EntrySound(t: Trie, p: Bytes, x: Entry)
    requires Wf(t) && x in EntriesOf(t, p)
    ensures StartsWith(x.path, p)
    ensures var k := x.path[|p|..]; (t.Value? <==> k == []) && Asks(t, k) && Get(t, k) == Some(x.value)
    decreases t, 1
  {
    EntriesUnder(t, p);
    match t
    case Value(v) =>
    case Short(key, val) =>
      EntrySound(val, p + key, x);
      EntryShort(t, p, x);
    case Full(_) => EntryFromSound(t, p, 0, x);
  }

  lemma EntryShort(t: Trie, p: Bytes, x: Entry)
    requires Wf(t) && t.Short? && StartsWith(x.path, p + t.key)
    requires var k := x.path[|p + t.key|..];
             (t.val.Value? <==> k == []) && Asks(t.val, k) && Get(t.val, k) == Some(x.value)
    ensures StartsWith(x.path, p)
    ensures var k := x.path[|p|..]; k != [] && Asks(t, k) && Get(t, k) == Some(x.value)
  {
    var k, k2 := x.path[|p|..], x.path[|p + t.key|..];
    assert x.path[..|p|] == x.path[..|p + t.key|][..|p|] == p;
    assert k == t.key + k2 by {
      assert x.path == (p + t.key) + k2;
    }
    assert k[..|t.key|] == t.key && k[|t.key|..] == k2;
    assert IsKey(k) by { assert HasTerm(t.key) ==> k == t.key; }
  }

  lemma EntryFull(t: Trie, p: Bytes, i: nat, x: Entry)
    requires Wf(t) && t.Full? && i < 17 && StartsWith(x.path, p + [i])
    requires var c, k := t.children[i], x.path[|p| + 1..];
             (c.Value? <==> k == []) && Asks(c, k) && Get(c, k) == Some(x.value)
    ensures StartsWith(x.path, p)
    ensures var k := x.path[|p|..]; k != [] && Asks(t, k) && Get(t, k) == Some(x.value)
  {
    var k, k2 := x.path[|p|..], x.path[|p| + 1..];
    StepInto(x.path, p, i);
    assert k[1..] == k2;
    assert IsKey(k) by { assert i == 16 <==> k2 == []; }
  }

  lemma StepInto(path: Bytes, p: Bytes, i: nat)
    requires i < 17 && StartsWith(path, p + [i])
    ensures StartsWith(path, p) && path[|p|..] == [i] + path[|p| + 1..]
  {
    assert path[..|p|] == path[..|p| + 1][..|p|] == p;
    assert path[|p|] == path[..|p| + 1][|p|] == i;
  }

  lemma {:induction false} EntryFromSound(t: Trie, p: Bytes, i: nat, x: Entry)
    requires Wf(t) && t.Full? && i <= 17 && x in EntriesFrom(t, p, i)
    ensures StartsWith(x.path, p)
    ensures var k := x.path[|p|..]; k != [] && Asks(t, k) && Get(t, k) == Some(x.value)
    decreases t, 0, 17 - i
  {
    hide Get, Asks, EntriesOf;
    if x in EntriesOf(t.children[i], p + [i]) {
      EntrySound(t.children[i], p + [i], x);
      EntryFull(t, p, i, x);
    } else {
      EntryFromSound(t, p, i + 1, x);
    }
  }

  /** Whatever is in the trie is listed. */
  lemma {:induction false} EntryComplete(t: Trie, p: Bytes, k: Bytes)
    requires Asks(t, k) && Get(t, k).Some?
    ensures Entry(p + k, Get(t, k).value) in EntriesOf(t, p)
    decreases t, 1
  {
    match t
    case Value(v) => assert p + [] == p;
    case Short(key, val) =>
      IntoShort(t, k);
      EntryComplete(val, p + key, k[|key|..]);
      assert p + k == (p + key) + k[|key|..];
    case Full(ch) =>
      IntoFull(t, k);
      EntryComplete(ch[k[0]], p + [k[0]], k[1..]);
      assert p + k == (p + [k[0]]) + k[1..];
      EntriesFromHas(t, p, 0, k[0], Entry(p + k, Get(t, k).value));
  }

  lemma {:induction false} EntriesFromHas(t: Trie, p: Bytes, i: nat, j: nat, x: Entry)
    requires Wf(t) && t.Full? && i <= j < 17 && x in EntriesOf(t.children[j], p + [j])
    ensures x in EntriesFrom(t, p, i)
    decreases j - i
  {
    if i < j { EntriesFromHas(t, p, i + 1, j, x); }
  }

  /** The entries of a trie, in order: what `Lookup` finds, no more and no less. */
  lemma EntriesExact(t: Trie, x: Entry)
    requires IsTrie(t)
    ensures x in EntriesOf(t, []) <==> Lookup(t, x.path) == Some(x.value)
  {
    assert x.path[0..] == x.path && [] + x.path == x.path;
    if x in EntriesOf(t, []) {
      EntrySound(t, [], x);
      assert t != Nil;
    }
    if Lookup(t, x.path) == Some(x.value) {
      EntryComplete(t, [], x.path);
    }
  }

  /** Nothing but an empty trie is without entries. */
  lemma EntriesSome(t: Trie, p: Bytes)
    requires Wf(t) && t != Nil
    ensures EntriesOf(t, p) != []
  {
    if !t.Value? {
      var k := SomeKey(t);
      EntryComplete(t, p, k);
    }
  }

  /** The entries whose path is not before a key. */
  ghost function NotBefore(es: seq<Entry>, key: Bytes): seq<Entry> {
    if es == [] then []
    else (if Less(es[0].path, key) then [] else [es[0]]) + NotBefore(es[1..], key)
  }

  /** From a key on: the entries whose path is not before it, still in order. */
  lemma {:induction false} NotBeforeExact(es: seq<Entry>, key: Bytes, x: Entry)
    requires Sorted(es)
    ensures x in NotBefore(es, key) <==> x in es && !Less(x.path, key)
    ensures Sorted(NotBefore(es, key))
  {
    if es != [] {
      NotBeforeExact(es[1..], key, x);
      var rest := NotBefore(es[1..], key);
      forall i | 0 <= i < |rest| ensures Less(es[0].path, rest[i].path) {
        NotBeforeExact(es[1..], key, rest[i]);
        assert rest[i] in es[1..];
      }
      assert x in es <==> x == es[0] || x in es[1..];
    }
  }

  lemma {:induction false} NotBeforeConcat(a: seq<Entry>, b: seq<Entry>, key: Bytes)
    ensures NotBefore(a + b, key) == NotBefore(a, key) + NotBefore(b, key)
  {
    if a == [] {
      assert a + b == b;
    } else {
      assert (a + b)[1..] == a[1..] + b;
      NotBeforeConcat(a[1..], b, key);
    }
  }

  lemma {:induction false} NotBeforeNone(es: seq<Entry>, key: Bytes)
    requires forall i :: 0 <= i < |es| ==> Less(es[i].path, key)
    ensures NotBefore(es, key) == []
  {
    if es != [] { NotBeforeNone(es[1..], key); }
  }

  lemma {:induction false} NotBeforeAll(es: seq<Entry>, key: Bytes)
    requires forall i :: 0 <= i < |es| ==> !Less(es[i].path, key)
    ensures NotBefore(es, key) == es
  {
    if es != [] {
      NotBeforeAll(es[1..], key);
      assert es == [es[0]] + es[1..];
    }
  }

  /** Once one entry is not before the key, none after it is. */
  lemma NotBeforeFirst(es: seq<Entry>, key: Bytes)
    requires Sorted(es) && es != [] && !Less(es[0].path, key)
    ensures NotBefore(es, key) == es
  {
    forall i | 0 <= i < |es| ensures !Less(es[i].path, key) {
      if i > 0 && Less(es[i].path, key) {
        LessTrans(es[0].path, es[i].path, key);
      }
    }
    NotBeforeAll(es, key);
  }

  // ---------------------------------------------------------------- visits in order

  /** A node met on the way. */
  datatype Visit = Visit(path: Bytes, t: Trie)

  /** All nodes below a path, every node before its children. */
  ghost function Visits(t: Trie, p: Bytes): seq<Visit>
    requires Wf(t)
    decreases t, 2
  {
    if t == Nil then [] else [Visit(p, t)] + VisitsBelow(t, p)
  }

  ghost function VisitsBelow(t: Trie, p: Bytes): seq<Visit>
    requires Wf(t)
    decreases t, 1
  {
    match t
    case Short(key, val) => Visits(val, p + key)
    case Full(_) => VisitsFrom(t, p, 0)
    case _ => []
  }

  ghost function VisitsFrom(t: Trie, p: Bytes, i: nat): seq<Visit>
    requires Wf(t) && t.Full? && i <= 17
    decreases t, 0, 17 - i
  {
    if i == 17 then [] else Visits(t.children[i], p + [i]) + VisitsFrom(t, p, i + 1)
  }

  /** The values among the nodes met. */
  ghost function Leaves(vs: seq<Visit>): seq<Entry> {
    if vs == [] then []
    else (if vs[0].t.Value? then [Entry(vs[0].path, vs[0].t.v)] else []) + Leaves(vs[1..])
  }

  lemma {:induction false} LeavesConcat(a: seq<Visit>, b: seq<Visit>)
    ensures Leaves(a + b) == Leaves(a) + Leaves(b)
  {
    if a == [] {
      assert a + b == b;
    } else {
      assert (a + b)[1..] == a[1..] + b && (a + b)[0] == a[0];
      LeavesConcat(a[1..], b);
      var first := if a[0].t.Value? then [Entry(a[0].path, a[0].t.v)] else [];
      assert first + (Leaves(a[1..]) + Leaves(b)) == (first + Leaves(a[1..])) + Leaves(b);
    }
  }

  lemma {:induction false} LeavesAreEntries(t: Trie, p: Bytes)
    requires Wf(t)
    ensures Leaves(Visits(t, p)) == EntriesOf(t, p)
    ensures !t.Value? ==> Leaves(VisitsBelow(t, p)) == EntriesOf(t, p)
    decreases t, 2
  {
    assert t != Nil ==> Visits(t, p)[1..] == VisitsBelow(t, p);
    match t
    case Short(key, val) => LeavesAreEntries(val, p + key);
    case Full(_) => LeavesFrom(t, p, 0);
    case _ =>
  }

  lemma {:induction false} LeavesFrom(t: Trie, p: Bytes, i: nat)
    requires Wf(t) && t.Full? && i <= 17
    ensures Leaves(VisitsFrom(t, p, i)) == EntriesFrom(t, p, i)
    decreases t, 0, 17 - i
  {
    if i < 17 {
      LeavesAreEntries(t.children[i], p + [i]);
      LeavesFrom(t, p, i + 1);
      LeavesConcat(Visits(t.children[i], p + [i]), VisitsFrom(t, p, i + 1));
    }
  }

  // ---------------------------------------------------------------- the stack

  /** A half-visited node: the child visited last, and where the path of its parent ends. */
  datatype State = State(node: Node, index: int, pathlen: nat)

  /** What is left below a half-visited node. */
  ghost function Left(v: Visit, index: int): seq<Visit>
    requires Wf(v.t) && -1 <= index <= 16
  {
    match v.t
    case Short(key, val) => if index < 0 then Visits(val, v.path + key) else []
    case Full(_) => VisitsFrom(v.t, v.path, index + 1)
    case _ => []
  }

  ghost predicate Framed(e: Env, w: World, s: Store, st: State, v: Visit, under: Bytes, first: bool) {
    && Wf(v.t) && Known(e.H, w.known, v.t) && Rep(e, w, s, st.node, v.t, first) && !st.node.HashNode?
    && -1 <= st.index <= 16 && st.pathlen == |under| && StartsWith(v.path, under)
    && (v.t.Value? <==> HasTerm(v.path))
  }

  /** The path of the node at the top. */
  ghost function PathAt(vs: seq<Visit>): Bytes {
    if vs == [] then [] else vs[|vs| - 1].path
  }

  ghost predicate Stacked(e: Env, w: World, s: Store, stack: seq<State>, vs: seq<Visit>) {
    && |stack| == |vs|
    && forall i :: 0 <= i < |stack| ==> Framed(e, w, s, stack[i], vs[i], PathAt(vs[..i]), i == 0)
  }

  /** What is left of the whole iteration, the top of the stack first. */
  ghost function Rest(e: Env, w: World, s: Store, stack: seq<State>, vs: seq<Visit>): seq<Visit>
    requires Stacked(e, w, s, stack, vs)
    decreases |stack|
  {
    if stack == [] then []
    else
      var top := |stack| - 1;
      StackedPop(e, w, s, stack, vs);
      Left(vs[top], stack[top].index) + Rest(e, w, s, stack[..top], vs[..top])
  }

  lemma StackedPop(e: Env, w: World, s: Store, stack: seq<State>, vs: seq<Visit>)
    requires Stacked(e, w, s, stack, vs) && stack != []
    ensures Stacked(e, w, s, stack[..|stack| - 1], vs[..|vs| - 1])
    ensures |stack| == |vs|
    ensures Framed(e, w, s, stack[|stack| - 1], vs[|vs| - 1], PathAt(vs[..|vs| - 1]), |stack| == 1)
    ensures stack[|stack| - 1].pathlen == |PathAt(vs[..|vs| - 1])|
    ensures StartsWith(vs[|vs| - 1].path, PathAt(vs[..|vs| - 1]))
    ensures -1 <= stack[|stack| - 1].index <= 16 && Wf(vs[|vs| - 1].t)
  {
    var top := |stack| - 1;
    forall i | 0 <= i < top ensures Framed(e, w, s, stack[..top][i], vs[..top][i], PathAt(vs[..top][..i]), i == 0) {
      assert vs[..top][..i] == vs[..i];
    }
  }

  lemma StackedPush(e: Env, w: World, s: Store, stack: seq<State>, vs: seq<Visit>, st: State, v: Visit)
    requires Stacked(e, w, s, stack, vs) && Framed(e, w, s, st, v, PathAt(vs), stack == [])
    ensures Stacked(e, w, s, stack + [st], vs + [v])
    ensures Rest(e, w, s, stack + [st], vs + [v]) == Left(v, st.index) + Rest(e, w, s, stack, vs)
  {
    var stack', vs' := stack + [st], vs + [v];
    forall i | 0 <= i < |stack'| ensures Framed(e, w, s, stack'[i], vs'[i], PathAt(vs'[..i]), i == 0) {
      assert vs'[..i] == vs[..i];
      assert i == |stack| ==> vs[..i] == vs;
    }
    assert stack'[..|stack|] == stack && vs'[..|vs|] == vs;
  }

  /** The index of the top of the stack moves. */
  lemma StackedTop(e: Env, w: World, s: Store, stack: seq<State>, vs: seq<Visit>, index: int)
    requires Stacked(e, w, s, stack, vs) && stack != [] && |stack| == |vs| && -1 <= index <= 16
    ensures var top := |stack| - 1;
            var stack' := stack[top := stack[top].(index := index)];
            && Stacked(e, w, s, stack', vs)
            && Stacked(e, w, s, stack[..top], vs[..top])
            && Rest(e, w, s, stack', vs) == Left(vs[top], index) + Rest(e, w, s, stack[..top], vs[..top])
  {
    hide Stacked, Rest;
    var top := |stack| - 1;
    assert |vs| == |stack| by { SameHeight(e, w, s, stack, vs); }
    StackedPop(e, w, s, stack, vs);
    var st := stack[top].(index := index);
    StackedPush(e, w, s, stack[..top], vs[..top], st, vs[top]);
    assert stack[..top] + [st] == stack[top := st] && vs[..top] + [vs[top]] == vs;
  }

  lemma SameHeight(e: Env, w: World, s: Store, stack: seq<State>, vs: seq<Visit>)
    requires Stacked(e, w, s, stack, vs)
    ensures |stack| == |vs|
  {
  }

  /** What is left when the node at the top is, or is not, descended into any further. */
  ghost function Beyond(e: Env, w: World, s: Store, stack: seq<State>, vs: seq<Visit>, descend: bool): seq<Visit>
    requires Stacked(e, w, s, stack, vs) && stack != []
  {
    StackedPop(e, w, s, stack, vs);
    if descend then Rest(e, w, s, stack, vs)
    else Rest(e, w, s, stack[..|stack| - 1], vs[..|vs| - 1])
  }

  // ---------------------------------------------------------------- the next child

  /** `nextChild`: the first child after the one visited last, and what becomes of the parent. */
  method NextChild(parent: State, path: Bytes, ghost e: Env, ghost w: World, ghost s: Store, ghost v: Visit,
                   ghost under: Bytes, ghost first: bool)
    returns (found: bool, child: State, path': Bytes, index: int, ghost c: Visit)
    requires Framed(e, w, s, parent, v, under, first) && path == v.path
    ensures !found ==> Left(v, parent.index) == []
    ensures found ==>
              && -1 <= index < 16 && Wf(c.t) && c.t != Nil && c.path == path' && StartsWith(path', path)
              && Left(v, parent.index) == Left(v, index) == Visits(c.t, c.path) + Left(v, index + 1)
              && Known(e.H, w.known, c.t) && Rep(e, w, s, child.node, c.t, false)
              && child.index == -1 && child.pathlen == |path| && (c.t.Value? <==> HasTerm(c.path))
  {
    hide Framed, Left, VisitsFrom, Visits, Rep, Known, Wf;
    found, child, path', index, c := false, parent, path, parent.index, v;
    FrameKind(e, w, s, parent, v, under, first);
    if parent.node.FullNode? {
      var i := parent.index + 1;
      while i < |parent.node.children|
        invariant parent.index + 1 <= i <= |parent.node.children| == 17
        invariant Left(v, parent.index) == Left(v, i - 1)
      {
        var n := parent.node.children[i];
        FullFrame(e, w, s, parent, v, under, first, i);
        if n != NilNode {
          found, child, path', index := true, State(n, -1, |path|), path + [i], i - 1;
          c := Visit(path', v.t.children[i]);
          return;
        }
        i := i + 1;
      }
    } else if parent.node.ShortNode? {
      if parent.index < 0 {
        found, child, path', index := true, State(parent.node.val, -1, |path|), path + parent.node.key, -1;
        c := Visit(path', v.t.val);
      }
    }
  }

  /** What kind of node is at the top, and what is left of it at its end. */
  lemma FrameKind(e: Env, w: World, s: Store, st: State, v: Visit, under: Bytes, first: bool)
    requires Framed(e, w, s, st, v, under, first)
    ensures Wf(v.t) && -1 <= st.index <= 16 && (st.node.FullNode? <==> v.t.Full?)
            && (st.node.ShortNode? <==> v.t.Short?)
    ensures st.node.FullNode? ==> |st.node.children| == 17 && |v.t.children| == 17 && Left(v, 16) == []
    ensures !st.node.FullNode? && !(st.node.ShortNode? && st.index < 0) ==> Left(v, st.index) == []
    ensures st.node.ShortNode? && st.index < 0 ==>
              && st.index == -1 && v.t.key == st.node.key && Wf(v.t.val) && v.t.val != Nil
              && Left(v, -1) == Visits(v.t.val, v.path + v.t.key) + Left(v, 0)
              && Known(e.H, w.known, v.t.val) && Rep(e, w, s, st.node.val, v.t.val, false)
              && StartsWith(v.path + v.t.key, v.path) && (v.t.val.Value? <==> HasTerm(v.path + v.t.key))
  {
  }

  /** A child of a full node: what is left starts with it, unless it is empty. */
  lemma FullFrame(e: Env, w: World, s: Store, st: State, v: Visit, under: Bytes, first: bool, i: nat)
    requires Framed(e, w, s, st, v, under, first) && st.node.FullNode? && i < 17
    ensures Wf(v.t) && v.t.Full? && |st.node.children| == 17 && |v.t.children| == 17
    ensures var c := v.t.children[i];
            && Wf(c) && Known(e.H, w.known, c) && Rep(e, w, s, st.node.children[i], c, false)
            && (st.node.children[i] == NilNode <==> c == Nil)
            && Left(v, i - 1) == Visits(c, v.path + [i]) + Left(v, i) && (c == Nil ==> Left(v, i - 1) == Left(v, i))
            && StartsWith(v.path + [i], v.path) && (c != Nil ==> (c.Value? <==> HasTerm(v.path + [i])))
  {
    NilRep(e, w, s, st.node.children[i], v.t.children[i], false);
  }

  /** All nodes that come after a place: the root and the rest before the first step. */
  ghost function AllFrom(e: Env, w: World, s: Store, t: Trie, stack: seq<State>, vs: seq<Visit>): seq<Visit>
    requires Wf(t) && Stacked(e, w, s, stack, vs)
  {
    if stack == [] then [Visit([], t)] + VisitsBelow(t, []) else Rest(e, w, s, stack, vs)
  }

  /** The index of the top of the stack moves on by one. */
  function Bump(stack: seq<State>): seq<State> {
    if stack == [] then []
    else
      var top := |stack| - 1;
      stack[top := stack[top].(index := stack[top].index + 1)]
  }

  /** A node is next: all that comes is this node, what is below it, and what comes after. */
  ghost predicate IsNext(e: Env, w: World, s: Store, t: Trie, stack: seq<State>, vs: seq<Visit>, st: State, c: Visit)
    requires Wf(t) && Stacked(e, w, s, stack, vs)
  {
    && Framed(e, w, s, st, c, PathAt(vs), stack == []) && st.index == -1 && Wf(c.t)
    && (if stack == [] then c == Visit([], t) else c.t != Nil)
    && Stacked(e, w, s, Bump(stack), vs)
    && AllFrom(e, w, s, t, stack, vs) ==
       [c] + VisitsBelow(c.t, c.path) + Rest(e, w, s, Bump(stack), vs)
  }

  // ---------------------------------------------------------------- seeking

  ghost predicate Suffix(a: seq<Entry>, b: seq<Entry>) {
    |a| <= |b| && a == b[|b| - |a|..]
  }

  /** While seeking, nodes on the stack are before the key, and all but the top lead to it. */
  ghost predicate Seeking(vs: seq<Visit>, key: Bytes) {
    forall i :: 0 <= i < |vs| ==> Less(vs[i].path, key) && (i < |vs| - 1 ==> StartsWith(key, vs[i].path))
  }

  lemma LeftUnder(v: Visit, index: int)
    requires Wf(v.t) && -1 <= index <= 16
    ensures Under(Leaves(Left(v, index)), v.path)
  {
    match v.t
    case Short(key, val) =>
      LeavesAreEntries(val, v.path + key);
      EntriesUnder(val, v.path + key);
      UnderLonger(EntriesOf(val, v.path + key), v.path, key);
    case Full(_) =>
      LeavesFrom(v.t, v.path, index + 1);
      EntriesFromUnder(v.t, v.path, index + 1);
    case _ =>
  }

  /** Leaving the top of the stack loses only entries before the key, and no order. */
  lemma Onwards(e: Env, w: World, s: Store, stack: seq<State>, vs: seq<Visit>, descend: bool, key: Bytes, t: Trie)
    requires Stacked(e, w, s, stack, vs) && stack != [] && Seeking(vs, key)
    requires descend == StartsWith(key, PathAt(vs))
    requires Wf(t) && Suffix(Leaves(Rest(e, w, s, stack, vs)), EntriesOf(t, []))
    ensures var after := Beyond(e, w, s, stack, vs, descend);
            && |after| <= |Rest(e, w, s, stack, vs)|
            && Suffix(Leaves(after), EntriesOf(t, []))
            && NotBefore(Leaves(after), key) == NotBefore(Leaves(Rest(e, w, s, stack, vs)), key)
  {
    hide EntriesOf, Visits, Left, Rest, Stacked, Leaves, NotBefore, Wf;
    if !descend {
      RestTop(e, w, s, stack, vs);
      var top := |stack| - 1;
      var left, after := Left(vs[top], stack[top].index), Rest(e, w, s, stack[..top], vs[..top]);
      LeavesConcat(left, after);
      LeftBefore(vs[top], stack[top].index, key);
      NotBeforeNone(Leaves(left), key);
      NotBeforeConcat(Leaves(left), Leaves(after), key);
    }
  }

  /** What is left of a node that comes before a key, and does not lead to it, is before the key. */
  lemma LeftBefore(v: Visit, index: int, key: Bytes)
    requires Wf(v.t) && -1 <= index <= 16 && Less(v.path, key) && !StartsWith(key, v.path)
    ensures var es := Leaves(Left(v, index)); forall i :: 0 <= i < |es| ==> Less(es[i].path, key)
  {
    hide Left, Leaves, Less, Wf;
    LeftUnder(v, index);
    var es := Leaves(Left(v, index));
    forall i | 0 <= i < |es| ensures Less(es[i].path, key) {
      LessCarries(es[i].path, v.path, key);
    }
  }

  lemma StartEntries(t: Trie)
    requires IsTrie(t)
    ensures Leaves([Visit([], t)] + VisitsBelow(t, [])) == EntriesOf(t, [])
    ensures Suffix(EntriesOf(t, []), EntriesOf(t, []))
  {
    var vs := [Visit([], t)] + VisitsBelow(t, []);
    assert vs[1..] == VisitsBelow(t, []);
    LeavesAreEntries(t, []);
  }

  lemma NothingLeft(e: Env, w: World, s: Store, stack: seq<State>, vs: seq<Visit>, key: Bytes)
    requires Stacked(e, w, s, stack, vs) && stack == []
    ensures Rest(e, w, s, stack, vs) == [] && NotBefore(Leaves([]), key) == [] && Leaves([]) == []
  {
  }

  lemma SeekingBack(before: seq<Visit>, vs: seq<Visit>, key: Bytes)
    requires Seeking(before, key) && vs <= before
    ensures Seeking(vs, key)
  {
    assert forall i :: 0 <= i < |vs| ==> vs[i] == before[i];
  }

  lemma SeekingOn(before: seq<Visit>, vs: seq<Visit>, c: Visit, key: Bytes)
    requires Seeking(before, key) && vs <= before && Less(c.path, key)
    requires vs == before ==> vs == [] || StartsWith(key, PathAt(vs))
    ensures Seeking(vs + [c], key)
  {
    assert forall i :: 0 <= i < |vs| ==> vs[i] == before[i];
  }

  /** The next node may be passed by, when it is before the key, or is where the seek ends. */
  lemma FoundNext(e: Env, w: World, s: Store, t: Trie, stack: seq<State>, vs: seq<Visit>, st: State, c: Visit,
                  key: Bytes)
    requires Wf(t) && Stacked(e, w, s, stack, vs) && IsNext(e, w, s, t, stack, vs, st, c)
    requires Suffix(Leaves(AllFrom(e, w, s, t, stack, vs)), EntriesOf(t, []))
    ensures var a := AllFrom(e, w, s, t, stack, vs);
            var b := VisitsBelow(c.t, c.path) + Rest(e, w, s, Bump(stack), vs);
            && |b| < |a| && Suffix(Leaves(b), EntriesOf(t, []))
            && Leaves(a) == (if c.t.Value? then [Entry(c.path, c.t.v)] else []) + Leaves(b)
            && (Less(c.path, key) ==> NotBefore(Leaves(b), key) == NotBefore(Leaves(a), key))
            && (!Less(c.path, key) ==> NotBefore(Leaves(a), key) == Leaves(a))
  {
    hide Visits, VisitsBelow, EntriesOf, Wf, Framed, Stacked, Leaves, NotBefore, Less, Suffix;
    var below, more := VisitsBelow(c.t, c.path), Rest(e, w, s, Bump(stack), vs);
    assert AllFrom(e, w, s, t, stack, vs) == [c] + (below + more);
    EntriesSorted(t, []);
    NothingUnder(e, w, s, stack, vs, more);
    FirstLeaf(c, more);
    assert [c] + below + more == [c] + (below + more);
    PassOrReach(c, below + more, EntriesOf(t, []), key);
  }

  lemma NothingUnder(e: Env, w: World, s: Store, stack: seq<State>, vs: seq<Visit>, more: seq<Visit>)
    requires Stacked(e, w, s, Bump(stack), vs) && more == Rest(e, w, s, Bump(stack), vs)
    ensures stack == [] ==> more == []
  {
  }

  lemma PassOrReach(c: Visit, b: seq<Visit>, es: seq<Entry>, key: Bytes)
    requires Suffix(Leaves([c] + b), es) && Sorted(es)
    requires Leaves([c] + b) != [] ==> StartsWith(Leaves([c] + b)[0].path, c.path)
    ensures Suffix(Leaves(b), es)
    ensures Leaves([c] + b) == (if c.t.Value? then [Entry(c.path, c.t.v)] else []) + Leaves(b)
    ensures Less(c.path, key) ==> NotBefore(Leaves(b), key) == NotBefore(Leaves([c] + b), key)
    ensures !Less(c.path, key) ==> NotBefore(Leaves([c] + b), key) == Leaves([c] + b)
  {
    assert ([c] + b)[1..] == b;
    LeavesSplit([c] + b);
    if Less(c.path, key) {
      if c.t.Value? {
        NotBeforeNone([Entry(c.path, c.t.v)], key);
        NotBeforeConcat([Entry(c.path, c.t.v)], Leaves(b), key);
      }
    } else {
      LeastFirst(Leaves([c] + b), c.path, key);
    }
  }

  lemma LeastFirst(es: seq<Entry>, p: Bytes, key: Bytes)
    requires Sorted(es) && !Less(p, key) && (es != [] ==> StartsWith(es[0].path, p))
    ensures NotBefore(es, key) == es
  {
    if es != [] {
      FrontLess(es[0].path, p);
      NotLess(es[0].path, p, key);
      NotBeforeFirst(es, key);
    }
  }

  lemma NodeFirst(c: Visit)
    requires Wf(c.t)
    ensures c.t != Nil ==> Visits(c.t, c.path) == [c] + VisitsBelow(c.t, c.path)
  {
  }

  lemma LeavesSplit(vs: seq<Visit>)
    requires vs != []
    ensures Leaves(vs) == (if vs[0].t.Value? then [Entry(vs[0].path, vs[0].t.v)] else []) + Leaves(vs[1..])
  {
  }

  lemma NotLess(a: Bytes, b: Bytes, c: Bytes)
    requires !Less(a, b) && !Less(b, c)
    ensures !Less(a, c)
  {
    LessTotal(a, b);
    LessTotal(b, c);
    LessTotal(a, c);
    if Less(a, c) {
      if Less(b, a) { LessTrans(b, a, c); }
    }
  }

  /** The first entry from a node on lies below it. */
  lemma FirstLeaf(c: Visit, more: seq<Visit>)
    requires Wf(c.t) && (c.t == Nil ==> more == [])
    ensures var es := Leaves([c] + VisitsBelow(c.t, c.path) + more);
            es != [] ==> StartsWith(es[0].path, c.path)
  {
    var all := [c] + VisitsBelow(c.t, c.path);
    if c.t != Nil {
      NodeFirst(c);
      LeavesAreEntries(c.t, c.path);
      EntriesSome(c.t, c.path);
      EntriesUnder(c.t, c.path);
      LeavesConcat(all, more);
    } else {
      assert all + more == [c] && [c][1..] == [];
    }
  }

  // ---------------------------------------------------------------- the iterator

  datatype IterError = Fine | End | MissingNode | SeekFailed(prefix: Bytes)

  datatype Peeked = Found(state: State, path: Bytes) | Unresolved | Over

  /** `resolve`: a node that is there by hash only is loaded. */
  method ResolveState(st: State, e: Env, s: Store, ghost w: World, ghost v: Visit, ghost first: bool)
    returns (r: Option<State>)
    requires Sound(e, w, s) && Wf(v.t) && Known(e.H, w.known, v.t) && Rep(e, w, s, st.node, v.t, first)
    ensures w.full ==> r.Some?
    ensures r.Some? ==>
              && Rep(e, w, s, r.value.node, v.t, first) && !r.value.node.HashNode?
              && r.value.index == st.index && r.value.pathlen == st.pathlen
  {
    if st.node.HashNode? {
      ResolveRep(e, w, s, st.node.hash, v.t, first);
      var n := Resolve(e, s, st.node.hash);
      if n.None? {
        return None;
      }
      return Some(st.(node := n.value));
    }
    return Some(st);
  }

  lemma FramedChild(e: Env, w: World, s: Store, st: State, v: Visit, under: Bytes, first: bool)
    requires Wf(v.t) && Known(e.H, w.known, v.t) && Rep(e, w, s, st.node, v.t, first) && !st.node.HashNode?
    requires st.index == -1 && st.pathlen == |under| && StartsWith(v.path, under)
    requires v.t.Value? <==> HasTerm(v.path)
    ensures Framed(e, w, s, st, v, under, first)
  {
  }

  class NodeIterator {
    const e: Env
    const s: Store
    const root: Node
    ghost const w: World
    ghost const t: Trie
    var stack: seq<State>
    var path: Bytes
    var err: IterError
    ghost var vs: seq<Visit>

    ghost predicate Based()
      requires Wf(t)
    {
      Sound(e, w, s) && Known(e.H, w.known, t) && Rep(e, w, s, root, t, true)
    }

    /** The stack stands for a place in the trie. */
    ghost predicate Placed()
      reads this
    {
      IsTrie(t) && Based() && Stacked(e, w, s, stack, vs) && path == PathAt(vs)
    }

    /** All nodes that come after the place: the root and the rest before the first step. */
    ghost function Following(): seq<Visit>
      reads this
      requires Placed()
    {
      AllFrom(e, w, s, t, stack, vs)
    }

    /** All nodes that are still to come. */
    ghost function Ahead(): seq<Visit>
      reads this
      requires Placed()
    {
      if err.End? then [] else Following()
    }

    /** All entries that are still to come; a seek that failed is still to be finished. */
    ghost function Due(): seq<Entry>
      reads this
      requires Placed()
    {
      if err.SeekFailed? then NotBefore(Leaves(Ahead()), Nibbles(err.prefix)) else Leaves(Ahead())
    }

    /** Entries come in the order of the trie, and a seek in progress has not gone too far. */
    ghost predicate Valid()
      reads this
    {
      && Placed() && Suffix(Leaves(Ahead()), EntriesOf(t, []))
      && (err.SeekFailed? ==> Seeking(vs, Nibbles(err.prefix)))
    }

    constructor (e: Env, s: Store, root: Node, ghost w: World, ghost t: Trie)
      requires IsTrie(t) && Sound(e, w, s) && Known(e.H, w.known, t) && Rep(e, w, s, root, t, true)
      ensures Valid() && Ahead() == [Visit([], t)] + VisitsBelow(t, []) && Due() == EntriesOf(t, [])
      ensures this.e == e && this.s == s && this.root == root && this.w == w && this.t == t
      ensures err == Fine && stack == []
    {
      this.e, this.s, this.root, this.w, this.t := e, s, root, w, t;
      stack, path, err, vs := [], [], Fine, [];
      new;
      StartEntries(t);
    }

    /** What is left when the node at the top is not descended into any further. */
    ghost function Onward(descend: bool): seq<Visit>
      reads this
      requires Placed() && stack != []
    {
      Beyond(e, w, s, stack, vs, descend)
    }

    /** `pop` */
    method Pop()
      requires Placed() && stack != []
      modifies this`stack, this`path, this`vs
      ensures Placed() && |old(stack)| == |old(vs)| && stack == old(stack)[..|old(stack)| - 1]
      ensures vs == old(vs)[..|old(vs)| - 1]
      ensures Rest(e, w, s, stack, vs) == old(Onward(false))
    {
      hide Based, Stacked, Framed, Rest;
      StackedPop(e, w, s, stack, vs);
      path := path[..stack[|stack| - 1].pathlen];
      stack, vs := stack[..|stack| - 1], vs[..|vs| - 1];
    }
  
    /** The first step of `peek`: the root. */
    method PeekRoot() returns (out: Peeked, ghost c: Visit)
      requires Placed() && stack == []
      ensures w.full ==> !out.Unresolved?
      ensures !out.Over? && (out.Found? ==> IsNext(e, w, s, t, stack, vs, out.state, c) && c.path == out.path)
    {
      hide Stacked, Framed, Rest, Sound, Rep, Known, VisitsBelow, Wf;
      c := Visit([], t);
      Unplaced(e, w, s, stack, vs);
      NothingLeft(e, w, s, stack, vs, []);
      var st := ResolveState(State(root, -1, 0), e, s, w, c, true);
      if st.None? {
        return Unresolved, c;
      }
      FramedChild(e, w, s, st.value, c, [], true);
      assert [c] + VisitsBelow(t, []) + [] == [c] + VisitsBelow(t, []);
      return Found(st.value, []), c;
    }

    /** The loop of `peek`: nodes without further children are left. */
    method PeekChild() returns (out: Peeked, ghost c: Visit)
      requires Placed()
      modifies this`stack, this`path, this`vs
      ensures Placed() && vs <= old(vs)
      ensures w.full ==> !out.Unresolved?
      ensures Rest(e, w, s, stack, vs) == old(Rest(e, w, s, stack, vs))
      ensures out.Over? <==> stack == []
      ensures out.Found? ==> IsNext(e, w, s, t, stack, vs, out.state, c) && c.path == out.path
    {
      hide Stacked, Framed, Rest, Sound, Rep, Known, Visits, VisitsBelow, Left, Wf;
      c := Visit([], t);
      while stack != []
        invariant Placed() && Rest(e, w, s, stack, vs) == old(Rest(e, w, s, stack, vs)) && vs <= old(vs)
        decreases |stack|
      {
        StackedPop(e, w, s, stack, vs);
        ghost var top := |stack| - 1;
        var parent := stack[|stack| - 1];
        var found, child, path', index;
        found, child, path', index, c := NextChild(parent, path, e, w, s, vs[top], PathAt(vs[..top]), top == 0);
        if found {
          TookChild(e, w, s, stack, vs, index, c);
          stack := stack[|stack| - 1 := parent.(index := index)];
          var st := ResolveState(child, e, s, w, c, false);
          if st.None? {
            return Unresolved, c;
          }
          FramedChild(e, w, s, st.value, c, path, false);
          NodeFirst(c);
          return Found(st.value, path'), c;
        }
        RestTop(e, w, s, stack, vs);
        Pop();
      }
      return Over, c;
    }

    /** `peek`: the next node to visit, if it is there. Nothing is visited yet. */
    method Peek(descend: bool) returns (out: Peeked, ghost c: Visit)
      requires Placed()
      modifies this`stack, this`path, this`vs
      ensures Placed()
      ensures w.full ==> !out.Unresolved?
      ensures old(stack) == [] ==> stack == [] && vs == old(vs) && !out.Over?
      ensures old(stack) != [] ==> Rest(e, w, s, stack, vs) == old(Onward(descend))
      ensures old(stack) != [] ==> (out.Over? <==> stack == [])
      ensures vs <= old(vs) && (vs == old(vs) && stack != [] ==> descend)
      ensures out.Found? ==> IsNext(e, w, s, t, stack, vs, out.state, c) && c.path == out.path
    {
      hide Based, Stacked, Framed, Rest, IsNext, Wf;
      if stack == [] {
        out, c := PeekRoot();
        return;
      }
      if !descend {
        Pop();
      }
      out, c := PeekChild();
    }

    /** `push` */
    method Push(state: State, path': Bytes, ghost c: Visit)
      requires Placed() && Framed(e, w, s, state, c, PathAt(vs), stack == []) && state.index == -1
      requires Wf(c.t) && c.path == path' && Stacked(e, w, s, Bump(stack), vs)
      modifies this`stack, this`path, this`vs
      ensures Placed() && stack == Bump(old(stack)) + [state] && vs == old(vs) + [c] && path == path'
      ensures Rest(e, w, s, stack, vs) == VisitsBelow(c.t, c.path) + old(Rest(e, w, s, Bump(stack), vs))
    {
      hide Based, Stacked, Framed, Rest, Visits, VisitsBelow;
      LeftAll(c);
      StackedPush(e, w, s, Bump(stack), vs, state, c);
      path := path';
      stack, vs := Bump(stack) + [state], vs + [c];
    }

    /** `seek`: moves to just before the first node whose path is not before the key. Entries
        before the key are left behind, and no others; a missing node leaves the seek to be taken
        up again. */
    method Seek(prefix: Bytes) returns (r: IterError)
      requires Placed() && Seeking(vs, Nibbles(prefix)) && Suffix(Leaves(Following()), EntriesOf(t, []))
      modifies this`stack, this`path, this`vs
      ensures Placed() && (r.Fine? || r.End? || r == SeekFailed(prefix)) && (w.full ==> !r.SeekFailed?)
      ensures r.Fine? ==> Leaves(Following()) == NotBefore(old(Leaves(Following())), Nibbles(prefix))
      ensures r.End? ==> NotBefore(old(Leaves(Following())), Nibbles(prefix)) == []
      ensures r.SeekFailed? ==>
                && Seeking(vs, Nibbles(prefix))
                && NotBefore(Leaves(Following()), Nibbles(prefix)) ==
                  NotBefore(old(Leaves(Following())), Nibbles(prefix))
      ensures !r.End? ==> Suffix(Leaves(Following()), EntriesOf(t, []))
    {
      hide Stacked, Framed, Rest, Based, Visits, VisitsBelow, Leaves, NotBefore, EntriesOf, Less, Wf;
      var key := KeyHex(prefix);
      key := key[..|key| - 1];
      assert key == Nibbles(prefix);
      while true
        invariant Placed() && Seeking(vs, key) && Suffix(Leaves(Following()), EntriesOf(t, []))
        invariant NotBefore(Leaves(Following()), key) == NotBefore(old(Leaves(Following())), key)
        decreases |Following()|
      {
        ghost var ahead := Following();
        var descend := StartsWith(key, path);
        if stack != [] {
          Onwards(e, w, s, stack, vs, descend, key, t);
        }
        ghost var before := vs;
        var out, c := Peek(descend);
        if out.Over? {
          NothingLeft(e, w, s, stack, vs, key);
          return End;
        }
        SeekingBack(before, vs, key);
        if out.Unresolved? {
          return SeekFailed(prefix);
        }
        FoundNext(e, w, s, t, stack, vs, out.state, c, key);
        if !Less(out.path, key) {
          return Fine;
        }
        SameHeight(e, w, s, stack, vs);
        SeekingOn(before, vs, c, key);
        Push(out.state, out.path, c);
      }
    }

    /** What the node at the top adds to the entries seen. */
    ghost function Seen(): seq<Entry>
      reads this
      requires vs != []
    {
      var v := vs[|vs| - 1];
      if v.t.Value? then [Entry(v.path, v.t.v)] else []
    }

    /** One step from a place that no seek has left open. */
    method Step(descend: bool) returns (more: bool)
      requires Valid() && !err.SeekFailed? && !err.End?
      modifies this
      ensures Valid() && !err.SeekFailed? && (more <==> err.Fine?) && (w.full ==> more || err.End?)
      ensures more ==> vs != [] && path == vs[|vs| - 1].path && stack != []
      ensures more ==> (old(stack) == [] || descend ==> old(Ahead()) == [vs[|vs| - 1]] + Ahead())
      ensures more ==> (old(stack) != [] && !descend ==> old(Onward(false)) == [vs[|vs| - 1]] + Ahead())
      ensures descend ==> old(Due()) == (if more then Seen() else []) + Due()
      ensures err.End? ==> Due() == []
    {
      hide Based, Stacked, Framed, Rest, VisitsBelow, Leaves, EntriesOf, Wf, Less, IsNext, Suffix, NotBefore, Seeking;
      if stack != [] {
        OnwardSuffix(e, w, s, stack, vs, descend, t);
      }
      NothingLeftIn();
      var out, c := Peek(descend);
      match out
      case Over =>
        NothingLeft(e, w, s, stack, vs, []);
        err := End;
        more := false;
      case Unresolved =>
        err := MissingNode;
        more := false;
      case Found(st, path') =>
        StepTo(st, path', c);
        more := true;
    }

    /** A step to the node that is next. */
    method StepTo(st: State, path': Bytes, ghost c: Visit)
      requires Placed() && Suffix(Leaves(Following()), EntriesOf(t, [])) && IsNext(e, w, s, t, stack, vs, st, c)
               && c.path == path'
      modifies this
      ensures Valid() && err.Fine? && stack != [] && vs == old(vs) + [c] && path == path'
      ensures old(Following()) == [c] + Ahead() && old(Leaves(Following())) == Seen() + Due()
    {
      hide Based, Stacked, Framed, Rest, VisitsBelow, Leaves, EntriesOf, Wf, Less, Suffix, NotBefore;
      err := Fine;
      FoundNext(e, w, s, t, stack, vs, st, c, []);
      assert [c] + VisitsBelow(c.t, c.path) + Rest(e, w, s, Bump(stack), vs) ==
               [c] + (VisitsBelow(c.t, c.path) + Rest(e, w, s, Bump(stack), vs));
      Push(st, path', c);
    }

    /** `Next`: a seek that failed is taken up first. With `descend`, what is due is what this node
        adds and what is due after it; a missing node leaves everything due, to be tried again. */
    method Next(descend: bool) returns (more: bool)
      requires Valid()
      modifies this
      ensures Valid() && (more ==> err.Fine?) && (w.full ==> more || err.End?)
      ensures more ==> vs != [] && path == vs[|vs| - 1].path && stack != []
      ensures descend && more ==> old(Due()) == Seen() + Due()
      ensures !more ==> (descend ==> Due() == old(Due())) && (err.End? ==> Due() == [])
      ensures !old(err.SeekFailed?) && descend && more ==> old(Ahead()) == [vs[|vs| - 1]] + Ahead()
      ensures !old(err.SeekFailed?) && !descend && more && old(stack) != [] ==>
                old(Onward(false)) == [vs[|vs| - 1]] + Ahead()
    {
      hide Based, Stacked, Rest, VisitsBelow, Leaves, EntriesOf, Wf, Less, NotBefore, Framed;
      more := false;
      if err.End? {
        NothingLeftIn();
        return;
      }
      ghost var due := Due();
      if err.SeekFailed? {
        var r := Seek(err.prefix);
        if r.End? { NothingLeftIn(); NothingIsDue(t); }
        err := r;
        if !err.Fine? {
          return;
        }
      }
      assert due == Due();
      more := Step(descend);
      assert !more ==> [] + Due() == Due();
    }
  }

  lemma NothingIsDue(t: Trie)
    requires Wf(t)
    ensures Suffix([], EntriesOf(t, []))
  {
  }

  /** `newNodeIterator`: an iterator from a start key on. */
  method StartAt(e: Env, s: Store, root: Node, start: Bytes, ghost w: World, ghost t: Trie) returns (it: NodeIterator)
    requires IsTrie(t) && Sound(e, w, s) && Known(e.H, w.known, t) && Rep(e, w, s, root, t, true)
    ensures fresh(it) && it.Valid() && it.w == w && it.t == t
    ensures it.Due() == NotBefore(EntriesOf(t, []), Nibbles(start))
  {
    hide Stacked, Rest, VisitsBelow, Leaves, EntriesOf, Wf, Less, NotBefore, Framed, Sound, Known, Rep, Seeking, Suffix;
    it := new NodeIterator(e, s, root, w, t);
    NoneOnStack(it, Nibbles(start));
    var r := it.Seek(start);
    if r.End? { NothingLeftIn(); NothingIsDue(t); }
    it.err := r;
  }

  lemma NoneOnStack(it: NodeIterator, key: Bytes)
    requires it.Valid() && it.stack == []
    ensures Seeking(it.vs, key) && it.vs == []
  {
  }

  // ---------------------------------------------------------------- key-value iteration

  /** Everything that is due is in the trie, under a full key. */
  lemma DueEntries(it: NodeIterator)
    requires it.Valid()
    ensures forall x :: x in it.Due() ==> IsKey(x.path) && Lookup(it.t, x.path) == Some(x.value)
  {
    hide Stacked, Rest, Leaves, EntriesOf, VisitsBelow, Framed, Seeking, NotBefore;
    var es := Leaves(it.Ahead());
    EntriesSorted(it.t, []);
    assert Sorted(es);
    forall x | x in it.Due() ensures IsKey(x.path) && Lookup(it.t, x.path) == Some(x.value) {
      if it.err.SeekFailed? { NotBeforeExact(es, Nibbles(it.err.prefix), x); }
      EntriesExact(it.t, x);
    }
  }

  /** `LeafKey`: the bytes of a key; a key of an odd number of nibbles has none. */
  method LeafKey(path: Bytes) returns (key: Option<Bytes>)
    requires IsKey(path)
    ensures forall k :: key == Some(k) <==> path == KeyHex(k)
  {
    if (|path| - 1) % 2 != 0 {
      forall k ensures path != KeyHex(k) { assert |KeyHex(k)| == 2 * |k| + 1; }
      return None;
    }
    var a := HexToKeybytes(path);
    assert Body(path) == path[..|path| - 1];
    assert path == path[..|path| - 1] + [TERM];
    assert path == KeyHex(a[..]);
    key := Some(a[..]);
  }

  class Iterator {
    const nodeIt: NodeIterator
    /** The path in nibbles, the bytes it stands for, and the value. */
    var path: Bytes
    var key: Option<Bytes>
    var value: Bytes

    constructor (nodeIt: NodeIterator)
      ensures this.nodeIt == nodeIt
    {
      this.nodeIt, path, key, value := nodeIt, [], None, [];
    }

    /** `Iterator.Next`: the first entry that is due, or none when nothing is due any more (or a
        node is missing, in which case everything stays due). */
    method Next() returns (more: bool)
      requires nodeIt.Valid()
      modifies this, nodeIt
      ensures nodeIt.Valid()
      ensures more ==> old(nodeIt.Due()) == [Entry(path, value)] + nodeIt.Due()
      ensures more ==> forall k :: key == Some(k) <==> path == KeyHex(k)
      ensures !more ==> nodeIt.Due() == old(nodeIt.Due()) && (nodeIt.err.End? ==> nodeIt.Due() == [])
      ensures nodeIt.w.full && !more ==> nodeIt.err.End?
    {
      hide Stacked, Rest, VisitsBelow, Leaves, EntriesOf, Wf, Less, NotBefore, Framed, Seeking, Suffix, Sound, Known,
           Rep, Lookup, IsKey, KeyHex;
      DueEntries(nodeIt);
      ghost var due := nodeIt.Due();
      more := NextLeaf();
      if more {
        assert due[0] == Entry(path, value) && due[0] in due;
        key := LeafKey(path);
      } else {
        key := None;
      }
    }

    /** Nodes are passed until there is a value. */
    method NextLeaf() returns (more: bool)
      requires nodeIt.Valid()
      modifies this, nodeIt
      ensures nodeIt.Valid()
      ensures more ==> old(nodeIt.Due()) == [Entry(path, value)] + nodeIt.Due()
      ensures !more ==> nodeIt.Due() == old(nodeIt.Due()) && (nodeIt.err.End? ==> nodeIt.Due() == [])
      ensures nodeIt.w.full && !more ==> nodeIt.err.End?
    {
      hide Stacked, Rest, VisitsBelow, Leaves, EntriesOf, Wf, Less, NotBefore, Framed, Seeking, Suffix, Sound, Known,
           Rep;
      var it := nodeIt;
      more := it.Next(true);
      while more && !HasTerm(it.path)
        invariant it.Valid() && (more ==> it.err.Fine? && it.vs != [] && it.path == it.vs[|it.vs| - 1].path
                                          && it.stack != [])
        invariant more ==> old(nodeIt.Due()) == it.Seen() + it.Due()
        invariant !more ==> it.Due() == old(nodeIt.Due()) && (it.err.End? ==> it.Due() == [])
        invariant it.w.full && !more ==> it.err.End?
        decreases more, if more then |it.Ahead()| else 0
      {
        AtLeaf(it);
        assert it.Seen() + it.Due() == it.Due();
        more := it.Next(true);
      }
      if more {
        AtLeaf(it);
        path, value := it.path, it.stack[|it.stack| - 1].node.v;
      } else {
        path, value := [], [];
      }
    }
  }

  /** The bytes of the keys of some entries, where they have any. */
  ghost predicate KeysOf(es: seq<Entry>, keys: seq<Option<Bytes>>) {
    |keys| == |es| && forall i, k :: 0 <= i < |es| ==> (keys[i] == Some(k) <==> es[i].path == KeyHex(k))
  }

  lemma NoKeys()
    ensures KeysOf([], [])
  {
  }

  lemma OneKey(es: seq<Entry>, keys: seq<Option<Bytes>>, path: Bytes, value: Bytes, key: Option<Bytes>)
    requires KeysOf(es, keys) && forall k :: key == Some(k) <==> path == KeyHex(k)
    ensures KeysOf(es + [Entry(path, value)], keys + [key])
  {
  }

  /** A whole iteration from a start key: exactly the entries that are not before it, in order, and
      with the keys of the trie; a prefix of them when a node is missing. */
  method Iterate(e: Env, s: Store, root: Node, start: Bytes, ghost w: World, ghost t: Trie)
    returns (es: seq<Entry>, keys: seq<Option<Bytes>>, done: bool)
    requires IsTrie(t) && Sound(e, w, s) && Known(e.H, w.known, t) && Rep(e, w, s, root, t, true)
    ensures es <= NotBefore(EntriesOf(t, []), Nibbles(start)) && (w.full ==> done)
    ensures done ==> es == NotBefore(EntriesOf(t, []), Nibbles(start))
    ensures KeysOf(es, keys)
  {
    hide EntriesOf, NotBefore, Sound, Known, Rep, Wf, KeyHex, Nibbles, KeysOf, Stacked, Rest, VisitsBelow, Leaves,
         Framed, Seeking, Suffix;
    NoKeys();
    var nodes := StartAt(e, s, root, start, w, t);
    var it := new Iterator(nodes);
    ghost var all := nodes.Due();
    es, keys, done := [], [], false;
    var more := true;
    while more
      invariant nodes.Valid() && it.nodeIt == nodes && nodes.w == w && fresh(nodes) && fresh(it)
      invariant all == es + nodes.Due() && (!more ==> (w.full ==> done) && (done ==> nodes.Due() == []))
      invariant KeysOf(es, keys)
      decreases |nodes.Due()|, more
    {
      ghost var due := nodes.Due();
      more := it.Next();
      if more {
        assert es + due == es + [Entry(it.path, it.value)] + nodes.Due();
        OneKey(es, keys, it.path, it.value, it.key);
        es, keys := es + [Entry(it.path, it.value)], keys + [it.key];
      } else {
        done := nodes.err.End?;
      }
    }
  }

  /** The iterator is at a value exactly when its path is terminated. */
  lemma AtLeaf(it: NodeIterator)
    requires it.Valid() && it.stack != [] && it.vs != []
    ensures HasTerm(it.path) <==> it.vs[|it.vs| - 1].t.Value?
    ensures HasTerm(it.path) ==>
              && it.stack[|it.stack| - 1].node.ValueNode?
              && it.vs[|it.vs| - 1].t == Value(it.stack[|it.stack| - 1].node.v)
  {
    hide Stacked, Rest, Leaves, EntriesOf, VisitsBelow, Framed, Seeking, Suffix;
    TopLeaf(it.e, it.w, it.s, it.stack, it.vs);
  }

  lemma TopLeaf(e: Env, w: World, s: Store, stack: seq<State>, vs: seq<Visit>)
    requires Stacked(e, w, s, stack, vs) && stack != []
    ensures |stack| == |vs| && (vs[|vs| - 1].t.Value? <==> HasTerm(vs[|vs| - 1].path))
    ensures vs[|vs| - 1].t.Value? ==>
              && stack[|stack| - 1].node.ValueNode?
              && vs[|vs| - 1].t == Value(stack[|stack| - 1].node.v)
  {
    hide Stacked;
    StackedPop(e, w, s, stack, vs);
  }

  lemma NothingLeftIn()
    ensures Leaves([]) == []
  {
  }

  lemma OnwardSuffix(e: Env, w: World, s: Store, stack: seq<State>, vs: seq<Visit>, descend: bool, t: Trie)
    requires Stacked(e, w, s, stack, vs) && stack != []
    requires Wf(t) && Suffix(Leaves(Rest(e, w, s, stack, vs)), EntriesOf(t, []))
    ensures Suffix(Leaves(Beyond(e, w, s, stack, vs, descend)), EntriesOf(t, []))
    ensures descend ==> Beyond(e, w, s, stack, vs, descend) == Rest(e, w, s, stack, vs)
  {
    hide EntriesOf, Visits, Left, Stacked, Rest, Leaves;
    if !descend {
      RestTop(e, w, s, stack, vs);
      var top := |stack| - 1;
      LeavesConcat(Left(vs[top], stack[top].index), Rest(e, w, s, stack[..top], vs[..top]));
    }
  }

  lemma LeftAll(c: Visit)
    requires Wf(c.t)
    ensures Left(c, -1) == VisitsBelow(c.t, c.path)
  {
  }

  /** A child is found: the parent is put just before it, and will move past it. */
  lemma TookChild(e: Env, w: World, s: Store, stack: seq<State>, vs: seq<Visit>, index: int, c: Visit)
    requires Stacked(e, w, s, stack, vs) && stack != [] && |stack| == |vs| && -1 <= index < 16 && Wf(c.t)
    requires var v, i := vs[|vs| - 1], stack[|stack| - 1].index;
             && Wf(v.t) && -1 <= i <= 16
             && Left(v, i) == Left(v, index) == Visits(c.t, c.path) + Left(v, index + 1)
    ensures var stack' := stack[|stack| - 1 := stack[|stack| - 1].(index := index)];
            && Stacked(e, w, s, stack', vs) && Stacked(e, w, s, Bump(stack'), vs)
            && Rest(e, w, s, stack', vs) == Rest(e, w, s, stack, vs)
            && Rest(e, w, s, stack', vs) == Visits(c.t, c.path) + Rest(e, w, s, Bump(stack'), vs)
  {
    hide Stacked, Rest, Left, Visits;
    var top := |stack| - 1;
    StackedTop(e, w, s, stack, vs, index);
    StackedTop(e, w, s, stack, vs, index + 1);
    RestTop(e, w, s, stack, vs);
    var stack' := stack[top := stack[top].(index := index)];
    assert Bump(stack') == stack[top := stack[top].(index := index + 1)];
  }

  lemma Unplaced(e: Env, w: World, s: Store, stack: seq<State>, vs: seq<Visit>)
    requires Stacked(e, w, s, stack, vs) && stack == []
    ensures vs == [] && PathAt(vs) == []
  {
  }

  lemma RestTop(e: Env, w: World, s: Store, stack: seq<State>, vs: seq<Visit>)
    requires Stacked(e, w, s, stack, vs) && stack != []
    ensures var top := |stack| - 1;
            && |stack| == |vs| && Wf(vs[top].t) && -1 <= stack[top].index <= 16
            && Stacked(e, w, s, stack[..top], vs[..top])
            && Rest(e, w, s, stack, vs) == Left(vs[top], stack[top].index) + Rest(e, w, s, stack[..top], vs[..top])
  {
    StackedPop(e, w, s, stack, vs);
  }
}
