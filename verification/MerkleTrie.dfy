/**
 The Merkle Patricia trie as a value: short nodes carry a run of nibbles, full nodes branch on
 one nibble, and every key ends in a terminator, so that no key is a prefix of another.
 Insertion and deletion keep a minimal form, refine a plain map, and the minimal form is
 canonical: equal contents mean equal tries.
 */
module MerkleTrie {
  import opened Common
  import opened Rlp

  const TERM: Byte := 16

  /** A fully loaded trie. */
  datatype Trie =
    | Nil
    | Value(v: Bytes)
    | Short(key: Bytes, val: Trie)
    | Full(children: seq<Trie>)

  // ---------------------------------------------------------------- keys

  predicate HasTerm(s: Bytes) {
    |s| > 0 && s[|s| - 1] == TERM
  }

  /** Nibbles, of which only the last may be the terminator. */
  ghost predicate Run(s: Bytes) {
    (forall i :: 0 <= i < |s| - 1 ==> s[i] < TERM) && (|s| > 0 ==> s[|s| - 1] <= TERM)
  }

  /** A complete key: nibbles followed by the terminator. */
  ghost predicate IsKey(k: Bytes) {
    Run(k) && HasTerm(k)
  }

  /** `prefixLen`: how many leading elements two strings share. */
  function PrefixLen(a: Bytes, b: Bytes): (n: nat)
    ensures n <= |a| && n <= |b| && a[..n] == b[..n]
    ensures n < |a| && n < |b| ==> a[n] != b[n]
  {
    if a == [] || b == [] || a[0] != b[0] then 0
    else
      var n := PrefixLen(a[1..], b[1..]);
      assert a[..n + 1] == [a[0]] + a[1..][..n] && b[..n + 1] == [b[0]] + b[1..][..n];
      n + 1
  }

  lemma RunDrop(s: Bytes, n: nat)
    requires Run(s) && n <= |s|
    ensures Run(s[n..]) && (n < |s| ==> HasTerm(s[n..]) == HasTerm(s))
    ensures n < |s| ==> Run(s[..n]) && !HasTerm(s[..n])
  {
  }

  /** `bytes.Equal` on the front of a key, with the length test before it. */
  predicate StartsWith(k: Bytes, run: Bytes) {
    |run| <= |k| && k[..|run|] == run
  }

  /** Comparing with a run is comparing with its two parts in turn. */
  lemma StartsInParts(k: Bytes, run: Bytes, m: nat)
    requires m <= |run| && m <= |k|
    ensures StartsWith(k, run) <==> k[..m] == run[..m] && StartsWith(k[m..], run[m..])
    ensures |run| <= |k| ==> k[m..][|run| - m..] == k[|run|..]
  {
    assert run == run[..m] + run[m..];
    if |run| <= |k| {
      assert k[..|run|] == k[..m] + k[m..][..|run| - m];
    }
  }

  lemma StartsHead(k: Bytes, run: Bytes)
    requires StartsWith(k, run) && |run| > 0
    ensures |k| > 0 && k[0] == run[0]
  {
    assert k[..|run|][0] == k[0];
  }

  lemma StartsEqual(a: Bytes, b: Bytes, run: Bytes)
    requires StartsWith(a, run) && StartsWith(b, run)
    ensures a[|run|..] == b[|run|..] <==> a == b
  {
    assert a == run + a[|run|..] && b == run + b[|run|..];
  }

  /** A run that is as long as its common part with a key ends exactly where the key does, if it
      is terminated, and leaves a key otherwise. */
  lemma KeyAfter(key: Bytes, run: Bytes)
    requires IsKey(key) && Run(run) && StartsWith(key, run)
    ensures HasTerm(run) ==> |run| == |key|
    ensures !HasTerm(run) ==> |run| < |key| && IsKey(key[|run|..])
  {
    RunDrop(key, |run|);
    if |run| > 0 { assert key[|run| - 1] == run[|run| - 1]; }
  }

  // ---------------------------------------------------------------- minimal form

  /** At least two entries are in use. */
  ghost predicate Crowded(ch: seq<Trie>) {
    exists i, j :: 0 <= i < j < |ch| && ch[i] != Nil && ch[j] != Nil
  }

  /** The shape of a node: values exactly at terminators, no short node below a short node, no
      full node with fewer than two entries. */
  ghost predicate Wf(t: Trie) {
    match t
    case Nil => true
    case Value(v) => |v| > 0
    case Short(key, val) =>
      |key| > 0 && Run(key) && (if HasTerm(key) then val.Value? else val.Full?) && Wf(val)
    case Full(ch) =>
      && |ch| == 17 && Crowded(ch) && (ch[16] == Nil || ch[16].Value?)
      && (forall i :: 0 <= i < 16 ==> !ch[i].Value?)
      && (forall i :: 0 <= i < 17 ==> Wf(ch[i]))
  }

  /** A trie as a whole: not a bare value. */
  ghost predicate IsTrie(t: Trie) {
    Wf(t) && !t.Value?
  }

  /** The part of a key that a node is asked for. */
  ghost predicate Asks(t: Trie, k: Bytes) {
    Wf(t) && match t case Value(_) => k == [] case Nil => k == [] || IsKey(k) case _ => IsKey(k)
  }

  /** The entry of a full node a key leads to, and the rest of the key. */
  lemma IntoFull(t: Trie, k: Bytes)
    requires t.Full? && Asks(t, k)
    ensures |k| > 0 && k[0] <= 16 && Asks(t.children[k[0]], k[1..])
  {
    RunDrop(k, 1);
  }

  lemma IntoShort(t: Trie, k: Bytes)
    requires t.Short? && Asks(t, k) && StartsWith(k, t.key)
    ensures Asks(t.val, k[|t.key|..])
  {
    KeyAfter(k, t.key);
  }

  // ---------------------------------------------------------------- lookup

  function Get(t: Trie, k: Bytes): Option<Bytes>
    requires Asks(t, k)
  {
    match t
    case Nil => None
    case Value(v) => Some(v)
    case Short(key, val) =>
      if !StartsWith(k, key) then None
      else
        IntoShort(t, k);
        Get(val, k[|key|..])
    case Full(ch) =>
      IntoFull(t, k);
      Get(ch[k[0]], k[1..])
  }

  // ---------------------------------------------------------------- insertion

  /** What inserting into nothing gives. */
  function Leaf(key: Bytes, val: Trie): Trie {
    if key == [] then val else Short(key, val)
  }

  /** Seventeen empty entries. */
  function EmptyChildren(): (r: seq<Trie>)
    ensures |r| == 17 && forall i :: 0 <= i < 17 ==> r[i] == Nil
  {
    seq(17, _ => Nil)
  }

  /** A full node with two entries where two keys part. */
  function Branch(a: Bytes, ta: Trie, b: Bytes, tb: Trie): Trie
    requires |a| > 0 && |b| > 0 && a[0] <= 16 && b[0] <= 16
  {
    Full(EmptyChildren()[a[0] := Leaf(a[1..], ta)][b[0] := Leaf(b[1..], tb)])
  }

  function Insert(t: Trie, k: Bytes, v: Bytes): Trie
    requires Asks(t, k)
  {
    if k == [] then Value(v)
    else
      match t
      case Short(key, val) =>
        var m := PrefixLen(k, key);
        if m == |key| then
          IntoShort(t, k);
          Short(key, Insert(val, k[m..], v))
        else
          PartWays(k, key);
          var branch := Branch(key[m..], val, k[m..], Value(v));
          if m == 0 then branch else Short(k[..m], branch)
      case Full(ch) =>
        IntoFull(t, k);
        Full(ch[k[0] := Insert(ch[k[0]], k[1..], v)])
      case Nil => Short(k, Value(v))
  }

  /** Where a key and a run part, both go on. */
  lemma PartWays(k: Bytes, run: Bytes)
    requires IsKey(k) && Run(run) && PrefixLen(k, run) < |run|
    ensures var m := PrefixLen(k, run);
            && m < |k| && k[m] != run[m] && k[m] <= 16 && run[m] <= 16
            && Run(run[m..]) && IsKey(k[m..]) && Run(k[..m]) && !HasTerm(k[..m])
  {
    var m := PrefixLen(k, run);
    RunDrop(run, m);
    assert m > 0 ==> run[m - 1] == run[..m][m - 1] == k[..m][m - 1];
    RunDrop(k, m);
  }

  // ---------------------------------------------------------------- insertion keeps the form

  lemma LeafWf(run: Bytes, val: Trie)
    requires Run(run) && |run| > 0 && Wf(val) && (if HasTerm(run) then val.Value? else val.Full?)
    ensures var t := Leaf(run[1..], val);
            Wf(t) && t != Nil && (if run[0] == TERM then t.Value? else t.Short? || t.Full?)
  {
    RunDrop(run, 1);
  }

  lemma BranchWf(a: Bytes, ta: Trie, b: Bytes, tb: Trie)
    requires Run(a) && |a| > 0 && Wf(ta) && (if HasTerm(a) then ta.Value? else ta.Full?)
    requires Run(b) && |b| > 0 && Wf(tb) && (if HasTerm(b) then tb.Value? else tb.Full?)
    requires a[0] != b[0]
    ensures a[0] <= 16 && b[0] <= 16 && Wf(Branch(a, ta, b, tb))
  {
    LeafWf(a, ta);
    LeafWf(b, tb);
    var ch := Branch(a, ta, b, tb).children;
    var i, j := if a[0] < b[0] then a[0] else b[0], if a[0] < b[0] then b[0] else a[0];
    assert ch[i] != Nil && ch[j] != Nil;
  }

  lemma PartedWf(key: Bytes, val: Trie, k: Bytes, v: Bytes)
    requires Wf(Short(key, val)) && IsKey(k) && |v| > 0 && PrefixLen(k, key) < |key|
    ensures var r := Insert(Short(key, val), k, v); Wf(r) && (r.Short? || r.Full?)
  {
    var m := PrefixLen(k, key);
    PartWays(k, key);
    RunDrop(key, m);
    RunDrop(k, m);
    BranchWf(key[m..], val, k[m..], Value(v));
  }

  /** Inserting keeps the minimal form, wherever in the trie it happens. */
  lemma {:induction false} InsertWf(t: Trie, k: Bytes, v: Bytes)
    requires Asks(t, k) && |v| > 0
    ensures var r := Insert(t, k, v);
            Wf(r) && r != Nil && (r.Value? <==> k == []) && (t.Full? ==> r.Full?)
  {
    if k != [] {
      match t
      case Short(key, val) =>
        var m := PrefixLen(k, key);
        if m == |key| {
          IntoShort(t, k);
          KeyAfter(k, key);
          InsertWf(val, k[m..], v);
        } else {
          PartedWf(key, val, k, v);
        }
      case Full(ch) =>
        IntoFull(t, k);
        InsertWf(ch[k[0]], k[1..], v);
        FullUpdateWf(ch, k[0], Insert(ch[k[0]], k[1..], v));
      case Nil =>
    }
  }

  /** Putting something in an entry keeps a full node in form. */
  lemma FullUpdateWf(ch: seq<Trie>, i: nat, n: Trie)
    requires Wf(Full(ch)) && i <= 16 && Wf(n) && n != Nil && (n.Value? <==> i == 16)
    ensures Wf(Full(ch[i := n]))
  {
    var a, b :| 0 <= a < b < |ch| && ch[a] != Nil && ch[b] != Nil;
    var c := ch[i := n];
    assert c[a] != Nil && c[b] != Nil;
  }

  // ---------------------------------------------------------------- insertion is a map update

  /** A run above a node, cut anywhere, leads to the same place. */
  lemma GetSplit(key: Bytes, val: Trie, m: nat, k: Bytes)
    requires Wf(Short(key, val)) && IsKey(k) && m < |key|
    ensures Wf(Short(key[m..], val))
    ensures StartsWith(k, key[..m]) ==>
              IsKey(k[m..]) && Get(Short(key, val), k) == Get(Short(key[m..], val), k[m..])
    ensures !StartsWith(k, key[..m]) ==> Get(Short(key, val), k) == None
  {
    RunDrop(key, m);
    if m <= |k| {
      StartsInParts(k, key, m);
      if StartsWith(k, key[..m]) {
        KeyAfter(k, key[..m]);
        if StartsWith(k, key) { IntoShort(Short(key, val), k); }
      }
    }
  }

  /** One step into a run that starts right. */
  lemma GetLeaf(run: Bytes, val: Trie, k: Bytes)
    requires Wf(Short(run, val)) && IsKey(k) && k[0] == run[0]
    ensures Asks(Leaf(run[1..], val), k[1..])
    ensures Get(Leaf(run[1..], val), k[1..]) == Get(Short(run, val), k)
  {
    LeafWf(run, val);
    RunDrop(k, 1);
    if |run| > 1 {
      GetSplit(run, val, 1, k);
    }
  }

  /** A branch of two runs answers for either run. */
  lemma GetBranch(a: Bytes, ta: Trie, b: Bytes, tb: Trie, k: Bytes)
    requires Wf(Short(a, ta)) && Wf(Short(b, tb)) && a[0] != b[0] && IsKey(k)
    ensures a[0] <= 16 && b[0] <= 16 && Asks(Branch(a, ta, b, tb), k)
    ensures Get(Branch(a, ta, b, tb), k) ==
            if k[0] == a[0] then Get(Short(a, ta), k) else Get(Short(b, tb), k)
  {
    BranchWf(a, ta, b, tb);
    var t := Branch(a, ta, b, tb);
    IntoFull(t, k);
    if k[0] == a[0] {
      GetLeaf(a, ta, k);
    } else if k[0] == b[0] {
      GetLeaf(b, tb, k);
    } else {
      assert t.children[k[0]] == Nil;
      if StartsWith(k, b) { StartsHead(k, b); }
    }
  }

  /** A lone key. */
  lemma GetLone(k: Bytes, v: Bytes, k2: Bytes)
    requires IsKey(k) && IsKey(k2) && |v| > 0
    ensures Get(Short(k, Value(v)), k2) == if k2 == k then Some(v) else None
  {
    if StartsWith(k2, k) {
      KeyAfter(k2, k);
    }
  }

  /** Insertion at the place where a run and a key part. */
  lemma GetParted(key: Bytes, val: Trie, k: Bytes, v: Bytes, k2: Bytes)
    requires Wf(Short(key, val)) && IsKey(k) && IsKey(k2) && |v| > 0
    requires PrefixLen(k, key) < |key|
    ensures Asks(Insert(Short(key, val), k, v), k2)
    ensures Get(Insert(Short(key, val), k, v), k2) ==
            if k2 == k then Some(v) else Get(Short(key, val), k2)
  {
    var m := PrefixLen(k, key);
    InsertWf(Short(key, val), k, v);
    PartWays(k, key);
    GetSplit(key, val, m, k2);
    GetSplit(k, Value(v), m, k2);
    GetLone(k, v, k2);
    if StartsWith(k2, k[..m]) {
      GetBranch(key[m..], val, k[m..], Value(v), k2[m..]);
      GetAside(key[m..], val, k2[m..]);
      GetAside(k[m..], Value(v), k2[m..]);
    }
  }

  /** A key that starts differently is not below a run. */
  lemma GetAside(run: Bytes, val: Trie, k: Bytes)
    requires Wf(Short(run, val)) && IsKey(k)
    ensures k[0] != run[0] ==> Get(Short(run, val), k) == None
  {
    if StartsWith(k, run) { StartsHead(k, run); }
  }

  /** Insertion is a map update. */
  lemma {:induction false} GetInsert(t: Trie, k: Bytes, v: Bytes, k2: Bytes)
    requires Asks(t, k) && Asks(t, k2) && |v| > 0 && (k == [] <==> k2 == [])
    ensures Asks(Insert(t, k, v), k2)
    ensures Get(Insert(t, k, v), k2) == if k2 == k then Some(v) else Get(t, k2)
  {
    InsertWf(t, k, v);
    if k != [] {
      match t
      case Short(key, val) =>
        if PrefixLen(k, key) < |key| {
          GetParted(key, val, k, v, k2);
        } else {
          IntoShort(t, k);
          KeyAfter(k, key);
          if StartsWith(k2, key) {
            IntoShort(t, k2);
            KeyAfter(k2, key);
            StartsEqual(k, k2, key);
            GetInsert(val, k[|key|..], v, k2[|key|..]);
          }
        }
      case Full(ch) =>
        IntoFull(t, k);
        IntoFull(t, k2);
        if k[0] == k2[0] {
          StartsEqual(k, k2, [k[0]]);
          GetInsert(ch[k[0]], k[1..], v, k2[1..]);
        }
      case Nil =>
        GetLone(k, v, k2);
    }
  }

  // ---------------------------------------------------------------- deletion

  /** The only entry in use: -1 when there is none, -2 when there are several. */
  function Lone(ch: seq<Trie>): (pos: int)
    ensures -2 <= pos < |ch|
    ensures pos >= 0 ==> ch[pos] != Nil && forall i :: 0 <= i < |ch| && i != pos ==> ch[i] == Nil
    ensures pos == -1 ==> forall i :: 0 <= i < |ch| ==> ch[i] == Nil
    ensures pos == -2 ==> Crowded(ch)
  {
    if ch == [] then -1
    else
      var last := |ch| - 1;
      var pos := Lone(ch[..last]);
      assert forall i :: 0 <= i < last ==> ch[i] == ch[..last][i];
      if ch[last] == Nil then pos
      else if pos == -1 then last
      else
        assert pos >= 0 ==> ch[pos] != Nil && ch[last] != Nil;
        -2
  }

  /** Reduces a full node that has one entry left to a short node. */
  function Collapse(ch: seq<Trie>): Trie
    requires |ch| == 17
  {
    var pos := Lone(ch);
    if pos >= 0 then
      if pos != 16 && ch[pos].Short? then Short([pos] + ch[pos].key, ch[pos].val)
      else Short([pos], ch[pos])
    else Full(ch)
  }

  /** Puts a run above a node, merging it with a short node. */
  function Join(key: Bytes, t: Trie): Trie {
    if t.Short? then Short(key + t.key, t.val) else Short(key, t)
  }

  function Delete(t: Trie, k: Bytes): Trie
    requires Asks(t, k)
  {
    match t
    case Nil => Nil
    case Value(_) => Nil
    case Short(key, val) =>
      if !StartsWith(k, key) then t
      else if |k| == |key| then Nil
      else
        IntoShort(t, k);
        Join(key, Delete(val, k[|key|..]))
    case Full(ch) =>
      IntoFull(t, k);
      Collapse(ch[k[0] := Delete(ch[k[0]], k[1..])])
  }

  // ---------------------------------------------------------------- deletion keeps the form

  /** A full node but for the number of entries in use. */
  ghost predicate Entries(ch: seq<Trie>) {
    && |ch| == 17 && (ch[16] == Nil || ch[16].Value?)
    && (forall i :: 0 <= i < 16 ==> !ch[i].Value?)
    && (forall i :: 0 <= i < 17 ==> Wf(ch[i]))
  }

  ghost predicate Used(ch: seq<Trie>) {
    exists i :: 0 <= i < |ch| && ch[i] != Nil
  }

  lemma JoinWf(key: Bytes, t: Trie)
    requires |key| > 0 && Run(key) && !HasTerm(key) && Wf(t) && (t.Short? || t.Full?)
    ensures Wf(Join(key, t))
  {
    if t.Short? {
      var r := key + t.key;
      assert HasTerm(r) == HasTerm(t.key);
    }
  }

  lemma CollapseWf(ch: seq<Trie>)
    requires Entries(ch) && Used(ch)
    ensures Wf(Collapse(ch)) && (Collapse(ch).Short? || Collapse(ch).Full?)
  {
    var pos := Lone(ch);
    if 0 <= pos < 16 {
      JoinWf([pos], ch[pos]);
    }
  }

  /** After one entry has changed, something is left. */
  lemma StillUsed(ch: seq<Trie>, i: nat, n: Trie)
    requires Wf(Full(ch)) && i <= 16 && Wf(n) && (n.Value? ==> i == 16) && (i == 16 ==> n == Nil || n.Value?)
    ensures Entries(ch[i := n]) && Used(ch[i := n])
  {
    var a, b :| 0 <= a < b < |ch| && ch[a] != Nil && ch[b] != Nil;
    var c := ch[i := n];
    assert c[if a == i then b else a] != Nil;
  }

  /** Deleting keeps the minimal form. */
  lemma {:induction false} DeleteWf(t: Trie, k: Bytes)
    requires Asks(t, k)
    ensures var r := Delete(t, k); IsTrie(r) && (t.Full? ==> r != Nil)
  {
    match t
    case Nil =>
    case Value(_) =>
    case Short(key, val) =>
      if StartsWith(k, key) && |k| != |key| {
        IntoShort(t, k);
        KeyAfter(k, key);
        DeleteWf(val, k[|key|..]);
        JoinWf(key, Delete(val, k[|key|..]));
      }
    case Full(ch) =>
      IntoFull(t, k);
      var n := Delete(ch[k[0]], k[1..]);
      DeleteWf(ch[k[0]], k[1..]);
      assert k[0] == 16 ==> n == Nil;
      StillUsed(ch, k[0], n);
      CollapseWf(ch[k[0] := n]);
  }

  // ---------------------------------------------------------------- deletion is a map removal

  lemma GetJoin(key: Bytes, t: Trie, k: Bytes)
    requires |key| > 0 && Run(key) && !HasTerm(key) && Wf(t) && (t.Short? || t.Full?) && IsKey(k)
    ensures Asks(Join(key, t), k)
    ensures StartsWith(k, key) ==> Asks(t, k[|key|..]) && Get(Join(key, t), k) == Get(t, k[|key|..])
    ensures !StartsWith(k, key) ==> Get(Join(key, t), k) == None
  {
    JoinWf(key, t);
    if StartsWith(k, key) { KeyAfter(k, key); }
    if t.Short? {
      GetSplit(key + t.key, t.val, |key|, k);
      assert (key + t.key)[|key|..] == t.key && (key + t.key)[..|key|] == key;
    }
  }

  lemma GetCollapse(ch: seq<Trie>, k: Bytes)
    requires Entries(ch) && Used(ch) && IsKey(k)
    ensures Asks(Collapse(ch), k) && k[0] <= 16 && Asks(ch[k[0]], k[1..])
    ensures Get(Collapse(ch), k) == Get(ch[k[0]], k[1..])
  {
    CollapseWf(ch);
    RunDrop(k, 1);
    var pos := Lone(ch);
    if pos >= 0 {
      if StartsWith(k, [pos]) { StartsHead(k, [pos]); }
      if pos == 16 {
        GetLone([16], ch[16].v, k);
      } else {
        GetJoin([pos], ch[pos], k);
      }
    }
  }

  /** Deletion removes one key and leaves every other as it was. */
  lemma {:induction false} GetDelete(t: Trie, k: Bytes, k2: Bytes)
    requires Asks(t, k) && Asks(t, k2) && (k == [] <==> k2 == [])
    ensures Asks(Delete(t, k), k2)
    ensures Get(Delete(t, k), k2) == if k2 == k then None else Get(t, k2)
  {
    DeleteWf(t, k);
    match t
    case Nil =>
    case Value(_) =>
    case Short(key, val) =>
      if StartsWith(k, key) {
        IntoShort(t, k);
        KeyAfter(k, key);
        if StartsWith(k2, key) {
          IntoShort(t, k2);
          KeyAfter(k2, key);
          StartsEqual(k, k2, key);
          GetDelete(val, k[|key|..], k2[|key|..]);
        }
        if |k| != |key| {
          DeleteWf(val, k[|key|..]);
          GetJoin(key, Delete(val, k[|key|..]), k2);
        }
      }
    case Full(ch) =>
      IntoFull(t, k);
      IntoFull(t, k2);
      var n := Delete(ch[k[0]], k[1..]);
      DeleteWf(ch[k[0]], k[1..]);
      assert k[0] == 16 ==> n == Nil;
      StillUsed(ch, k[0], n);
      GetCollapse(ch[k[0] := n], k2);
      if k[0] == k2[0] {
        StartsEqual(k, k2, [k[0]]);
        GetDelete(ch[k[0]], k[1..], k2[1..]);
      }
  }

  // ---------------------------------------------------------------- canonical form

  /** What a trie holds for a key; anything that is not a key has no value. */
  ghost function Lookup(t: Trie, k: Bytes): Option<Bytes>
    requires IsTrie(t)
  {
    if IsKey(k) then Get(t, k) else None
  }

  ghost predicate SameContents(s: Trie, t: Trie)
    requires IsTrie(s) && IsTrie(t)
  {
    forall k :: Lookup(s, k) == Lookup(t, k)
  }

  lemma LookupShort(key: Bytes, val: Trie, k: Bytes)
    requires Wf(Short(key, val)) && !HasTerm(key)
    ensures Lookup(Short(key, val), key + k) == Lookup(val, k)
    ensures IsKey(k) ==> IsKey(key + k)
  {
    assert (key + k)[..|key|] == key && (key + k)[|key|..] == k;
    if IsKey(k) {
      assert HasTerm(key + k);
    } else if IsKey(key + k) {
      KeyAfter(key + k, key);
    }
  }

  lemma LookupFull(t: Trie, i: Byte, k: Bytes)
    requires Wf(t) && t.Full? && i < 16
    ensures IsTrie(t.children[i]) && Lookup(t, [i] + k) == Lookup(t.children[i], k)
    ensures IsKey(k) ==> IsKey([i] + k)
  {
    assert ([i] + k)[1..] == k;
    if IsKey(k) {
      assert HasTerm([i] + k);
    } else if IsKey([i] + k) {
      KeyAfter([i] + k, [i]);
    }
  }

  lemma LookupEnd(t: Trie)
    requires Wf(t) && t.Full?
    ensures IsKey([TERM])
    ensures Lookup(t, [TERM]) == match t.children[16] case Value(v) => Some(v) case _ => None
  {
    IntoFull(t, [TERM]);
    assert Lookup(t, [TERM]) == Get(t.children[16], []);
  }

  lemma LookupWithin(t: Trie, k: Bytes)
    requires Wf(t) && t.Short? && Lookup(t, k).Some?
    ensures IsKey(k) && StartsWith(k, t.key)
  {
  }

  /** No node is there for nothing. */
  lemma {:induction false} SomeKey(t: Trie) returns (k: Bytes)
    requires IsTrie(t) && t != Nil
    ensures Lookup(t, k).Some?
  {
    match t
    case Short(key, val) =>
      if HasTerm(key) {
        k := key;
        assert Wf(val);
        GetLone(key, val.v, key);
      } else {
        var rest := SomeKey(val);
        k := key + rest;
        LookupShort(key, val, rest);
      }
    case Full(ch) =>
      var a, b :| 0 <= a < b < |ch| && ch[a] != Nil && ch[b] != Nil;
      k := EntryKey(t, a);
  }

  /** A key that goes through a used entry. */
  lemma {:induction false} EntryKey(t: Trie, i: nat) returns (k: Bytes)
    requires Wf(t) && t.Full? && i <= 16 && t.children[i] != Nil
    ensures Lookup(t, k).Some? && |k| > 0 && k[0] == i
    decreases t, 0
  {
    if i == 16 {
      k := [TERM];
      LookupEnd(t);
    } else {
      var rest := SomeKey(t.children[i]);
      k := [i] + rest;
      LookupFull(t, i, rest);
    }
  }

  /** A full node is there because two keys part in it. */
  lemma PartingKeys(t: Trie) returns (a: Bytes, b: Bytes)
    requires Wf(t) && t.Full?
    ensures Lookup(t, a).Some? && Lookup(t, b).Some? && |a| > 0 && |b| > 0 && a[0] != b[0]
  {
    var i, j :| 0 <= i < j < |t.children| && t.children[i] != Nil && t.children[j] != Nil;
    a := EntryKey(t, i);
    b := EntryKey(t, j);
  }

  /** Keys below a run agree along it. */
  lemma HeadsMeet(t: Trie, p: Bytes, a: Bytes, b: Bytes)
    requires Wf(t) && t.Short? && Lookup(t, p + a).Some? && Lookup(t, p + b).Some?
    requires |p| < |t.key| && |a| > 0 && |b| > 0
    ensures a[0] == b[0]
  {
    LookupWithin(t, p + a);
    LookupWithin(t, p + b);
    assert (p + a)[..|t.key|][|p|] == a[0] && (p + b)[..|t.key|][|p|] == b[0];
  }

  lemma ShortIsNotFull(s: Trie, t: Trie)
    requires Wf(s) && Wf(t) && s.Short? && t.Full?
    ensures !SameContents(s, t)
  {
    hide Get;
    var a, b := PartingKeys(t);
    if SameContents(s, t) {
      assert [] + a == a && [] + b == b;
      assert Lookup(s, a).Some? && Lookup(s, b).Some?;
      HeadsMeet(s, [], a, b);
    }
  }

  /** Equal contents leave no choice in the run of a short node. */
  lemma ShortRuns(s: Trie, t: Trie)
    requires Wf(s) && Wf(t) && s.Short? && t.Short? && SameContents(s, t)
    ensures |s.key| <= |t.key| ==> s.key == t.key
  {
    hide Get;
    var k := SomeKey(t);
    assert Lookup(s, k).Some?;
    LookupWithin(s, k);
    LookupWithin(t, k);
    if |s.key| < |t.key| {
      var m := |s.key|;
      RunDrop(t.key, m);
      assert s.key == k[..m] == t.key[..m];
      var a, b := PartingKeys(s.val);
      LookupShort(s.key, s.val, a);
      LookupShort(s.key, s.val, b);
      assert Lookup(t, s.key + a).Some? && Lookup(t, s.key + b).Some?;
      HeadsMeet(t, s.key, a, b);
    }
  }

  /** Tries with the same contents are the same trie, so a root hash does not depend on the
      order of the updates that led to it. */
  lemma {:induction false} Canonical(s: Trie, t: Trie)
    requires IsTrie(s) && IsTrie(t) && SameContents(s, t)
    ensures s == t
  {
    if s == Nil || t == Nil {
      if s != Nil { var k := SomeKey(s); }
      if t != Nil { var k := SomeKey(t); }
    } else if s.Short? && t.Full? {
      ShortIsNotFull(s, t);
    } else if s.Full? && t.Short? {
      ShortIsNotFull(t, s);
    } else if s.Short? {
      ShortRuns(s, t);
      ShortRuns(t, s);
      if HasTerm(s.key) {
        GetLone(s.key, s.val.v, s.key);
        assert Lookup(s, s.key) == Lookup(t, s.key);
        GetLone(s.key, t.val.v, s.key);
      } else {
        forall k ensures Lookup(s.val, k) == Lookup(t.val, k) {
          LookupShort(s.key, s.val, k);
          LookupShort(t.key, t.val, k);
        }
        Canonical(s.val, t.val);
      }
    } else {
      forall i | 0 <= i < 17 ensures s.children[i] == t.children[i] {
        if i < 16 {
          LookupFull(s, i, []);
          LookupFull(t, i, []);
          forall k ensures Lookup(s.children[i], k) == Lookup(t.children[i], k) {
            LookupFull(s, i, k);
            LookupFull(t, i, k);
          }
          Canonical(s.children[i], t.children[i]);
        } else {
          LookupEnd(s);
          LookupEnd(t);
          assert Lookup(s, [TERM]) == Lookup(t, [TERM]);
        }
      }
    }
  }

  // ---------------------------------------------------------------- whole histories

  /** One call of the update operation; an empty value deletes. */
  datatype Update = Update(key: Bytes, val: Bytes)

  function Step(t: Trie, u: Update): Trie
    requires Asks(t, u.key)
  {
    if u.val == [] then Delete(t, u.key) else Insert(t, u.key, u.val)
  }

  lemma StepLookup(t: Trie, u: Update, k: Bytes)
    requires IsTrie(t) && IsKey(u.key)
    ensures IsTrie(Step(t, u))
    ensures Lookup(Step(t, u), k) ==
            if k == u.key then (if u.val == [] then None else Some(u.val)) else Lookup(t, k)
  {
    if u.val == [] {
      DeleteWf(t, u.key);
      if IsKey(k) { GetDelete(t, u.key, k); }
    } else {
      InsertWf(t, u.key, u.val);
      if IsKey(k) { GetInsert(t, u.key, u.val, k); }
    }
  }

  ghost predicate Keyed(us: seq<Update>) {
    forall i :: 0 <= i < |us| ==> IsKey(us[i].key)
  }

  /** The plain map that a history of updates leaves. */
  ghost function MapOf(us: seq<Update>): map<Bytes, Bytes> {
    if us == [] then map[]
    else
      var u := us[|us| - 1];
      var m := MapOf(us[..|us| - 1]);
      if u.val == [] then m - {u.key} else m[u.key := u.val]
  }

  /** The trie that a history of updates leaves. */
  ghost function TrieOf(us: seq<Update>): (t: Trie)
    requires Keyed(us)
    ensures IsTrie(t)
  {
    if us == [] then Nil
    else
      var u := us[|us| - 1];
      var t := TrieOf(us[..|us| - 1]);
      StepLookup(t, u, []);
      Step(t, u)
  }

  /** After any history the trie answers as the map does. */
  lemma {:induction false} TrieIsMap(us: seq<Update>, k: Bytes)
    requires Keyed(us)
    ensures Lookup(TrieOf(us), k) == if k in MapOf(us) then Some(MapOf(us)[k]) else None
  {
    if us != [] {
      TrieIsMap(us[..|us| - 1], k);
      StepLookup(TrieOf(us[..|us| - 1]), us[|us| - 1], k);
    }
  }

  /** Two histories give one trie exactly when they leave one map. */
  lemma HistoryIndependent(us: seq<Update>, ws: seq<Update>)
    requires Keyed(us) && Keyed(ws)
    ensures TrieOf(us) == TrieOf(ws) <==> MapOf(us) == MapOf(ws)
  {
    forall k
      ensures Lookup(TrieOf(us), k) == if k in MapOf(us) then Some(MapOf(us)[k]) else None
      ensures Lookup(TrieOf(ws), k) == if k in MapOf(ws) then Some(MapOf(ws)[k]) else None
    {
      TrieIsMap(us, k);
      TrieIsMap(ws, k);
    }
    if MapOf(us) == MapOf(ws) {
      Canonical(TrieOf(us), TrieOf(ws));
    } else if TrieOf(us) == TrieOf(ws) {
      forall k ensures k in MapOf(us) <==> k in MapOf(ws) {
        assert Lookup(TrieOf(us), k) == Lookup(TrieOf(ws), k);
      }
      assert MapOf(us).Keys == MapOf(ws).Keys;
      assert false;
    }
  }
}
