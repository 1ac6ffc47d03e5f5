/**
 The download scheduler for tries: requests wait for the data of a node, then for everything the
 node refers to. A node is handed over for storage only when all of that is known, so what is
 stored is closed under references at every moment, whatever the order of deliveries.
 */
module TrieSync {
  import opened Common
  import opened Rlp
  import opened TrieNode
  import L = SyncLedger

  type Hash = Bytes

  ghost function SetOf(s: seq<Hash>): set<Hash> {
    set h | h in s
  }

  /** A scheduled retrieval. Parents are kept once for every reference they make. */
  datatype Request = Request(data: Option<Bytes>, raw: bool, parents: seq<Hash>, depth: nat, deps: nat, watch: bool)

  /** What a leaf callback asks for besides the trie: another trie, or an entry to be stored as it is. */
  datatype Extra = SubTrie(root: Hash, depth: nat) | RawEntry(hash: Hash, depth: nat)

  datatype SyncError = NoError | NotRequested | AlreadyProcessed | BadNode | BadLeaf

  datatype SyncResult = SyncResult(hash: Hash, data: Bytes)

  // ---------------------------------------------------------------- what nodes refer to

  /** The children of a node in order, absent ones left out. */
  function ChildrenOf(n: Node): seq<Node> {
    match n
    case ShortNode(_, val, _) => [val]
    case FullNode(ch, _) => Present(ch)
    case _ => []
  }

  function Present(ch: seq<Node>): seq<Node> {
    if ch == [] then []
    else if ch[0] == NilNode then Present(ch[1..])
    else [ch[0]] + Present(ch[1..])
  }

  /** The hashes among the children of an encoded node. */
  ghost function Kids(data: Bytes): set<Hash> {
    match DecodeNode(None, data, 0)
    case None => {}
    case Some(n) => set c | c in ChildrenOf(n) && c.HashNode? :: c.hash
  }

  // ---------------------------------------------------------------- requests and the ledger

  function EntryOf(r: Request): L.Entry<Hash> {
    L.Entry(r.data.Some?, r.parents, r.deps)
  }

  /** The content of every hash, the hashes for which that content is genuine, and those whose
      content is stored as it is, without a look at what it refers to. */
  datatype Content = Content(data: Hash -> Bytes, genuine: set<Hash>, raws: set<Hash>)

  /** What has to be there before the content of a hash is stored. */
  ghost function Needs(content: Content, h: Hash): set<Hash> {
    if h in content.raws then {} else Kids(content.data(h))
  }

  ghost predicate Real(content: Content, h: Hash, data: Bytes) {
    h in content.genuine && data == content.data(h)
  }

  ghost predicate Genuine(content: Content, s: map<Hash, Bytes>) {
    forall h :: h in s ==> Real(content, h, s[h])
  }

  /** Whatever a known node refers to is known. */
  ghost predicate Closed(content: Content, known: set<Hash>) {
    forall h, c :: h in known && c in Needs(content, h) ==> c in known
  }

  /** In the order of completion every node comes after what it refers to. */
  ghost predicate KidsFirst(content: Content, base: set<Hash>, order: seq<Hash>) {
    forall i, c :: 0 <= i < |order| && c in Needs(content, order[i]) ==> c in base || c in order[..i]
  }

  /** What a request will be checked for before it is stored. */
  ghost predicate Covered(content: Content, requests: map<Hash, Request>, b: L.Book<Hash>, h: Hash)
    requires h in requests && h in b.awaits
  {
    if requests[h].raw then Needs(content, h) == {}
    else requests[h].data.Some? ==> Needs(content, h) <= b.awaits[h]
  }

  /** What is stored: genuine, and closed under references in the order of completion. */
  ghost predicate Tidy(content: Content, database: map<Hash, Bytes>, batch: map<Hash, Bytes>, order: seq<Hash>) {
    && Genuine(content, database) && Genuine(content, batch)
    && Closed(content, database.Keys) && KidsFirst(content, database.Keys, order)
    && (forall h :: h in order <==> h in batch)
    && (forall i, j :: 0 <= i < j < |order| ==> order[i] != order[j])
  }

  /** A request is in order: its data is genuine, it checks for all it refers to, and when its
      data is there it waits for something. */
  ghost predicate Settled(content: Content, requests: map<Hash, Request>, b: L.Book<Hash>, h: Hash)
    requires h in requests && h in b.awaits
  {
    && Covered(content, requests, b, h)
    && (requests[h].data.Some? ==> requests[h].deps > 0)
  }

  /** A request and its place in the ledger. */
  ghost predicate Filed(content: Content, batch: map<Hash, Bytes>, requests: map<Hash, Request>, b: L.Book<Hash>,
                        open: set<Hash>, h: Hash)
  {
    && (h in requests <==> h in b.entries) && (h in requests <==> h in b.awaits)
    && (h in requests ==>
          && h !in batch && b.entries[h] == EntryOf(requests[h])
          && (requests[h].data.Some? ==> Real(content, h, requests[h].data.value))
          && (requests[h].data.None? ==> b.awaits[h] == {})
          && (h !in open ==> Settled(content, requests, b, h)))
  }

  /** The requests; some of them may not be settled yet. */
  ghost predicate Open(content: Content, batch: map<Hash, Bytes>, requests: map<Hash, Request>, b: L.Book<Hash>,
                       open: set<Hash>) {
    forall h {:trigger Filed(content, batch, requests, b, open, h)} :: Filed(content, batch, requests, b, open, h)
  }

  ghost predicate Sane(content: Content, database: map<Hash, Bytes>, batch: map<Hash, Bytes>, order: seq<Hash>,
                       requests: map<Hash, Request>, b: L.Book<Hash>, owed: multiset<Hash>, open: set<Hash>)
  {
    && Tidy(content, database, batch, order)
    && L.Inv(b, database.Keys + batch.Keys, owed)
    && Open(content, batch, requests, b, open)
  }

  /** Everything known is closed under references. */
  lemma KnownIsClosed(content: Content, database: map<Hash, Bytes>, batch: map<Hash, Bytes>, order: seq<Hash>)
    requires Tidy(content, database, batch, order)
    ensures Closed(content, database.Keys + batch.Keys)
  {
    var known := database.Keys + batch.Keys;
    forall h, c | h in known && c in Needs(content, h) ensures c in known {
      if h !in database {
        var i :| 0 <= i < |order| && order[i] == h;
        if c !in database.Keys {
          assert c in order[..i] && c in order;
        }
      }
    }
  }

  // ---------------------------------------------------------------- completion

  /** The first half of `commit`: the node goes to the batch, and its parents are to be told. */
  lemma Completed(content: Content, database: map<Hash, Bytes>, batch: map<Hash, Bytes>, order: seq<Hash>,
                  requests: map<Hash, Request>, b: L.Book<Hash>, owed: multiset<Hash>, h: Hash)
    requires Sane(content, database, batch, order, requests, b, owed, {h})
    requires h in requests && requests[h].data.Some? && requests[h].deps == 0
    requires h in b.awaits && Covered(content, requests, b, h)
    ensures Sane(content, database, batch[h := requests[h].data.value], order + [h], requests - {h},
                 L.Without(b, h), owed + multiset(requests[h].parents), {})
  {
    hide L.Inv, Tidy, Open;
    var known := database.Keys + batch.Keys;
    var batch' := batch[h := requests[h].data.value];
    FiledAt(content, batch, requests, b, {h}, h);
    L.NothingMissing(b, known, owed, h);
    L.Finish(b, known, owed, h);
    assert known + {h} == database.Keys + batch'.Keys;
    CompletedTidy(content, database, batch, order, h, requests[h].data.value);
    CompletedOpen(content, batch, requests, b, h);
  }

  lemma FiledAt(content: Content, batch: map<Hash, Bytes>, requests: map<Hash, Request>, b: L.Book<Hash>,
                open: set<Hash>, h: Hash)
    requires Open(content, batch, requests, b, open)
    ensures Filed(content, batch, requests, b, open, h)
  {
  }

  lemma CompletedTidy(content: Content, database: map<Hash, Bytes>, batch: map<Hash, Bytes>, order: seq<Hash>, h: Hash,
                      data: Bytes)
    requires Tidy(content, database, batch, order) && h !in batch && Real(content, h, data)
    requires Needs(content, h) <= database.Keys + batch.Keys
    ensures Tidy(content, database, batch[h := data], order + [h])
  {
    hide Needs;
    var order' := order + [h];
    forall i, c | 0 <= i < |order'| && c in Needs(content, order'[i]) ensures c in database.Keys || c in order'[..i] {
      assert order'[..i] == order[..i];
      if i == |order| { assert order[..i] == order; } else { assert order'[i] == order[i]; }
    }
  }

  lemma CompletedOpen(content: Content, batch: map<Hash, Bytes>, requests: map<Hash, Request>, b: L.Book<Hash>, h: Hash)
    requires Open(content, batch, requests, b, {h}) && h in requests && requests[h].data.Some?
    ensures Open(content, batch[h := requests[h].data.value], requests - {h}, L.Without(b, h), {})
  {
    hide Needs;
    var batch', requests', b' := batch[h := requests[h].data.value], requests - {h}, L.Without(b, h);
    forall x ensures Filed(content, batch', requests', b', {}, x) {
      assert Filed(content, batch, requests, b, {h}, x);
    }
  }

  /** A parent is told: it waits for one reference less. */
  function Told(requests: map<Hash, Request>, p: Hash): map<Hash, Request>
    requires p in requests && requests[p].deps > 0
  {
    requests[p := requests[p].(deps := requests[p].deps - 1)]
  }

  lemma Notified(content: Content, database: map<Hash, Bytes>, batch: map<Hash, Bytes>, order: seq<Hash>,
                 requests: map<Hash, Request>, b: L.Book<Hash>, owed: multiset<Hash>, p: Hash)
    requires Sane(content, database, batch, order, requests, b, owed, {}) && p in owed
    ensures p in requests && requests[p].deps > 0 && p in b.entries && b.entries[p].deps > 0
    ensures var requests', b' := Told(requests, p), L.WithNotice(b, p);
            var open := if requests'[p].deps == 0 then {p} else {};
            && Sane(content, database, batch, order, requests', b', owed - multiset{p}, open)
            && requests'[p].data.Some? && p in b'.awaits && Covered(content, requests', b', p)
  {
    hide L.Inv, Tidy, Needs;
    FiledAt(content, batch, requests, b, {}, p);
    L.Notify(b, database.Keys + batch.Keys, owed, p);
    var requests', b' := Told(requests, p), L.WithNotice(b, p);
    var open := if requests'[p].deps == 0 then {p} else {};
    forall x ensures Filed(content, batch, requests', b', open, x) {
      assert Filed(content, batch, requests, b, {}, x);
    }
  }

  /** `commit`: the node goes to the batch, and so does every parent that was waiting for it
      alone. Whatever enters the batch has all it refers to there or in the database before it. */
  method Finalize(database: map<Hash, Bytes>, batch: map<Hash, Bytes>, order: seq<Hash>, requests: map<Hash, Request>,
                  h: Hash, ghost content: Content, ghost b: L.Book<Hash>, ghost owed: multiset<Hash>)
    returns (batch': map<Hash, Bytes>, order': seq<Hash>, requests': map<Hash, Request>, ghost b': L.Book<Hash>)
    requires Sane(content, database, batch, order, requests, b, owed, {h})
    requires h in requests && requests[h].data.Some? && requests[h].deps == 0
    requires h in b.awaits && Covered(content, requests, b, h)
    ensures Sane(content, database, batch', order', requests', b', owed, {})
    ensures Moved(requests, batch, requests', batch') && h !in requests'
    decreases |requests|
  {
    hide Sane, Covered, Moved;
    var r := requests[h];
    Completed(content, database, batch, order, requests, b, owed, h);
    batch', order', requests', b' := batch[h := r.data.value], order + [h], requests - {h}, L.Without(b, h);
    MovedOne(requests, batch, h, r.data.value);
    var i := 0;
    assert r.parents[0..] == r.parents;
    while i < |r.parents|
      invariant 0 <= i <= |r.parents|
      invariant Sane(content, database, batch', order', requests', b', owed + multiset(r.parents[i..]), {})
      invariant Moved(requests, batch, requests', batch') && h !in requests'
    {
      var p := r.parents[i];
      ghost var rest := owed + multiset(r.parents[i..]);
      assert r.parents[i..] == [p] + r.parents[i + 1..];
      assert rest - multiset{p} == owed + multiset(r.parents[i + 1..]);
      Notified(content, database, batch', order', requests', b', rest, p);
      MovedTold(requests, batch, requests', batch', p);
      requests', b' := Told(requests', p), L.WithNotice(b', p);
      if requests'[p].deps == 0 {
        Fewer(requests, batch, requests', batch', h);
        ghost var requests0, batch0 := requests', batch';
        batch', order', requests', b' := Finalize(database, batch', order', requests', p, content, b',
                                                  owed + multiset(r.parents[i + 1..]));
        MovedMore(requests, batch, requests0, batch0, requests', batch');
      }
      i := i + 1;
    }
    assert owed + multiset(r.parents[i..]) == owed;
  }

  /** Requests have only gone to the batch. */
  ghost predicate Moved(requests: map<Hash, Request>, batch: map<Hash, Bytes>, requests': map<Hash, Request>,
                        batch': map<Hash, Bytes>) {
    && requests'.Keys <= requests.Keys && batch.Keys <= batch'.Keys && requests.Keys <= requests'.Keys + batch'.Keys
    && batch'.Keys <= batch.Keys + requests.Keys
    && (forall h :: h in requests' ==> requests'[h].data == requests[h].data)
  }

  lemma MovedOne(requests: map<Hash, Request>, batch: map<Hash, Bytes>, h: Hash, data: Bytes)
    requires h in requests
    ensures Moved(requests, batch, requests - {h}, batch[h := data])
  {
  }

  lemma MovedTold(requests: map<Hash, Request>, batch: map<Hash, Bytes>, requests': map<Hash, Request>,
                  batch': map<Hash, Bytes>, p: Hash)
    requires Moved(requests, batch, requests', batch') && p in requests' && requests'[p].deps > 0
    ensures Moved(requests, batch, Told(requests', p), batch')
  {
  }

  lemma MovedMore(r0: map<Hash, Request>, b0: map<Hash, Bytes>, r1: map<Hash, Request>, b1: map<Hash, Bytes>,
                  r2: map<Hash, Request>, b2: map<Hash, Bytes>)
    requires Moved(r0, b0, r1, b1) && Moved(r1, b1, r2, b2)
    ensures Moved(r0, b0, r2, b2) && forall h :: h !in r1 ==> h !in r2
  {
  }

  lemma Fewer(requests: map<Hash, Request>, batch: map<Hash, Bytes>, requests': map<Hash, Request>, batch': map<Hash,
              Bytes>, h: Hash)
    requires Moved(requests, batch, requests', batch') && h in requests && h !in requests'
    ensures |requests'| < |requests|
  {
    SubsetSize(requests'.Keys, requests.Keys - {h});
    assert |requests'| == |requests'.Keys| && |requests| == |requests.Keys|;
  }

  // ---------------------------------------------------------------- scheduling

  /** `schedule`: a request that is pending already only gets more parents. */
  function ScheduleIn(requests: map<Hash, Request>, c: Hash, r: Request): map<Hash, Request> {
    if c in requests then requests[c := requests[c].(parents := requests[c].parents + r.parents)]
    else requests[c := r]
  }

  ghost predicate Blank(content: Content, requests: map<Hash, Request>, c: Hash, r: Request) {
    r.data.None? && r.deps == 0 && (r.raw && c !in requests ==> Needs(content, c) == {})
  }

  function Listed(b: L.Book<Hash>, c: Hash): L.Book<Hash> {
    if c in b.entries then b else L.WithEntry(b, c)
  }

  /** A request of no parent. */
  lemma ScheduledRoot(content: Content, database: map<Hash, Bytes>, batch: map<Hash, Bytes>, order: seq<Hash>,
                      requests: map<Hash, Request>, b: L.Book<Hash>, owed: multiset<Hash>, open: set<Hash>, c: Hash,
                      r: Request)
    requires Sane(content, database, batch, order, requests, b, owed, open) && c !in batch
    requires Blank(content, requests, c, r) && r.parents == []
    ensures Sane(content, database, batch, order, ScheduleIn(requests, c, r), Listed(b, c), owed, open)
  {
    hide L.Inv, Tidy, Needs;
    var requests', b' := ScheduleIn(requests, c, r), Listed(b, c);
    assert Filed(content, batch, requests, b, open, c);
    if c in requests {
      assert requests[c].parents + [] == requests[c].parents;
      assert requests' == requests;
    } else {
      L.AddEntry(b, database.Keys + batch.Keys, owed, c);
    }
    forall x ensures Filed(content, batch, requests', b', open, x) {
      assert Filed(content, batch, requests, b, open, x);
    }
  }

  /** A request of a parent that has announced it. */
  lemma ScheduledLink(content: Content, database: map<Hash, Bytes>, batch: map<Hash, Bytes>, order: seq<Hash>,
                      requests: map<Hash, Request>, b: L.Book<Hash>, owed: multiset<Hash>, open: set<Hash>,
                      p: Hash, c: Hash, r: Request)
    requires Sane(content, database, batch, order, requests, b, owed, open) && c !in batch && p in owed
    requires Blank(content, requests, c, r) && r.parents == [p]
    ensures p in Listed(b, c).out && c in Listed(b, c).entries
    ensures Sane(content, database, batch, order, ScheduleIn(requests, c, r), L.WithLink(Listed(b, c), p, c),
                 owed - multiset{p}, open)
  {
    hide L.Inv, Tidy, Open, Needs, Listed;
    var r0 := r.(parents := []);
    ScheduledRoot(content, database, batch, order, requests, b, owed, open, c, r0);
    var requests0, b0 := ScheduleIn(requests, c, r0), Listed(b, c);
    FiledAt(content, batch, requests0, b0, open, c);
    L.AddLink(b0, database.Keys + batch.Keys, owed, p, c);
    LinkedOpen(content, batch, requests0, b0, open, p, c);
    ScheduleInTurn(requests, c, r, p);
  }

  lemma ScheduleInTurn(requests: map<Hash, Request>, c: Hash, r: Request, p: Hash)
    requires r.parents == [p]
    ensures var requests0 := ScheduleIn(requests, c, r.(parents := []));
            && c in requests0
            && ScheduleIn(requests, c, r) == requests0[c := requests0[c].(parents := requests0[c].parents + [p])]
  {
    var requests0 := ScheduleIn(requests, c, r.(parents := []));
    if c in requests {
      assert (requests[c].parents + []) + [p] == requests[c].parents + [p];
    } else {
      assert [] + [p] == [p];
    }
  }

  lemma LinkedOpen(content: Content, batch: map<Hash, Bytes>, requests: map<Hash, Request>, b: L.Book<Hash>,
                   open: set<Hash>, p: Hash, c: Hash)
    requires Open(content, batch, requests, b, open) && c in requests && c in b.entries && p in b.out
    ensures Open(content, batch, requests[c := requests[c].(parents := requests[c].parents + [p])],
                 L.WithLink(b, p, c), open)
  {
    hide Needs;
    var requests', b' := requests[c := requests[c].(parents := requests[c].parents + [p])], L.WithLink(b, p, c);
    forall x ensures Filed(content, batch, requests', b', open, x) {
      assert Filed(content, batch, requests, b, open, x) && Filed(content, batch, requests, b, open, c);
    }
  }

  function MoreDeps(requests: map<Hash, Request>, p: Hash, k: nat): map<Hash, Request>
    requires p in requests
  {
    requests[p := requests[p].(deps := requests[p].deps + k)]
  }

  lemma Announced(content: Content, database: map<Hash, Bytes>, batch: map<Hash, Bytes>, order: seq<Hash>,
                  requests: map<Hash, Request>, b: L.Book<Hash>, owed: multiset<Hash>, open: set<Hash>, p: Hash, k: nat)
    requires Sane(content, database, batch, order, requests, b, owed, open)
    requires p in requests && requests[p].data.Some?
    ensures p in b.entries
    ensures Sane(content, database, batch, order, MoreDeps(requests, p, k), L.WithDeps(b, p, k), owed[p := owed[p] + k],
                 open)
  {
    hide L.Inv, Tidy, Needs;
    FiledAt(content, batch, requests, b, open, p);
    L.Announce(b, database.Keys + batch.Keys, owed, p, k);
    var requests', b' := MoreDeps(requests, p, k), L.WithDeps(b, p, k);
    forall x ensures Filed(content, batch, requests', b', open, x) {
      assert Filed(content, batch, requests, b, open, x);
    }
  }

  /** What a request needs is noted once it is known or referred to. */
  lemma Noted(content: Content, database: map<Hash, Bytes>, batch: map<Hash, Bytes>, order: seq<Hash>,
              requests: map<Hash, Request>, b: L.Book<Hash>, owed: multiset<Hash>, open: set<Hash>, p: Hash, c: Hash)
    requires Sane(content, database, batch, order, requests, b, owed, open)
    requires p in requests && requests[p].data.Some? && p in b.out
    requires c in database.Keys + batch.Keys || c in b.out[p]
    ensures p in b.awaits && Sane(content, database, batch, order, requests, L.WithNeed(b, p, c), owed, open)
  {
    hide L.Inv, Tidy, Needs;
    FiledAt(content, batch, requests, b, open, p);
    L.Need(b, database.Keys + batch.Keys, owed, p, c);
    var b' := L.WithNeed(b, p, c);
    forall x ensures Filed(content, batch, requests, b', open, x) {
      assert Filed(content, batch, requests, b, open, x);
    }
  }

  /** The data of a request arrives; the request is open until its references are dealt with. */
  lemma Received(content: Content, database: map<Hash, Bytes>, batch: map<Hash, Bytes>, order: seq<Hash>,
                 requests: map<Hash, Request>, b: L.Book<Hash>, h: Hash)
    requires Sane(content, database, batch, order, requests, b, multiset{}, {})
    requires h in requests && requests[h].data.None? && h in content.genuine
    ensures h in b.entries && requests[h].deps == 0
    ensures Sane(content, database, batch, order, requests[h := requests[h].(data := Some(content.data(h)))],
                 L.WithData(b, h), multiset{}, {h})
    ensures requests[h].raw ==> Needs(content, h) == {}
  {
    hide L.Inv, Tidy, Needs;
    FiledAt(content, batch, requests, b, {}, h);
    L.KeysAgree(b, database.Keys + batch.Keys, multiset{});
    L.Receive(b, database.Keys + batch.Keys, multiset{}, h);
    var requests', b' := requests[h := requests[h].(data := Some(content.data(h)))], L.WithData(b, h);
    forall x ensures Filed(content, batch, requests', b', {h}, x) {
      assert Filed(content, batch, requests, b, {}, x);
    }
  }

  /** An open request has dealt with all its references and waits for some. */
  lemma Closes(content: Content, database: map<Hash, Bytes>, batch: map<Hash, Bytes>, order: seq<Hash>,
               requests: map<Hash, Request>, b: L.Book<Hash>, owed: multiset<Hash>, h: Hash)
    requires Sane(content, database, batch, order, requests, b, owed, {h})
    requires h in requests ==> h in b.awaits && Settled(content, requests, b, h)
    ensures Sane(content, database, batch, order, requests, b, owed, {})
  {
    hide L.Inv, Tidy, Needs;
    forall x ensures Filed(content, batch, requests, b, {}, x) {
      assert Filed(content, batch, requests, b, {h}, x);
    }
  }

  // ---------------------------------------------------------------- the scheduler

  /** Requests stay what they are, and note ever more of what they need. */
  ghost predicate Kept(r0: map<Hash, Request>, b0: L.Book<Hash>, r1: map<Hash, Request>, b1: L.Book<Hash>) {
    && (forall h :: h in r0 ==> h in r1 && r1[h] == r0[h].(parents := r1[h].parents, deps := r1[h].deps))
    && (forall h :: h in b0.awaits ==> h in b1.awaits && b0.awaits[h] <= b1.awaits[h])
  }

  lemma KeptMore(r0: map<Hash, Request>, b0: L.Book<Hash>, r1: map<Hash, Request>, b1: L.Book<Hash>,
                 r2: map<Hash, Request>, b2: L.Book<Hash>)
    requires Kept(r0, b0, r1, b1) && Kept(r1, b1, r2, b2)
    ensures Kept(r0, b0, r2, b2)
  {
  }

  /** Every request is in the queue or has been handed out. */
  ghost predicate Offered(requests: map<Hash, Request>, queue: multiset<Hash>, handed: set<Hash>) {
    forall h :: h in requests ==> h in queue || h in handed
  }

  /** Nothing that was asked for gets lost. */
  ghost predicate Awaited(wanted: set<Hash>, requests: map<Hash, Request>, batch: map<Hash, Bytes>, database: map<Hash,
                          Bytes>) {
    forall h :: h in wanted ==> h in requests || h in batch || h in database
  }

  lemma AwaitedMore(wanted: set<Hash>, r0: map<Hash, Request>, batch0: map<Hash, Bytes>, r1: map<Hash, Request>,
                    batch1: map<Hash, Bytes>, database: map<Hash, Bytes>)
    requires Awaited(wanted, r0, batch0, database)
    requires batch0.Keys <= batch1.Keys && r0.Keys <= r1.Keys + batch1.Keys
    ensures Awaited(wanted, r1, batch1, database)
  {
  }

  /** The ledger after a request for `c` on behalf of `p`: announced, linked and noted. */
  function Ordered(b: L.Book<Hash>, p: Hash, c: Hash): L.Book<Hash>
    requires p in b.entries && p in Listed(L.WithDeps(b, p, 1), c).out && p in b.awaits
    requires c in Listed(L.WithDeps(b, p, 1), c).entries && p in L.WithLink(Listed(L.WithDeps(b, p, 1), c), p, c).awaits
  {
    L.WithNeed(L.WithLink(Listed(L.WithDeps(b, p, 1), c), p, c), p, c)
  }

  /** A parent orders what it needs. */
  lemma OrderedSane(content: Content, database: map<Hash, Bytes>, batch: map<Hash, Bytes>, order: seq<Hash>,
                    requests: map<Hash, Request>, b: L.Book<Hash>, open: set<Hash>, p: Hash, c: Hash, r: Request)
    requires Sane(content, database, batch, order, requests, b, multiset{}, open) && c !in batch
    requires p in requests && requests[p].data.Some? && Blank(content, requests, c, r) && r.parents == [p]
    ensures p in b.entries && p in Listed(L.WithDeps(b, p, 1), c).out && p in b.awaits
    ensures c in Listed(L.WithDeps(b, p, 1), c).entries && p in L.WithLink(Listed(L.WithDeps(b, p, 1), c), p, c).awaits
    ensures Sane(content, database, batch, order, ScheduleIn(MoreDeps(requests, p, 1), c, r), Ordered(b, p, c),
                 multiset{}, open)
    ensures Kept(requests, b, ScheduleIn(MoreDeps(requests, p, 1), c, r), Ordered(b, p, c))
    ensures p in Ordered(b, p, c).awaits && c in Ordered(b, p, c).awaits[p]
  {
    hide Sane, Kept, Listed, ScheduleIn, L.WithLink, L.WithNeed, Needs;
    SaneKeys(content, database, batch, order, requests, b, multiset{}, open);
    Announced(content, database, batch, order, requests, b, multiset{}, open, p, 1);
    LinkNoted(content, database, batch, order, MoreDeps(requests, p, 1), L.WithDeps(b, p, 1), multiset{}[p := 1], open,
              p, c, r);
    assert multiset{}[p := 1] - multiset{p} == multiset{};
    DepsKept(requests, b, p, 1);
    KeptMore(requests, b, MoreDeps(requests, p, 1), L.WithDeps(b, p, 1),
             ScheduleIn(MoreDeps(requests, p, 1), c, r), Ordered(b, p, c));
  }

  /** An announced reference is made, and what it leads to is noted. */
  lemma LinkNoted(content: Content, database: map<Hash, Bytes>, batch: map<Hash, Bytes>, order: seq<Hash>,
                  requests: map<Hash, Request>, b: L.Book<Hash>, owed: multiset<Hash>, open: set<Hash>,
                  p: Hash, c: Hash, r: Request)
    requires Sane(content, database, batch, order, requests, b, owed, open) && c !in batch && p in owed
    requires p in requests && requests[p].data.Some? && Blank(content, requests, c, r) && r.parents == [p]
    ensures p in Listed(b, c).out && p in b.awaits && c in Listed(b, c).entries
    ensures p in L.WithLink(Listed(b, c), p, c).awaits
    ensures var b' := L.WithNeed(L.WithLink(Listed(b, c), p, c), p, c);
            && Sane(content, database, batch, order, ScheduleIn(requests, c, r), b', owed - multiset{p}, open)
            && Kept(requests, b, ScheduleIn(requests, c, r), b') && c in b'.awaits[p]
  {
    hide Sane, Kept, Listed, ScheduleIn, Blank, L.WithLink, L.WithNeed;
    SaneKeys(content, database, batch, order, requests, b, owed, open);
    ScheduledLink(content, database, batch, order, requests, b, owed, open, p, c, r);
    LinkIsOut(requests, b, p, c, r);
    Noted(content, database, batch, order, ScheduleIn(requests, c, r), L.WithLink(Listed(b, c), p, c),
          owed - multiset{p}, open, p, c);
    LinkKept(requests, b, p, c, r);
  }

  lemma LinkIsOut(requests: map<Hash, Request>, b: L.Book<Hash>, p: Hash, c: Hash, r: Request)
    requires p in requests && p in Listed(b, c).out && c in Listed(b, c).entries
    ensures p in L.WithLink(Listed(b, c), p, c).out && c in L.WithLink(Listed(b, c), p, c).out[p]
    ensures p in ScheduleIn(requests, c, r) && ScheduleIn(requests, c, r)[p].data == requests[p].data
  {
  }

  lemma LinkKept(requests: map<Hash, Request>, b: L.Book<Hash>, p: Hash, c: Hash, r: Request)
    requires p in b.awaits && p in Listed(b, c).out && c in Listed(b, c).entries && r.parents == [p]
    requires b.awaits.Keys == b.entries.Keys
    ensures p in L.WithLink(Listed(b, c), p, c).awaits
    ensures Kept(requests, b, ScheduleIn(requests, c, r), L.WithNeed(L.WithLink(Listed(b, c), p, c), p, c))
    ensures c in L.WithNeed(L.WithLink(Listed(b, c), p, c), p, c).awaits[p]
  {
  }

  lemma DepsKept(requests: map<Hash, Request>, b: L.Book<Hash>, p: Hash, k: nat)
    requires p in requests && p in b.entries
    ensures Kept(requests, b, MoreDeps(requests, p, k), L.WithDeps(b, p, k))
  {
  }

  lemma SaneKeys(content: Content, database: map<Hash, Bytes>, batch: map<Hash, Bytes>, order: seq<Hash>,
                 requests: map<Hash, Request>, b: L.Book<Hash>, owed: multiset<Hash>, open: set<Hash>)
    requires Sane(content, database, batch, order, requests, b, owed, open)
    ensures requests.Keys == b.entries.Keys == b.out.Keys == b.awaits.Keys
    ensures forall h :: h in requests ==> h !in batch
  {
    L.KeysAgree(b, database.Keys + batch.Keys, owed);
    forall h ensures h in requests <==> h in b.entries ensures h in requests ==> h !in batch {
      FiledAt(content, batch, requests, b, open, h);
    }
  }

  class Sync {
    const emptyRoot: Hash
    const emptyState: Hash
    /** What the leaf callback asks for when it sees a value, unless it fails. */
    const extras: Bytes -> Option<seq<Extra>>

    var database: map<Hash, Bytes>
    var batch: map<Hash, Bytes>
    var order: seq<Hash>
    var requests: map<Hash, Request>
    var queue: multiset<Hash>
    ghost var b: L.Book<Hash>
    ghost var handed: set<Hash>
    /** All tries and entries that were asked for. */
    ghost var wanted: set<Hash>
    ghost var content: Content

    ghost predicate Held(owed: multiset<Hash>, open: set<Hash>)
      reads this
    {
      && Sane(content, database, batch, order, requests, b, owed, open)
      && Offered(requests, queue, handed) && Awaited(wanted, requests, batch, database)
    }

    ghost predicate Valid()
      reads this
    {
      Held(multiset{}, {})
    }

    /** `schedule`, on behalf of a parent that waits for it. */
    method OrderFor(p: Hash, c: Hash, r: Request, ghost open: set<Hash>)
      requires Held(multiset{}, open) && c !in batch && p in requests && requests[p].data.Some?
      requires Blank(content, requests, c, r) && r.parents == [p]
      modifies this`requests, this`queue, this`b
      ensures Held(multiset{}, open) && Kept(old(requests), old(b), requests, b)
      ensures c in requests && p in b.awaits && c in b.awaits[p] && requests.Keys == old(requests.Keys) + {c}
      ensures c !in old(requests) ==> requests[c] == r
    {
      hide Sane, Ordered, Needs, Kept, Offered, Awaited, Blank, ScheduleIn, MoreDeps, Listed;
      OrderedSane(content, database, batch, order, requests, b, open, p, c, r);
      b := Ordered(b, p, c);
      OfferedMore(requests, queue, handed, p, 1);
      AwaitedDeps(wanted, requests, batch, database, p, 1);
      DepsKeys(requests, p, 1);
      requests := MoreDeps(requests, p, 1);
      OfferedIn(requests, queue, handed, c, r);
      AwaitedIn(wanted, requests, batch, database, c, r);
      ScheduleKeys(requests, c, r);
      if c !in requests {
        queue := queue + multiset{c};
      }
      requests := ScheduleIn(requests, c, r);
    }

    /** `AddSubTrie`: a trie is requested by its root, unless it is empty or known. */
    method AddSubTrie(root: Hash, depth: nat, parent: Option<Hash>, watch: bool, ghost open: set<Hash>)
      requires Held(multiset{}, open)
      requires parent.Some? ==> parent.value in requests && requests[parent.value].data.Some?
      modifies this`requests, this`queue, this`b, this`wanted
      ensures Held(multiset{}, open) && Kept(old(requests), old(b), requests, b)
      ensures wanted == (if root == emptyRoot then old(wanted) else old(wanted) + {root})
      ensures requests.Keys == old(requests.Keys) || requests.Keys == old(requests.Keys) + {root}
      ensures root == emptyRoot || root in batch ==> requests == old(requests)
      ensures parent.Some? && root != emptyRoot ==> parent.value in b.awaits && root in b.awaits[parent.value]
    {
      hide Sane, Needs, Kept, Offered, Awaited, ScheduleIn, Listed, DecodeNode;
      KeptSame(requests, b);
      if root == emptyRoot {
        return;
      }
      if root in batch || (root in database && DecodeNode(Some(root), database[root], 0).Some?) {
        if parent.Some? {
          Noting(parent.value, root, open);
        }
      } else if parent.Some? {
        OrderFor(parent.value, root, Request(None, false, [parent.value], depth, 0, watch), open);
      } else {
        AddTop(root, Request(None, false, [], depth, 0, watch), open);
      }
      AwaitedOne(wanted, requests, batch, database, root);
      wanted := wanted + {root};
    }

    /** `AddRawEntry`: an entry that is stored as it is is requested, unless it is empty or known. What
        it refers to, should it look like a trie node, is not looked at. */
    method AddRawEntry(hash: Hash, depth: nat, parent: Option<Hash>, ghost open: set<Hash>)
      requires Held(multiset{}, open)
      requires parent.Some? ==> parent.value in requests && requests[parent.value].data.Some?
      modifies this`requests, this`queue, this`b, this`wanted, this`content
      ensures Held(multiset{}, open) && Kept(old(requests), old(b), requests, b)
      ensures wanted == (if hash == emptyState then old(wanted) else old(wanted) + {hash})
      ensures content == old(content) || content == old(content).(raws := old(content).raws + {hash})
      ensures requests.Keys == old(requests.Keys) || requests.Keys == old(requests.Keys) + {hash}
      ensures var isNew := hash != emptyState && hash !in batch && hash !in database && hash !in old(requests);
              isNew ==> hash in requests && requests[hash].raw && requests[hash].data.None? && hash in content.raws
      ensures parent.Some? && hash != emptyState ==> parent.value in b.awaits && hash in b.awaits[parent.value]
    {
      hide Sane, Needs, Kept, Offered, Awaited, ScheduleIn, Listed;
      KeptSame(requests, b);
      if hash == emptyState {
        return;
      }
      if hash in batch || hash in database {
        if parent.Some? {
          Noting(parent.value, hash, open);
        }
      } else {
        if hash !in requests {
          RawsGrow(content, database, batch, order, requests, b, multiset{}, open, hash);
          content := content.(raws := content.raws + {hash});
        }
        RawNeeds(content, hash);
        if parent.Some? {
          OrderFor(parent.value, hash, Request(None, true, [parent.value], depth, 0, false), open);
        } else {
          AddTop(hash, Request(None, true, [], depth, 0, false), open);
        }
      }
      AwaitedOne(wanted, requests, batch, database, hash);
      wanted := wanted + {hash};
    }

    /** A request of no parent. */
    method AddTop(c: Hash, r: Request, ghost open: set<Hash>)
      requires Held(multiset{}, open) && c !in batch && Blank(content, requests, c, r) && r.parents == []
      modifies this`requests, this`queue, this`b
      ensures Held(multiset{}, open) && Kept(old(requests), old(b), requests, b) && c in requests
      ensures requests.Keys == old(requests.Keys) + {c} && (c !in old(requests) ==> requests[c] == r)
    {
      hide Sane, Needs, Kept, Offered, Awaited, Blank, ScheduleIn, Listed;
      ScheduledRoot(content, database, batch, order, requests, b, multiset{}, open, c, r);
      SaneKeys(content, database, batch, order, requests, b, multiset{}, open);
      TopKept(requests, b, c, r);
      b := Listed(b, c);
      OfferedIn(requests, queue, handed, c, r);
      AwaitedIn(wanted, requests, batch, database, c, r);
      ScheduleKeys(requests, c, r);
      if c !in requests {
        queue := queue + multiset{c};
      }
      requests := ScheduleIn(requests, c, r);
    }

    /** What is known already is noted at once. */
    ghost method Noting(p: Hash, c: Hash, open: set<Hash>)
      requires Held(multiset{}, open) && p in requests && requests[p].data.Some? && (c in batch || c in database)
      modifies this`b
      ensures Held(multiset{}, open) && Kept(requests, old(b), requests, b) && p in b.awaits && c in b.awaits[p]
    {
      hide Sane, Needs, Offered, Awaited;
      SaneKeys(content, database, batch, order, requests, b, multiset{}, open);
      Noted(content, database, batch, order, requests, b, multiset{}, open, p, c);
      b := L.WithNeed(b, p, c);
    }

    lemma HeldKeys(open: set<Hash>)
      requires Held(multiset{}, open)
      ensures requests.Keys == b.awaits.Keys
    {
      hide Sane, Offered, Awaited;
      SaneKeys(content, database, batch, order, requests, b, multiset{}, open);
    }

    /** `children`: the callback hears of values, and references to unknown nodes are returned.
        Every reference is noted now or among those returned, unless the callback fails. */
    method Children(h: Hash, node: Node) returns (todo: seq<Hash>, ok: bool)
      requires Held(multiset{}, {h}) && h in requests && requests[h].data.Some?
      modifies this`requests, this`queue, this`b, this`wanted, this`content
      ensures Held(multiset{}, {h}) && Kept(old(requests), old(b), requests, b)
      ensures Trusts(old(content), content) && old(wanted) <= wanted
      ensures ok <==> !(old(requests)[h].watch && AnyFails(ChildrenOf(node)))
      ensures ok ==> forall c :: c in ChildrenOf(node) && c.HashNode? ==> Sought(b, h, todo, c.hash)
      ensures ok && old(requests)[h].watch ==> AllAsked(ChildrenOf(node), wanted)
      ensures forall x :: x in todo ==> x !in batch
    {
      hide Held, Kept, Asked, AllAsked, ChildrenOf;
      var children := ListChildren(node);
      NoneAsked(wanted);
      todo, ok := [], true;
      KeptSame(requests, b);
      var i := 0;
      while i < |children|
        invariant 0 <= i <= |children|
        invariant Held(multiset{}, {h}) && Kept(old(requests), old(b), requests, b)
        invariant Trusts(old(content), content) && old(wanted) <= wanted
        invariant h in requests && requests[h].data.Some? && requests[h].watch == old(requests)[h].watch
        invariant requests[h].watch ==> AllAsked(children[..i], wanted)
        invariant requests[h].watch ==> forall j :: 0 <= j < i ==> !Fails(children[j])
        invariant forall j :: 0 <= j < i && children[j].HashNode? ==> Sought(b, h, todo, children[j].hash)
        invariant forall x :: x in todo ==> x !in batch
      {
        var child := children[i];
        ghost var r0, b0, todo0, wanted0 := requests, b, todo, wanted;
        KeptSame(requests, b);
        if child.ValueNode? && requests[h].watch {
          if extras(child.v).None? {
            return todo, false;
          }
          Callback(h, child.v);
        }
        AskedMore(children, i, wanted0, wanted);
        if child.HashNode? {
          if child.hash in batch || child.hash in database {
            ghost var b1 := b;
            Noting(h, child.hash, {h});
            KeptMore(r0, b0, requests, b1, requests, b);
          } else {
            todo := todo + [child.hash];
          }
        }
        KeptMore(old(requests), old(b), r0, b0, requests, b);
        KeptHas(r0, b0, requests, b, h);
        HeldKeys({h});
        forall j | 0 <= j <= i && children[j].HashNode? ensures Sought(b, h, todo, children[j].hash) {
          assert j < i ==> Sought(b0, h, todo0, children[j].hash);
        }
        i := i + 1;
      }
      assert children[..i] == children;
    }

    lemma NoneAsked(wanted: set<Hash>)
      ensures AllAsked([], wanted)
    {
    }

    /** The leaf callback: further tries and raw entries, on behalf of the node. */
    method Callback(h: Hash, v: Bytes)
      requires Held(multiset{}, {h}) && h in requests && requests[h].data.Some? && extras(v).Some?
      modifies this`requests, this`queue, this`b, this`wanted, this`content
      ensures Held(multiset{}, {h}) && Kept(old(requests), old(b), requests, b)
      ensures Trusts(old(content), content) && old(wanted) <= wanted && Asked(extras(v).value, wanted)
    {
      hide Held, Kept;
      KeptSame(requests, b);
      var todo := extras(v).value;
      var i := 0;
      while i < |todo|
        invariant 0 <= i <= |todo|
        invariant Held(multiset{}, {h}) && Kept(old(requests), old(b), requests, b)
        invariant Trusts(old(content), content) && old(wanted) <= wanted && Asked(todo[..i], wanted)
        invariant h in requests && requests[h].data.Some?
      {
        ghost var r0, b0 := requests, b;
        match todo[i] {
          case SubTrie(root, depth) => AddSubTrie(root, depth, Some(h), false, {h});
          case RawEntry(hash, depth) => AddRawEntry(hash, depth, Some(h), {h});
        }
        KeptMore(old(requests), old(b), r0, b0, requests, b);
        KeptHas(r0, b0, requests, b, h);
        i := i + 1;
      }
      assert todo[..i] == todo;
    }

    /** Everything a callback asks for, but what is empty, has been asked for. */
    ghost predicate Asked(todo: seq<Extra>, wanted: set<Hash>) {
      forall i :: 0 <= i < |todo| ==>
        match todo[i]
        case SubTrie(root, _) => root == emptyRoot || root in wanted
        case RawEntry(hash, _) => hash == emptyState || hash in wanted
    }

    ghost predicate AllAsked(children: seq<Node>, wanted: set<Hash>) {
      forall c :: c in children && c.ValueNode? ==> extras(c.v).Some? && Asked(extras(c.v).value, wanted)
    }

    /** The callback fails for a value. */
    predicate Fails(c: Node) {
      c.ValueNode? && extras(c.v).None?
    }

    predicate AnyFails(children: seq<Node>) {
      exists i :: 0 <= i < |children| && Fails(children[i])
    }

    ghost predicate ValueAsked(c: Node, wanted: set<Hash>) {
      c.ValueNode? ==> extras(c.v).Some? && Asked(extras(c.v).value, wanted)
    }

    lemma AskedMore(children: seq<Node>, i: nat, w0: set<Hash>, w1: set<Hash>)
      requires w0 <= w1 && i < |children|
      ensures AllAsked(children[..0], w1)
      ensures AllAsked(children[..i], w0) && ValueAsked(children[i], w1) ==>
                AllAsked(children[..i + 1], w1)
    {
      if AllAsked(children[..i], w0) && ValueAsked(children[i], w1) {
        forall c | c in children[..i + 1] && c.ValueNode? ensures extras(c.v).Some? && Asked(extras(c.v).value, w1) {
          assert c in children[..i] || c == children[i];
        }
      }
    }

    /** The references to unknown nodes are counted and scheduled. */
    method OrderAll(h: Hash, todo: seq<Hash>, depth: nat, watch: bool)
      requires Held(multiset{}, {h}) && h in requests && requests[h].data.Some?
      requires forall x :: x in todo ==> x !in batch
      modifies this`requests, this`queue, this`b
      ensures Held(multiset{}, {h}) && Kept(old(requests), old(b), requests, b)
      ensures h in requests && requests[h].deps == old(requests[h].deps) + |todo|
      ensures forall x :: x in todo ==> Sought(b, h, [], x)
    {
      hide Sane, Needs, Kept, Offered, Awaited, Sought, Notices;
      CountRefs(h, |todo|);
      ghost var deps := requests[h].deps;
      var i := 0;
      while i < |todo|
        invariant 0 <= i <= |todo|
        invariant Held(Notices(h, |todo| - i), {h}) && Kept(old(requests), old(b), requests, b)
        invariant h in requests && requests[h].data.Some? && requests[h].deps == deps
        invariant forall j :: 0 <= j < i ==> Sought(b, h, [], todo[j])
      {
        ghost var r0, b0 := requests, b;
        NoticesStep(h, |todo| - i);
        OrderOne(h, todo[i], Request(None, false, [h], depth, 0, watch), Notices(h, |todo| - i));
        KeptMore(old(requests), old(b), r0, b0, requests, b);
        KeptHas(r0, b0, requests, b, h);
        i := i + 1;
      }
      NoticesStep(h, 0);
    }

    /** The references are counted first. */
    method CountRefs(h: Hash, k: nat)
      requires Held(multiset{}, {h}) && h in requests && requests[h].data.Some?
      modifies this`requests, this`b
      ensures Held(Notices(h, k), {h}) && Kept(old(requests), old(b), requests, b)
      ensures h in requests && requests[h].data.Some? && requests[h].deps == old(requests[h].deps) + k
    {
      hide Sane, Needs, Kept, Offered, Awaited, Notices;
      NoticesStep(h, k);
      Announced(content, database, batch, order, requests, b, multiset{}, {h}, h, k);
      DepsKept(requests, b, h, k);
      OfferedMore(requests, queue, handed, h, k);
      AwaitedDeps(wanted, requests, batch, database, h, k);
      requests, b := MoreDeps(requests, h, k), L.WithDeps(b, h, k);
    }

    /** `schedule`, for a reference that has been counted. */
    method OrderOne(h: Hash, c: Hash, r: Request, ghost owed: multiset<Hash>)
      requires Held(owed, {h}) && h in owed && h in requests && requests[h].data.Some?
      requires c !in batch && Blank(content, requests, c, r) && r.parents == [h]
      modifies this`requests, this`queue, this`b
      ensures Held(owed - multiset{h}, {h}) && Kept(old(requests), old(b), requests, b)
      ensures h in requests && requests[h].deps == old(requests[h].deps) && Sought(b, h, [], c)
    {
      hide Sane, Needs, Kept, Offered, Awaited, ScheduleIn, Listed, Blank;
      LinkNoted(content, database, batch, order, requests, b, owed, {h}, h, c, r);
      b := L.WithNeed(L.WithLink(Listed(b, c), h, c), h, c);
      OfferedIn(requests, queue, handed, c, r);
      AwaitedIn(wanted, requests, batch, database, c, r);
      ScheduleKeeps(requests, c, r, h);
      if c !in requests {
        queue := queue + multiset{c};
      }
      requests := ScheduleIn(requests, c, r);
    }

    /** Why a delivery is refused. */
    function Refusal(requests: map<Hash, Request>, item: SyncResult): SyncError {
      if item.hash !in requests then NotRequested
      else if requests[item.hash].data.Some? then AlreadyProcessed
      else if requests[item.hash].raw then NoError
      else if DecodeNode(Some(item.hash), item.data, 0).None? then BadNode
      else if requests[item.hash].watch && LeafFails(item) then BadLeaf
      else NoError
    }

    /** The callback fails for a value in a node. */
    predicate LeafFails(item: SyncResult) {
      var node := DecodeNode(Some(item.hash), item.data, 0);
      node.Some? && AnyFails(ChildrenOf(node.value))
    }

    /** One delivery: accepted exactly when it was requested, is new and can be read, and the callback
        does not fail. What the callback asks for on behalf of a value has been asked for. If it fails,
        the request is left open: it has its data, but what the node refers to is not requested. */
    method Deliver(item: SyncResult) returns (committed: bool, err: SyncError)
      requires Valid() && Real(content, item.hash, item.data)
      modifies this
      ensures database == old(database) && err == Refusal(old(requests), item)
      ensures if err.BadLeaf? then Held(multiset{}, {item.hash}) && Accepted(requests, batch, item.hash) else Valid()
      ensures Trusts(old(content), content) && old(wanted) <= wanted
      ensures err.NoError? ==> Accepted(requests, batch, item.hash)
      ensures committed ==> item.hash in batch
      ensures forall x :: Accepted(old(requests), old(batch), x) ==> Accepted(requests, batch, x)
      ensures !err.NoError? && !err.BadLeaf? ==> requests == old(requests) && batch == old(batch)
      ensures err.BadLeaf? ==> batch == old(batch)
      ensures err.NoError? && old(requests)[item.hash].raw ==>
                && item.hash in batch && requests.Keys <= old(requests.Keys) && wanted == old(wanted)
                && batch.Keys <= old(batch.Keys + requests.Keys)
      ensures err.NoError? && !old(requests)[item.hash].raw && old(requests)[item.hash].watch ==>
                AllAsked(ChildrenOf(DecodeNode(Some(item.hash), item.data, 0).value), wanted)
    {
      hide Sane, Needs, Kept, Offered, Awaited, DecodeNode, Covered, Moved, AllAsked, ChildrenOf, AnyFails;
      committed, err := false, NoError;
      var h := item.hash;
      if h !in requests {
        return false, NotRequested;
      }
      var r := requests[h];
      if r.data.Some? {
        return false, AlreadyProcessed;
      }
      Received(content, database, batch, order, requests, b, h);
      if r.raw {
        AcceptedData(requests, batch, h, item.data);
        requests, b := requests[h := r.(data := Some(item.data))], L.WithData(b, h);
        OfferedData(old(requests), queue, handed, h, requests[h]);
        AwaitedData(wanted, old(requests), batch, database, h, requests[h]);
        RawCovered(content, database, batch, order, requests, b, h);
        Settle(h);
        return true, NoError;
      }
      var node := DecodeNode(Some(h), item.data, 0);
      if node.None? {
        return false, BadNode;
      }
      AcceptedData(requests, batch, h, item.data);
      requests, b := requests[h := r.(data := Some(item.data))], L.WithData(b, h);
      OfferedData(old(requests), queue, handed, h, requests[h]);
      AwaitedData(wanted, old(requests), batch, database, h, requests[h]);
      var ok;
      committed, ok := Unfold(h, node.value);
      err := if ok then NoError else BadLeaf;
    }

    /** The references of a node that has just been received are requested, unless the callback fails. */
    method Unfold(h: Hash, node: Node) returns (committed: bool, ok: bool)
      requires Held(multiset{}, {h}) && h in requests && requests[h].data.Some? && !requests[h].raw
      requires DecodeNode(Some(h), content.data(h), 0) == Some(node)
      modifies this
      ensures database == old(database) && (ok <==> !(old(requests)[h].watch && AnyFails(ChildrenOf(node))))
      ensures if ok then Valid() else Held(multiset{}, {h}) && batch == old(batch)
      ensures Trusts(old(content), content) && old(wanted) <= wanted && (committed ==> h in batch)
      ensures forall x :: Accepted(old(requests), old(batch), x) ==> Accepted(requests, batch, x)
      ensures ok && old(requests)[h].watch ==> AllAsked(ChildrenOf(node), wanted)
    {
      hide Sane, Needs, Kept, Offered, Awaited, DecodeNode, Covered, Moved, AllAsked, ChildrenOf, AnyFails;
      committed := false;
      var r := requests[h];
      ghost var r0, b0 := requests, b;
      var todo;
      todo, ok := Children(h, node);
      AcceptedKept(r0, b0, requests, b, batch);
      KeptHas(r0, b0, requests, b, h);
      if !ok {
        return;
      }
      if |todo| == 0 && requests[h].deps == 0 {
        NodeCovered(content, database, batch, order, requests, b, {h}, h, todo, node);
        Settle(h);
        return true, true;
      }
      var step := if node.ShortNode? then |node.key| else 1;
      ghost var r1, b1 := requests, b;
      OrderAll(h, todo, r.depth + step, r.watch);
      AcceptedKept(r1, b1, requests, b, batch);
      KeptHas(r1, b1, requests, b, h);
      SoughtAll(b1, b, h, todo, node);
      NodeCovered(content, database, batch, order, requests, b, {h}, h, [], node);
      Closes(content, database, batch, order, requests, b, multiset{}, h);
    }

    /** An open request that waits for nothing is completed. */
    method Settle(h: Hash)
      requires Held(multiset{}, {h}) && h in requests && requests[h].data.Some? && requests[h].deps == 0
      requires h in b.awaits && Covered(content, requests, b, h)
      modifies this`requests, this`batch, this`order, this`b
      ensures Valid() && h in batch && requests.Keys <= old(requests.Keys)
              && batch.Keys <= old(batch.Keys + requests.Keys)
      ensures forall x :: Accepted(old(requests), old(batch), x) ==> Accepted(requests, batch, x)
    {
      hide Sane, Needs, Offered, Awaited, Covered;
      ghost var r0, batch0 := requests, batch;
      batch, order, requests, b := Finalize(database, batch, order, requests, h, content, b, multiset{});
      OfferedFewer(r0, batch0, requests, batch, queue, handed);
      AwaitedMore(wanted, r0, batch0, requests, batch, database);
    }

    lemma WhyBadLeaf(requests: map<Hash, Request>, item: SyncResult)
      requires Refusal(requests, item).BadLeaf?
      ensures LeafFails(item)
    {
      hide DecodeNode, AnyFails, ChildrenOf;
    }

    /** `Process`: deliveries are taken one after the other until one is refused. Nothing is promised
        of what comes after a callback has failed, but that its request is left open. */
    method Process(results: seq<SyncResult>) returns (committed: bool, index: nat, err: SyncError)
      requires Valid() && forall i :: 0 <= i < |results| ==> Real(content, results[i].hash, results[i].data)
      modifies this
      ensures database == old(database) && Trusts(old(content), content) && old(wanted) <= wanted
      ensures err.BadLeaf? ==> index < |results| && Held(multiset{}, {results[index].hash}) && LeafFails(results[index])
      ensures !err.BadLeaf? ==> Valid()
      ensures err.NoError? ==> forall i :: 0 <= i < |results| ==> Accepted(requests, batch, results[i].hash)
      ensures !err.NoError? ==> index < |results| && forall i :: 0 <= i < index ==>
                Accepted(requests, batch, results[i].hash)
      ensures !err.NoError? && !err.BadLeaf? ==> err == Refusal(requests, results[index])
    {
      hide Sane, Needs, Offered, Awaited, Accepted, Refusal, DecodeNode, AllAsked, ChildrenOf, LeafFails;
      committed := false;
      var i := 0;
      while i < |results|
        invariant 0 <= i <= |results| && Valid() && database == old(database)
        invariant Trusts(old(content), content) && old(wanted) <= wanted
        invariant forall j :: 0 <= j < i ==> Accepted(requests, batch, results[j].hash)
      {
        ghost var r0 := requests;
        var done;
        done, err := Deliver(results[i]);
        committed := committed || done;
        if !err.NoError? {
          if err.BadLeaf? { WhyBadLeaf(r0, results[i]); }
          return committed, i, err;
        }
        i := i + 1;
      }
      return committed, 0, NoError;
    }

    /** `Missing`: hands out requests. Whatever is pending was offered at some time. */
    method Missing(max: nat) returns (hashes: seq<Hash>)
      requires Valid()
      modifies this`queue, this`handed
      ensures Valid() && (max > 0 ==> |hashes| <= max)
      ensures multiset(hashes) + queue == old(queue)
      ensures max == 0 || |hashes| < max ==> queue == multiset{} && requests.Keys <= handed
    {
      hide Sane, Needs, Awaited;
      hashes := [];
      while |queue| > 0 && (max == 0 || |hashes| < max)
        invariant Valid() && (max > 0 ==> |hashes| <= max) && multiset(hashes) + queue == old(queue)
        decreases |queue|
      {
        var h :| h in queue;
        hashes, handed := hashes + [h], handed + {h};
        queue := queue - multiset{h};
      }
    }

    /** `Commit`: the batch is written in the order of completion. The writer may fail at any
        time; whatever has been written by then, the database is closed under references. */
    method Commit() returns (written: nat, ok: bool)
      requires Valid()
      modifies this`database, this`batch, this`order
      ensures Valid() && Closed(content, database.Keys)
      ensures database.Keys + batch.Keys == old(database.Keys + batch.Keys)
      ensures ok ==> batch == map[] && order == [] && written == |old(order)|
      ensures !ok ==> written < |old(order)| && batch == old(batch) && order == old(order)
      ensures database.Keys == old(database.Keys) + SetOf(old(order)[..written])
    {
      hide Sane, Offered, Awaited, Writing, Closed, SetOf;
      var i := 0;
      ghost var base := database;
      WritingStarts(content, database, batch, order, requests, b, wanted);
      while i < |order|
        invariant 0 <= i <= |order| && batch == old(batch) && order == old(order)
        invariant Writing(content, base, database, batch, order, requests, wanted, i)
      {
        ok := *;
        if !ok {
          WritingStops(content, base, database, batch, order, requests, b, wanted, i);
          return i, false;
        }
        WritingOn(content, base, database, batch, order, requests, wanted, i);
        database := database[order[i] := batch[order[i]]];
        i := i + 1;
      }
      WritingEnds(content, base, database, batch, order, requests, b, wanted, i);
      written, ok := |order|, true;
      batch, order := map[], [];
    }

    /** When nothing is pending, everything that was asked for is there, by callbacks too, and so is
        whatever any known node refers to that was not stored as a raw entry. */
    lemma Done()
      requires Valid() && requests == map[]
      ensures wanted <= database.Keys + batch.Keys
      ensures Closed(content, database.Keys + batch.Keys)
    {
      KnownIsClosed(content, database, batch, order);
    }

    /** While anything is pending, something has been or can be handed out and is not delivered yet. */
    lemma Unfinished(rank: Hash -> nat) returns (c: Hash)
      requires Valid() && requests != map[]
      requires forall p, x :: p in b.out && x in b.out[p] ==> rank(x) < rank(p)
      ensures c in requests && requests[c].data.None? && (c in queue || c in handed)
    {
      SaneKeys(content, database, batch, order, requests, b, multiset{}, {});
      forall q | q in b.entries && b.entries[q].ready ensures b.entries[q].deps > 0 {
        FiledAt(content, batch, requests, b, {}, q);
      }
      var p :| p in requests;
      c := L.Progress(b, database.Keys + batch.Keys, rank, p);
      FiledAt(content, batch, requests, b, {}, c);
    }

    /** `NewSync`: the database may have any content that is closed under references, but for raw entries. */
    constructor (root: Hash, database: map<Hash, Bytes>, emptyRoot: Hash, emptyState: Hash,
                 extras: Bytes -> Option<seq<Extra>>, ghost content: Content)
      requires Genuine(content, database) && Closed(content, database.Keys)
      ensures Valid() && this.content == content && this.database == database && batch == map[]
      ensures this.emptyRoot == emptyRoot && this.emptyState == emptyState && this.extras == extras
      ensures wanted == (if root == emptyRoot then {} else {root}) && (root == emptyRoot ==> requests == map[])
    {
      this.emptyRoot, this.emptyState, this.extras, this.content := emptyRoot, emptyState, extras, content;
      this.database, batch, order, requests, queue := database, map[], [], map[], multiset{};
      b, handed, wanted := L.Book(map[], map[], map[]), {}, {};
      new;
      Fresh(content, database);
      AddSubTrie(root, 0, None, true, {});
      assert {} + {root} == {root};
    }
  }

  /** The same content is genuine; more of it may be stored as it is. */
  ghost predicate Trusts(c0: Content, c1: Content) {
    c1.data == c0.data && c1.genuine == c0.genuine && c0.raws <= c1.raws
  }

  lemma RawNeeds(content: Content, h: Hash)
    ensures h in content.raws ==> Needs(content, h) == {}
  {
  }

  /** Storing more entries as they are asks for less. */
  lemma RawsGrow(content: Content, database: map<Hash, Bytes>, batch: map<Hash, Bytes>, order: seq<Hash>,
                 requests: map<Hash, Request>, b: L.Book<Hash>, owed: multiset<Hash>, open: set<Hash>, h: Hash)
    requires Sane(content, database, batch, order, requests, b, owed, open)
    ensures Sane(content.(raws := content.raws + {h}), database, batch, order, requests, b, owed, open)
  {
    hide L.Inv, Needs;
    var content' := content.(raws := content.raws + {h});
    forall x ensures Needs(content', x) <= Needs(content, x) { FewerNeeds(content, h, x); }
    forall x ensures Filed(content', batch, requests, b, open, x) {
      assert Filed(content, batch, requests, b, open, x) && Needs(content', x) <= Needs(content, x);
    }
    assert Genuine(content', database) && Genuine(content', batch);
    TidyWithLess(content, content', database, batch, order);
  }

  lemma FewerNeeds(content: Content, h: Hash, x: Hash)
    ensures Needs(content.(raws := content.raws + {h}), x) <= Needs(content, x)
  {
  }

  lemma TidyWithLess(c0: Content, c1: Content, database: map<Hash, Bytes>, batch: map<Hash, Bytes>, order: seq<Hash>)
    requires Tidy(c0, database, batch, order) && Trusts(c0, c1) && forall x :: Needs(c1, x) <= Needs(c0, x)
    ensures Tidy(c1, database, batch, order)
  {
    hide Needs;
    forall i, c | 0 <= i < |order| && c in Needs(c1, order[i]) ensures c in database.Keys || c in order[..i] {
      assert c in Needs(c0, order[i]);
    }
    forall h, c | h in database.Keys && c in Needs(c1, h) ensures c in database.Keys {
      assert c in Needs(c0, h);
    }
  }

  lemma DepsKeys(requests: map<Hash, Request>, p: Hash, k: nat)
    requires p in requests
    ensures MoreDeps(requests, p, k).Keys == requests.Keys
  {
  }

  lemma ScheduleKeys(requests: map<Hash, Request>, c: Hash, r: Request)
    ensures ScheduleIn(requests, c, r).Keys == requests.Keys + {c}
    ensures c !in requests ==> ScheduleIn(requests, c, r)[c] == r
  {
  }

  lemma AwaitedOne(wanted: set<Hash>, requests: map<Hash, Request>, batch: map<Hash, Bytes>, database: map<Hash, Bytes>,
                   h: Hash)
    requires Awaited(wanted, requests, batch, database) && (h in requests || h in batch || h in database)
    ensures Awaited(wanted + {h}, requests, batch, database)
  {
  }

  lemma Fresh(content: Content, database: map<Hash, Bytes>)
    requires Genuine(content, database) && Closed(content, database.Keys)
    ensures Sane(content, database, map[], [], map[], L.Book(map[], map[], map[]), multiset{}, {})
  {
    var b: L.Book<Hash> := L.Book(map[], map[], map[]);
    assert L.Inv(b, database.Keys, multiset{});
    var none: map<Hash, Bytes> := map[];
    assert database.Keys + none.Keys == database.Keys;
  }

  lemma TidyClosed(content: Content, database: map<Hash, Bytes>, batch: map<Hash, Bytes>, order: seq<Hash>)
    requires Tidy(content, database, batch, order)
    ensures Closed(content, database.Keys)
  {
  }

  /** The requests do not see which part of what is known has been written. */
  lemma SaneAgain(content: Content, d0: map<Hash, Bytes>, d1: map<Hash, Bytes>, batch0: map<Hash, Bytes>,
                  order0: seq<Hash>, batch1: map<Hash, Bytes>, order1: seq<Hash>, requests: map<Hash, Request>,
                  b: L.Book<Hash>, open: set<Hash>)
    requires Sane(content, d0, batch0, order0, requests, b, multiset{}, open)
    requires Tidy(content, d1, batch1, order1) && d1.Keys + batch1.Keys == d0.Keys + batch0.Keys
    requires batch1.Keys <= batch0.Keys
    ensures Sane(content, d1, batch1, order1, requests, b, multiset{}, open)
  {
    hide Tidy, Needs, L.Inv;
    forall h ensures Filed(content, batch1, requests, b, open, h) {
      assert Filed(content, batch0, requests, b, open, h);
    }
  }

  /** The next node of the order can be written: all it refers to has been. */
  lemma OneWritten(order: seq<Hash>, i: nat, keys: set<Hash>, base: set<Hash>, batch: set<Hash>)
    requires i < |order| && keys == base + SetOf(order[..i])
    ensures keys + {order[i]} == base + SetOf(order[..i + 1])
    ensures order[i] in batch ==> keys + {order[i]} + batch == keys + batch
    ensures forall c :: c in order[..i] ==> c in keys
  {
    assert order[..i + 1] == order[..i] + [order[i]];
  }

  lemma PutNext(content: Content, database: map<Hash, Bytes>, batch: map<Hash, Bytes>, order: seq<Hash>, i: nat,
                base: map<Hash, Bytes>)
    requires Tidy(content, database, batch, order) && i < |order| && KidsFirst(content, base.Keys, order)
    requires database.Keys == base.Keys + SetOf(order[..i])
    ensures order[i] in batch
    ensures Tidy(content, database[order[i] := batch[order[i]]], batch, order)
    ensures database.Keys + {order[i]} == base.Keys + SetOf(order[..i + 1])
    ensures database.Keys + {order[i]} + batch.Keys == database.Keys + batch.Keys
  {
    hide Needs, SetOf;
    var x := order[i];
    OneWritten(order, i, database.Keys, base.Keys, batch.Keys);
    assert x in order;
    var d1 := database[x := batch[x]];
    forall h, c | h in d1.Keys && c in Needs(content, h) ensures c in d1.Keys {
      if h == x { assert c in base.Keys || c in order[..i]; }
    }
    forall j, c | 0 <= j < |order| && c in Needs(content, order[j]) ensures c in d1.Keys || c in order[..j] {
    }
  }

  lemma TidyAll(content: Content, base: map<Hash, Bytes>, database: map<Hash, Bytes>, batch: map<Hash, Bytes>,
                order: seq<Hash>)
    requires Tidy(content, database, batch, order) && database.Keys == base.Keys + SetOf(order)
    ensures Tidy(content, database, map[], [])
    ensures var none: map<Hash, Bytes> := map[]; database.Keys + none.Keys == base.Keys + batch.Keys
  {
    hide Needs;
  }

  /** How far the batch has been written. */
  ghost predicate Writing(content: Content, base: map<Hash, Bytes>, database: map<Hash, Bytes>, batch: map<Hash, Bytes>,
                          order: seq<Hash>, requests: map<Hash, Request>, wanted: set<Hash>, i: nat)
  {
    && i <= |order| && KidsFirst(content, base.Keys, order) && Tidy(content, database, batch, order)
    && database.Keys == base.Keys + SetOf(order[..i]) && database.Keys + batch.Keys == base.Keys + batch.Keys
    && Awaited(wanted, requests, batch, database)
  }

  lemma WritingStarts(content: Content, database: map<Hash, Bytes>, batch: map<Hash, Bytes>, order: seq<Hash>,
                      requests: map<Hash, Request>, b: L.Book<Hash>, wanted: set<Hash>)
    requires Sane(content, database, batch, order, requests, b, multiset{}, {})
             && Awaited(wanted, requests, batch, database)
    ensures Writing(content, database, database, batch, order, requests, wanted, 0)
  {
    hide Needs, Open, L.Inv, Awaited;
  }

  lemma WritingOn(content: Content, base: map<Hash, Bytes>, database: map<Hash, Bytes>, batch: map<Hash, Bytes>,
                  order: seq<Hash>, requests: map<Hash, Request>, wanted: set<Hash>, i: nat)
    requires Writing(content, base, database, batch, order, requests, wanted, i) && i < |order|
    ensures order[i] in batch
    ensures Writing(content, base, database[order[i] := batch[order[i]]], batch, order, requests, wanted, i + 1)
  {
    hide Needs, Tidy, Awaited, SetOf, KidsFirst;
    PutNext(content, database, batch, order, i, base);
    AwaitedPut(wanted, requests, batch, database, order[i], batch[order[i]]);
  }

  lemma WritingStops(content: Content, base: map<Hash, Bytes>, database: map<Hash, Bytes>, batch: map<Hash, Bytes>,
                     order: seq<Hash>, requests: map<Hash, Request>, b: L.Book<Hash>, wanted: set<Hash>, i: nat)
    requires Sane(content, base, batch, order, requests, b, multiset{}, {})
    requires Writing(content, base, database, batch, order, requests, wanted, i)
    ensures Sane(content, database, batch, order, requests, b, multiset{}, {})
            && Awaited(wanted, requests, batch, database)
    ensures Closed(content, database.Keys) && database.Keys + batch.Keys == base.Keys + batch.Keys
    ensures i <= |order| && database.Keys == base.Keys + SetOf(order[..i])
  {
    hide Needs, Tidy, Awaited, SetOf, KidsFirst, Sane;
    SaneAgain(content, base, database, batch, order, batch, order, requests, b, {});
    TidyClosed(content, database, batch, order);
  }

  lemma WritingEnds(content: Content, base: map<Hash, Bytes>, database: map<Hash, Bytes>, batch: map<Hash, Bytes>,
                    order: seq<Hash>, requests: map<Hash, Request>, b: L.Book<Hash>, wanted: set<Hash>, i: nat)
    requires Sane(content, base, batch, order, requests, b, multiset{}, {}) && i == |order|
    requires Writing(content, base, database, batch, order, requests, wanted, i)
    ensures Sane(content, database, map[], [], requests, b, multiset{}, {})
            && Awaited(wanted, requests, map[], database)
    ensures var none: map<Hash, Bytes> := map[]; database.Keys + none.Keys == base.Keys + batch.Keys
    ensures Closed(content, database.Keys) && database.Keys == base.Keys + SetOf(order[..i])
  {
    hide Needs, Tidy, Awaited, SetOf, KidsFirst, Sane;
    assert order[..i] == order;
    TidyAll(content, base, database, batch, order);
    SaneAgain(content, base, database, batch, order, map[], [], requests, b, {});
    AwaitedAll(wanted, requests, batch, database);
    TidyClosed(content, database, batch, order);
  }

  lemma AwaitedPut(wanted: set<Hash>, requests: map<Hash, Request>, batch: map<Hash, Bytes>, database: map<Hash, Bytes>,
                   h: Hash, d: Bytes)
    requires Awaited(wanted, requests, batch, database)
    ensures Awaited(wanted, requests, batch, database[h := d])
  {
  }

  lemma AwaitedAll(wanted: set<Hash>, requests: map<Hash, Request>, batch: map<Hash, Bytes>, database: map<Hash, Bytes>)
    requires Awaited(wanted, requests, batch, database) && batch.Keys <= database.Keys
    ensures Awaited(wanted, requests, map[], database)
  {
  }

  /** A number of messages to one request. */
  ghost function Notices(h: Hash, k: nat): multiset<Hash> {
    multiset{}[h := k]
  }

  lemma NoticesStep(h: Hash, k: nat)
    ensures Notices(h, 0) == multiset{}
    ensures k > 0 ==> h in Notices(h, k) && Notices(h, k) - multiset{h} == Notices(h, k - 1)
    ensures var none: multiset<Hash> := multiset{}; none[h := none[h] + k] == Notices(h, k)
  {
  }

  /** The data of a hash has arrived. */
  ghost predicate Accepted(requests: map<Hash, Request>, batch: map<Hash, Bytes>, h: Hash) {
    h in batch || (h in requests && requests[h].data.Some?)
  }

  lemma AcceptedData(requests: map<Hash, Request>, batch: map<Hash, Bytes>, h: Hash, data: Bytes)
    requires h in requests
    ensures var requests' := requests[h := requests[h].(data := Some(data))];
            forall x :: x == h || Accepted(requests, batch, x) ==> Accepted(requests', batch, x)
  {
  }

  lemma AcceptedKept(r0: map<Hash, Request>, b0: L.Book<Hash>, r1: map<Hash, Request>, b1: L.Book<Hash>,
                     batch: map<Hash, Bytes>)
    requires Kept(r0, b0, r1, b1)
    ensures forall x :: Accepted(r0, batch, x) ==> Accepted(r1, batch, x)
  {
  }

  lemma OfferedMore(requests: map<Hash, Request>, queue: multiset<Hash>, handed: set<Hash>, p: Hash, k: nat)
    requires Offered(requests, queue, handed) && p in requests
    ensures Offered(MoreDeps(requests, p, k), queue, handed)
  {
  }

  lemma OfferedData(requests: map<Hash, Request>, queue: multiset<Hash>, handed: set<Hash>, h: Hash, r: Request)
    requires Offered(requests, queue, handed) && h in requests
    ensures Offered(requests[h := r], queue, handed)
  {
  }

  lemma OfferedFewer(r0: map<Hash, Request>, batch0: map<Hash, Bytes>, r1: map<Hash, Request>, batch1: map<Hash, Bytes>,
                     queue: multiset<Hash>, handed: set<Hash>)
    requires Moved(r0, batch0, r1, batch1) && Offered(r0, queue, handed)
    ensures Offered(r1, queue, handed)
  {
  }

  lemma ScheduleKeeps(requests: map<Hash, Request>, c: Hash, r: Request, h: Hash)
    requires h in requests
    ensures h in ScheduleIn(requests, c, r) && ScheduleIn(requests, c, r)[h].deps == requests[h].deps
  {
  }

  lemma RawCovered(content: Content, database: map<Hash, Bytes>, batch: map<Hash, Bytes>, order: seq<Hash>,
                   requests: map<Hash, Request>, b: L.Book<Hash>, h: Hash)
    requires Sane(content, database, batch, order, requests, b, multiset{}, {h})
    requires h in requests && requests[h].raw && Needs(content, h) == {}
    ensures h in b.awaits && Covered(content, requests, b, h)
  {
    SaneKeys(content, database, batch, order, requests, b, multiset{}, {h});
  }

  /** Decoding finds the same children whatever hash the node is given. */
  lemma DecodeAnyHash(hash: Option<Bytes>, data: Bytes)
    ensures var n, m := DecodeNode(hash, data, 0), DecodeNode(None, data, 0);
            (n.Some? <==> m.Some?) && (n.Some? ==> ChildrenOf(n.value) == ChildrenOf(m.value))
  {
    hide DecodeRef, DecodeRefs, Values, Split;
  }

  lemma NodeCovered(content: Content, database: map<Hash, Bytes>, batch: map<Hash, Bytes>, order: seq<Hash>,
                    requests: map<Hash, Request>, b: L.Book<Hash>, open: set<Hash>, h: Hash, todo: seq<Hash>,
                    node: Node)
    requires Sane(content, database, batch, order, requests, b, multiset{}, open)
    requires h in requests && !requests[h].raw && todo == []
    requires DecodeNode(Some(h), content.data(h), 0) == Some(node)
    requires forall c :: c in ChildrenOf(node) && c.HashNode? ==> Sought(b, h, todo, c.hash)
    ensures h in b.awaits && Covered(content, requests, b, h)
  {
    SaneKeys(content, database, batch, order, requests, b, multiset{}, open);
    DecodeAnyHash(Some(h), content.data(h));
  }

  lemma SoughtAll(b0: L.Book<Hash>, b1: L.Book<Hash>, h: Hash, todo: seq<Hash>, node: Node)
    requires forall c :: c in ChildrenOf(node) && c.HashNode? ==> Sought(b0, h, todo, c.hash)
    requires forall todo, c :: Sought(b0, h, todo, c) ==> Sought(b1, h, todo, c)
    requires forall x :: x in todo ==> Sought(b1, h, [], x)
    ensures forall c :: c in ChildrenOf(node) && c.HashNode? ==> Sought(b1, h, [], c.hash)
  {
    forall c | c in ChildrenOf(node) && c.HashNode? ensures Sought(b1, h, [], c.hash) {
      assert Sought(b0, h, todo, c.hash) && Sought(b1, h, todo, c.hash);
    }
  }

  /** The list of children that `children` goes through. */
  method ListChildren(n: Node) returns (r: seq<Node>)
    ensures r == ChildrenOf(n)
  {
    r := [];
    match n
    case ShortNode(_, val, _) => r := [val];
    case FullNode(ch, _) =>
      var i := 0;
      assert ch[0..] == ch;
      while i < |ch|
        invariant 0 <= i <= |ch| && r + Present(ch[i..]) == Present(ch)
      {
        assert ch[i..][1..] == ch[i + 1..];
        if ch[i] != NilNode {
          r := r + [ch[i]];
        }
        i := i + 1;
      }
    case _ =>
  }

  /** A reference has been noted or is still to be ordered. */
  ghost predicate Sought(b: L.Book<Hash>, h: Hash, todo: seq<Hash>, c: Hash) {
    h in b.awaits && (c in b.awaits[h] || c in todo)
  }

  lemma KeptHas(r0: map<Hash, Request>, b0: L.Book<Hash>, r1: map<Hash, Request>, b1: L.Book<Hash>, h: Hash)
    requires Kept(r0, b0, r1, b1)
    ensures h in r0 ==> h in r1 && r1[h].data == r0[h].data && r1[h].raw == r0[h].raw && r1[h].watch == r0[h].watch
    ensures forall todo, c :: Sought(b0, h, todo, c) ==> Sought(b1, h, todo, c)
  {
  }

  lemma KeptSame(requests: map<Hash, Request>, b: L.Book<Hash>)
    ensures Kept(requests, b, requests, b)
  {
  }

  lemma TopKept(requests: map<Hash, Request>, b: L.Book<Hash>, c: Hash, r: Request)
    requires b.awaits.Keys == b.entries.Keys && r.parents == []
    ensures Kept(requests, b, ScheduleIn(requests, c, r), Listed(b, c))
  {
  }

  lemma AwaitedDeps(wanted: set<Hash>, requests: map<Hash, Request>, batch: map<Hash, Bytes>, database: map<Hash,
                    Bytes>, p: Hash, k: nat)
    requires Awaited(wanted, requests, batch, database) && p in requests
    ensures Awaited(wanted, MoreDeps(requests, p, k), batch, database)
  {
  }

  lemma AwaitedIn(wanted: set<Hash>, requests: map<Hash, Request>, batch: map<Hash, Bytes>, database: map<Hash, Bytes>,
                  c: Hash, r: Request)
    requires Awaited(wanted, requests, batch, database)
    ensures Awaited(wanted, ScheduleIn(requests, c, r), batch, database)
  {
  }

  lemma AwaitedData(wanted: set<Hash>, requests: map<Hash, Request>, batch: map<Hash, Bytes>, database: map<Hash,
                    Bytes>, h: Hash, r: Request)
    requires Awaited(wanted, requests, batch, database) && h in requests
    ensures Awaited(wanted, requests[h := r], batch, database)
  {
  }

  lemma OfferedIn(requests: map<Hash, Request>, queue: multiset<Hash>, handed: set<Hash>, c: Hash, r: Request)
    requires Offered(requests, queue, handed)
    ensures c in ScheduleIn(requests, c, r)
    ensures Offered(ScheduleIn(requests, c, r), if c in requests then queue else queue + multiset{c}, handed)
  {
  }
}
