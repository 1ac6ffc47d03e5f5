/**
 One-to-many broadcast: a send goes through an array of cases, of which a prefix is still to be
 served. Serving swaps a case behind the prefix; subscriptions that end meanwhile are deleted by
 shifting. Sends, subscriptions and removals interleave in any order.
 */
module Feed {
  import opened Common

  /** A channel to send on, or the channel on which removals are announced. */
  datatype Chan = RemoveSub | Sub(id: nat)

  datatype Case<T> = Case(ch: Chan, val: Option<T>)

  /** Of a send: the channels it started with, those that have got the value, those removed before
      that, and all that have been removed since. */
  datatype Log = Log(start: multiset<Chan>, delivered: multiset<Chan>, dropped: multiset<Chan>, taken: multiset<Chan>)

  // ---------------------------------------------------------------- channels of cases

  ghost function Names<T>(s: seq<Case<T>>): seq<Chan> {
    seq(|s|, i requires 0 <= i < |s| => s[i].ch)
  }

  /** How often each channel occurs. */
  ghost function Chans<T>(s: seq<Case<T>>): multiset<Chan> {
    multiset(Names(s))
  }

  lemma ChansAdd<T>(a: seq<Case<T>>, b: seq<Case<T>>)
    ensures Chans(a + b) == Chans(a) + Chans(b)
  {
    assert Names(a + b) == Names(a) + Names(b);
  }

  lemma ChansOne<T>(c: Case<T>)
    ensures Chans([c]) == multiset{c.ch}
  {
    assert Names([c]) == [c.ch];
  }

  lemma ChansNone<T>()
    ensures Chans<T>([]) == multiset{}
  {
  }

  lemma ChansHas<T>(s: seq<Case<T>>, c: Chan)
    ensures c in Chans(s) <==> exists i :: 0 <= i < |s| && s[i].ch == c
  {
    assert c in Chans(s) <==> c in Names(s);
    if exists i :: 0 <= i < |s| && s[i].ch == c {
      var i :| 0 <= i < |s| && s[i].ch == c;
      assert Names(s)[i] == c;
    }
  }

  /** What is left without one case. */
  function Without<T>(s: seq<Case<T>>, k: nat): seq<Case<T>>
    requires k < |s|
  {
    s[..k] + s[k + 1..]
  }

  lemma ChansWithout<T>(s: seq<Case<T>>, k: nat)
    requires k < |s|
    ensures Chans(s) == Chans(Without(s, k)) + multiset{s[k].ch}
  {
    assert s == s[..k] + [s[k]] + s[k + 1..];
    ChansAdd(s[..k] + [s[k]], s[k + 1..]);
    ChansAdd(s[..k], [s[k]]);
    ChansAdd(s[..k], s[k + 1..]);
    ChansOne(s[k]);
  }

  /** Two cases change places. */
  function Swapped<T>(s: seq<Case<T>>, i: nat, j: nat): seq<Case<T>>
    requires i < |s| && j < |s|
  {
    s[i := s[j]][j := s[i]]
  }

  /** A case of the prefix is swapped with the last of it, and the prefix ends before it: the prefix
      has lost it, the rest has gained it. */
  lemma SwapSplits<T>(s: seq<Case<T>>, from: nat, k: nat, n: nat)
    requires from <= k < n <= |s|
    ensures var t := Swapped(s, k, n - 1);
            && Chans(s[from..n]) == Chans(t[from..n - 1]) + multiset{s[k].ch}
            && Chans(t[n - 1..]) == Chans(s[n..]) + multiset{s[k].ch}
  {
    hide Chans;
    var t := Swapped(s, k, n - 1);
    assert t[n - 1..] == [s[k]] + s[n..];
    ChansAdd([s[k]], s[n..]);
    ChansOne(s[k]);
    if k == n - 1 {
      assert s[from..n] == t[from..n - 1] + [s[k]];
      ChansAdd(t[from..n - 1], [s[k]]);
    } else {
      SwapParts(s, from, k, n);
      Rotated(s[from..k], s[k], s[k + 1..n - 1], s[n - 1]);
    }
  }

  lemma SwapParts<T>(s: seq<Case<T>>, from: nat, k: nat, n: nat)
    requires from <= k < n - 1 && n <= |s|
    ensures s[from..n] == s[from..k] + ([s[k]] + (s[k + 1..n - 1] + [s[n - 1]]))
    ensures Swapped(s, k, n - 1)[from..n - 1] == s[from..k] + ([s[n - 1]] + s[k + 1..n - 1])
  {
  }

  lemma Rotated<T>(a: seq<Case<T>>, x: Case<T>, b: seq<Case<T>>, y: Case<T>)
    ensures Chans(a + ([x] + (b + [y]))) == Chans(a + ([y] + b)) + multiset{x.ch}
  {
    hide Chans;
    ChansOne(x);
    ChansAdd(a, [x] + (b + [y]));
    ChansAdd([x], b + [y]);
    ChansAdd(b, [y]);
    ChansAdd(a, [y] + b);
    ChansAdd([y], b);
  }

  // ---------------------------------------------------------------- the list of cases, in place

  /** `find`: the first case with a channel, or -1. */
  method Find<T>(a: array<Case<T>>, n: nat, c: Chan) returns (k: int)
    requires n <= a.Length
    ensures -1 <= k < n && (k >= 0 ==> a[k].ch == c && forall i :: 0 <= i < k ==> a[i].ch != c)
    ensures k == -1 <==> c !in Chans(a[..n])
  {
    ChansHas(a[..n], c);
    k := 0;
    while k < n
      invariant 0 <= k <= n && forall i :: 0 <= i < k ==> a[i].ch != c
    {
      if a[k].ch == c {
        assert a[..n][k].ch == c;
        return;
      }
      k := k + 1;
    }
    k := -1;
  }

  /** `delete`: what follows moves down by one. */
  method Delete<T>(a: array<Case<T>>, n: nat, k: nat)
    requires k < n <= a.Length
    modifies a
    ensures a[..n - 1] == Without(old(a[..n]), k)
  {
    var i := k;
    while i < n - 1
      invariant k <= i <= n - 1
      invariant forall j :: 0 <= j < k ==> a[j] == old(a[j])
      invariant forall j :: k <= j < i ==> a[j] == old(a[j + 1])
      invariant forall j :: i < j < n ==> a[j] == old(a[j])
    {
      a[i] := a[i + 1];
      i := i + 1;
    }
  }

  /** `deactivate`: a case moves behind the active ones. */
  method Deactivate<T>(a: array<Case<T>>, n: nat, k: nat)
    requires k < n <= a.Length
    modifies a
    ensures a[..] == Swapped(old(a[..]), k, n - 1)
  {
    a[k], a[n - 1] := a[n - 1], a[k];
  }

  /** The inbox is appended; the list may move to a larger array. */
  method Append<T>(a: array<Case<T>>, n: nat, inbox: seq<Chan>) returns (b: array<Case<T>>)
    requires n <= a.Length
    ensures fresh(b) && b[..] == Entered(a[..n], inbox)
  {
    b := new Case<T>[n + |inbox|](i requires 0 <= i < n + |inbox| && n <= a.Length reads a =>
                                    if i < n then a[i] else Case(inbox[i - n], None));
  }

  /** All cases in use but the first get a value. */
  method LoadAll<T>(a: array<Case<T>>, n: nat, value: Option<T>)
    requires n <= a.Length
    modifies a
    ensures a[..n] == Loaded(old(a[..n]), value)
  {
    var i := 1;
    while i < n
      invariant 1 <= i
      invariant forall j :: 0 <= j < n ==> a[j] == if 1 <= j < i then old(a[j]).(val := value) else old(a[j])
    {
      a[i] := a[i].(val := value);
      i := i + 1;
    }
  }

  /** The cases that a send starts with. */
  method Prepare<T>(a: array<Case<T>>, n: nat, inbox: seq<Chan>, value: Option<T>) returns (b: array<Case<T>>)
    requires n <= a.Length
    ensures fresh(b) && b[..] == Loaded(Entered(a[..n], inbox), value)
  {
    b := Append(a, n, inbox);
    assert b[..] == b[..b.Length];
    LoadAll(b, b.Length, value);
    assert b[..] == b[..b.Length];
  }

  lemma SwapPrefix<T>(s: seq<Case<T>>, n: nat, i: nat, j: nat)
    requires i < n <= |s| && j < n
    ensures Swapped(s, i, j)[..n] == Swapped(s[..n], i, j)
  {
  }

  lemma SameChans<T>(s: seq<Case<T>>, k: nat, n: nat)
    requires 1 <= k < n <= |s|
    ensures Chans(Swapped(s, k, n - 1)[1..]) == Chans(s[1..])
  {
    hide Chans;
    var t := Swapped(s, k, n - 1);
    SwapSplits(s, 1, k, n);
    assert s[1..] == s[1..n] + s[n..] && t[1..] == t[1..n - 1] + t[n - 1..];
    ChansAdd(s[1..n], s[n..]);
    ChansAdd(t[1..n - 1], t[n - 1..]);
  }

  // ---------------------------------------------------------------- what holds of the cases

  /** The first case takes removals; the others are subscriptions, and all have the value to send. */
  ghost predicate Formed<T>(s: seq<Case<T>>, value: Option<T>) {
    |s| >= 1 && s[0].ch == RemoveSub && forall i :: 1 <= i < |s| ==> s[i].ch != RemoveSub && s[i].val == value
  }

  /** Every subscription that has not been removed has its case, among the others or in the inbox. */
  ghost predicate Accounted<T>(s: seq<Case<T>>, inbox: seq<Chan>, live: multiset<Chan>, removing: multiset<Chan>) {
    |s| >= 1 && live + removing == multiset(inbox) + Chans(s[1..]) && RemoveSub !in inbox
  }

  /** How far a send has come: of the channels it started with, each is still active, has got the
      value or was removed before it could; the channels that are no longer active are those that
      have got it, but for those removed afterwards. */
  ghost predicate Round<T>(s: seq<Case<T>>, active: nat, nsent: nat, log: Log) {
    && 1 <= active <= |s|
    && log.start == Chans(s[1..active]) + log.delivered + log.dropped
    && log.delivered + log.dropped == Chans(s[active..]) + log.taken
    && |log.delivered| == nsent && log.dropped <= log.taken
  }

  /** Serving an active case. */
  lemma Served<T>(s: seq<Case<T>>, inbox: seq<Chan>, live: multiset<Chan>, removing: multiset<Chan>, value: Option<T>,
                  k: nat, active: nat, nsent: nat, log: Log)
    requires Formed(s, value) && Accounted(s, inbox, live, removing) && Round(s, active, nsent, log) && 1 <= k < active
    ensures var t := Swapped(s, k, active - 1);
            && Formed(t, value) && Accounted(t, inbox, live, removing)
            && Round(t, active - 1, nsent + 1, log.(delivered := log.delivered + multiset{s[k].ch}))
  {
    hide Chans;
    var t := Swapped(s, k, active - 1);
    SwapSplits(s, 1, k, active);
    assert s[1..] == s[1..active] + s[active..] && t[1..] == t[1..active - 1] + t[active - 1..];
    ChansAdd(s[1..active], s[active..]);
    ChansAdd(t[1..active - 1], t[active - 1..]);
    Shift(Chans(t[1..active - 1]), log.delivered, log.dropped, s[k].ch);
    Shift(Chans(s[active..]), log.taken, multiset{}, s[k].ch);
    assert |log.delivered + multiset{s[k].ch}| == |log.delivered| + 1;
  }

  /** One more or less on either side of a sum. */
  lemma Shift(a: multiset<Chan>, b: multiset<Chan>, d: multiset<Chan>, c: Chan)
    ensures (a + multiset{c}) + b + d == a + (b + multiset{c}) + d
    ensures (a + multiset{c}) + b + d == a + b + (d + multiset{c})
    ensures (a + multiset{c}) + b == a + (b + multiset{c}) && (a + b) + multiset{c} == a + (b + multiset{c})
    ensures (b + multiset{c}) + d == (b + d) + multiset{c}
  {
  }

  /** A removal is taken: of a channel that is still active, or of one that has been served. */
  ghost function Out(log: Log, c: Chan, active: bool): Log {
    log.(dropped := if active then log.dropped + multiset{c} else log.dropped, taken := log.taken + multiset{c})
  }

  /** Deleting a case while there is a send. */
  lemma Deleted<T>(s: seq<Case<T>>, k: nat, active: nat, nsent: nat, log: Log)
    requires Round(s, active, nsent, log) && 1 <= k < |s|
    ensures 1 <= active <= |s| && Round(Without(s, k), if k < active then active - 1
                                        else active, nsent, Out(log, s[k].ch, k < active))
  {
    hide Chans;
    var t := Without(s, k);
    if k < active {
      ChansWithout(s[1..active], k - 1);
      assert Without(s[1..active], k - 1) == t[1..active - 1] && t[active - 1..] == s[active..];
      Shift(Chans(t[1..active - 1]), log.delivered, log.dropped, s[k].ch);
      Shift(log.delivered, log.dropped, multiset{}, s[k].ch);
      Shift(Chans(s[active..]), log.taken, multiset{}, s[k].ch);
    } else {
      ChansWithout(s[active..], k - active);
      assert Without(s[active..], k - active) == t[active..] && t[1..active] == s[1..active];
      Shift(Chans(t[active..]), log.taken, multiset{}, s[k].ch);
    }
  }

  lemma DeletedAccount<T>(s: seq<Case<T>>, inbox: seq<Chan>, live: multiset<Chan>, removing: multiset<Chan>,
                          value: Option<T>, k: nat)
    requires Formed(s, value) && Accounted(s, inbox, live, removing) && 1 <= k < |s| && s[k].ch in removing
             && removing <= Chans(s[1..])
    ensures var t := Without(s, k);
            Formed(t, value) && Accounted(t, inbox, live, removing - multiset{s[k].ch})
            && removing - multiset{s[k].ch} <= Chans(t[1..])
  {
    hide Chans;
    ChansWithout(s[1..], k - 1);
    assert Without(s[1..], k - 1) == Without(s, k)[1..];
    assert live + (removing - multiset{s[k].ch}) == live + removing - multiset{s[k].ch};
  }

  lemma AllServed<T>(s: seq<Case<T>>, nsent: nat, log: Log)
    requires Round(s, 1, nsent, log)
    ensures log.start == log.delivered + log.dropped && log.dropped <= log.taken && |log.delivered| == nsent
  {
    assert s[1..1] == [];
    ChansNone<T>();
  }

  /** A removal that is on its way finds its channel. */
  lemma RemovalFinds<T>(s: seq<Case<T>>, inbox: seq<Chan>, live: multiset<Chan>, removing: multiset<Chan>,
                        value: Option<T>, c: Chan)
    requires Formed(s, value) && Accounted(s, inbox, live, removing) && c in removing && removing <= Chans(s[1..])
    ensures c in Chans(s) && c != RemoveSub && s[0].ch == RemoveSub
  {
    ChansHas(s[1..], c);
    assert s == [s[0]] + s[1..];
    ChansAdd([s[0]], s[1..]);
  }

  /** The cases with the value to send. */
  ghost function Loaded<T>(s: seq<Case<T>>, value: Option<T>): seq<Case<T>> {
    seq(|s|, i requires 0 <= i < |s| => if i == 0 then s[i] else s[i].(val := value))
  }

  lemma LoadedFacts<T>(s: seq<Case<T>>, value: Option<T>, inbox: seq<Chan>, live: multiset<Chan>,
                       removing: multiset<Chan>, was: Option<T>)
    requires Formed(s, was) && Accounted(s, inbox, live, removing)
    ensures Formed(Loaded(s, value), value) && Accounted(Loaded(s, value), inbox, live, removing)
    ensures |Loaded(s, value)| >= 1 && Chans(Loaded(s, value)[1..]) == Chans(s[1..])
  {
    assert Names(Loaded(s, value)[1..]) == Names(s[1..]);
  }

  /** The inbox becomes cases. */
  ghost function Entered<T>(s: seq<Case<T>>, inbox: seq<Chan>): seq<Case<T>> {
    s + seq(|inbox|, i requires 0 <= i < |inbox| => Case(inbox[i], None))
  }

  lemma EnteredFacts<T>(s: seq<Case<T>>, inbox: seq<Chan>, live: multiset<Chan>, removing: multiset<Chan>)
    requires Formed(s, None) && Accounted(s, inbox, live, removing) && removing <= Chans(s[1..])
    ensures var t := Entered(s, inbox);
            && Formed(t, None) && Accounted(t, [], live, removing) && removing <= Chans(t[1..])
            && Chans(t[1..]) == Chans(s[1..]) + multiset(inbox)
  {
    var t, more := Entered(s, inbox), seq(|inbox|, i requires 0 <= i < |inbox| => Case<T>.Case(inbox[i], None));
    assert t[1..] == s[1..] + more;
    ChansAdd(s[1..], more);
    assert Names(more) == inbox;
  }

  ghost function Fresh(start: multiset<Chan>): Log {
    Log(start, multiset{}, multiset{}, multiset{})
  }

  /** What a send starts with. */
  lemma SendStarts<T>(s: seq<Case<T>>, inbox: seq<Chan>, live: multiset<Chan>, removing: multiset<Chan>, v: T)
    requires Formed(s, None) && Accounted(s, inbox, live, removing) && removing <= Chans(s[1..])
    ensures var t := Loaded(Entered(s, inbox), Some(v));
            && |t| >= 1 && Formed(t, Some(v)) && Accounted(t, [], live, removing) && removing <= Chans(t[1..])
            && Round(t, |t|, 0, Fresh(Chans(s[1..]) + multiset(inbox)))
  {
    hide Chans, Entered, Loaded, Formed, Accounted;
    EnteredFacts(s, inbox, live, removing);
    LoadedFacts(Entered(s, inbox), Some(v), [], live, removing, None);
    RoundStarts(Loaded(Entered(s, inbox), Some(v)));
  }

  lemma RoundStarts<T>(s: seq<Case<T>>)
    requires |s| >= 1
    ensures Round(s, |s|, 0, Fresh(Chans(s[1..])))
  {
    assert s[1..|s|] == s[1..] && s[|s|..] == [];
    ChansNone<T>();
  }

  /** The first case with a channel is active if any is. */
  lemma FirstFound<T>(s: seq<Case<T>>, k: nat, active: nat, c: Chan)
    requires 1 <= k < |s| && 1 <= active <= |s| && s[k].ch == c && forall i :: 0 <= i < k ==> s[i].ch != c
    ensures k < active <==> c in Chans(s[1..active])
  {
    var p := s[1..active];
    ChansHas(p, c);
    if k < active { assert p[k - 1].ch == c; }
    if c in Chans(p) {
      var i :| 0 <= i < |p| && p[i].ch == c;
      assert s[i + 1].ch == c;
    }
  }

  /** A new channel waits in the inbox. */
  lemma InboxGrows<T>(s: seq<Case<T>>, inbox: seq<Chan>, live: multiset<Chan>, removing: multiset<Chan>, c: Chan)
    requires Accounted(s, inbox, live, removing) && c != RemoveSub
    ensures Accounted(s, inbox + [c], live + multiset{c}, removing)
  {
    hide Chans;
    assert multiset(inbox + [c]) == multiset(inbox) + multiset{c};
    assert live + multiset{c} + removing == live + removing + multiset{c};
    assert multiset(inbox) + multiset{c} + Chans(s[1..]) == multiset(inbox) + Chans(s[1..]) + multiset{c};
  }

  /** A live channel leaves the inbox. */
  lemma InboxShrinks<T>(s: seq<Case<T>>, inbox: seq<Chan>, live: multiset<Chan>, removing: multiset<Chan>, k: nat)
    requires Accounted(s, inbox, live, removing) && k < |inbox| && inbox[k] in live
    ensures var rest := inbox[..k] + inbox[k + 1..];
            Accounted(s, rest, live - multiset{inbox[k]}, removing)
            && multiset(rest) == multiset(inbox) - multiset{inbox[k]}
  {
    hide Chans;
    var c, rest := inbox[k], inbox[..k] + inbox[k + 1..];
    assert inbox == inbox[..k] + [c] + inbox[k + 1..];
    forall x ensures (live - multiset{c} + removing)[x] == (multiset(rest) + Chans(s[1..]))[x] {
      assert (live + removing)[x] == (multiset(inbox) + Chans(s[1..]))[x];
    }
  }

  /** A live channel that is not in the inbox has one more case than there are removals of it. */
  lemma OnItsWay<T>(s: seq<Case<T>>, inbox: seq<Chan>, live: multiset<Chan>, removing: multiset<Chan>, c: Chan)
    requires Accounted(s, inbox, live, removing) && removing <= Chans(s[1..]) && c in live && c !in inbox
    ensures Accounted(s, inbox, live - multiset{c}, removing + multiset{c}) && removing + multiset{c} <= Chans(s[1..])
  {
    hide Chans;
    forall x ensures (live - multiset{c} + (removing + multiset{c}))[x] == (live + removing)[x] {
    }
    forall x ensures (removing + multiset{c})[x] <= Chans(s[1..])[x] {
      assert (live + removing)[x] == (multiset(inbox) + Chans(s[1..]))[x];
      assert multiset(inbox)[c] == 0;
    }
  }

  /** What may happen while a send waits: a channel accepts, a removal is announced, and others
      subscribe or begin to unsubscribe. */
  datatype Event = Serve(k: nat) | Removal(c: Chan) | Enter(c: Chan) | Leave(c: Chan)

  /** Who is subscribed, who of them waits for the next send, whose removal is on its way, and whose
      removals a send has taken. */
  datatype Members = Members(live: multiset<Chan>, waiting: multiset<Chan>, removing: multiset<Chan>,
                             taken: multiset<Chan>)

  ghost function After(m: Members, e: Event): Members {
    match e
    case Serve(_) => m
    case Removal(c) => if c in m.removing then m.(removing := m.removing - multiset{c}, taken := m.taken + multiset{c})
    else m
    case Enter(c) => if c != RemoveSub then m.(live := m.live + multiset{c}, waiting := m.waiting + multiset{c}) else m
    case Leave(c) =>
      if c !in m.live then m
      else if c in m.waiting then m.(live := m.live - multiset{c}, waiting := m.waiting - multiset{c})
      else m.(live := m.live - multiset{c}, removing := m.removing + multiset{c})
  }

  ghost function AfterAll(m: Members, events: seq<Event>): Members {
    if events == [] then m else After(AfterAll(m, events[..|events| - 1]), events[|events| - 1])
  }

  lemma AfterEnter(m: Members, m': Members, c: Chan, inbox: seq<Chan>)
    requires c != RemoveSub && m.waiting == multiset(inbox) && m'.waiting == multiset(inbox + [c])
    requires m'.live == m.live + multiset{c} && m'.removing == m.removing && m'.taken == m.taken
    ensures m' == After(m, Enter(c))
  {
  }

  lemma AfterLeave(m: Members, m': Members, c: Chan)
    requires c in m.live && m'.live == m.live - multiset{c} && m'.taken == m.taken
    requires m'.waiting == (if c in m.waiting then m.waiting - multiset{c} else m.waiting)
    requires m'.removing == (if c in m.waiting then m.removing else m.removing + multiset{c})
    ensures m' == After(m, Leave(c))
  {
  }

  lemma AfterRemoval(m: Members, m': Members, c: Chan, log: Log, log': Log)
    requires c in m.removing && m'.live == m.live && m'.waiting == m.waiting && m'.removing == m.removing - multiset{c}
    requires m.taken == log.taken && m'.taken == log'.taken && (log' == Out(log, c, true) || log' == Out(log, c, false))
    ensures m' == After(m, Removal(c)) && log'.start == log.start
  {
  }

  /** Events that have no effect on the members. */
  ghost predicate Idle(m: Members, e: Event) {
    match e
    case Serve(_) => true
    case Removal(c) => c !in m.removing
    case Enter(c) => c == RemoveSub
    case Leave(c) => c !in m.live
  }

  lemma AfterNothing(m: Members, e: Event)
    requires Idle(m, e)
    ensures After(m, e) == m
  {
  }

  lemma AfterNone(m: Members, events: seq<Event>)
    ensures AfterAll(m, events[..0]) == m
  {
  }

  lemma AfterOne(m: Members, events: seq<Event>, k: nat)
    requires k < |events|
    ensures AfterAll(m, events[..k + 1]) == After(AfterAll(m, events[..k]), events[k])
  {
    assert events[..k + 1][..k] == events[..k];
  }

  /** A send is complete: every channel that it started with has got the value, exactly once, or was
      removed before; and so many have got it. */
  ghost predicate Complete(log: Log, n: nat) {
    && n == |log.delivered| && log.start == log.delivered + log.dropped && log.dropped <= log.taken
    && forall c :: log.taken[c] == 0 ==> log.delivered[c] == log.start[c]
  }

  lemma IsComplete(log: Log, n: nat)
    requires n == |log.delivered| && log.start == log.delivered + log.dropped && log.dropped <= log.taken
    ensures Complete(log, n)
  {
    forall c | log.taken[c] == 0 ensures log.delivered[c] == log.start[c] {
      assert log.dropped[c] <= log.taken[c];
      assert log.start[c] == (log.delivered + log.dropped)[c];
    }
  }

  class Feed<T> {
    /** The cases of all sends; a prefix of them is in use. */
    var cases: array<Case<T>>
    var len: nat
    var inbox: seq<Chan>
    /** The value of a send while it holds the lock, how many cases are still active in it, and how
        many have been served. */
    var value: Option<T>
    var active: nat
    var nsent: nat

    /** The subscriptions that their owners have not begun to remove, and the removals that did not
        find their channel in the inbox and wait for a send or for the lock. */
    var live: multiset<Chan>
    var removing: multiset<Chan>
    /** What has become of the current send. */
    ghost var log: Log

    predicate Sending()
      reads this
    {
      value.Some?
    }

    ghost predicate Valid()
      reads this, cases
    {
      && 1 <= len <= cases.Length && Formed(cases[..len], value) && Accounted(cases[..len], inbox, live, removing)
      && removing <= Chans(cases[..len][1..])
      && (Sending() ==> Round(cases[..len], active, nsent, log))
    }

    ghost function Membership(): Members
      reads this
    {
      Members(live, multiset(inbox), removing, log.taken)
    }

    /** `init` */
    constructor ()
      ensures Valid() && !Sending() && live == multiset{} && removing == multiset{} && inbox == [] && fresh(cases)
    {
      cases := new Case<T>[1](_ => Case(RemoveSub, None));
      len, inbox, active, nsent, value := 1, [], 1, 0, None;
      live, removing, log := multiset{}, multiset{}, Fresh(multiset{});
      new;
      ChansNone<T>();
      assert cases[..1][1..] == [];
    }

    /** `Subscribe`: the channel waits in the inbox for the next send. */
    method Subscribe(c: Chan)
      requires Valid() && c != RemoveSub
      modifies this`inbox, this`live
      ensures Valid() && inbox == old(inbox) + [c] && live == old(live) + multiset{c}
    {
      hide Chans, Formed, Round, Accounted;
      InboxGrows(cases[..len], inbox, live, removing, c);
      inbox, live := inbox + [c], live + multiset{c};
    }

    /** The first part of `remove`: a channel that is still in the inbox is deleted there, otherwise
        its removal is on its way. */
    method BeginRemove(c: Chan) returns (done: bool)
      requires Valid() && c in live
      modifies this`inbox, this`live, this`removing
      ensures Valid() && live == old(live) - multiset{c} && done == (c in old(inbox))
      ensures done ==> multiset(inbox) == multiset(old(inbox)) - multiset{c} && removing == old(removing)
      ensures !done ==> inbox == old(inbox) && removing == old(removing) + multiset{c}
    {
      hide Chans, Formed, Round, Accounted;
      var k := 0;
      while k < |inbox| && inbox[k] != c
        invariant 0 <= k <= |inbox| && c !in inbox[..k]
      {
        k := k + 1;
      }
      done := k < |inbox|;
      if done {
        InboxShrinks(cases[..len], inbox, live, removing, k);
        inbox, live := inbox[..k] + inbox[k + 1..], live - multiset{c};
      } else {
        assert inbox[..k] == inbox;
        OnItsWay(cases[..len], inbox, live, removing, c);
        live, removing := live - multiset{c}, removing + multiset{c};
      }
    }

    /** `Send` takes the lock: the inbox is emptied into the cases, and all get the value. */
    method BeginSend(v: T)
      requires Valid() && !Sending()
      modifies this
      ensures Valid() && Sending() && value == Some(v) && nsent == 0 && inbox == [] && active == len && fresh(cases)
      ensures live == old(live) && removing == old(removing)
      ensures log == Fresh(old(Chans(cases[..len][1..])) + multiset(old(inbox)))
    {
      hide Chans, Formed, Round, Accounted, Entered, Loaded;
      SendStarts(cases[..len], inbox, live, removing, v);
      var a := Prepare(cases, len, inbox, Some(v));
      log := Fresh(Chans(cases[..len][1..]) + multiset(inbox));
      cases, len, inbox, active, nsent, value := a, a.Length, [], a.Length, 0, Some(v);
      assert cases[..len] == a[..];
    }

    /** The case at an active index is served: its channel gets the value, and it moves behind the
        active ones. */
    method Deliver(k: nat) returns (c: Chan, v: T)
      requires Valid() && Sending() && 1 <= k < active
      modifies this`active, this`nsent, this`log, cases
      ensures Valid() && Sending() && Some(v) == value && c == old(cases[k]).ch
      ensures active == old(active) - 1 && nsent == old(nsent) + 1
              && log == old(log).(delivered := old(log).delivered + multiset{c})
    {
      hide Chans, Accounted;
      Served(cases[..len], inbox, live, removing, value, k, active, nsent, log);
      ghost var s := cases[..len];
      ghost var whole := cases[..];
      c, v := cases[k].ch, cases[k].val.value;
      SameChans(s, k, active);
      Deactivate(cases, active, k);
      SwapPrefix(whole, len, k, active - 1);
      assert cases[..len] == cases[..][..len];
      active, nsent, log := active - 1, nsent + 1, log.(delivered := log.delivered + multiset{c});
    }

    /** The pass of `Send` over all active cases that does not block. Whether a channel accepts is up
        to its reader, attempt by attempt; a case that is swapped in is tried as well. */
    method TryAll(accepts: nat -> bool) returns (attempts: nat)
      requires Valid() && Sending()
      modifies this`active, this`nsent, this`log, cases
      ensures Valid() && Sending() && 1 <= active <= old(active) && nsent - old(nsent) == old(active) - active
      ensures log == old(log).(delivered := log.delivered) && old(log).delivered <= log.delivered
      ensures attempts == old(active) - 1
      ensures (forall t: nat :: t < attempts ==> accepts(t)) ==> active == 1
      ensures (forall t: nat :: t < attempts ==> !accepts(t)) ==> active == old(active)
    {
      hide Chans, Accounted, Formed;
      var i := 1;
      attempts := 0;
      while i < active
        invariant Valid() && Sending() && 1 <= i <= active <= old(active) && nsent - old(nsent) == old(active) - active
        invariant log == old(log).(delivered := log.delivered) && old(log).delivered <= log.delivered
        invariant attempts == (i - 1) + (old(active) - active)
        invariant (forall t: nat :: t < attempts ==> accepts(t)) ==> i == 1
        invariant (forall t: nat :: t < attempts ==> !accepts(t)) ==> active == old(active)
        decreases active - i
      {
        if accepts(attempts) {
          var c, v := Deliver(i);
        } else {
          i := i + 1;
        }
        attempts := attempts + 1;
      }
    }

    /** A removal reaches a send that waits for its channels: the case is deleted, and if it was
        still active, there is one less to serve. */
    method TakeRemove(c: Chan)
      requires Valid() && Sending() && active > 1 && c in removing
      modifies this`len, this`active, this`removing, this`log, cases
      ensures Valid() && Sending() && len == old(len) - 1 && removing == old(removing) - multiset{c}
      ensures var was := c in old(Chans(cases[..len][1..active]));
              log == Out(old(log), c, was) && active == if was then old(active) - 1 else old(active)
    {
      hide Chans, Round, Accounted, Formed, Without, Out;
      RemovalFinds(cases[..len], inbox, live, removing, value, c);
      var k := Find(cases, len, c);
      Deleted(cases[..len], k, active, nsent, log);
      FirstFound(cases[..len], k, active, c);
      DeletedAccount(cases[..len], inbox, live, removing, value, k);
      log, removing := Out(log, c, k < active), removing - multiset{c};
      DeleteCase(k);
      if k < active {
        active := active - 1;
      }
    }

    /** A case is deleted. */
    method DeleteCase(k: nat)
      requires k < len <= cases.Length
      modifies this`len, cases
      ensures len == old(len) - 1 && cases[..len] == Without(old(cases[..len]), k)
    {
      Delete(cases, len, k);
      len := len - 1;
    }

    /** A removal that finds no send in progress takes the lock and deletes the case itself. */
    method RemoveIdle(c: Chan)
      requires Valid() && !Sending() && c in removing
      modifies this`len, this`removing, cases
      ensures Valid() && !Sending() && len == old(len) - 1 && removing == old(removing) - multiset{c}
    {
      hide Chans, Round, Accounted, Formed, Without;
      RemovalFinds(cases[..len], inbox, live, removing, value, c);
      var k := Find(cases, len, c);
      DeletedAccount(cases[..len], inbox, live, removing, value, k);
      DeleteCase(k);
      removing := removing - multiset{c};
    }

    /** When nothing is active any more, the send forgets its value and gives the lock back. Every
        channel it started with has got the value, exactly once, or was removed before. */
    method EndSend() returns (n: nat)
      requires Valid() && Sending() && active == 1
      modifies this`value, cases
      ensures Valid() && !Sending() && log == old(log) && n == nsent == |log.delivered|
      ensures log.start == log.delivered + log.dropped && log.dropped <= log.taken
    {
      hide Accounted;
      n := nsent;
      AllServed(cases[..len], nsent, log);
      LoadedFacts(cases[..len], None, inbox, live, removing, value);
      LoadAll(cases, len, None);
      value := None;
    }

    /** What happens while a send waits. */
    method Happen(e: Event)
      requires Valid() && Sending() && active > 1
      modifies this, cases
      ensures Valid() && Sending() && cases == old(cases) && value == old(value) && log.start == old(log).start
      ensures Membership() == After(old(Membership()), e)
    {
      hide Valid, Chans, After, Out;
      ghost var m := Membership();
      if Idle(m, e) { AfterNothing(m, e); }
      match e {
        case Serve(k) => {
          if 1 <= k < active {
            var c, v := Deliver(k);
          }
        }
        case Removal(c) => {
          if c in removing {
            TakeRemove(c);
            AfterRemoval(m, Membership(), c, old(log), log);
          }
        }
        case _ => ComeOrGo(e);
      }
    }

    /** Subscriptions, and removals that begin, while a send waits. */
    method ComeOrGo(e: Event)
      requires Valid() && (e.Enter? || e.Leave?)
      modifies this`inbox, this`live, this`removing
      ensures Valid() && Membership() == After(old(Membership()), e)
    {
      hide Valid, Chans, After;
      ghost var m := Membership();
      if Idle(m, e) { AfterNothing(m, e); }
      if e.Enter? {
        if e.c != RemoveSub {
          Subscribe(e.c);
          AfterEnter(m, Membership(), e.c, old(inbox));
        }
      } else if e.c in live {
        var done := BeginRemove(e.c);
        AfterLeave(m, Membership(), e.c);
      }
    }

    /** `Send`: rounds of trying all active channels, and waiting for one of them or for a removal.
        Which channels accept, and what happens meanwhile, is up to the others. When it is done,
        every channel that was subscribed at its start has got the value exactly once, unless it
        was removed before, and the result is the number of deliveries. Who is subscribed changes
        only by what happens meanwhile. */
    method Send(v: T, accepts: (nat, nat) -> bool, events: seq<Event>) returns (n: nat, done: bool, ghost used: nat)
      requires Valid() && !Sending()
      modifies this
      ensures Valid() && Sending() == !done && fresh(cases) && used <= |events| && (!done ==> used == |events|)
      ensures Membership() == AfterAll(Members(old(live), multiset{}, old(removing), multiset{}), events[..used])
      ensures log.start == old(Chans(cases[..len][1..])) + multiset(old(inbox)) && (done ==> Complete(log, n))
    {
      hide Valid, Chans, AfterAll, Complete;
      BeginSend(v);
      n, done, used := Rounds(accepts, events);
    }

    /** The loop of `Send`. */
    method Rounds(accepts: (nat, nat) -> bool, events: seq<Event>) returns (n: nat, done: bool, ghost used: nat)
      requires Valid() && Sending()
      modifies this, cases
      ensures Valid() && Sending() == !done && cases == old(cases) && used <= |events| && (!done ==> used == |events|)
      ensures Membership() == AfterAll(old(Membership()), events[..used])
      ensures log.start == old(log).start && (done ==> Complete(log, n))
    {
      hide Valid, Chans, AfterAll, After, Complete;
      var round := 0;
      ghost var start := Membership();
      AfterNone(start, events);
      while true
        invariant Valid() && Sending() && 0 <= round <= |events| && cases == old(cases)
        invariant Membership() == AfterAll(start, events[..round]) && log.start == old(log).start
        decreases |events| - round
      {
        var attempts := TryAll(t requires t >= 0 => accepts(round, t));
        if active == 1 {
          n := EndSend();
          IsComplete(log, n);
          return n, true, round;
        }
        if round == |events| {
          return nsent, false, round;
        }
        AfterOne(start, events, round);
        Happen(events[round]);
        round := round + 1;
      }
    }
  }
}
