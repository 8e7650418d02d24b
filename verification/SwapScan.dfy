/** The loop of s6-ftrigrd and of s6lockd over their clients: entries are removed by
    swapping while an index runs over them, and each must meet its own poll result. */
module SwapScan {

  /** What poll and read have to say about one descriptor. */
  datatype Poll = Quiet | Nothing | Failed(errno: int) | Read(c: int)

  /** A message to the client of an entry. */
  datatype Message = Message(id: int, what: int, info: int)

  /** What one turn of the loop does to an entry: it stays, perhaps changed, or goes. */
  datatype Verdict<T> = Stay(entry: T, said: seq<Message>) | Go(said: seq<Message>)

  // ----- subscriptions -----

  const ENOEXEC := 8
  const EPROTO := 71

  /** A compiled pattern: a transition that is missing is a failure. */
  datatype Dfa = Dfa(next: map<(int, int), int>, accepting: set<int>)
  {
    /** The state that these characters lead to. */
    function Run(cs: seq<int>): Option<int> {
      if cs == [] then Some(START)
      else
        match Run(cs[..|cs| - 1])
        case None => None
        case Some(state) =>
          var c := cs[|cs| - 1];
          if (state, c) in next then Some(next[(state, c)]) else None
    }
  }

  datatype Option<T> = None | Some(value: T)

  const START := 0

  /** ftrigio_t without its poll index */
  datatype Subscription = Subscription(id: int, re: Dfa, state: int, repeat: bool)

  function JudgeSubscription(p: Subscription, x: Poll): Verdict<Subscription> {
    match x
    case Quiet => Stay(p, [])
    case Nothing => Stay(p, [])
    case Failed(errno) => Go([Message(p.id, 'd' as int, errno)])
    case Read(c) =>
      if (p.state, c) !in p.re.next then Go([Message(p.id, 'd' as int, ENOEXEC)])
      else
        var state := p.re.next[(p.state, c)];
        if state !in p.re.accepting then Stay(p.(state := state), [])
        else if p.repeat then Stay(p.(state := START), [Message(p.id, '!' as int, c)])
        else Go([Message(p.id, '!' as int, c)])
  }

  // ----- locks -----

  /** s6lockio_t without its poll index; a limit of zero is none. */
  datatype Lock = Lock(id: int, p0: int, limit: int)

  function JudgeLock(p: Lock, x: Poll): Verdict<Lock> {
    if p.p0 < 0 then Stay(p, [])
    else
      match x
      case Quiet => Stay(p, [])
      case Nothing => Stay(p, [])
      case Failed(errno) => Go([Message(p.id, errno, 0)])
      case Read(c) => if c != '!' as int then
          Go([Message(p.id, EPROTO, 0)]) else Stay(p.(limit := 0), [Message(p.id, 0, 0)])
  }

  /** An entry that goes has said exactly one thing, whatever made it go. */
  lemma OneMessageEach(s: Subscription, l: Lock, x: Poll)
    ensures JudgeSubscription(s, x).Go? ==>
            |JudgeSubscription(s, x).said| == 1 && JudgeSubscription(s, x).said[0].id == s.id
    ensures JudgeLock(l, x).Go? ==> |JudgeLock(l, x).said| == 1 && JudgeLock(l, x).said[0].id == l.id
  {
  }

  /** What is left of a subscription that meets these characters one after the other, and what
      has been said about it. */
  function Met(p: Subscription, cs: seq<int>): Verdict<Subscription> {
    if cs == [] then Stay(p, [])
    else
      match Met(p, cs[..|cs| - 1])
      case Go(said) => Go(said)
      case Stay(q, said) =>
        match JudgeSubscription(q, Read(cs[|cs| - 1]))
        case Go(more) => Go(said + more)
        case Stay(r, more) => Stay(r, said + more)
  }

  /** The pattern can read these characters from its start, and accepts neither them nor,
      apart from nothing at all, what they begin with. */
  predicate Unmatched(re: Dfa, cs: seq<int>) {
    cs == [] ||
    (Unmatched(re, cs[..|cs| - 1]) && re.Run(cs).Some? && re.Run(cs).value !in re.accepting)
  }

  /** A subscription is silent until the characters since its start are a match, or can not
      become one any more; then it tells the last of them, or that it has failed, and goes,
      unless it matched and goes on: then it starts again. */
  lemma {:induction false} PatternWatched(p: Subscription, cs: seq<int>)
    requires p.state == START && (cs == [] || Unmatched(p.re, cs[..|cs| - 1]))
    ensures Unmatched(p.re, cs) ==> p.re.Run(cs).Some? && Met(p, cs) == Stay(p.(state := p.re.Run(cs).value), [])
    ensures p.re.Run(cs).None? ==> Met(p, cs) == Go([Message(p.id, 'd' as int, ENOEXEC)])
    ensures !Unmatched(p.re, cs) && p.re.Run(cs).Some? ==>
              var told := [Message(p.id, '!' as int, cs[|cs| - 1])];
              Met(p, cs) == if p.repeat then Stay(p, told) else Go(told)
  {
    if cs != [] {
      var front := cs[..|cs| - 1];
      PatternWatched(p, front);
      assert front == [] || Unmatched(p.re, front[..|front| - 1]);
    }
  }

  /** A lock is told to be taken exactly when its helper has written '!'; it is lost when the
      helper has failed or written anything else. */
  lemma LockWatched(l: Lock, x: Poll)
    ensures JudgeLock(l, x) == Stay(l.(limit := 0), [Message(l.id, 0, 0)]) <==> l.p0 >= 0 && x == Read('!' as int)
    ensures JudgeLock(l, x).Go? <==> l.p0 >= 0 && (x.Failed? || (x.Read? && x.c != '!' as int))
    ensures JudgeLock(l, x).Go? ==>
            JudgeLock(l, x).said == [Message(l.id, if x.Failed? then x.errno else EPROTO, 0)]
    ensures JudgeLock(l, x) == Stay(l, []) <==> l.p0 < 0 || x.Quiet? || x.Nothing?
  {
  }

  // ----- the loop -----

  const UINT := 0x1_0000_0000

  datatype Slot<T> = Slot(xindex: nat, entry: T)

  /** The poll result that belongs to an entry. */
  function Result(x: seq<Poll>, k: nat): Poll {
    if k < |x| then x[k] else Quiet
  }

  /** What is left of entries that were examined in this order, each against its own result. */
  function Survivors<T>(judge: (T, Poll) -> Verdict<T>, x: seq<Poll>, done: seq<Slot<T>>): seq<Slot<T>> {
    if done == [] then []
    else
      var s := done[|done| - 1];
      var v := judge(s.entry, Result(x, s.xindex));
      Survivors(judge, x, done[..|done| - 1]) + if v.Stay? then [s.(entry := v.entry)] else []
  }

  /** What was said about them. */
  function Said<T>(judge: (T, Poll) -> Verdict<T>, x: seq<Poll>, done: seq<Slot<T>>): seq<Message> {
    if done == [] then []
    else
      var s := done[|done| - 1];
      Said(judge, x, done[..|done| - 1]) + judge(s.entry, Result(x, s.xindex)).said
  }

  lemma OneMore<T>(judge: (T, Poll) -> Verdict<T>, x: seq<Poll>, done: seq<Slot<T>>, s: Slot<T>)
    ensures var v := judge(s.entry, Result(x, s.xindex));
            && Survivors(judge, x, done + [s]) == Survivors(judge, x, done) +
                (if v.Stay? then [s.(entry := v.entry)] else [])
            && Said(judge, x, done + [s]) == Said(judge, x, done) + v.said
  {
    assert (done + [s])[..|done|] == done;
  }

  /** The messages to one client. */
  function About(ms: seq<Message>, id: int): seq<Message> {
    if ms == [] then []
    else About(ms[..|ms| - 1], id) + if ms[|ms| - 1].id == id then [ms[|ms| - 1]] else []
  }

  lemma {:induction false} AboutBoth(a: seq<Message>, b: seq<Message>, id: int)
    ensures About(a + b, id) == About(a, id) + About(b, id)
  {
    if b == [] {
      assert a + b == a;
    } else {
      assert (a + b)[..|a + b| - 1] == a + b[..|b| - 1];
      AboutBoth(a, b[..|b| - 1], id);
    }
  }

  lemma {:induction false} AboutOne(ms: seq<Message>, id: int, key: int)
    requires forall m <- ms :: m.id == key
    ensures About(ms, id) == if id == key then ms else []
  {
    if ms != [] {
      AboutOne(ms[..|ms| - 1], id, key);
    }
  }

  /** A judge speaks of an entry under the entry's own number, which it keeps. */
  ghost predicate Plain<T(!new)>(judge: (T, Poll) -> Verdict<T>, ident: T -> int) {
    forall p, x :: (forall m <- judge(p, x).said :: m.id == ident(p)) &&
                   (judge(p, x).Stay? ==> ident(judge(p, x).entry) == ident(p))
  }

  ghost predicate Numbered<T>(ident: T -> int, done: seq<Slot<T>>) {
    forall j, k | 0 <= j < k < |done| :: ident(done[j].entry) != ident(done[k].entry)
  }

  /** Over a whole scan, what is said under an entry's number is what was said about that
      entry, and a survivor has the number exactly if the entry stayed. */
  lemma {:induction false} SaidAbout<T(!new)>(
      judge: (T, Poll) -> Verdict<T>, ident: T -> int, x: seq<Poll>, done: seq<Slot<T>>, id: int)
    requires Plain(judge, ident) && Numbered(ident, done)
    ensures (forall s <- done :: ident(s.entry) != id) ==>
              About(Said(judge, x, done), id) == [] && forall t <- Survivors(judge, x, done) :: ident(t.entry) != id
    ensures forall s <- done | ident(s.entry) == id ::
              var v := judge(s.entry, Result(x, s.xindex));
              && About(Said(judge, x, done), id) == v.said
              && (v.Stay? <==> exists t <- Survivors(judge, x, done) :: ident(t.entry) == id)
  {
    if done != [] {
      var n := |done| - 1;
      var front, last := done[..n], done[n];
      var v := judge(last.entry, Result(x, last.xindex));
      SaidAbout(judge, ident, x, front, id);
      AboutBoth(Said(judge, x, front), v.said, id);
      AboutOne(v.said, id, ident(last.entry));
      assert forall s <- done :: s in front || s == last;
      assert forall s <- front :: ident(s.entry) != ident(last.entry);
    }
  }

  /** Entries with numbers of their own keep them apart in any order. */
  lemma NumberedAnyOrder<T(!new)>(ident: T -> int, a: seq<Slot<T>>, done: seq<Slot<T>>)
    requires Numbered(ident, a) && multiset(done) == multiset(a)
    ensures Numbered(ident, done)
  {
    forall j, k | 0 <= j < k < |done| ensures ident(done[j].entry) != ident(done[k].entry) {
      var s := done[j];
      assert s in multiset(done) && done[k] in multiset(done);
      var p :| 0 <= p < |a| && a[p] == s;
      assert a == a[..p] + [s] + a[p + 1..];
      assert s !in a[..p] && s !in a[p + 1..];
      assert multiset(a)[s] == 1;
      assert done == done[..j] + [s] + done[j + 1..];
      assert done[j + 1..][k - j - 1] == done[k] && done[k] in multiset(done[j + 1..]);
    }
  }

  /** A judge says one thing of an entry that goes, and at most one of an entry that stays. */
  ghost predicate Terse<T(!new)>(judge: (T, Poll) -> Verdict<T>) {
    forall p, x :: |judge(p, x).said| <= 1 && (judge(p, x).Go? ==> |judge(p, x).said| == 1)
  }

  /** So over a whole scan a client gets one message if its entry goes, and at most one if
      the entry stays. */
  lemma EachTold<T(!new)>(
      judge: (T, Poll) -> Verdict<T>, ident: T -> int, x: seq<Poll>, a: seq<Slot<T>>, done: seq<Slot<T>>, s: Slot<T>)
    requires Plain(judge, ident) && Terse(judge)
    requires Numbered(ident, a) && multiset(done) == multiset(a) && s in a
    ensures var id := ident(s.entry);
            var told := About(Said(judge, x, done), id);
            && |told| <= 1
            && ((forall t <- Survivors(judge, x, done) :: ident(t.entry) != id) ==> |told| == 1)
  {
    NumberedAnyOrder(ident, a, done);
    assert s in multiset(done);
    SaidAbout(judge, ident, x, done, ident(s.entry));
    hide Plain, Numbered, Survivors, Said, About;
  }

  function SubscriptionId(p: Subscription): int {
    p.id
  }

  function LockId(p: Lock): int {
    p.id
  }

  /** Both daemons judge like that, so that EachTold holds of their scans. */
  lemma BothTerse()
    ensures Plain(JudgeSubscription, SubscriptionId) && Terse(JudgeSubscription)
    ensures Plain(JudgeLock, LockId) && Terse(JudgeLock)
  {
  }

  /** A whole scan of s6-ftrigrd and of s6lockd: every removal sends its client exactly one
      message, and no client gets two. */
  lemma RemovalsTold(
      x: seq<Poll>, a: seq<Slot<Subscription>>, done: seq<Slot<Subscription>>, s: Slot<Subscription>,
      b: seq<Slot<Lock>>, over: seq<Slot<Lock>>, l: Slot<Lock>)
    requires Numbered(SubscriptionId, a) && multiset(done) == multiset(a) && s in a
    requires Numbered(LockId, b) && multiset(over) == multiset(b) && l in b
    ensures var told := About(Said(JudgeSubscription, x, done), s.entry.id);
            && |told| <= 1
            && ((forall t <- Survivors(JudgeSubscription, x, done) :: t.entry.id != s.entry.id) ==> |told| == 1)
    ensures var told := About(Said(JudgeLock, x, over), l.entry.id);
            && |told| <= 1
            && ((forall t <- Survivors(JudgeLock, x, over) :: t.entry.id != l.entry.id) ==> |told| == 1)
  {
    hide JudgeSubscription, JudgeLock, Plain, Terse, Numbered, Survivors, Said, About;
    BothTerse();
    EachTold(JudgeSubscription, SubscriptionId, x, a, done, s);
    EachTold(JudgeLock, LockId, x, b, over, l);
  }

  /** Taking an entry out by putting the last one in its place. */
  function Removed<T>(a: seq<T>, i: nat): seq<T>
    requires i < |a|
  {
    a[i := a[|a| - 1]][..|a| - 1]
  }

  lemma RemovedRest<T>(a: seq<T>, i: nat)
    requires i < |a|
    ensures var b := Removed(a, i);
            |b| == |a| - 1 && b[..i] == a[..i] && multiset(b[i..]) + multiset{a[i]} == multiset(a[i..])
    ensures multiset(a[i + 1..]) + multiset{a[i]} == multiset(a[i..])
  {
    var n := |a| - 1;
    var b := Removed(a, i);
    assert a[i..] == [a[i]] + a[i + 1..];
    if i < n {
      assert a[i..] == [a[i]] + a[i + 1..n] + [a[n]];
      assert b[i..] == [a[n]] + a[i + 1..n];
    } else {
      assert b[i..] == [];
    }
  }

  /** The array after one turn of the loop, and the index of the next. */
  function Next<T>(a: seq<Slot<T>>, i: nat, v: Verdict<T>): (seq<Slot<T>>, nat)
    requires i < |a|
  {
    if v.Stay? then (a[i := a[i].(entry := v.entry)], i + 1) else (Removed(a, i), i)
  }

  /** One turn moves one entry from those to be examined to those that have been. */
  lemma NextTurn<T>(
      judge: (T, Poll) -> Verdict<T>, x: seq<Poll>, a: seq<Slot<T>>, i: nat, done: seq<Slot<T>>,
      start: multiset<Slot<T>>)
    requires i < |a| && multiset(done) + multiset(a[i..]) == start && a[..i] == Survivors(judge, x, done)
    ensures var v := judge(a[i].entry, Result(x, a[i].xindex));
            var (b, j) := Next(a, i, v);
            && i <= j <= |b| <= |a| && |b| - j < |a| - i
            && multiset(done + [a[i]]) + multiset(b[j..]) == start && b[..j] == Survivors(judge, x, done + [a[i]])
            && Said(judge, x, done + [a[i]]) == Said(judge, x, done) + v.said
    ensures a[i] in start
  {
    OneMore(judge, x, done, a[i]);
    var v := judge(a[i].entry, Result(x, a[i].xindex));
    hide Survivors, Said, Result;
    NextArray(a, i, v);
    hide Next;
    assert multiset(done + [a[i]]) == multiset(done) + multiset{a[i]};
    assert multiset{a[i]} <= multiset(a[i..]);
  }

  lemma NextArray<T>(a: seq<Slot<T>>, i: nat, v: Verdict<T>)
    requires i < |a|
    ensures var (b, j) := Next(a, i, v);
            && i <= j <= |b| <= |a| && |b| - j < |a| - i
            && multiset{a[i]} + multiset(b[j..]) == multiset(a[i..])
            && b[..j] == a[..i] + if v.Stay? then [a[i].(entry := v.entry)] else []
  {
    RemovedRest(a, i);
    hide Removed;
    if v.Stay? {
      var b := a[i := a[i].(entry := v.entry)];
      assert b[..i + 1] == a[..i] + [a[i].(entry := v.entry)];
      assert b[i + 1..] == a[i + 1..];
    } else {
      assert a[..i] + [] == a[..i];
    }
  }

  lemma Edges<T>(a: seq<T>)
    ensures a[0..] == a == a[..|a|] && a[|a|..] == []
  {
  }

  lemma Unsigned(i: nat)
    requires i < UINT - 1
    ensures (i + 1) % UINT == i + 1 && ((i - 1) % UINT + 1) % UINT == i
  {
  }

  class Table<T> {
    var a: seq<Slot<T>>
    var out: seq<Message>

    constructor ()
      ensures a == [] && out == []
    {
      a, out := [], [];
    }

    /** remove: the last entry takes the place of the removed one. */
    method Remove(i: nat)
      requires i < |a|
      modifies this`a
      ensures a == old(a)[i := old(a)[|old(a)| - 1]][..|old(a)| - 1]
    {
      var n := |a| - 1;
      a := a[i := a[n]];
      a := a[..n];
    }

    /** Before the poll, every entry is given the place of its result. */
    method Prepare(first: nat)
      modifies this`a
      ensures |a| == |old(a)| && forall k | 0 <= k < |a| :: a[k] == old(a)[k].(xindex := first + k)
    {
      var i := 0;
      while i < |a|
        invariant 0 <= i <= |a| == |old(a)|
        invariant forall k | 0 <= k < i :: a[k] == old(a)[k].(xindex := first + k)
        invariant forall k | i <= k < |a| :: a[k] == old(a)[k]
      {
        a := a[i := a[i].(xindex := first + i)];
        i := i + 1;
      }
    }

    /** One turn of the loop.  The index is unsigned: going back from zero wraps around,
        and so does the step that follows. */
    method Examine(index: nat, x: seq<Poll>, judge: (T, Poll) -> Verdict<T>) returns (i: nat)
      requires index < |a| < UINT && a[index].xindex < |x|
      modifies this
      ensures var v := judge(old(a)[index].entry, Result(x, old(a)[index].xindex));
              (a, i) == Next(old(a), index, v) && out == old(out) + v.said
    {
      Unsigned(index);
      i := index;
      var p := a[i];
      var v := judge(p.entry, x[p.xindex]);
      out := out + v.said;
      match v {
        case Stay(entry, _) => a := a[i := p.(entry := entry)];
        case Go(_) =>
          Remove(i);
          i := (i - 1) % UINT;
      }
      i := (i + 1) % UINT;
    }

    /** How far the scan has come: "done" have been examined, those from i on not yet. */
    ghost predicate Halfway(
        x: seq<Poll>,
        judge: (T, Poll) -> Verdict<T>, i: nat, done: seq<Slot<T>>, start: multiset<Slot<T>>, said: seq<Message>)
      reads this
    {
      && i <= |a| && multiset(done) + multiset(a[i..]) == start
      && a[..i] == Survivors(judge, x, done) && out == said + Said(judge, x, done)
    }

    method Turn(
        index: nat, x: seq<Poll>, judge: (T, Poll) -> Verdict<T>, ghost done: seq<Slot<T>>,
        ghost start: multiset<Slot<T>>, ghost said: seq<Message>)
        returns (i: nat)
      requires index < |a| < UINT && Halfway(x, judge, index, done, start, said) &&
              forall s | s in start :: s.xindex < |x|
      modifies this
      ensures i <= |a| <= |old(a)| && |a| - i < |old(a)| - index &&
              Halfway(x, judge, i, done + [old(a)[index]], start, said)
    {
      hide Next, Survivors, Said, Result;
      NextTurn(judge, x, a, index, done, start);
      ghost var p := a[index];
      i := Examine(index, x, judge);
      assert out == said + (Said(judge, x, done) + judge(p.entry, Result(x, p.xindex)).said);
    }

    /** The scan; "done" are the entries in the order in which they were examined: each of
        those that the poll was about, once. */
    method Scan(x: seq<Poll>, judge: (T, Poll) -> Verdict<T>) returns (ghost done: seq<Slot<T>>)
      requires |a| < UINT && forall s <- a :: s.xindex < |x|
      modifies this
      ensures multiset(done) == multiset(old(a))
      ensures a == Survivors(judge, x, done) && out == old(out) + Said(judge, x, done)
    {
      ghost var start, said := multiset(a), out;
      done := [];
      var i := 0;
      Edges(a);
      Bounds(a, |x|);
      assert Halfway(x, judge, i, done, start, said);
      hide Table.Halfway;
      while i < |a|
        invariant 0 <= i <= |a| < UINT && Halfway(x, judge, i, done, start, said)
        decreases |a| - i
      {
        ghost var p := a[i];
        i := Turn(i, x, judge, done, start, said);
        done := done + [p];
      }
      Finished(x, judge, i, done, start, said);
    }

    lemma Finished(
        x: seq<Poll>,
        judge: (T, Poll) -> Verdict<T>, i: nat, done: seq<Slot<T>>, start: multiset<Slot<T>>, said: seq<Message>)
      requires Halfway(x, judge, i, done, start, said) && i == |a|
      ensures multiset(done) == start && a == Survivors(judge, x, done) && out == said + Said(judge, x, done)
    {
      Edges(a);
    }
  }

  lemma Bounds<T>(a: seq<Slot<T>>, n: nat)
    requires forall s <- a :: s.xindex < n
    ensures forall s | s in multiset(a) :: s.xindex < n
  {
  }

  /** With the places given before the poll, no two entries share a result, so that
      being examined once is being examined once against one's own. */
  lemma OwnResults<T>(a: seq<Slot<T>>, done: seq<Slot<T>>, first: nat, k: nat)
    requires (forall j | 0 <= j < |a| :: a[j].xindex == first + j) && multiset(done) == multiset(a) && k < |a|
    ensures multiset(done)[a[k]] == 1
    ensures forall s <- done :: s.xindex == first + k ==> s == a[k]
  {
    assert a == a[..k] + [a[k]] + a[k + 1..];
    forall s <- done ensures s in a {
      assert s in multiset(done);
    }
  }
}
