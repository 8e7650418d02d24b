/** s6-svscan: the bounded table of services, the reaper that deletes by swapping, and
    the scanner that starts a supervisor for a directory and one for its logger. */
module Svscan {

  const MAXSERVICES := 500
  const CHECK_RETRY_TIMEOUT := 4
  const DIR_RETRY_TIMEOUT := 3

  /** struct svinfo; index 0 of a pair is the service, index 1 its logger. */
  datatype Svinfo = Svinfo(
    dev: int, ino: int,
    restart0: int, restart1: int,
    pid0: int, pid1: int,
    p0: int, p1: int,
    active: bool, log: bool)
  {
    predicate Piped() {
      log && p0 >= 0
    }

    /** A logged service whose pipe has been closed because half of it died. */
    predicate Dying() {
      log && p0 < 0
    }
  }

  datatype Thing = Pid | Fd

  /** Entry e has process x running, or holds descriptor x. */
  predicate Has(k: Thing, e: Svinfo, x: int) {
    if k.Pid? then x != 0 && (e.pid0 == x || e.pid1 == x) else e.Piped() && (e.p0 == x || e.p1 == x)
  }

  /** The things in s are divided among the entries, with nothing left over. */
  ghost predicate Owned(k: Thing, t: seq<Svinfo>, s: set<int>) {
    && (forall i, x | 0 <= i < |t| && Has(k, t[i], x) :: x in s)
    && (forall i, j, x | 0 <= i < |t| && 0 <= j < |t| && Has(k, t[i], x) && Has(k, t[j], x) :: i == j)
    && (forall x <- s :: exists i :: 0 <= i < |t| && Has(k, t[i], x))
  }

  predicate Proper(e: Svinfo) {
    && e.pid0 >= 0 && e.pid1 >= 0 && (e.pid0 != 0 ==> e.pid0 != e.pid1)
    && (!e.log ==> e.pid1 == 0)
    && (e.Piped() ==> e.p1 >= 0 && e.p0 != e.p1)
    && (e.Dying() ==> (e.p0 == -1 || e.p0 == -2) && !e.active && ((e.pid0 == 0) != (e.pid1 == 0)))
  }

  /** No directory has two entries. */
  ghost predicate Distinct(t: seq<Svinfo>) {
    forall i, j | 0 <= i < j < |t| :: t[i].dev != t[j].dev || t[i].ino != t[j].ino
  }

  /** What holds of the table, the children and the open pipes all the time. */
  ghost predicate Sound(t: seq<Svinfo>, children: set<int>, open: set<int>) {
    && |t| <= MAXSERVICES && (forall e <- t :: Proper(e))
    && Distinct(t) && Owned(Pid, t, children) && Owned(Fd, t, open)
  }

  /** services[i] = services[--n] */
  function SwapRemove(t: seq<Svinfo>, i: nat): (r: seq<Svinfo>)
    requires i < |t|
    ensures |r| == |t| - 1
  {
    t[i := t[|t| - 1]][..|t| - 1]
  }

  lemma OwnedUpdate(k: Thing, t: seq<Svinfo>, i: nat, e: Svinfo, s: set<int>, after: set<int>)
    requires Owned(k, t, s) && i < |t|
    requires forall x :: Has(k, e, x) ==> x !in s || Has(k, t[i], x)
    requires forall x :: x in after <==> (x in s && !Has(k, t[i], x)) || Has(k, e, x)
    ensures Owned(k, t[i := e], after)
  {
    hide Has;
    var u := t[i := e];
    forall x <- after ensures exists j :: 0 <= j < |u| && Has(k, u[j], x) {
      if Has(k, e, x) {
        assert Has(k, u[i], x);
      } else {
        var j :| 0 <= j < |t| && Has(k, t[j], x);
        assert Has(k, u[j], x);
      }
    }
  }

  lemma OwnedAppend(k: Thing, t: seq<Svinfo>, e: Svinfo, s: set<int>, after: set<int>)
    requires Owned(k, t, s) && forall x :: Has(k, e, x) ==> x !in s
    requires forall x :: x in after <==> x in s || Has(k, e, x)
    ensures Owned(k, t + [e], after)
  {
    hide Has;
    var u := t + [e];
    forall x <- after ensures exists j :: 0 <= j < |u| && Has(k, u[j], x) {
      if x in s {
        var j :| 0 <= j < |t| && Has(k, t[j], x);
        assert Has(k, u[j], x);
      } else {
        assert Has(k, u[|t|], x);
      }
    }
  }

  /** Only an entry that owns nothing can be deleted without losing track. */
  lemma OwnedRemove(k: Thing, t: seq<Svinfo>, i: nat, s: set<int>)
    requires Owned(k, t, s) && i < |t|
    ensures (forall x :: !Has(k, t[i], x)) <==> Owned(k, SwapRemove(t, i), s)
  {
    hide Has;
    var u := SwapRemove(t, i);
    var last := |t| - 1;
    if forall x :: !Has(k, t[i], x) {
      forall x <- s ensures exists j :: 0 <= j < |u| && Has(k, u[j], x) {
        var j :| 0 <= j < |t| && Has(k, t[j], x);
        assert Has(k, u[if j == last then i else j], x);
      }
      forall j, l, x | 0 <= j < |u| && 0 <= l < |u| && Has(k, u[j], x) && Has(k, u[l], x) ensures j == l {
        assert Has(k, t[if j == i then last else j], x) && Has(k, t[if l == i then last else l], x);
      }
    } else {
      var x :| Has(k, t[i], x);
      assert x in s;
      forall j | 0 <= j < |u| ensures !Has(k, u[j], x) {
        assert u[j] == t[if j == i then last else j];
      }
    }
  }

  /** An entry whose process r, or logger r, has died. */
  function Bereft(e: Svinfo, r: int, nextscan: int): Svinfo {
    if e.pid0 == r then e.(pid0 := 0, restart0 := nextscan) else e.(pid1 := 0, restart1 := nextscan)
  }

  function Closed(e: Svinfo): Svinfo {
    if e.Piped() then e.(p0 := -1, p1 := -1) else e
  }

  /** What becomes of an inactive entry that has lost a process: its pipe is closed,
      and if there is no other process it goes. */
  function Retired(t: seq<Svinfo>, i: nat): seq<Svinfo>
    requires i < |t|
  {
    var b := Closed(t[i]);
    if b.pid0 == 0 && b.pid1 == 0 then SwapRemove(t[i := b], i) else t[i := b]
  }

  function Reaped(t: seq<Svinfo>, i: nat, r: int, nextscan: int): seq<Svinfo>
    requires i < |t|
  {
    var u := t[i := Bereft(t[i], r, nextscan)];
    if t[i].active then u else Retired(u, i)
  }

  function Buried(e: Svinfo, r: int, nextscan: int): Svinfo {
    var b := Bereft(e, r, nextscan);
    if b.active then b else Closed(b)
  }

  lemma BuriedSound(t: seq<Svinfo>, children: set<int>, open: set<int>, i: nat, r: int, nextscan: int)
    requires Sound(t, children, open) && i < |t| && Has(Pid, t[i], r)
    ensures var e, b := t[i], Buried(t[i], r, nextscan);
            && Owned(Pid, t[i := b], children - {r})
            && Owned(Fd, t[i := b], if !e.active && e.Piped() then open - {e.p0, e.p1} else open)
            && (b.pid0 != 0 || b.pid1 != 0 || b.active ==> Proper(b))
  {
    var e, b := t[i], Buried(t[i], r, nextscan);
    assert Proper(e);
    forall x ensures x in children - {r} <==> (x in children && !Has(Pid, e, x)) || Has(Pid, b, x) {
      assert Has(Pid, e, x) ==> x in children;
    }
    OwnedUpdate(Pid, t, i, b, children, children - {r});
    var after := if !e.active && e.Piped() then open - {e.p0, e.p1} else open;
    forall x ensures x in after <==> (x in open && !Has(Fd, e, x)) || Has(Fd, b, x) {
      assert Has(Fd, e, x) ==> x in open;
    }
    OwnedUpdate(Fd, t, i, b, open, after);
  }

  lemma ReapedCases(t: seq<Svinfo>, i: nat, r: int, nextscan: int)
    requires i < |t|
    ensures var b := Buried(t[i], r, nextscan);
            Reaped(t, i, r, nextscan) == if !b.active && b.pid0 == 0 &&
                b.pid1 == 0 then SwapRemove(t[i := b], i) else t[i := b]
    ensures var b := Buried(t[i], r, nextscan); b.dev == t[i].dev && b.ino == t[i].ino && b.active == t[i].active
  {
    assert t[i := Bereft(t[i], r, nextscan)][i := Buried(t[i], r, nextscan)] == t[i := Buried(t[i], r, nextscan)];
  }

  lemma ReapedSound(t: seq<Svinfo>, children: set<int>, open: set<int>, i: nat, r: int, nextscan: int)
    requires Sound(t, children, open) && i < |t| && Has(Pid, t[i], r)
    ensures var e := t[i];
            Sound(Reaped(t, i, r, nextscan), children - {r}, if !e.active &&
                e.Piped() then open - {e.p0, e.p1} else open)
  {
    var e, b := t[i], Buried(t[i], r, nextscan);
    BuriedSound(t, children, open, i, r, nextscan);
    ReapedCases(t, i, r, nextscan);
    var after := if !e.active && e.Piped() then open - {e.p0, e.p1} else open;
    var u := t[i := b];
    KeysKept(t, i, b);
    if !b.active && b.pid0 == 0 && b.pid1 == 0 {
      DeletedSound(t, i, b, children - {r}, after);
    } else {
      hide Owned, Has, Buried, Reaped, Proper;
      assert forall o <- u :: o in t || o == b;
    }
  }

  /** All processes of the entry have died, and there were some. */
  predicate Vanishes(e: Svinfo, died: set<int>) {
    && (e.pid0 != 0 || e.pid1 != 0)
    && (e.pid0 != 0 ==> e.pid0 in died) && (e.pid1 != 0 ==> e.pid1 in died)
  }

  /** Entry f is what these deaths leave of entry e. */
  predicate Remnant(e: Svinfo, died: set<int>, f: Svinfo) {
    && f.dev == e.dev && f.ino == e.ino && !f.active
    && f.pid0 == (if e.pid0 in died then 0 else e.pid0) && f.pid1 == (if e.pid1 in died then 0 else e.pid1)
    && (e.pid0 !in died && e.pid1 !in died ==> f == e)
  }

  /** The table still has an inactive entry e, unless the deaths took its last process. */
  ghost predicate Remains(t: seq<Svinfo>, e: Svinfo, died: set<int>) {
    if Vanishes(e, died) then !Known(t, e.dev, e.ino)
    else exists f <- t :: Remnant(e, died, f)
  }

  lemma RemainsStep(
      t: seq<Svinfo>, children: set<int>, open: set<int>, i: nat, r: int, nextscan: int, e: Svinfo, died: set<int>)
    requires Sound(t, children, open) && i < |t| && Has(Pid, t[i], r) && Remains(t, e, died)
    ensures Remains(Reaped(t, i, r, nextscan), e, died + {r})
  {
    var u := Reaped(t, i, r, nextscan);
    var b := Buried(t[i], r, nextscan);
    ReapedCases(t, i, r, nextscan);
    assert Proper(t[i]);
    if Vanishes(e, died) {
      forall k | 0 <= k < |u| ensures u[k].dev != e.dev || u[k].ino != e.ino {
        assert u[k] == b || u[k] in t;
      }
    } else {
      var j :| 0 <= j < |t| && Remnant(e, died, t[j]);
      RemnantStep(t, children, i, j, r, nextscan, e, died);
    }
  }

  lemma RemnantStep(
      t: seq<Svinfo>, children: set<int>, i: nat, j: nat, r: int, nextscan: int, e: Svinfo, died: set<int>)
    requires Owned(Pid, t, children) && Distinct(t) && i < |t| && j < |t| && Has(Pid, t[i], r) && Proper(t[i])
    requires Remnant(e, died, t[j]) && !Vanishes(e, died)
    ensures Remains(Reaped(t, i, r, nextscan), e, died + {r})
  {
    var u := Reaped(t, i, r, nextscan);
    var b := Buried(t[i], r, nextscan);
    ReapedCases(t, i, r, nextscan);
    if j == i {
      assert Remnant(e, died + {r}, b);
      if Vanishes(e, died + {r}) {
        forall k | 0 <= k < |u| ensures u[k].dev != e.dev || u[k].ino != e.ino {
          assert k == i ==> u[k] == t[|t| - 1];
          assert k != i ==> u[k] == t[k];
        }
      } else {
        assert u[i] == b;
      }
    } else {
      assert !Has(Pid, t[j], r);
      assert Remnant(e, died + {r}, t[j]);
      var k := if |u| < |t| && j == |t| - 1 then i else j;
      assert u[k] == t[j];
    }
  }

  /** A death that the table knows nothing of leaves it alone. */
  lemma RemainsElse(t: seq<Svinfo>, children: set<int>, r: int, e: Svinfo, died: set<int>)
    requires Owned(Pid, t, children) && r > 0 && r !in children && Remains(t, e, died)
    ensures Remains(t, e, died + {r})
  {
    if !Vanishes(e, died) {
      var j :| 0 <= j < |t| && Remnant(e, died, t[j]);
      assert !Has(Pid, t[j], r);
      assert Remnant(e, died + {r}, t[j]);
    }
  }

  /** What these deaths leave of a table. */
  ghost predicate Reduced(before: seq<Svinfo>, after: seq<Svinfo>, died: set<int>) {
    && (forall e <- before | !e.active :: Remains(after, e, died))
    && (forall dev, ino | Known(after, dev, ino) :: Known(before, dev, ino))
  }

  lemma ReducedNone(t: seq<Svinfo>)
    ensures Reduced(t, t, {})
  {
    forall e <- t | !e.active ensures Remains(t, e, {}) {
      assert Remnant(e, {}, e);
    }
  }

  /** One death, which belongs to entry i if the table knows of it. */
  lemma ReducedStep(
      before: seq<Svinfo>, t: seq<Svinfo>, u: seq<Svinfo>, children: set<int>, open: set<int>, i: nat, r: int,
          nextscan: int, died: set<int>)
    requires Sound(t, children, open) && r > 0 && Reduced(before, t, died)
    requires if r in children then i < |t| && Has(Pid, t[i], r) && u == Reaped(t, i, r, nextscan) else u == t
    ensures Reduced(before, u, died + {r})
  {
    if r in children {
      ReapedCases(t, i, r, nextscan);
      forall dev, ino | Known(u, dev, ino) ensures Known(t, dev, ino) {
        var k :| 0 <= k < |u| && u[k].dev == dev && u[k].ino == ino;
        assert u[k] == Buried(t[i], r, nextscan) || u[k] in t;
      }
    }
    forall e <- before | !e.active ensures Remains(u, e, died + {r}) {
      if r in children {
        RemainsStep(t, children, open, i, r, nextscan, e, died);
      } else {
        RemainsElse(t, children, r, e, died);
      }
    }
  }

  /** What wait returns for a child. */
  predicate Positive(dead: seq<int>) {
    forall r <- dead :: r > 0
  }

  /** The first k of the numbers that wait returns. */
  function Numbers(dead: seq<int>, k: nat): set<int>
    requires k <= |dead|
  {
    set i | 0 <= i < k :: dead[i]
  }

  lemma NumbersStep(dead: seq<int>, k: nat)
    requires k < |dead|
    ensures Numbers(dead, k + 1) == Numbers(dead, k) + {dead[k]}
  {
  }

  /** An inactive entry that has no process any more stays for good, as it is. */
  lemma NeverVanishes(before: seq<Svinfo>, after: seq<Svinfo>, rounds: seq<Round>, reap: bool, e: Svinfo)
    requires LeftOver(before, after, rounds, |rounds|, Died(rounds, |rounds|, reap)) &&
            forall o <- rounds :: Positive(o.dead)
    requires e in before && !e.active && Forgotten(rounds, |rounds|, e.dev, e.ino) && e.pid0 == 0 && e.pid1 == 0
    ensures e in after
  {
    NobodyZero(rounds, |rounds|, reap);
    var f :| f in after && Remnant(e, Died(rounds, |rounds|, reap), f);
  }

  lemma {:induction false} NobodyZero(rounds: seq<Round>, k: nat, reap: bool)
    requires k <= |rounds| && forall o <- rounds :: Positive(o.dead)
    ensures 0 !in Died(rounds, k, reap)
  {
    if k > 0 {
      NobodyZero(rounds, k - 1, reap);
      var last := rounds[k - 1];
      assert last in rounds;
      forall i | 0 <= i < |last.dead| ensures last.dead[i] != 0 {
        assert last.dead[i] in last.dead;
      }
    }
  }

  /** An entry without processes and pipe can be deleted. */
  lemma DeletedSound(t: seq<Svinfo>, i: nat, b: Svinfo, children: set<int>, open: set<int>)
    requires |t| <= MAXSERVICES && i < |t| && (forall e <- t :: Proper(e)) && Distinct(t[i := b])
    requires Owned(Pid, t[i := b], children) && Owned(Fd, t[i := b], open) && b.pid0 == 0 && b.pid1 == 0 && !b.Piped()
    ensures Sound(SwapRemove(t[i := b], i), children, open)
  {
    var u := t[i := b];
    assert forall x :: !Has(Pid, u[i], x) && !Has(Fd, u[i], x);
    OwnedRemove(Pid, u, i, children);
    OwnedRemove(Fd, u, i, open);
    hide Owned, Has, Proper;
    var rest := SwapRemove(u, i);
    forall k | 0 <= k < |rest| ensures rest[k] in t {
      assert rest[k] == t[if k == i then |t| - 1 else k];
    }
  }

  lemma KeysKept(t: seq<Svinfo>, i: nat, e: Svinfo)
    requires i < |t| && Distinct(t) && e.dev == t[i].dev && e.ino == t[i].ino
    ensures Distinct(t[i := e])
  {
  }

  /** An entry changes without gaining or losing processes and pipes. */
  lemma SameThings(t: seq<Svinfo>, children: set<int>, open: set<int>, i: nat, e: Svinfo)
    requires Sound(t, children, open) && i < |t| && Proper(e) && e.dev == t[i].dev && e.ino == t[i].ino
    requires e.pid0 == t[i].pid0 && e.pid1 == t[i].pid1 && e.log == t[i].log
    requires (e.p0 == t[i].p0 && e.p1 == t[i].p1) || (e.Dying() && t[i].Dying())
    ensures Sound(t[i := e], children, open)
  {
    KeysKept(t, i, e);
    forall x ensures Has(Pid, e, x) <==> Has(Pid, t[i], x) {
    }
    forall x ensures Has(Fd, e, x) <==> Has(Fd, t[i], x) {
    }
    assert forall x :: Has(Pid, t[i], x) ==> x in children;
    assert forall x :: Has(Fd, t[i], x) ==> x in open;
    OwnedUpdate(Pid, t, i, e, children, children);
    OwnedUpdate(Fd, t, i, e, open, open);
    hide Owned, Has;
  }

  /** A supervisor was started for entry i, or for its logger. */
  lemma StartedSound(t: seq<Svinfo>, children: set<int>, open: set<int>, i: nat, islog: bool, pid: int)
    requires Sound(t, children, open) && i < |t| && pid > 0 && pid !in children && !t[i].Dying()
    requires if islog then t[i].log && t[i].pid1 == 0 else t[i].pid0 == 0
    ensures Sound(t[i := if islog then t[i].(pid1 := pid) else t[i].(pid0 := pid)], children + {pid}, open)
  {
    var e := if islog then t[i].(pid1 := pid) else t[i].(pid0 := pid);
    KeysKept(t, i, e);
    assert Proper(t[i]);
    forall x ensures Has(Pid, e, x) <==> Has(Pid, t[i], x) || x == pid {
    }
    forall x ensures Has(Fd, e, x) <==> Has(Fd, t[i], x) {
    }
    assert forall x :: Has(Pid, t[i], x) ==> x in children;
    assert forall x :: Has(Fd, t[i], x) ==> x in open;
    assert e.pid0 != 0 ==> e.pid0 != e.pid1 by {
      assert Has(Pid, t[i], t[i].pid0) ==> t[i].pid0 in children;
      assert Has(Pid, t[i], t[i].pid1) ==> t[i].pid1 in children;
    }
    OwnedUpdate(Pid, t, i, e, children, children + {pid});
    OwnedUpdate(Fd, t, i, e, open, open);
    hide Owned, Has;
  }

  /** A new entry, with a new pipe if it is logged. */
  lemma AddedSound(t: seq<Svinfo>, children: set<int>, open: set<int>, e: Svinfo)
    requires Sound(t, children, open) && |t| < MAXSERVICES && Proper(e) && e.pid0 == 0 && e.pid1 == 0
    requires forall o <- t :: o.dev != e.dev || o.ino != e.ino
    requires e.Piped() ==> e.p0 !in open && e.p1 !in open
    ensures Sound(t + [e], children, if e.Piped() then open + {e.p0, e.p1} else open)
  {
    assert forall x :: !Has(Pid, e, x);
    OwnedAppend(Pid, t, e, children, children);
    OwnedAppend(Fd, t, e, open, if e.Piped() then open + {e.p0, e.p1} else open);
    hide Owned, Has;
  }

  // ----- the scanner -----

  datatype Found = Failed | NotDirectory | Directory(dev: int, ino: int)

  /** A name in the scan directory, with what stat finds there and in its log. */
  datatype Name = Name(dotted: bool, st: Found, log: Found, logMissing: bool)
  {
    /** The name leads to this directory. */
    predicate Of(dev: int, ino: int) {
      !dotted && st == Directory(dev, ino)
    }

    predicate Unlogged() {
      log.NotDirectory? || (log.Failed? && logMissing)
    }

    /** A directory, and it is known whether it is logged. */
    predicate Addable() {
      !dotted && st.Directory? && (Unlogged() || log.Directory?)
    }
  }

  /** A number that is not in use. */
  method Unused(used: set<int>, least: int) returns (x: int)
    ensures x >= least && x !in used
  {
    x := least;
    ghost var met := {};
    while x in used
      invariant x >= least && met <= used && forall y <- met :: y < x
      decreases used - met
    {
      met := met + {x};
      x := x + 1;
    }
  }

  class Scanner {
    const services: array<Svinfo>
    /** fork(2) and pipe(2) do not fail. */
    const reliable: bool
    var n: nat
    var deadline: int
    var wantreap: bool
    var wantscan: bool
    /** The kernel's view: supervisors not waited for, and pipe ends not closed. */
    var children: set<int>
    var open: set<int>

    ghost function Table(): seq<Svinfo>
      requires n <= services.Length
      reads this`n, services
    {
      services[..n]
    }

    ghost predicate Inv()
      reads this`n, this`children, this`open, services
    {
      services.Length == MAXSERVICES && n <= MAXSERVICES && Sound(Table(), children, open)
    }

    constructor (reliable: bool)
      ensures Inv() && Table() == [] && wantreap && wantscan && fresh(services) && this.reliable == reliable
    {
      this.reliable := reliable;
      services := new Svinfo[MAXSERVICES](_ => Svinfo(-1, -1, 0, 0, 0, 0, -1, -1, false, false));
      n, deadline, wantreap, wantscan := 0, 0, true, true;
      children, open := {}, {};
    }

    /** The reaper's search. */
    method Find(r: int) returns (i: nat)
      requires Inv() && r > 0
      ensures i <= n
      ensures i < n ==> Has(Pid, Table()[i], r) && r in children
      ensures i == n ==> r !in children
    {
      i := 0;
      while i < n && services[i].pid0 != r && services[i].pid1 != r
        invariant i <= n && forall j | 0 <= j < i :: !Has(Pid, Table()[j], r)
      {
        assert Table()[i] == services[i];
        i := i + 1;
      }
    }

    /** The body of the reaper's loop, for a child that was waited for. */
    method ReapOne(r: int, nextscan: int) returns (i: nat)
      requires Inv() && r > 0
      modifies this`n, this`deadline, this`wantscan, this`children, this`open, services
      ensures Inv() && children == old(children) - {r} && (old(wantscan) ==> wantscan) && deadline <= old(deadline)
      ensures r !in old(children) ==> Table() == old(Table())
      ensures r in old(children) ==>
              i < |old(Table())| && Has(Pid, old(Table())[i], r) && Table() == Reaped(old(Table()), i, r, nextscan)
      ensures r in old(children) ==> (old(Table())[i].active ==> deadline <= nextscan)
      ensures r in old(children) ==> (old(Table())[i].log && old(Table())[i].p0 == -2 ==> wantscan)
      ensures old(deadline) > nextscan - 1 ==> deadline > nextscan - 1
    {
      i := Find(r);
      if i < n {
        Bury(i, r, nextscan);
      } else {
        assert children == children - {r};
      }
    }

    method Bury(i: nat, r: int, nextscan: int)
      requires Inv() && i < n && Has(Pid, Table()[i], r)
      modifies this`n, this`deadline, this`wantscan, this`children, this`open, services
      ensures Inv() && children == old(children) - {r} && (old(wantscan) ==> wantscan) && deadline <= old(deadline)
      ensures Table() == Reaped(old(Table()), i, r, nextscan)
      ensures old(Table())[i].active ==> deadline <= nextscan
      ensures old(Table())[i].log && old(Table())[i].p0 == -2 ==> wantscan
      ensures old(deadline) > nextscan - 1 ==> deadline > nextscan - 1
    {
      ghost var t := Table();
      assert Proper(t[i]) && t[i] == services[i];
      ReapedSound(t, children, open, i, r, nextscan);
      hide Sound, Proper, Has, Retired;
      children := children - {r};
      ClearPid(i, r, nextscan);
      if services[i].active {
        if nextscan < deadline {
          deadline := nextscan;
        }
      } else {
        Retire(i);
      }
    }

    method ClearPid(i: nat, r: int, nextscan: int)
      requires i < n <= services.Length
      modifies services
      ensures services[..n] == old(services[..n])[i := Bereft(old(services[i]), r, nextscan)]
    {
      if services[i].pid0 == r {
        services[i] := services[i].(pid0 := 0, restart0 := nextscan);
      } else {
        services[i] := services[i].(pid1 := 0, restart1 := nextscan);
      }
    }

    /** Part of an inactive service has died. */
    method Retire(i: nat)
      requires i < n <= services.Length && !services[i].active
      modifies this`n, this`wantscan, this`open, services
      ensures n <= old(n) && services[..n] == Retired(old(services[..n]), i)
      ensures var e := old(services[i]);
              && open == (if e.Piped() then old(open) - {e.p0, e.p1} else old(open))
              && wantscan == (old(wantscan) || (e.log && e.p0 == -2))
    {
      ghost var t := services[..n];
      if services[i].log {
        ClosePipe(i);
      }
      if services[i].pid0 == 0 && services[i].pid1 == 0 {
        Delete(i);
      }
    }

    /** services[i] = services[--n] */
    method Delete(i: nat)
      requires i < n <= services.Length
      modifies this`n, services
      ensures n == old(n) - 1 && services[..n] == SwapRemove(old(services[..n]), i)
    {
      n := n - 1;
      services[i] := services[n];
    }

    /** The pipe of a dying service is closed once; after that the entry may ask for a scan. */
    method ClosePipe(i: nat)
      requires i < n <= services.Length && services[i].log
      modifies this`wantscan, this`open, services
      ensures old(services[i]).p0 >= 0 ==>
                && services[..n] == old(services[..n])[i := old(services[i]).(p0 := -1, p1 := -1)]
                && open == old(open) - {old(services[i]).p0, old(services[i]).p1} && wantscan == old(wantscan)
      ensures old(services[i]).p0 < 0 ==>
                services[..n] == old(services[..n]) && open == old(open) &&
                    wantscan == (old(wantscan) || services[i].p0 == -2)
    {
      if services[i].p0 >= 0 {
        open := open - {services[i].p1};
        open := open - {services[i].p0};
        services[i] := services[i].(p0 := -1, p1 := -1);
      } else if services[i].p0 == -2 {
        wantscan := true;
      }
    }

    /** reap: everything that the kernel has to report. */
    method Reap(now: int, dead: seq<int>)
      requires Inv() && Positive(dead)
      modifies this`n, this`deadline, this`wantscan, this`wantreap, this`children, this`open, services
      ensures Inv() && !wantreap && (old(wantscan) ==> wantscan)
      ensures children == (if old(wantreap) then old(children) - Numbers(dead, |dead|) else old(children)) &&
              deadline <= old(deadline)
      ensures !old(wantreap) || dead == [] ==>
              Table() == old(Table()) && deadline == old(deadline) && wantscan == old(wantscan)
      ensures Reduced(old(Table()), Table(), if old(wantreap) then Numbers(dead, |dead|) else {})
      ensures Spared(old(Table()), Table(), if old(wantreap) then Numbers(dead, |dead|) else {})
      ensures old(deadline) > now ==> deadline > now
    {
      hide Reduced, Spared, Sound, Has, Reaped;
      ReducedNone(Table());
      SparedNone(Table());
      assert Numbers(dead, 0) == {};
      hide Numbers;
      if !wantreap {
        return;
      }
      wantreap := false;
      var nextscan := now + 1;
      var k := 0;
      while k < |dead|
        invariant 0 <= k <= |dead| && Inv() && !wantreap && (old(wantscan) ==> wantscan)
        invariant children == old(children) - Numbers(dead, k) && deadline <= old(deadline)
        invariant old(deadline) > now ==> deadline > now
        invariant k == 0 ==> Table() == old(Table()) && deadline == old(deadline) && wantscan == old(wantscan)
        invariant Reduced(old(Table()), Table(), Numbers(dead, k)) && Spared(old(Table()), Table(), Numbers(dead, k))
      {
        assert dead[k] in dead;
        ghost var t, c, o := Table(), children, open;
        var i := ReapOne(dead[k], nextscan);
        NumbersStep(dead, k);
        ReducedStep(old(Table()), t, Table(), c, o, i, dead[k], nextscan, Numbers(dead, k));
        SparedStep(old(Table()), t, Table(), i, dead[k], nextscan, Numbers(dead, k));
        k := k + 1;
      }
    }

    method RetryDirLater(now: int)
      modifies this`deadline
      ensures deadline <= now + DIR_RETRY_TIMEOUT && deadline <= old(deadline)
      ensures old(deadline) > now ==> deadline > now
    {
      if now + DIR_RETRY_TIMEOUT < deadline {
        deadline := now + DIR_RETRY_TIMEOUT;
      }
    }

    /** trystart; the child of a logged service has an end of an open pipe to use. */
    method TryStart(i: nat, islog: bool, now: int)
      requires Inv() && i < n && Table()[i].active && !Table()[i].Dying()
      requires if islog then Table()[i].log && Table()[i].pid1 == 0 else Table()[i].pid0 == 0
      modifies this`children, services
      ensures Inv() && Started(old(Table())[i], Table()[i], islog, now) && Table() == old(Table())[i := Table()[i]]
      ensures children == old(children) + (if islog then {Table()[i].pid1} else {Table()[i].pid0}) - {0}
      ensures reliable ==> (if islog then Table()[i].pid1 else Table()[i].pid0) > 0
    {
      ghost var t := Table();
      assert t[i] == services[i] && Proper(t[i]);
      NoZero();
      var pid := Fork();
      if pid < 0 {
        // fork(2) has failed
        SameThings(t, children, open, i, if islog then
            t[i].(restart1 := now + CHECK_RETRY_TIMEOUT) else t[i].(restart0 := now + CHECK_RETRY_TIMEOUT));
        services[i] := if islog then
            services[i].(restart1 := now + CHECK_RETRY_TIMEOUT)
            else services[i].(restart0 := now + CHECK_RETRY_TIMEOUT);
      } else {
        StartedSound(t, children, open, i, islog, pid);
        children := children + {pid};
        services[i] := if islog then services[i].(pid1 := pid) else services[i].(pid0 := pid);
      }
      hide Sound;
      assert Table() == t[i := services[i]];
    }

    /** fork: the number of no other child, or a failure. */
    method Fork() returns (pid: int)
      ensures pid == -1 || (pid > 0 && pid !in children)
      ensures reliable ==> pid > 0
    {
      pid := *;
      if pid <= 0 || pid in children {
        pid := -1;
        if reliable {
          pid := Unused(children, 1);
        }
      }
    }

    lemma NoZero()
      requires Inv()
      ensures 0 !in children && forall e <- Table() :: Proper(e)
    {
    }

    /** The entry of a directory, or n. */
    method FindDirectory(dev: int, ino: int) returns (i: nat)
      requires Inv()
      ensures i <= n && (i < n ==> Table()[i].dev == dev && Table()[i].ino == ino)
      ensures i < n ==> forall j | 0 <= j < n && Table()[j].dev == dev && Table()[j].ino == ino :: j == i
      ensures i == n ==> forall e <- Table() :: e.dev != dev || e.ino != ino
    {
      i := 0;
      while i < n && (services[i].ino != ino || services[i].dev != dev)
        invariant i <= n && forall j | 0 <= j < i :: Table()[j].dev != dev || Table()[j].ino != ino
      {
        assert Table()[i] == services[i];
        i := i + 1;
      }
    }

    /** A dying entry is to be started anew when it is gone. */
    method Postpone(i: nat)
      requires Inv() && i < n && Table()[i].Dying()
      modifies services
      ensures Inv() && Table() == old(Table())[i := old(Table())[i].(p0 := -2)]
    {
      ghost var t := Table();
      assert t[i] == services[i] && Proper(t[i]);
      SameThings(t, children, open, i, t[i].(p0 := -2));
      services[i] := services[i].(p0 := -2);
      assert Table() == t[i := t[i].(p0 := -2)];
    }

    method Activate(i: nat)
      requires Inv() && i < n && !Table()[i].Dying()
      modifies services
      ensures Inv() && Table() == old(Table())[i := old(Table())[i].(active := true)]
    {
      ghost var t := Table();
      assert t[i] == services[i] && Proper(t[i]);
      SameThings(t, children, open, i, t[i].(active := true));
      services[i] := services[i].(active := true);
      assert Table() == t[i := t[i].(active := true)];
    }

    /** A new entry at the end of the table; whatever an older entry left there, the
        pipe, the processes and the directory are its own. */
    method Add(name: Name, dev: int, ino: int, now: int) returns (ok: bool)
      requires Inv() && n < MAXSERVICES && forall e <- Table() :: e.dev != dev || e.ino != ino
      modifies this`n, this`deadline, this`open, services
      ensures Inv() && deadline <= old(deadline) && (!ok ==> n == old(n) && Table() == old(Table())) &&
              (name.Unlogged() || (reliable && name.log.Directory?) ==> ok)
      ensures ok ==> n == old(n) + 1 && Table()[..n - 1] == old(Table()) && !Table()[n - 1].Dying()
      ensures ok ==>
                var e := Table()[n - 1];
                && e.dev == dev && e.ino == ino && e.pid0 == 0 && e.pid1 == 0
                && (e.log <==> name.log.Directory?) && e.restart0 == now && e.restart1 == now
      ensures old(deadline) > now ==> deadline > now
    {
      ghost var t := Table();
      ok := true;
      match name.log {
        case Failed =>
          if name.logMissing {
            services[n] := services[n].(log := false);
          } else {
            RetryDirLater(now);
            ok := false;
          }
        case NotDirectory => services[n] := services[n].(log := false);
        case Directory(_, _) =>
          var p0, p1 := Pipe();
          if p0 < 0 {
            RetryDirLater(now);
            ok := false;
          } else {
            services[n] := services[n].(p0 := p0, p1 := p1, log := true);
          }
      }
      if ok {
        assert Table() == t;
        Fill(dev, ino, now);
      }
    }

    /** The rest of the new entry; only now it counts. */
    method Fill(dev: int, ino: int, now: int)
      requires Inv() && n < MAXSERVICES && forall e <- Table() :: e.dev != dev || e.ino != ino
      requires var e := services[n]; e.log ==> e.p0 >= 0 && e.p1 >= 0 && e.p0 != e.p1 && e.p0 !in open && e.p1 !in open
      modifies this`n, this`open, services
      ensures Inv() && n == old(n) + 1
      ensures Table() == old(Table()) +
              [old(services[n]).(dev := dev, ino := ino, restart0 := now, restart1 := now, pid0 := 0, pid1 := 0)]
    {
      ghost var t := Table();
      services[n] := services[n].(dev := dev, ino := ino, restart0 := now, restart1 := now, pid0 := 0, pid1 := 0);
      AddedSound(t, children, open, services[n]);
      if services[n].log {
        open := open + {services[n].p0, services[n].p1};
      }
      n := n + 1;
      hide Sound;
      assert Table() == t + [services[n - 1]];
    }

    /** pipecoe: two descriptors that are not in use, or a failure. */
    method Pipe() returns (p0: int, p1: int)
      ensures p0 == -1 || (p0 >= 0 && p1 >= 0 && p0 != p1 && p0 !in open && p1 !in open)
      ensures reliable ==> p0 >= 0
    {
      p0, p1 := *, *;
      if p0 < 0 || p1 < 0 || p0 == p1 || p0 in open || p1 in open {
        p0, p1 := -1, -1;
        if reliable {
          p0 := Unused(open, 0);
          p1 := Unused(open + {p0}, 0);
        }
      }
    }

    /** The logger first, then the service, unless it is too early. */
    method StartBoth(i: nat, now: int)
      requires Inv() && i < n && Table()[i].active && !Table()[i].Dying()
      modifies this`deadline, this`children, services
      ensures Inv() && old(children) <= children && deadline <= old(deadline)
      ensures Table() == old(Table())[i := Table()[i]]
      ensures var e, f := old(Table())[i], Table()[i];
              && f == e.(pid0 := f.pid0, pid1 := f.pid1, restart0 := f.restart0, restart1 := f.restart1)
              && (e.pid0 != 0 ==> f.pid0 == e.pid0) && (e.pid1 != 0 ==> f.pid1 == e.pid1)
              && Tried(f, now)
              && (e.pid0 == 0 && e.restart0 > now ==> deadline <= e.restart0)
              && (e.log && e.pid1 == 0 && e.restart1 > now ==> deadline <= e.restart1)
              && (reliable ==> Restarted(e, f, now))
      ensures old(deadline) > now ==> deadline > now
    {
      ghost var t := Table();
      assert t[i] == services[i];
      assert Proper(t[i]);
      if services[i].log && services[i].pid1 == 0 {
        if services[i].restart1 <= now {
          TryStart(i, true, now);
        } else if services[i].restart1 < deadline {
          deadline := services[i].restart1;
        }
      }
      assert Table()[i] == services[i];
      if services[i].pid0 == 0 {
        if services[i].restart0 <= now {
          TryStart(i, false, now);
        } else if services[i].restart0 < deadline {
          deadline := services[i].restart0;
        }
      }
    }

    /** check: a name of the scan directory. */
    method Check(name: Name, now: int)
      requires Inv()
      modifies this`n, this`deadline, this`children, this`open, services
      ensures Inv() && old(children) <= children && deadline <= old(deadline)
      ensures name.dotted || !name.st.Directory? ==> Table() == old(Table())
      ensures Kept(old(Table()), Table())
      ensures forall i | 0 <= i < |Table()| && !name.Of(Table()[i].dev, Table()[i].ino) ::
              i < old(n) && Table()[i] == old(Table())[i]
      ensures !name.dotted && name.st.Directory? ==>
                forall i | 0 <= i < n ::
                    Table()[i].active ==>
                    (i < old(n) && old(Table())[i].active) ||
                    (Table()[i].dev == name.st.dev && Table()[i].ino == name.st.ino)
      ensures !name.dotted && name.st.Directory? ==>
              Shown(Table(), name.st.dev, name.st.ino, now) || Table() == old(Table())
      ensures !name.dotted && name.st.Directory? &&
              (Known(old(Table()), name.st.dev, name.st.ino) || (|old(Table())| < MAXSERVICES && name.Unlogged())) ==>
                Shown(Table(), name.st.dev, name.st.ino, now)
      ensures reliable ==> Visited(old(Table()), Table(), name, now)
      ensures old(deadline) > now ==> deadline > now
    {
      hide Sound;
      if name.dotted {
        return;
      }
      match name.st
      case Failed => RetryDirLater(now);
      case NotDirectory =>
      case Directory(dev, ino) =>
        var i := FindDirectory(dev, ino);
        var ok := true;
        if i < n {
          if services[i].log && services[i].p0 < 0 {
            Postpone(i);
            return;
          }
        } else if n >= MAXSERVICES {
          return;
        } else {
          ok := Add(name, dev, ino, now);
          if !ok {
            return;
          }
        }
        Bring(i, now);
    }

    /** The rest of check, for an entry that is not dying. */
    method Bring(i: nat, now: int)
      requires Inv() && i < n && !Table()[i].Dying()
      modifies this`deadline, this`children, services
      ensures Inv() && old(children) <= children && deadline <= old(deadline)
      ensures Table() == old(Table())[i := Table()[i]]
      ensures var e, f := old(Table())[i], Table()[i];
              f.active && Tried(f, now) && f.dev == e.dev && f.ino == e.ino && f.log == e.log && !f.Dying() &&
              (reliable ==> Restarted(e, f, now))
      ensures old(deadline) > now ==> deadline > now
    {
      hide Sound;
      Activate(i);
      StartBoth(i, now);
    }

    /** scan: nothing is active any more but what a directory is found for. */
    method Scan(readable: bool, names: seq<Name>, complete: bool, now: int)
      requires Inv()
      modifies this`n, this`deadline, this`wantscan, this`children, this`open, services
      ensures Inv() && old(children) <= children && !wantscan && deadline <= old(deadline)
      ensures !old(wantscan) || !readable ==> Table() == old(Table())
      ensures !old(wantscan) ==> deadline == old(deadline)
      ensures old(wantscan) && readable ==> forall e <- Table() | e.active :: Listed(names, e.dev, e.ino)
      ensures old(wantscan) && readable ==> |old(Table())| <= n
      ensures old(wantscan) && !(readable && complete) ==> deadline <= now + DIR_RETRY_TIMEOUT
      ensures forall e <- old(Table()) | !e.active && !Listed(names, e.dev, e.ino) :: e in Table()
      ensures forall dev, ino | Known(Table(), dev, ino) && !Listed(names, dev, ino) :: Known(old(Table()), dev, ino)
      ensures reliable && old(wantscan) && readable ==> Brought(old(Table()), Table(), names, now)
      ensures old(deadline) > now ==> deadline > now
    {
      hide Brought, Unmoved;
      if !wantscan {
        return;
      }
      wantscan := false;
      if !readable {
        RetryDirLater(now);
        return;
      }
      Deactivate();
      ghost var idle := Table();
      assert forall j | 0 <= j < old(n) && !old(Table())[j].active :: idle[j] == old(Table())[j];
      CheckAll(names, now);
      UnmovedKnown(idle, Table(), names);
      if reliable {
        BroughtIdle(old(Table()), idle, Table(), names, now);
      }
      if !complete {
        RetryDirLater(now);
      }
    }

    /** The loop over the directory. */
    method CheckAll(names: seq<Name>, now: int)
      requires Inv() && !wantscan && forall e <- Table() :: !e.active
      modifies this`n, this`deadline, this`children, this`open, services
      ensures Inv() && old(children) <= children && deadline <= old(deadline)
      ensures Scanned(old(Table()), Table(), names, now, reliable)
      ensures old(deadline) > now ==> deadline > now
    {
      TableFits();
      hide Scanner.Inv, Scanned, Visited, Kept, Known, Shown;
      var k := 0;
      assert Scanned(Table(), Table(), names[..0], now, reliable) by { NotScanned(Table(), now, reliable); }
      while k < |names|
        invariant 0 <= k <= |names| && Inv() && n <= services.Length && n <= MAXSERVICES && old(children) <= children &&
                deadline <= old(deadline)
        invariant old(deadline) > now ==> deadline > now
        invariant Scanned(old(Table()), Table(), names[..k], now, reliable)
      {
        ghost var t := Table();
        Check(names[k], now);
        TableFits();
        MoreScanned(old(Table()), t, Table(), names, k, now, reliable);
        k := k + 1;
      }
      assert names[..k] == names;
    }

    method Deactivate()
      requires Inv()
      modifies services
      ensures Inv() && |Table()| == |old(Table())| &&
              forall i | 0 <= i < n :: Table()[i] == old(Table())[i].(active := false)
    {
      var i := 0;
      while i < n
        invariant 0 <= i <= n && Inv() && |Table()| == |old(Table())|
        invariant forall j | 0 <= j < i :: Table()[j] == old(Table())[j].(active := false)
        invariant forall j | i <= j < n :: Table()[j] == old(Table())[j]
      {
        ghost var t := Table();
        assert t[i] == services[i] && Proper(t[i]);
        SameThings(t, children, open, i, t[i].(active := false));
        hide Sound;
        services[i] := services[i].(active := false);
        assert Table() == t[i := t[i].(active := false)];
        i := i + 1;
      }
    }

    /** killthem: the processes that get a signal.  Without the mode "active", only
        those of services that are not active do. */
    method KillThem(killactive: bool) returns (killed: set<int>)
      requires Inv()
      ensures killed <= children
      ensures forall p ::
              p in killed <==> exists i :: 0 <= i < n && Has(Pid, Table()[i], p) && (killactive || !Table()[i].active)
    {
      killed := {};
      var i := 0;
      while i < n
        invariant 0 <= i <= n
        invariant forall p ::
                p in killed <==> exists j :: 0 <= j < i && Has(Pid, Table()[j], p) && (killactive || !Table()[j].active)
      {
        ghost var before := killed;
        var e := services[i];
        assert e == Table()[i] && Proper(e);
        if killactive || !e.active {
          if e.pid0 != 0 {
            killed := killed + {e.pid0};
          }
          if e.log && e.pid1 != 0 {
            killed := killed + {e.pid1};
          }
          assert forall p :: p in killed <==> p in before || Has(Pid, e, p);
        }
        i := i + 1;
      }
      forall p <- killed ensures p in children {
        var j :| 0 <= j < n && Has(Pid, Table()[j], p);
      }
    }

    /** One turn of the main loop up to iopause.  Without a death or a scan the deadline
        is the default one, whoever is still waiting to be restarted. */
    method Turn(e: Round)
      requires Inv() && Positive(e.dead)
      modifies this`n, this`deadline, this`wantscan, this`wantreap, this`children, this`open, services
      ensures Inv() && !wantreap && !wantscan && deadline <= e.now + e.timeout
      ensures e.timeout > 0 ==> deadline > e.now
      ensures (if old(wantreap) then old(children) - Numbers(e.dead, |e.dead|) else old(children)) <= children
      ensures !old(wantscan) && (!old(wantreap) || e.dead == []) ==>
              Table() == old(Table()) && deadline == e.now + e.timeout
      ensures LeftOver(old(Table()), Table(), [e], 1, if old(wantreap) then Numbers(e.dead, |e.dead|) else {})
      ensures reliable && old(wantscan) && e.readable ==>
              Tended(old(Table()), Table(), e.names, e.now, if old(wantreap) then Numbers(e.dead, |e.dead|) else {})
    {
      hide Sound, LeftOver, Reduced, Listed, Known, Positive, Spared, Brought, Tended;
      deadline := e.now + e.timeout;
      Reap(e.now, e.dead);
      ghost var t := Table();
      Scan(e.readable, e.names, e.complete, e.now);
      ScanLeaves(old(Table()), t, Table(), e, if old(wantreap) then Numbers(e.dead, |e.dead|) else {});
      if reliable && old(wantscan) && e.readable {
        ReapedTended(
            old(Table()), t, Table(), e.names, e.now, if old(wantreap) then Numbers(e.dead, |e.dead|) else {});
      }
    }

    lemma TableFits()
      requires Inv()
      ensures n <= services.Length && n <= MAXSERVICES
    {
    }

    /** Whatever woke the loop sets its flags before the turn. */
    method Wake(e: Round)
      requires Inv() && Positive(e.dead)
      modifies this`n, this`deadline, this`wantscan, this`wantreap, this`children, this`open, services
      ensures Inv() && n <= services.Length && !wantreap
      ensures LeftOver(old(Table()), Table(), [e], 1, DiedNow(e, old(wantreap)))
    {
      hide Scanner.Inv, Scanner.Table, LeftOver;
      TableFits();
      wantreap := wantreap || e.reap;
      wantscan := wantscan || e.scan;
      Turn(e);
      TableFits();
    }

    /** Any number of turns, with whatever makes the next one reap or scan. */
    method Run(rounds: seq<Round>)
      requires Inv() && forall e <- rounds :: Positive(e.dead)
      modifies this`n, this`deadline, this`wantscan, this`wantreap, this`children, this`open, services
      ensures Inv()
      ensures LeftOver(old(Table()), Table(), rounds, |rounds|, Died(rounds, |rounds|, old(wantreap)))
    {
      hide Scanner.Inv, Scanner.Table, LeftOver, DiedNow, Positive;
      TableFits();
      NoRounds(Table(), rounds);
      var k := 0;
      while k < |rounds|
        invariant 0 <= k <= |rounds| && Inv() && n <= services.Length
        invariant if k == 0 then wantreap == old(wantreap) else !wantreap
        invariant LeftOver(old(Table()), Table(), rounds, k, Died(rounds, k, old(wantreap)))
      {
        assert rounds[k] in rounds;
        ghost var t, reap := Table(), wantreap;
        Wake(rounds[k]);
        MoreRounds(old(Table()), t, Table(), rounds, k, Died(rounds, k, old(wantreap)), DiedNow(rounds[k], reap));
        k := k + 1;
      }
    }
  }

  /** What a turn of the loop meets with: the clock, the children to be waited for, the
      scan directory, and what woke it up. */
  datatype Round = Round(now: int, timeout: nat, dead: seq<int>, readable: bool, names: seq<Name>, complete: bool,
      reap: bool, scan: bool)


  /** No scan of the first k rounds finds this directory. */
  predicate Forgotten(rounds: seq<Round>, k: nat, dev: int, ino: int)
    requires k <= |rounds|
  {
    forall j | 0 <= j < k :: !Listed(rounds[j].names, dev, ino)
  }

  function DiedNow(e: Round, reap: bool): set<int> {
    if reap || e.reap then Numbers(e.dead, |e.dead|) else {}
  }

  /** The children whose deaths the first k rounds report to the reaper. */
  function Died(rounds: seq<Round>, k: nat, reap: bool): set<int>
    requires k <= |rounds|
  {
    if k == 0 then {} else Died(rounds, k - 1, reap) + DiedNow(rounds[k - 1], k == 1 && reap)
  }

  /** What rounds that do not find its directory leave of an inactive entry. */
  ghost predicate LeftOver(before: seq<Svinfo>, after: seq<Svinfo>, rounds: seq<Round>, k: nat, died: set<int>)
    requires k <= |rounds|
  {
    && (forall e <- before | !e.active && Forgotten(rounds, k, e.dev, e.ino) :: Remains(after, e, died))
    && (forall dev, ino | Known(after, dev, ino) && Forgotten(rounds, k, dev, ino) :: Known(before, dev, ino))
  }

  lemma NoRounds(t: seq<Svinfo>, rounds: seq<Round>)
    ensures LeftOver(t, t, rounds, 0, {})
  {
    ReducedNone(t);
  }

  /** A scan that does not find the directory leaves what remains. */
  lemma ScanLeaves(before: seq<Svinfo>, t: seq<Svinfo>, u: seq<Svinfo>, o: Round, died: set<int>)
    requires Reduced(before, t, died)
    requires forall f <- t | !f.active && !Listed(o.names, f.dev, f.ino) :: f in u
    requires forall dev, ino | Known(u, dev, ino) && !Listed(o.names, dev, ino) :: Known(t, dev, ino)
    ensures LeftOver(before, u, [o], 1, died)
  {
    assert forall dev, ino :: Forgotten([o], 1, dev, ino) ==> !Listed([o][0].names, dev, ino);
    hide Listed, Known, Forgotten, Vanishes;
  }

  lemma MoreRounds(
      before: seq<Svinfo>, t: seq<Svinfo>, u: seq<Svinfo>, rounds: seq<Round>, k: nat, died: set<int>, more: set<int>)
    requires k < |rounds| && LeftOver(before, t, rounds, k, died) && LeftOver(t, u, [rounds[k]], 1, more)
    ensures LeftOver(before, u, rounds, k + 1, died + more)
  {
    forall dev, ino | Forgotten(rounds, k + 1, dev, ino)
      ensures Forgotten(rounds, k, dev, ino) && Forgotten([rounds[k]], 1, dev, ino)
    {
    }
    hide Forgotten, Known;
    forall e <- before | !e.active && Forgotten(rounds, k + 1, e.dev, e.ino) ensures Remains(u, e, died + more) {
      assert Remains(t, e, died);
      if !Vanishes(e, died) {
        var f :| f in t && Remnant(e, died, f);
        RemnantTwice(u, e, f, died, more);
      }
    }
  }

  lemma RemnantTwice(u: seq<Svinfo>, e: Svinfo, f: Svinfo, died: set<int>, more: set<int>)
    requires !Vanishes(e, died) && Remnant(e, died, f) && Remains(u, f, more)
    ensures Remains(u, e, died + more)
  {
    if !Vanishes(f, more) {
      var g :| g in u && Remnant(f, more, g);
      assert Remnant(e, died + more, g);
    }
  }

  predicate Listed(names: seq<Name>, dev: int, ino: int) {
    exists m <- names :: m.Of(dev, ino)
  }


  /** How trystart leaves the entry: with a process, or with a time to try again. */
  predicate Started(e: Svinfo, after: Svinfo, islog: bool, now: int) {
    if islog then (after == e.(pid1 := after.pid1) && after.pid1 > 0) ||
        after == e.(restart1 := now + CHECK_RETRY_TIMEOUT)
    else (after == e.(pid0 := after.pid0) && after.pid0 > 0) || after == e.(restart0 := now + CHECK_RETRY_TIMEOUT)
  }

  /** Entries whose directory is not listed are as they were, and there are no new ones. */
  ghost predicate Unmoved(t: seq<Svinfo>, u: seq<Svinfo>, names: seq<Name>) {
    && |t| <= |u| && (forall i | 0 <= i < |t| :: u[i].dev == t[i].dev && u[i].ino == t[i].ino)
    && forall i | 0 <= i < |u| && !Listed(names, u[i].dev, u[i].ino) :: i < |t| && u[i] == t[i]
  }

  lemma NotMoved(t: seq<Svinfo>)
    ensures Unmoved(t, t, [])
  {
  }

  lemma MoreListed(t: seq<Svinfo>, u: seq<Svinfo>, names: seq<Name>, k: nat)
    requires k < |names| && forall i | 0 <= i < |t| && t[i].active :: Listed(names[..k], t[i].dev, t[i].ino)
    requires forall i | 0 <= i < |u| && u[i].active :: (i < |t| && t[i] == u[i]) || names[k].Of(u[i].dev, u[i].ino)
    ensures forall i | 0 <= i < |u| && u[i].active :: Listed(names[..k + 1], u[i].dev, u[i].ino)
  {
    assert forall m <- names[..k] :: m in names[..k + 1];
    assert names[..k + 1][k] == names[k];
    forall i | 0 <= i < |u| && u[i].active ensures Listed(names[..k + 1], u[i].dev, u[i].ino) {
      assert names[k] in names[..k + 1];
    }
  }

  lemma MoreUnmoved(t: seq<Svinfo>, u: seq<Svinfo>, v: seq<Svinfo>, names: seq<Name>, k: nat)
    requires k < |names| && Unmoved(t, u, names[..k]) && Kept(u, v)
    requires forall i | 0 <= i < |v| && !names[k].Of(v[i].dev, v[i].ino) :: i < |u| && v[i] == u[i]
    ensures Unmoved(t, v, names[..k + 1])
  {
    assert names[..k + 1] == names[..k] + [names[k]];
    assert forall m <- names[..k] :: m in names[..k + 1];
    assert names[k] in names[..k + 1];
  }

  lemma UnmovedKnown(t: seq<Svinfo>, u: seq<Svinfo>, names: seq<Name>)
    requires Unmoved(t, u, names)
    ensures |t| <= |u|
    ensures forall e <- t | !Listed(names, e.dev, e.ino) :: e in u
    ensures forall dev, ino | Known(u, dev, ino) && !Listed(names, dev, ino) :: Known(t, dev, ino)
  {
    forall e <- t | !Listed(names, e.dev, e.ino) ensures e in u {
      var i :| 0 <= i < |t| && t[i] == e;
      assert u[i] == e;
    }
    forall dev, ino | Known(u, dev, ino) && !Listed(names, dev, ino) ensures Known(t, dev, ino) {
      var i :| 0 <= i < |u| && u[i].dev == dev && u[i].ino == ino;
      assert t[i] == u[i];
    }
  }

  /** Entries stay where they are and keep their directory. */
  predicate Kept(t: seq<Svinfo>, u: seq<Svinfo>) {
    |t| <= |u| <= |t| + 1 &&
        forall i | 0 <= i < |t| :: u[i].dev == t[i].dev && u[i].ino == t[i].ino && u[i].log == t[i].log
  }

  /** Each half of a service runs, or has a time to wait for. */
  predicate Tried(e: Svinfo, now: int) {
    (e.pid0 != 0 || e.restart0 > now) && (e.log ==> e.pid1 != 0 || e.restart1 > now)
  }

  predicate Known(t: seq<Svinfo>, dev: int, ino: int) {
    exists i :: 0 <= i < |t| && t[i].dev == dev && t[i].ino == ino
  }

  /** The directory has an entry that is active and has been tried, or that waits for the
      end of its old self. */
  predicate Shown(t: seq<Svinfo>, dev: int, ino: int, now: int) {
    exists i ::
        0 <= i < |t| && t[i].dev == dev && t[i].ino == ino &&
        ((t[i].active && Tried(t[i], now)) || (t[i].log && t[i].p0 == -2))
  }

  /** Each half that ran, or whose time had come, runs. */
  predicate Restarted(e: Svinfo, f: Svinfo, now: int) {
    && (e.pid0 != 0 || e.restart0 <= now ==> f.pid0 != 0)
    && (e.log && (e.pid1 != 0 || e.restart1 <= now) ==> f.pid1 != 0)
  }

  /** What a scan that finds its directory makes of entry e. */
  predicate Settled(e: Svinfo, f: Svinfo, now: int) {
    if e.Dying() then f.Dying() && f.p0 == -2
    else f.active && f.log == e.log && !f.Dying() && Restarted(e, f, now)
  }

  predicate Running(e: Svinfo) {
    e.active && !e.Dying() && e.pid0 != 0 && (e.log ==> e.pid1 != 0)
  }

  /** What check makes of the table when no system call fails. */
  ghost predicate Visited(t: seq<Svinfo>, u: seq<Svinfo>, name: Name, now: int) {
    && |t| <= |u|
    && (forall i | 0 <= i < |t| && name.Of(t[i].dev, t[i].ino) :: Settled(t[i], u[i], now))
    && (forall i | |t| <= i < |u| :: Running(u[i]))
    && (name.Addable() ==> Known(u, name.st.dev, name.st.ino) || |u| == MAXSERVICES)
  }

  /** The same for a whole scan: new entries run, old ones that were found are settled, and
      a directory without an entry has found the table full. */
  ghost predicate Brought(t: seq<Svinfo>, u: seq<Svinfo>, names: seq<Name>, now: int) {
    && |t| <= |u|
    && (forall i | 0 <= i < |t| :: u[i].dev == t[i].dev && u[i].ino == t[i].ino)
    && (forall i | 0 <= i < |t| && Listed(names, t[i].dev, t[i].ino) :: Settled(t[i], u[i], now))
    && (forall i | |t| <= i < |u| :: Running(u[i]))
    && (forall m <- names | m.Addable() :: Known(u, m.st.dev, m.st.ino) || |u| == MAXSERVICES)
  }

  lemma NotBrought(t: seq<Svinfo>, now: int)
    ensures Brought(t, t, [], now)
  {
  }

  lemma SettledTwice(e: Svinfo, f: Svinfo, g: Svinfo, now: int)
    requires Settled(f, g, now)
    ensures Settled(e, f, now) ==> Settled(e, g, now)
    ensures Running(f) ==> Running(g)
  {
  }

  lemma MoreBrought(t: seq<Svinfo>, u: seq<Svinfo>, v: seq<Svinfo>, names: seq<Name>, k: nat, now: int)
    requires k < |names| && Brought(t, u, names[..k], now) && Visited(u, v, names[k], now) && Kept(u, v)
    requires Unmoved(t, u, names[..k]) && |v| <= MAXSERVICES
    requires forall i | 0 <= i < |v| && !names[k].Of(v[i].dev, v[i].ino) :: i < |u| && v[i] == u[i]
    ensures Brought(t, v, names[..k + 1], now)
  {
    hide Settled, Running;
    assert names[..k + 1] == names[..k] + [names[k]];
    forall i | 0 <= i < |t| && Listed(names[..k + 1], t[i].dev, t[i].ino) ensures Settled(t[i], v[i], now) {
      if names[k].Of(u[i].dev, u[i].ino) {
        SettledTwice(t[i], u[i], v[i], now);
      }
    }
    forall i | |t| <= i < |v| ensures Running(v[i]) {
      if i < |u| && names[k].Of(u[i].dev, u[i].ino) {
        SettledTwice(u[i], u[i], v[i], now);
      }
    }
    forall m <- names[..k + 1] | m.Addable() ensures Known(v, m.st.dev, m.st.ino) || |v| == MAXSERVICES {
      if m in names[..k] && Known(u, m.st.dev, m.st.ino) {
        var i :| 0 <= i < |u| && u[i].dev == m.st.dev && u[i].ino == m.st.ino;
        assert v[i].dev == m.st.dev && v[i].ino == m.st.ino;
      }
    }
  }

  /** To be active or not makes no difference to what a scan makes of an entry. */
  lemma BroughtIdle(t: seq<Svinfo>, idle: seq<Svinfo>, u: seq<Svinfo>, names: seq<Name>, now: int)
    requires |t| == |idle| && forall i | 0 <= i < |t| :: idle[i] == t[i].(active := false)
    requires Brought(idle, u, names, now)
    ensures Brought(t, u, names, now)
  {
    hide Listed, Known;
    forall i | 0 <= i < |t| && Listed(names, t[i].dev, t[i].ino) ensures Settled(t[i], u[i], now) {
      assert Settled(idle[i], u[i], now);
    }
  }

  /** Deaths leave the entries alone that none of the processes belonged to. */
  ghost predicate Spared(t: seq<Svinfo>, u: seq<Svinfo>, died: set<int>) {
    forall e <- t | e.pid0 !in died && e.pid1 !in died :: e in u
  }

  lemma SparedNone(t: seq<Svinfo>)
    ensures Spared(t, t, {})
  {
  }

  lemma SparedStep(
      t: seq<Svinfo>, u: seq<Svinfo>, v: seq<Svinfo>, i: nat, r: int, nextscan: int, died: set<int>)
    requires Spared(t, u, died)
    requires v == u || (i < |u| && Has(Pid, u[i], r) && v == Reaped(u, i, r, nextscan))
    ensures Spared(t, v, died + {r})
  {
    if v != u {
      ReapedCases(u, i, r, nextscan);
      forall e <- t | e.pid0 !in died + {r} && e.pid1 !in died + {r} ensures e in v {
        var j :| 0 <= j < |u| && u[j] == e;
        assert v[if j == |v| then i else j] == e;
      }
    }
  }

  /** What a turn with a scan does for the directories that it finds. */
  ghost predicate Tended(t: seq<Svinfo>, u: seq<Svinfo>, names: seq<Name>, now: int, died: set<int>) {
    && (forall e <- t | Listed(names, e.dev, e.ino) && e.pid0 !in died && e.pid1 !in died ::
            exists f <- u :: f.dev == e.dev && f.ino == e.ino && Settled(e, f, now))
    && (forall m <- names | m.Addable() && !Known(t, m.st.dev, m.st.ino) ::
            |u| == MAXSERVICES || exists f <- u :: m.Of(f.dev, f.ino) && Running(f))
  }

  lemma ReapedTended(
      before: seq<Svinfo>, t: seq<Svinfo>, u: seq<Svinfo>, names: seq<Name>, now: int, died: set<int>)
    requires Spared(before, t, died) && Reduced(before, t, died) && Brought(t, u, names, now)
    ensures Tended(before, u, names, now, died)
  {
    hide Settled, Listed, Remains;
    forall e <- before | Listed(names, e.dev, e.ino) && e.pid0 !in died && e.pid1 !in died
      ensures exists f <- u :: f.dev == e.dev && f.ino == e.ino && Settled(e, f, now)
    {
      var i :| 0 <= i < |t| && t[i] == e;
      assert Settled(e, u[i], now) && u[i] in u;
    }
    forall m <- names | m.Addable() && !Known(before, m.st.dev, m.st.ino) && |u| != MAXSERVICES
      ensures exists f <- u :: m.Of(f.dev, f.ino) && Running(f)
    {
      var i :| 0 <= i < |u| && u[i].dev == m.st.dev && u[i].ino == m.st.ino;
      assert !Known(t, m.st.dev, m.st.ino);
      assert i >= |t|;
      assert Running(u[i]) && u[i] in u;
    }
  }

  /** What the loop over the directory has done so far to a table without active entries. */
  ghost predicate Scanned(t: seq<Svinfo>, u: seq<Svinfo>, names: seq<Name>, now: int, reliable: bool) {
    && (forall e <- u | e.active :: Listed(names, e.dev, e.ino))
    && Unmoved(t, u, names) && (reliable ==> Brought(t, u, names, now))
  }

  lemma NotScanned(t: seq<Svinfo>, now: int, reliable: bool)
    requires forall e <- t :: !e.active
    ensures Scanned(t, t, [], now, reliable)
  {
    NotMoved(t);
    NotBrought(t, now);
  }

  lemma MoreScanned(
      t: seq<Svinfo>, u: seq<Svinfo>, v: seq<Svinfo>, names: seq<Name>, k: nat, now: int, reliable: bool)
    requires k < |names| && Scanned(t, u, names[..k], now, reliable) && Kept(u, v) && |v| <= MAXSERVICES
    requires forall i | 0 <= i < |v| && !names[k].Of(v[i].dev, v[i].ino) :: i < |u| && v[i] == u[i]
    requires forall i | 0 <= i < |v| && v[i].active :: (i < |u| && u[i].active) || names[k].Of(v[i].dev, v[i].ino)
    requires reliable ==> Visited(u, v, names[k], now)
    ensures Scanned(t, v, names[..k + 1], now, reliable)
  {
    assert forall i | 0 <= i < |v| && v[i].active ::
        (i < |u| && u[i] == v[i]) || names[k].Of(v[i].dev, v[i].ino);
    MoreListed(u, v, names, k);
    MoreUnmoved(t, u, v, names, k);
    if reliable {
      MoreBrought(t, u, v, names, k, now);
    }
    hide Unmoved, Brought, Listed, Kept, Visited;
    assert forall e <- v | e.active :: exists i :: 0 <= i < |v| && v[i] == e;
  }
}
