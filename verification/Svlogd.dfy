/** runit's svlogd: a log directory whose output buffer calls back into the code that
    rotates the log, and so into the buffer itself. */
module Svlogd {
  import opened TaiTime
  import opened Labels

  type Data = seq<int>

  datatype Option<T> = None | Some(value: T)

  const NEWLINE := 10
  /** One more than the largest unsigned long. */
  const WIDE := 0x1_0000_0000_0000_0000
  const BUFFER_OUTSIZE := 8192

  /** A file that was rotated away, whether it had been filled from empty, and the
      size limit at that time. */
  datatype Rotated = Rotated(data: Data, fromEmpty: bool, limit: int)

  function Joined(rs: seq<Rotated>): Data {
    if rs == [] then [] else Joined(rs[..|rs| - 1]) + rs[|rs| - 1].data
  }

  lemma JoinedAppend(rs: seq<Rotated>, r: Rotated)
    ensures Joined(rs + [r]) == Joined(rs) + r.data
  {
    assert (rs + [r])[..|rs|] == rs;
  }

  // ----- names in the directory -----

  predicate ProperName(n: Data) {
    forall c <- n :: 0 < c < 256
  }

  /** What rmoldest takes for one of svlogd's own files. */
  predicate IsLog(n: Data) {
    |n| == 27 && n[0] == AT
  }

  /** Output of a processor that did not finish. */
  predicate Leftover(n: Data) {
    IsLog(n) && n[26] == 't' as int
  }

  predicate Counted(n: Data) {
    IsLog(n) && !Leftover(n)
  }

  function Named(s: set<Data>): set<Data> {
    set n | n in s && Counted(n)
  }

  function Kept(d: map<Data, Data>): set<Data> {
    Named(d.Keys)
  }

  lemma NamedAdd(s: set<Data>, f: Data)
    ensures Named(s + {f}) == if Counted(f) then Named(s) + {f} else Named(s)
    ensures Counted(f) && f !in s ==> f !in Named(s) && |Named(s + {f})| == |Named(s)| + 1
    ensures forall n <- Named(s) :: n in s
  {
    if Counted(f) && f !in s {
      assert Named(s + {f}) == Named(s) + {f};
    }
  }

  lemma NamedMembers(s: set<Data>)
    ensures forall n <- Named(s) :: n in s && Counted(n)
  {
  }

  /** The file has this name now, unless it was the oldest one itself, and no other has changed
      or gone but the oldest one and leftovers. */
  ghost predicate Filed(before: map<Data, Data>, after: map<Data, Data>, name: Data, file: Data) {
    var all := before[name := file];
    && name !in before && (forall n <- after :: n in all && after[n] == all[n])
    && (forall n <- all | n !in after :: Leftover(n) || Oldest(n, Kept(all)))
  }

  lemma KeptRemove(d: map<Data, Data>, f: Data)
    ensures Kept(d - {f}) == Kept(d) - {f}
    ensures !Counted(f) ==> Kept(d - {f}) == Kept(d)
  {
  }

  ghost predicate Before(s: Data, t: Data) {
    exists k: nat :: Differ(s + [0], t + [0], k) && (s + [0])[k] < (t + [0])[k]
  }

  lemma BeforeTransitive(s: Data, t: Data, u: Data)
    requires Before(s, t) && Before(t, u) && ProperName(t)
    ensures Before(s, u)
  {
    var j: nat :| Differ(s + [0], t + [0], j) && (s + [0])[j] < (t + [0])[j];
    var k: nat :| Differ(t + [0], u + [0], k) && (t + [0])[k] < (u + [0])[k];
    var i := if j < k then j else k;
    assert Differ(s + [0], u + [0], i) && (s + [0])[i] < (u + [0])[i];
  }

  lemma NotBefore(s: Data, t: Data, k: nat)
    requires Differ(s + [0], t + [0], k) && (s + [0])[k] >= (t + [0])[k]
    ensures !Before(s, t)
  {
    forall j: nat | Differ(s + [0], t + [0], j) ensures j == k {
      DifferOnce(s + [0], t + [0], j, k);
    }
  }

  /** No name in the set comes before "oldest". */
  ghost predicate Oldest(oldest: Data, names: set<Data>) {
    oldest in names && forall n <- names :: !Before(n, oldest)
  }

  /** So the file that rmoldest removes is one with the earliest stamp. */
  lemma OldestIsEarliest(a: Instant, c: int, names: set<Data>, b: Instant, d: int)
    requires a.Normal() && b.Normal() && Oldest(Name(a, c), names) && Name(b, d) in names
    ensures a.sec < b.sec || (a.sec == b.sec && a.nano <= b.nano)
  {
    hide Name;
    assert !Before(Name(b, d), Name(a, c));
    if b.sec < a.sec || (b.sec == a.sec && b.nano < a.nano) {
      var j := EarlierIsSmaller(b, a, d, c);
    }
  }

  method ByteCopy(to: array<int>, at: nat, n: nat, from: array<int>, start: nat)
    requires to != from && at + n <= to.Length && start + n <= from.Length
    modifies to
    ensures to[..] == old(to[..at]) + from[start..start + n] + old(to[at + n..])
  {
    var k := 0;
    while k < n
      invariant 0 <= k <= n
      invariant to[..] == old(to[..at]) + from[start..start + k] + old(to[at + k..])
    {
      to[at + k] := from[start + k];
      k := k + 1;
    }
  }

  /** taia_now, some time after "since". */
  method TaiaNow(since: Instant, forward: bool) returns (t: Instant)
    requires since.Normal()
    ensures t.Normal() && (forward ==> !TaiaLess(t, since))
  {
    var v: int := *;
    t := At(v);
    if forward && TaiaLess(t, since) {
      t := since;
    }
  }

  /** What is past at one time is past later. */
  lemma StillLess(t: Instant, now: Instant, later: Instant)
    requires !TaiaLess(later, now)
    ensures TaiaLess(t, now) ==> TaiaLess(t, later)
  {
  }

  lemma NeverBefore(t: Instant)
    ensures !TaiaLess(t, t)
  {
  }

  /** What rotation has to do with a log directory. */
  datatype Look = Look(open: bool, size: int, sizemax: int, tmax: int, trotate: Instant, current: Data,
      fromEmpty: bool, rotated: seq<Rotated>, opens: nat)
  {
    /** The time to rotate has passed. */
    predicate Due(now: Instant) {
      tmax != 0 && TaiaLess(trotate, now)
    }

    function Next(now: Instant): Instant {
      if Due(now) then Plus(Instant(tmax % WORD, 0, 0), now) else trotate
    }

    /** What becomes of an open directory that is rotated at that time. */
    function Turned(now: Instant): Look {
      if !open then this.(tmax := 0)
      else if size == 0 then this.(trotate := Next(now))
      else this.(trotate := Next(now), size := 0, current := [], fromEmpty := true,
                 rotated := rotated + [Rotated(current, fromEmpty, sizemax)])
    }

    /** Output has been written since, and files have been rotated where they were full. */
    predicate Wrote(after: Look) {
      && after.open == open && after.tmax == tmax && after.sizemax == sizemax && after.opens == opens
      && rotated <= after.rotated
      && (after.rotated == rotated ==> after.trotate == trotate)
    }

    /** What was there has been rotated away, or there was nothing. */
    predicate Rotates(after: Look) {
      |after.rotated| > |rotated| || (after.size == 0 && after.rotated == rotated)
    }

    /** It has been opened anew; a file that was open is continued. */
    predicate Renewed(after: Look) {
      after.opens == opens + 1 && (open ==> after.size == size && after.current == current && after.rotated == rotated)
    }

    /** Nothing has been rotated, or the files are as they were. */
    predicate Grew(after: Look) {
      |after.rotated| > |rotated| || (after.size == size && after.rotated == rotated)
    }
  }

  /** Whether a directory is rotated depends on the time at which it is looked at. */
  predicate Chosen(d: Look, e: Look, all: bool, now: Instant, later: Instant, forward: bool) {
    if all || d.Due(now) then e == d.Turned(later) && (forward ==> !TaiaLess(later, now))
    else e == d && later == now
  }

  lemma ChosenGrew(d: Look, e: Look, all: bool, now: Instant, later: Instant, forward: bool)
    requires Chosen(d, e, all, now, later, forward)
    ensures d.Grew(e) && (d.open && (all || d.Due(now)) ==> d.Rotates(e))
    ensures e.opens == d.opens && (d.open && all ==> e.size == 0)
    ensures d.tmax == 0 && !all ==> e == d
  {
  }

  lemma WroteOpen(d: Look, e: Look)
    requires d.Wrote(e)
    ensures e.open == d.open && e.tmax == d.tmax && (e.rotated == d.rotated ==> e.trotate == d.trotate)
  {
  }

  lemma RotatesStays(d: Look, e: Look, f: Look)
    ensures d.Rotates(e) && e.Grew(f) ==> d.Rotates(f)
    ensures d.Wrote(e) && e.Rotates(f) ==> d.Rotates(f)
    ensures d.Wrote(e) && e.rotated != d.rotated && e.Grew(f) ==> d.Rotates(f)
  {
  }

  lemma SizeStep(before: nat, more: nat, limit: int)
    ensures (before % WIDE + more) % WIDE == (before + more) % WIDE
    ensures 0 < more && before % WIDE + more <= limit < WIDE ==> (before + more) % WIDE == before % WIDE + more
  {
  }

  /** The file is full before a write, or a line has ended near enough to its end. */
  predicate Full(size: int, sizemax: int) {
    sizemax != 0 && size >= sizemax
  }

  predicate Late(size: int, sizemax: int, linemax: int, last: int) {
    sizemax != 0 && last == NEWLINE && size >= (sizemax - linemax) % WIDE
  }

  class LogDir {
    /** The longest line that is kept in one piece. */
    const linemax: nat
    /** The clock does not go back. */
    const forward: bool
    /** No system call fails. */
    const reliable: bool
    // the output buffer
    const x: array<int>
    var p: nat
    // struct logdir; the directory is open when "open" says so
    var open: bool
    var size: int
    var sizemax: int
    var nmax: int
    var tmax: int
    var trotate: Instant
    // the files
    var current: Data
    var executable: bool
    var dir: map<Data, Data>
    /** Some system call that is repeated until it succeeds never does, or the clock only
        shows times whose names are taken; then it is jammed. */
    var stuck: bool
    ghost var jammed: bool

    ghost var rotated: seq<Rotated>
    ghost var fromEmpty: bool
    /** What the directory held at the beginning, and everything put since. */
    ghost var put: Data
    /** How many old files there were when the directory was opened, and how often
        removing one of them has failed. */
    ghost var most: nat
    ghost var failures: nat
    /** How often the output of a processor that did not finish could not be removed. */
    ghost var stubborn: nat
    /** How often its configuration has been read. */
    ghost var opens: nat

    constructor (
        bufferSize: nat, linemax: nat, forward: bool, reliable: bool, current: Data, executable: bool,
        dir: map<Data, Data>)
      requires bufferSize > linemax && forall n <- dir :: ProperName(n)
      ensures Sane() && !open && !stuck && p == 0 && put == current && fresh(x)
      ensures this.current == current && this.executable == executable && this.dir == dir && x.Length == bufferSize
      ensures this.linemax == linemax && this.forward == forward && this.reliable == reliable
    {
      x := new int[bufferSize];
      this.linemax, this.forward, this.reliable := linemax, forward, reliable;
      this.current, this.executable, this.dir := current, executable, dir;
      p, open, stuck, jammed := 0, false, false, false;
      size, sizemax, nmax, tmax, trotate := 0, 0, 0, 0, Instant(0, 0, 0);
      rotated, fromEmpty, put, most, failures, stubborn, opens := [], false, current, 0, 0, 0, 0;
      new;
      assert x[..p] == [];
    }

    ghost predicate Core()
      reads this, x
    {
      && p <= x.Length && x.Length > 0 && (!open ==> p == 0) && (stuck && reliable ==> jammed)
      && trotate.Normal() && 0 <= size < WIDE && 0 <= sizemax < WIDE && 0 <= nmax < WIDE && 0 <= tmax < WIDE
      && (open ==> size == |current| % WIDE)
      && (fromEmpty && sizemax != 0 ==> |current| <= sizemax)
      && (forall r <- rotated :: r.fromEmpty && r.limit != 0 ==> |r.data| <= r.limit)
      && (forall n <- dir :: ProperName(n))
    }

    ghost function Seen(): Look
      reads this
    {
      Look(open, size, sizemax, tmax, trotate, current, fromEmpty, rotated, opens)
    }

    ghost predicate Valid()
      reads this, x
    {
      Core() && Few()
    }

    /** Removing one old file for each new one keeps their number within bounds. */
    ghost predicate Few()
      reads this
    {
      open && !stuck && nmax != 0 ==> |Kept(dir)| <= Max(most, nmax) + failures
    }

    /** The files that were rotated away, in order, and the current one. */
    ghost function Disk(): Data
      reads this`rotated, this`current
    {
      Joined(rotated) + current
    }

    /** Nothing that was put is lost or doubled; if svlogd is stuck, what has reached
        the disk is at least the beginning of it. */
    ghost predicate Sane()
      reads this, x
    {
      Valid() && if stuck then Disk() <= put else Disk() + x[..p] == put
    }

    lemma DueShown(now: Instant)
      ensures Seen().Due(now) <==> tmax != 0 && TaiaLess(trotate, now)
    {
    }

    /** A call that is repeated until it succeeds. */
    method Wait()
      modifies this`stuck
      ensures (!old(stuck) || stuck) && (reliable ==> stuck == old(stuck)) && (old(Valid()) ==> Valid()) &&
              (old(Core()) ==> Core())
    {
      hide Joined, Kept, ProperName;
      var ok: bool := *;
      if !ok && !reliable {
        stuck := true;
      }
    }

    /** rmoldest */
    method RmOldest()
      requires Core()
      modifies this`dir, this`failures, this`stubborn
      ensures stubborn == old(stubborn) ==> forall n <- dir :: !Leftover(n)
      ensures reliable ==> failures == old(failures) && stubborn == old(stubborn)
      ensures Core() && dir.Keys <= old(dir.Keys) && (forall n <- dir :: dir[n] == old(dir)[n]) &&
              old(failures) <= failures
      ensures forall n <- old(dir) | n !in dir :: Leftover(n) || Oldest(n, Kept(old(dir)))
      ensures if nmax != 0 && |Kept(old(dir))| > nmax && failures == old(failures)
              then |Kept(dir)| == |Kept(old(dir))| - 1
              else Kept(dir) == Kept(old(dir))
    {
      hide Named, Kept, Before, ProperName, Joined, Oldest, Leftover;
      var n, oldest := ReadNames();
      if nmax != 0 && n > nmax {
        RemoveName(oldest);
      }
    }

    /** The last part of rmoldest. */
    method RemoveName(oldest: Data)
      requires Core() && Oldest(oldest, Kept(dir)) && |oldest| > 0
      modifies this`dir, this`failures
      ensures Core() && oldest in old(dir) && old(failures) <= failures && (reliable ==> failures == old(failures))
      ensures dir == old(dir) || dir == old(dir) - {oldest}
      ensures if failures == old(failures)
              then |Kept(dir)| == |Kept(old(dir))| - 1
              else Kept(dir) == Kept(old(dir))
    {
      hide Named, Before, ProperName, Joined;
      ghost var names := Kept(dir);
      NamedMembers(dir.Keys);
      KeptRemove(dir, oldest);
      if oldest[0] == AT {
        var ok: bool := *;
        if ok || reliable {
          dir := dir - {oldest};
          assert oldest in names && Kept(dir) == names - {oldest};
        } else {
          failures := failures + 1;
        }
      }
    }

    /** What is known about the names that have been seen. */
    static ghost predicate Tally(seen: set<Data>, n: nat, oldest: Data) {
      && n == |Named(seen)| && |oldest| > 0
      && if Named(seen) == {} then oldest == ['A' as int] else Oldest(oldest, Named(seen))
    }

    /** The loop over the directory: leftovers of processors go, the rest is counted. */
    method ReadNames() returns (n: nat, oldest: Data)
      requires forall n <- dir :: ProperName(n)
      modifies this`dir, this`stubborn
      ensures old(stubborn) <= stubborn && (stubborn == old(stubborn) ==> forall m <- dir :: !Leftover(m))
      ensures reliable ==> stubborn == old(stubborn)
      ensures dir.Keys <= old(dir.Keys) && (forall m <- dir :: dir[m] == old(dir)[m])
      ensures forall m <- old(dir) | m !in dir :: Leftover(m)
      ensures n == |Kept(old(dir))| && Kept(dir) == Kept(old(dir)) && |oldest| > 0
      ensures n > 0 ==> Oldest(oldest, Kept(dir))
    {
      n, oldest := 0, ['A' as int];
      var todo := dir.Keys;
      ghost var seen: set<Data> := {};
      ghost var was := dir;
      assert Named({}) == {} && Tally({}, n, oldest);
      hide Named, Before, Oldest, Tally, Leftover;
      while todo != {}
        invariant todo + seen == was.Keys && todo !! seen
        invariant dir.Keys <= was.Keys && (forall m <- dir :: dir[m] == was[m])
        invariant (forall m <- was | m !in dir :: Leftover(m) && m !in todo) && Kept(dir) == Kept(was)
        invariant Tally(seen, n, oldest) && old(stubborn) <= stubborn && (reliable ==> stubborn == old(stubborn))
        invariant stubborn == old(stubborn) ==> forall m <- dir | m in seen :: !Leftover(m)
        decreases todo
      {
        var f :| f in todo;
        todo := todo - {f};
        n, oldest := Visit(f, n, oldest, seen);
        seen := seen + {f};
      }
      assert seen == was.Keys;
      Tallied(was.Keys, n, oldest);
    }

    static lemma Tallied(names: set<Data>, n: nat, oldest: Data)
      requires Tally(names, n, oldest)
      ensures n == |Named(names)| && |oldest| > 0 && (n > 0 ==> Oldest(oldest, Named(names)))
    {
    }

    /** One name of the directory. */
    method Visit(f: Data, n: nat, oldest: Data, ghost seen: set<Data>) returns (count: nat, first: Data)
      requires f in dir && f !in seen && ProperName(f) && (forall m <- seen :: ProperName(m)) && Tally(seen, n, oldest)
      modifies this`dir, this`stubborn
      ensures dir == old(dir) || (Leftover(f) && dir == old(dir) - {f})
      ensures old(stubborn) <= stubborn && (stubborn == old(stubborn) && Leftover(f) ==> f !in dir)
      ensures reliable ==> stubborn == old(stubborn)
      ensures Kept(dir) == Kept(old(dir)) && Tally(seen + {f}, count, first)
    {
      NamedAdd(seen, f);
      KeptRemove(dir, f);
      hide Named, Before;
      count, first := n, oldest;
      if IsLog(f) {
        if Leftover(f) {
          var ok: bool := *;
          if ok || reliable {
            dir := dir - {f};
          } else {
            stubborn := stubborn + 1;
          }
        } else {
          count := n + 1;
          first := Older(f, oldest, Named(seen));
        }
      }
    }

    /** The loop that makes a file name: the last one that it tried is not in use. */
    method NewName(c: int, since: Instant) returns (now: Instant, name: Data)
      requires Valid() && !stuck && 0 < c < 256 && since.Normal()
      modifies this`stuck, this`jammed
      ensures Valid() && (stuck ==> name in dir) && (!stuck ==> jammed == old(jammed))
      ensures now.Normal() && name == Name(now, c) && ProperName(name) && (stuck || name !in dir)
      ensures forward ==> !TaiaLess(now, since)
    {
      now := TaiaNow(since, forward);
      var fnsave := new int[30];
      var len := FmtTaia(fnsave, now);
      name := fnsave[..len] + [46, c];
      NameProper(now, c);
      if name in dir {
        stuck, jammed := true, true;
      }
    }

    /** rename("current", name) */
    method RenameCurrent(name: Data)
      requires Valid() && ProperName(name) && name !in dir
      modifies this`dir, this`current, this`size, this`executable, this`rotated, this`fromEmpty
      ensures Core() && Disk() == old(Disk()) && current == [] && size == 0 && fromEmpty && !executable
      ensures rotated == old(rotated) + [Rotated(old(current), old(fromEmpty), sizemax)]
      ensures dir == old(dir)[name := old(current)]
    {
      hide ProperName, Joined;
      JoinedAppend(rotated, Rotated(current, fromEmpty, sizemax));
      dir := dir[name := current];
      rotated := rotated + [Rotated(current, fromEmpty, sizemax)];
      current, size, fromEmpty, executable := [], 0, true, false;
      assert Disk() == Joined(rotated) == old(Disk());
    }

    /** The file system part of rotate; it may get stuck before and after the renaming. */
    method Replace(name: Data)
      requires Valid() && p == 0 && !stuck && open && ProperName(name) && name !in dir
      modifies this`dir, this`current, this`size, this`executable, this`rotated, this`fromEmpty, this`stuck,
          this`failures, this`stubborn
      ensures Valid() && Disk() == old(Disk()) && old(failures) <= failures && (reliable ==> !stuck)
      ensures !stuck ==>
              current == [] && size == 0 && fromEmpty &&
              rotated == old(rotated) + [Rotated(old(current), old(fromEmpty), sizemax)]
      ensures !stuck ==> Filed(old(dir), dir, name, old(current))
      ensures !stuck && nmax != 0 ==> |Kept(dir)| <= Max(|Kept(old(dir))|, nmax) + (failures - old(failures))
    {
      hide ProperName, Joined, Named, Kept, Oldest, Leftover, LogDir.Disk, LogDir.Core;
      Wait();
      if stuck {
        return;
      }
      KeptAdd(dir, name, current);
      RenameCurrent(name);
      ghost var was := dir;
      Wait();
      if stuck {
        return;
      }
      RmOldest();
      assert was == old(dir)[name := old(current)];
    }

    /** The next time to rotate, when the last one has passed. */
    method Retime(now: Instant)
      requires Valid()
      modifies this`trotate
      ensures Valid() && trotate == old(Seen()).Next(now)
    {
      if tmax != 0 && TaiaLess(trotate, now) {
        trotate := Plus(Instant(tmax % WORD, 0, 0), now);
      }
    }

    /** rotate: it is only ever called with nothing in the buffer.  The clock that it reads
        is one that its callers look at. */
    method Rotate(since: Instant) returns (now: Instant)
      requires Valid() && p == 0 && !stuck && since.Normal()
      modifies this
      ensures Valid() && p == 0 && put == old(put) && Disk() == old(Disk()) && open == old(open)
      ensures sizemax == old(sizemax) && nmax == old(nmax) && old(failures) <= failures
      ensures now.Normal() && (forward ==> !TaiaLess(now, since))
      ensures stuck && reliable ==> Name(now, 's' as int) in old(dir)
      ensures !open || old(size) == 0 ==> dir == old(dir)
      ensures !stuck && open && old(size) > 0 ==> Filed(old(dir), dir, Name(now, 's' as int), old(current))
      ensures !stuck ==> Seen() == old(Seen()).Turned(now)
      ensures !stuck && nmax != 0 ==> |Kept(dir)| <= Max(|Kept(old(dir))|, nmax) + (failures - old(failures))
      decreases p, 1
    {
      hide ProperName, Joined, Named, Kept, Filed, Name, Oldest, TaiaLess, Plus, Leftover, LogDir.Disk;
      now := since;
      if !open {
        tmax := 0;
        NeverBefore(since);
        return;
      }
      var name;
      now, name := NewName('s' as int, since);
      if stuck {
        return;
      }
      RotateTo(name, now);
    }

    /** The rest of rotate, for an open directory. */
    method RotateTo(name: Data, now: Instant)
      requires Valid() && p == 0 && !stuck && open && ProperName(name) && name !in dir
      modifies this
      ensures Valid() && p == 0 && put == old(put) && Disk() == old(Disk()) && open
      ensures sizemax == old(sizemax) && nmax == old(nmax) && old(failures) <= failures && (reliable ==> !stuck)
      ensures old(size) == 0 ==> dir == old(dir)
      ensures !stuck ==> Seen() == old(Seen()).Turned(now)
      ensures !stuck && old(size) > 0 ==> Filed(old(dir), dir, name, old(current))
      ensures !stuck && nmax != 0 ==> |Kept(dir)| <= Max(|Kept(old(dir))|, nmax) + (failures - old(failures))
      decreases p, 0, 1
    {
      hide ProperName, Joined, Named, Kept, Filed, Oldest, TaiaLess, Plus, Leftover, LogDir.Disk;
      Retime(now);
      if size > 0 {
        BufferFlush();
        Replace(name);
      }
    }

    /** buffer_flush: the buffer counts as empty before the callback is called. */
    method BufferFlush()
      requires Valid() && !stuck
      modifies this
      ensures Valid() && p == 0 && put == old(put) && open == old(open)
      ensures sizemax == old(sizemax) && nmax == old(nmax)
      ensures old(p) == 0 ==> unchanged(this)
      ensures !stuck ==> old(Seen()).Wrote(Seen())
      ensures Reached(old(Disk()), old(x[..p]), Disk(), stuck)
      decreases p, 0, 0
    {
      var len := p;
      if len == 0 {
        assert Disk() == Disk() + x[..p];
        return;
      }
      p := 0;
      AllWrite(x, 0, len, x[..len]);
    }

    /** allwrite with buffer_pwrite */
    method AllWrite(buf: array<int>, start: nat, len: nat, ghost data: Data)
      requires Valid() && p == 0 && !stuck && open && start + len <= buf.Length && buf[start..start + len] == data
      modifies this
      ensures Valid() && p == 0 && put == old(put) && open
      ensures sizemax == old(sizemax) && nmax == old(nmax)
      ensures !stuck ==> old(Seen()).Wrote(Seen())
      ensures Reached(old(Disk()), data, Disk(), stuck)
      decreases p, 4
    {
      hide LogDir.Valid, LogDir.Disk;
      var at, left := start, len;
      ghost var rest := data;
      while left > 0
        invariant start <= at && at + left == start + len
        invariant Valid() && p == 0 && put == old(put) && open && !stuck
        invariant sizemax == old(sizemax) && nmax == old(nmax)
        invariant buf[at..at + left] == rest && Disk() + rest == old(Disk()) + data && old(Disk()) <= Disk()
        invariant old(Seen()).Wrote(Seen())
      {
        ghost var before := Disk();
        var w := BufferPwrite(buf, at, left);
        Split(buf, at, w, left, rest);
        Moved(before, rest, w);
        if stuck {
          return;
        }
        at, left, rest := at + w, left - w, rest[w..];
      }
    }

    /** buffer_pwrite: at least one byte is written, and no more than the file may hold. */
    method BufferPwrite(buf: array<int>, at: nat, most: nat) returns (i: nat)
      requires Valid() && p == 0 && !stuck && open && at + most <= buf.Length && most > 0
      modifies this
      ensures Valid() && p == 0 && put == old(put) && open
      ensures sizemax == old(sizemax) && nmax == old(nmax)
      ensures i <= most && (stuck || i > 0) && Disk() == old(Disk()) + buf[at..at + i]
      ensures !stuck && 0 < linemax <= sizemax && buf[at + i - 1] == NEWLINE ==> size == 0 || size < sizemax - linemax
      ensures !stuck ==> old(Seen()).Wrote(Seen())
      ensures !stuck ==>
                var base := if Full(old(size), sizemax) then 0 else old(size);
                |rotated| == |old(rotated)| + (if Full(old(size), sizemax) then 1 else 0)
                             + (if Late((base + i) % WIDE, sizemax, linemax, buf[at + i - 1]) then 1 else 0)
      decreases p, 3
    {
      hide Joined, Kept, ProperName, TaiaLess, Plus, LogDir.Valid;
      i := 0;
      assert Disk() == Disk() + buf[at..at];
      var len := MakeRoom(most);
      if stuck {
        return;
      }
      i := Write(buf, at, len);
      if stuck {
        return;
      }
      RotateLate(buf[at + i - 1]);
    }

    /** A file that is full is rotated, and no more is written than the next one may hold. */
    method MakeRoom(most: nat) returns (len: nat)
      requires Valid() && p == 0 && !stuck && open && most > 0
      modifies this
      ensures Valid() && p == 0 && put == old(put) && open && Disk() == old(Disk())
      ensures sizemax == old(sizemax) && nmax == old(nmax) && 0 <= size < WIDE
      ensures !stuck ==> 0 < len <= most && (sizemax != 0 ==> size + len <= sizemax) && old(Seen()).Wrote(Seen())
      ensures !stuck ==> size == (if Full(old(size), sizemax) then 0 else old(size)) &&
                         |rotated| == |old(rotated)| + if Full(old(size), sizemax) then 1 else 0
      decreases p, 2
    {
      hide Joined, Kept, ProperName, TaiaLess, Plus;
      len := most;
      if sizemax != 0 {
        if size >= sizemax {
          var _ := Rotate(At(0));
          if stuck {
            return;
          }
        }
        if len > sizemax - size {
          len := sizemax - size;
        }
      }
    }

    /** A file is rotated after a line that ends near enough to the limit. */
    method RotateLate(last: int)
      requires Valid() && p == 0 && !stuck && open && (sizemax != 0 ==> size > 0)
      modifies this
      ensures Valid() && p == 0 && put == old(put) && open && Disk() == old(Disk())
      ensures sizemax == old(sizemax) && nmax == old(nmax) && (!stuck ==> old(Seen()).Wrote(Seen()))
      ensures !stuck && 0 < linemax <= sizemax && last == NEWLINE ==> size == 0 || size < sizemax - linemax
      ensures !stuck ==> |rotated| == |old(rotated)| + if Late(old(size), sizemax, linemax, last) then 1 else 0
      decreases p, 2
    {
      hide Joined, Kept, ProperName, TaiaLess, Plus;
      if sizemax != 0 {
        if last == NEWLINE {
          if size >= (sizemax - linemax) % WIDE {
            var _ := Rotate(At(0));
          }
        }
      }
    }

    /** write(2), repeated until it writes something; the size is counted along. */
    method Write(buf: array<int>, at: nat, len: nat) returns (i: nat)
      requires Valid() && !stuck && open && p == 0 && at + len <= buf.Length && len > 0
      requires 0 <= size < WIDE && (sizemax != 0 ==> size + len <= sizemax)
      modifies this`current, this`size, this`stuck
      ensures Valid() && i <= len && Disk() == old(Disk()) + buf[at..at + i] && (if stuck then i == 0 else i > 0)
      ensures size == (old(size) + i) % WIDE && (!stuck && sizemax != 0 ==> size > 0)
    {
      hide Joined, Kept, Named, ProperName, LogDir.Valid;
      i := 0;
      assert buf[at..at] == [];
      Wait();
      if !stuck {
        i := *;
        if i == 0 || i > len {
          i := len;
        }
        Append(buf[at..at + i]);
      }
    }

    /** The current file grows; the counter is an unsigned long. */
    method Append(data: Data)
      requires Valid() && open && |data| > 0 && (sizemax != 0 ==> size + |data| <= sizemax)
      modifies this`current, this`size
      ensures Valid() && Disk() == old(Disk()) + data
      ensures size == (old(size) + |data|) % WIDE && (sizemax != 0 ==> size > 0)
    {
      hide Joined, Kept, Named, ProperName;
      SizeStep(|current|, |data|, sizemax);
      current := current + data;
      size := (size + |data|) % WIDE;
    }

    /** Bytes go to the free end of the buffer. */
    method Store(buf: array<int>, start: nat, len: nat, ghost data: Data)
      requires Sane() && !stuck && open && buf != x && start + len <= buf.Length && p + len <= x.Length
      requires buf[start..start + len] == data
      modifies this`p, x, this`put
      ensures Sane() && put == old(put) + data && p == old(p) + len
    {
      ByteCopy(x, p, len, buf, start);
      assert x[..p + len] == old(x[..p]) + data;
      p := p + len;
      put := put + data;
      assert Disk() + x[..p] == Disk() + old(x[..p]) + data;
    }

    /** buffer_put's loop: what the buffer cannot hold is written at once. */
    method WriteThrough(buf: array<int>, start: nat, length: nat, ghost data: Data) returns (at: nat, ghost rest: Data)
      requires Valid() && p == 0 && !stuck && open && start + length <= buf.Length && buf[start..start + length] == data
      modifies this
      ensures Valid() && p == 0 && put == old(put) && open
      ensures sizemax == old(sizemax) && nmax == old(nmax)
      ensures start <= at <= start + length && start + length - at <= x.Length && buf[at..start + length] == rest
      ensures if stuck then Reached(old(Disk()), data, Disk(), true) else Disk() + rest == old(Disk()) + data
    {
      at, rest := start, data;
      var len: nat := length;
      var n := if x.Length < BUFFER_OUTSIZE then BUFFER_OUTSIZE else x.Length;
      hide Joined, ProperName;
      while len > x.Length
        invariant start <= at && at + len == start + length && n > 0
        invariant Valid() && p == 0 && !stuck && open && put == old(put)
        invariant sizemax == old(sizemax) && nmax == old(nmax)
        invariant buf[at..at + len] == rest && Disk() + rest == old(Disk()) + data && old(Disk()) <= Disk()
      {
        if n > len {
          n := len;
        }
        Split(buf, at, n, len, rest);
        Moved(Disk(), rest, n);
        AllWrite(buf, at, n, rest[..n]);
        if stuck {
          at, rest := start + length, [];
          return;
        }
        at, len, rest := at + n, len - n, rest[n..];
      }
    }

    /** buffer_put */
    method BufferPut(buf: array<int>, start: nat, length: nat)
      requires Sane() && !stuck && open && buf != x && start + length <= buf.Length
      modifies this, x
      ensures Sane() && open && put == old(put) + buf[start..start + length]
      ensures sizemax == old(sizemax) && nmax == old(nmax)
      ensures old(p) + length <= x.Length ==> p == old(p) + length && current == old(current) && rotated == old(rotated)
    {
      ghost var data := buf[start..start + length];
      Room();
      if length > x.Length - p {
        hide LogDir.Sane, LogDir.Valid, LogDir.Disk;
        Flush();
        if !stuck {
          PutLong(buf, start, length, data);
        } else {
          Abandon(put + data);
        }
      } else {
        hide LogDir.Sane, LogDir.Valid, LogDir.Disk;
        Store(buf, start, length, data);
      }
    }

    method PutLong(buf: array<int>, start: nat, length: nat, ghost data: Data)
      requires Sane() && !stuck && p == 0 && open && buf != x && start + length <= buf.Length &&
              buf[start..start + length] == data
      modifies this, x
      ensures Sane() && open && put == old(put) + data
      ensures sizemax == old(sizemax) && nmax == old(nmax)
    {
      hide LogDir.Sane, LogDir.Valid, LogDir.Disk;
      EmptyBuffer();
      ghost var total := put + data;
      ghost var rest;
      var at;
      at, rest := WriteThrough(buf, start, length, data);
      Settle(if stuck then total else Disk());
      if !stuck {
        Store(buf, at, start + length - at, rest);
      }
    }

    lemma EmptyBuffer()
      requires Sane() && p == 0
      ensures Valid() && if stuck then Disk() <= put else Disk() == put
    {
      assert x[..p] == [];
    }

    ghost method Settle(bytes: Data)
      requires Valid() && p == 0 && if stuck then Disk() <= bytes else Disk() == bytes
      modifies this`put
      ensures Sane() && put == bytes
    {
      put := bytes;
      assert x[..p] == [];
    }

    /** buffer_putalign: the buffer is filled up before it is flushed. */
    method BufferPutalign(buf: array<int>, start: nat, length: nat)
      requires Sane() && !stuck && open && buf != x && start + length <= buf.Length
      modifies this, x
      ensures Sane() && open && put == old(put) + buf[start..start + length]
      ensures sizemax == old(sizemax) && nmax == old(nmax)
    {
      ghost var total := put + buf[start..start + length];
      ghost var rest := buf[start..start + length];
      var at: nat, len: nat := start, length;
      Room();
      hide LogDir.Sane, LogDir.Valid, LogDir.Disk;
      while len > x.Length - p
        invariant at + len == start + length && p <= x.Length && x.Length > 0
        invariant Sane() && !stuck && open && put + rest == total && buf[at..at + len] == rest
        invariant sizemax == old(sizemax) && nmax == old(nmax)
        decreases len, p
      {
        var n := x.Length - p;
        Moved(put, rest, n);
        FillAndFlush(buf, at, n, len, rest);
        at, len, rest := at + n, len - n, rest[n..];
        if stuck {
          Abandon(total);
          return;
        }
      }
      Store(buf, at, len, rest);
    }

    lemma Room()
      requires Sane()
      ensures p <= x.Length && x.Length > 0
    {
    }

    /** What was to be put when svlogd got stuck. */
    ghost method Abandon(bytes: Data)
      requires Sane() && stuck && put <= bytes
      modifies this`put
      ensures Sane() && put == bytes
    {
      put := bytes;
    }

    method FillAndFlush(buf: array<int>, at: nat, n: nat, ghost len: nat, ghost rest: Data)
      requires Sane() && !stuck && open && buf != x && n <= len && at + len <= buf.Length && n == x.Length - p &&
              buf[at..at + len] == rest
      modifies this, x
      ensures Sane() && open && p == 0 && put == old(put) + rest[..n] && buf[at + n..at + len] == rest[n..]
      ensures sizemax == old(sizemax) && nmax == old(nmax)
    {
      Split(buf, at, n, len, rest);
      Store(buf, at, n, rest[..n]);
      Split(buf, at, n, len, rest);
      hide LogDir.Sane, LogDir.Valid, LogDir.Disk;
      Flush();
    }

    /** The macro buffer_PUTC. */
    method BufferPutc(c: int)
      requires Sane() && !stuck && open
      modifies this, x
      ensures Sane() && open && put == old(put) + [c]
      ensures sizemax == old(sizemax) && nmax == old(nmax)
    {
      if x.Length != p {
        x[p] := c;
        assert x[..p + 1] == old(x[..p]) + [c];
        p := p + 1;
        put := put + [c];
      } else {
        var one := new int[1];
        one[0] := c;
        assert one[0..1] == [c];
        BufferPut(one, 0, 1);
      }
    }

    /** buffer_flush, seen from outside. */
    method Flush()
      requires Sane() && !stuck
      modifies this
      ensures Sane() && put == old(put) && p == 0 && open == old(open)
      ensures sizemax == old(sizemax) && nmax == old(nmax)
      ensures !stuck ==> old(Seen()).Wrote(Seen())
    {
      BufferFlush();
      assert x[..p] == [];
    }

    /** rotate, seen from outside. */
    method RotateEmpty(since: Instant) returns (now: Instant)
      requires Sane() && !stuck && p == 0 && since.Normal()
      modifies this
      ensures Sane() && put == old(put) && p == 0 && open == old(open)
      ensures now.Normal() && (forward ==> !TaiaLess(now, since)) && (!stuck ==> Seen() == old(Seen()).Turned(now))
    {
      assert x[..p] == [];
      now := Rotate(since);
      assert x[..p] == [];
    }

    /** logdir_close; both callers have flushed the buffer before. */
    method Close()
      requires Sane() && !stuck && p == 0
      modifies this
      ensures Sane() && put == old(put) && p == 0 && (!stuck ==> !open)
      ensures !stuck ==> Seen() == old(Seen()).(open := false) && executable == (old(open) || old(executable))
    {
      assert x[..p] == [];
      if !open {
        return;
      }
      open := false;
      BufferFlush();
      Wait();
      if stuck {
        return;
      }
      executable := true;
    }

    /** One directory of logdirs_reopen; a file that was open is continued. */
    method Reopen() returns (ok: bool)
      requires Sane() && !stuck && p == 0
      modifies this
      ensures Sane() && put == old(put) && p == 0 && (!stuck ==> open == ok && (reliable ==> ok))
      ensures !stuck ==> old(Seen()).Renewed(Seen())
    {
      hide LogDir.Sane, LogDir.Valid;
      if open {
        SizeShown();
      }
      Close();
      ok := false;
      if !stuck {
        ok := Open();
      }
    }

    lemma SizeShown()
      requires Sane() && open
      ensures size == |current| % WIDE
    {
    }

    /** logdir_open: a current file without its execute bit was left by a crash; it
        is rotated away.  The limits come from the configuration. */
    method Open() returns (ok: bool)
      requires Sane() && !stuck && p == 0 && !open
      modifies this
      ensures Sane() && put == old(put) && p == 0
      ensures !stuck ==> open == ok
      ensures !stuck && ok ==> !executable && size == |current| % WIDE
      ensures reliable && !stuck ==> ok
      ensures opens == old(opens) + 1 && (!stuck && !ok ==> Seen() == old(Seen()).(opens := opens))
      ensures !stuck && ok && (old(executable) || old(current) == []) ==>
              current == old(current) && rotated == old(rotated)
      ensures !stuck && ok && !old(executable) && old(current) != [] ==>
                current == [] && rotated == old(rotated) + [Rotated(old(current), false, sizemax)]
    {
      hide ProperName, Joined, Named, Kept, Name, Oldest, Plus, Leftover;
      assert x[..p] == [];
      ok := *;
      ok := ok || reliable;
      opens := opens + 1;
      if !ok {
        return;
      }
      TakeCurrent();
      if !stuck {
        MakeReady();
      }
    }

    /** The configuration, and what is found under "current". */
    method TakeCurrent()
      requires Valid() && !stuck && !open
      modifies this`sizemax, this`nmax, this`tmax, this`trotate, this`most, this`stuck, this`jammed, this`current,
          this`size, this`executable, this`dir, this`rotated, this`fromEmpty, this`failures, this`stubborn
      ensures Valid() && Disk() == old(Disk())
      ensures !stuck ==> size == |current| % WIDE && (nmax != 0 ==> |Kept(dir)| <= Max(most, nmax) + failures)
      ensures !stuck && (old(executable) || old(current) == []) ==> current == old(current) && rotated == old(rotated)
      ensures !stuck && !old(executable) && old(current) != [] ==>
                current == [] && rotated == old(rotated) + [Rotated(old(current), false, sizemax)]
    {
      hide ProperName, Joined, Named, Kept, Name, Oldest, Plus, Leftover;
      ReadConfig();
      if current != [] && !executable {
        SetAside();
      } else {
        size := |current| % WIDE;
      }
    }

    /** The file is opened for appending, and marked as unfinished. */
    method MakeReady()
      requires Valid() && !stuck && !open && p == 0 && Disk() == put && size == |current| % WIDE
      requires nmax != 0 ==> |Kept(dir)| <= Max(most, nmax) + failures
      modifies this`stuck, this`executable, this`open
      ensures Sane() && (!stuck ==> open && !executable)
    {
      hide ProperName, Joined, Named, Kept;
      assert x[..p] == [];
      Wait();
      if !stuck {
        executable := false;
        open := true;
      }
    }

    method SetAside()
      requires Valid() && !stuck && !open && !fromEmpty
      modifies this`stuck, this`jammed, this`current, this`size, this`executable, this`dir, this`rotated,
          this`fromEmpty, this`failures, this`stubborn
      ensures Valid() && Disk() == old(Disk())
      ensures !stuck ==> current == [] && size == 0 && rotated == old(rotated) + [Rotated(old(current), false, sizemax)]
      ensures !stuck && nmax != 0 ==> |Kept(dir)| <= Max(|Kept(old(dir))|, nmax) + (failures - old(failures))
      ensures old(failures) <= failures
    {
      hide ProperName, Joined, Named, Kept, Name, Oldest, Leftover, LogDir.Core;
      var now, name := NewName('u' as int, At(0));
      if stuck {
        return;
      }
      Wait();
      if stuck {
        return;
      }
      KeptAdd(dir, name, current);
      RenameCurrent(name);
      RmOldest();
    }

    method ReadConfig()
      requires Valid() && !open
      modifies this`sizemax, this`nmax, this`tmax, this`trotate, this`fromEmpty, this`most
      ensures most == |Kept(dir)| && 0 <= sizemax < WIDE && 0 <= nmax < WIDE && 0 <= tmax < WIDE
      ensures fromEmpty == (current == []) && trotate.Normal()
    {
      var s: int, n: int, t: int := *, *, *;
      sizemax, nmax, tmax := s % WIDE, n % WIDE, t % WIDE;
      if tmax != 0 {
        var now := TaiaNow(At(0), forward);
        trotate := Plus(Instant(tmax % WORD, 0, 0), now);
      }
      fromEmpty := current == [];
      most := |Kept(dir)|;
    }
  }


  function Max(a: int, b: int): int {
    if a < b then b else a
  }

  /** The part of "bytes" that reached the disk: all of it, unless svlogd is stuck. */
  ghost predicate Reached(before: Data, bytes: Data, after: Data, stuck: bool) {
    if stuck then before <= after && after <= before + bytes else after == before + bytes
  }

  lemma Split(buf: array<int>, at: nat, n: nat, len: nat, rest: Data)
    requires n <= len && at + len <= buf.Length && buf[at..at + len] == rest
    ensures buf[at..at + n] == rest[..n] && buf[at + n..at + len] == rest[n..]
  {
  }

  lemma Moved(done: Data, rest: Data, n: nat)
    requires n <= |rest|
    ensures done + rest[..n] + rest[n..] == done + rest && done + rest[..n] <= done + rest
  {
  }

  lemma NameProper(t: Instant, c: int)
    requires t.Normal() && 0 < c < 256
    ensures ProperName(Name(t, c))
  {
    hide Digits;
    var ds := Digits(Number(t), 24);
    forall k | 0 <= k < 27 ensures 0 < Name(t, c)[k] < 256 {
      assert 1 <= k < 25 ==> ds[k - 1] in ds && Name(t, c)[k] == Hex(ds[k - 1]);
    }
  }

  lemma KeptAdd(d: map<Data, Data>, name: Data, data: Data)
    requires name !in d
    ensures |Kept(d[name := data])| <= |Kept(d)| + 1
  {
    NamedAdd(d.Keys, name);
    assert d[name := data].Keys == d.Keys + {name};
  }


  /** One comparison of rmoldest's loop. */
  method Older(f: Data, oldest: Data, ghost before: set<Data>) returns (r: Data)
    requires ProperName(f) && Counted(f) && (forall n <- before :: ProperName(n))
    requires if before == {} then oldest == ['A' as int] else Oldest(oldest, before)
    ensures Oldest(r, before + {f}) && (r == f || r == oldest)
  {
    r := oldest;
    var d := StrDiff(f + [0], oldest + [0]);
    ghost var k: nat :| Differ(f + [0], oldest + [0], k) && d == (f + [0])[k] - (oldest + [0])[k];
    if before == {} {
      assert Differ(f + [0], oldest + [0], 0);
      DifferOnce(f + [0], oldest + [0], 0, k);
    }
    NotItself(f);
    if d < 0 {
      r := f;
      forall n <- before ensures !Before(n, f) {
        if Before(n, f) {
          BeforeTransitive(n, f, oldest);
        }
      }
    } else {
      NotBefore(f, oldest, k);
    }
  }

  lemma NotItself(f: Data)
    requires ProperName(f)
    ensures !Before(f, f)
  {
    assert forall i | 0 <= i < |f| :: f[i] in f;
    assert Differ(f + [0], f + [0], |f|);
    NotBefore(f, f, |f|);
  }

  /** What the main loop does to the log directories, and the signals, which only set flags
      for the next read: alarm to rotate, hangup to reopen, term to exit.  A read comes with the time at
      which it looks for directories that are due, and with what there is to read, unless that fails. */
  datatype Event =
    | Put(k: nat, data: Data)
    | Putc(k: nat, c: int)
    | Flush(k: nat)
    | Read(len: nat, clock: int, offered: Option<Data>)
    | Alarm
    | Hangup
    | Term

  class Logger {
    const dirs: seq<LogDir>
    var exitasap: bool
    var rotateasap: bool
    var reopenasap: bool
    var linecomplete: bool

    constructor (dirs: seq<LogDir>)
      requires forall j, k | 0 <= j < k < |dirs| :: dirs[j] != dirs[k] && dirs[j].x != dirs[k].x
      ensures this.dirs == dirs && Apart() && !exitasap && linecomplete
    {
      this.dirs := dirs;
      exitasap, rotateasap, reopenasap, linecomplete := false, false, false, true;
    }

    ghost predicate Apart() {
      forall j, k | 0 <= j < k < |dirs| :: dirs[j] != dirs[k] && dirs[j].x != dirs[k].x
    }

    /** No directory has lost or doubled a byte. */
    ghost predicate Sane()
      reads dirs, set k | 0 <= k < |dirs| :: dirs[k].x
    {
      Apart() && forall k | 0 <= k < |dirs| :: dirs[k].Sane()
    }

    ghost predicate Hung()
      reads dirs
    {
      exists k :: 0 <= k < |dirs| && dirs[k].stuck
    }

    /** No system call fails in any directory. */
    ghost predicate Reliable() {
      forall k | 0 <= k < |dirs| :: dirs[k].reliable
    }

    /** Why svlogd ends: it hangs, or it has no directory left to log to. */
    ghost predicate Over()
      reads dirs
    {
      Hung() || (Opened() == {} && (Reliable() ==> dirs == []))
    }

    /** The clock has only shown times whose names are taken in some directory. */
    ghost predicate Jammed()
      reads dirs
    {
      exists k :: 0 <= k < |dirs| && dirs[k].jammed
    }

    lemma OverJammed()
      requires Sane() && Over() && Reliable() && dirs != []
      ensures Jammed()
    {
      var k :| 0 <= k < |dirs| && dirs[k].stuck;
      assert dirs[k].Sane() && dirs[k].jammed;
    }

    ghost function Looks(): seq<Look>
      reads dirs
    {
      seq(|dirs|, k requires 0 <= k < |dirs| reads dirs => dirs[k].Seen())
    }

    ghost function Puts(): seq<Data>
      reads dirs
    {
      seq(|dirs|, k requires 0 <= k < |dirs| reads dirs => dirs[k].put)
    }

    /** The directories that are open. */
    ghost function Opened(): set<nat>
      reads dirs
    {
      set k: nat | k < |dirs| && dirs[k].open
    }

    ghost predicate Empty(n: nat)
      requires n <= |dirs|
      reads dirs
    {
      forall k | 0 <= k < n :: dirs[k].p == 0
    }

    /** The clock of every directory goes forward. */
    ghost predicate Steady() {
      forall k | 0 <= k < |dirs| :: dirs[k].forward
    }

    ghost predicate AllWrote(before: seq<Look>, after: seq<Look>) {
      |before| == |after| == |dirs| && forall k | 0 <= k < |dirs| :: before[k].Wrote(after[k])
    }

    ghost predicate AllRenewed(before: seq<Look>, after: seq<Look>) {
      |before| == |after| == |dirs| && forall k | 0 <= k < |dirs| :: before[k].Renewed(after[k])
    }

    lemma RenewedMeans(before: seq<Look>, after: seq<Look>)
      requires AllRenewed(before, after)
      ensures AllGrew(before, after) && AllOpens(before, after, 1)
    {
    }

    /** Directories that were open are as they were, or have been rotated. */
    ghost predicate AllGrew(before: seq<Look>, after: seq<Look>) {
      |before| == |after| == |dirs| && forall k | 0 <= k < |dirs| && before[k].open :: before[k].Grew(after[k])
    }

    /** Every directory has been opened, or tried to, n times. */
    ghost predicate AllOpens(before: seq<Look>, after: seq<Look>, n: nat) {
      |before| == |after| == |dirs| && forall k | 0 <= k < |dirs| :: after[k].opens == before[k].opens + n
    }

    /** Every directory that was open has been rotated. */
    ghost predicate AllRotate(before: seq<Look>, after: seq<Look>) {
      |before| == |after| == |dirs| && forall k | 0 <= k < |dirs| && before[k].open :: before[k].Rotates(after[k])
    }

    /** Every one that was due has been rotated, and one without an age limit only if it was full. */
    ghost predicate DueRotate(before: seq<Look>, after: seq<Look>, now: Instant) {
      && |before| == |after| == |dirs|
      && (Steady() ==>
          forall k | 0 <= k < |dirs| && before[k].open && before[k].Due(now) :: before[k].Rotates(after[k]))
      && forall k | 0 <= k < |dirs| && before[k].tmax == 0 :: before[k].Wrote(after[k])
    }

    /** What RotateAll does to each directory. */
    ghost predicate Selected(before: seq<Look>, after: seq<Look>, all: bool, start: Instant, nows: seq<Instant>) {
      && |before| == |after| == |dirs| && |nows| == |dirs| + 1 && nows[0] == start
      && forall k | 0 <= k < |dirs| :: Chosen(before[k], after[k], all, nows[k], nows[k + 1], dirs[k].forward)
    }

    lemma {:induction false} Onward(
        before: seq<Look>, after: seq<Look>, all: bool, start: Instant, nows: seq<Instant>, k: nat)
      requires Selected(before, after, all, start, nows) && Steady() && k <= |dirs|
      ensures !TaiaLess(nows[k], start)
    {
      hide TaiaLess, Look.Turned, Look.Due;
      NeverBefore(start);
      if k > 0 {
        Onward(before, after, all, start, nows, k - 1);
        NeverBefore(nows[k]);
        StillLess(nows[k], start, nows[k - 1]);
        assert Chosen(before[k - 1], after[k - 1], all, nows[k - 1], nows[k], true);
      }
    }

    /** All are rotated after an alarm, whatever was written before. */
    lemma AlarmObeyed(
        before: seq<Look>, mid: seq<Look>, after: seq<Look>, start: Instant, nows: seq<Instant>)
      requires AllWrote(before, mid) && Selected(mid, after, true, start, nows)
      ensures AllRotate(before, after) && forall k | 0 <= k < |dirs| && before[k].open :: after[k].size == 0
    {
      hide Look.Wrote, Look.Rotates, Chosen;
      forall k | 0 <= k < |dirs| && before[k].open
        ensures before[k].Rotates(after[k]) && after[k].size == 0
      {
        WroteOpen(before[k], mid[k]);
        ChosenGrew(mid[k], after[k], true, nows[k], nows[k + 1], dirs[k].forward);
        RotatesStays(before[k], mid[k], after[k]);
      }
    }

    lemma GrewStays(before: seq<Look>, mid: seq<Look>, after: seq<Look>, start: Instant, nows: seq<Instant>)
      requires Selected(mid, after, false, start, nows) && |before| == |dirs|
      ensures AllRotate(before, mid) ==> AllRotate(before, after)
    {
      hide Look.Rotates, Chosen, Look.Grew;
      if AllRotate(before, mid) {
        forall k | 0 <= k < |dirs| && before[k].open ensures before[k].Rotates(after[k]) {
          ChosenGrew(mid[k], after[k], false, nows[k], nows[k + 1], dirs[k].forward);
          RotatesStays(before[k], mid[k], after[k]);
        }
      }
    }

    lemma OpensSame(
        before: seq<Look>, mid: seq<Look>, after: seq<Look>, all: bool, start: Instant, nows: seq<Instant>, n: nat)
      requires AllOpens(before, mid, n) && Selected(mid, after, all, start, nows)
      ensures AllOpens(before, after, n)
    {
      hide Chosen, Look.Grew, Look.Rotates;
      forall k | 0 <= k < |dirs| ensures after[k].opens == mid[k].opens {
        ChosenGrew(mid[k], after[k], all, nows[k], nows[k + 1], dirs[k].forward);
      }
    }

    lemma OpensMore(before: seq<Look>, mid: seq<Look>, after: seq<Look>)
      requires AllOpens(before, mid, 0) && AllOpens(mid, after, 1)
      ensures AllOpens(before, after, 1)
    {
    }

    lemma WroteOpens(before: seq<Look>, after: seq<Look>)
      requires AllWrote(before, after)
      ensures AllOpens(before, after, 0)
    {
    }

    lemma ReopenStays(before: seq<Look>, mid: seq<Look>, after: seq<Look>)
      requires AllRotate(before, mid) && AllGrew(mid, after)
      requires forall k | 0 <= k < |dirs| :: mid[k].open == before[k].open
      ensures AllRotate(before, after)
    {
      hide Look.Rotates, Look.Grew;
      forall k | 0 <= k < |dirs| && before[k].open ensures before[k].Rotates(after[k]) {
        RotatesStays(before[k], mid[k], after[k]);
      }
    }

    /** One that was due still is, unless writing has rotated it. */
    lemma AgeObeyed(before: seq<Look>, mid: seq<Look>, after: seq<Look>, start: Instant, nows: seq<Instant>)
      requires AllWrote(before, mid) && Selected(mid, after, false, start, nows)
      ensures DueRotate(before, after, start)
    {
      hide Look.Wrote, Look.Rotates, Chosen, TaiaLess, Look.Turned;
      forall k | 0 <= k < |dirs| && before[k].open && before[k].Due(start) && Steady()
        ensures before[k].Rotates(after[k])
      {
        Onward(mid, after, false, start, nows, k);
        StillLess(before[k].trotate, start, nows[k]);
        WroteOpen(before[k], mid[k]);
        ChosenGrew(mid[k], after[k], false, nows[k], nows[k + 1], dirs[k].forward);
        RotatesStays(before[k], mid[k], after[k]);
      }
      forall k | 0 <= k < |dirs| && before[k].tmax == 0 ensures before[k].Wrote(after[k]) {
        WroteOpen(before[k], mid[k]);
        ChosenGrew(mid[k], after[k], false, nows[k], nows[k + 1], dirs[k].forward);
      }
    }

    method FlushAll() returns (alive: bool)
      requires Sane() && !Hung()
      modifies dirs
      ensures Sane() && Puts() == old(Puts()) && alive == !Hung() && (alive ==> Empty(|dirs|)) &&
              Opened() == old(Opened())
      ensures alive ==> AllWrote(old(Looks()), Looks())
    {
      hide LogDir.Sane, LogDir.Seen, Look.Wrote;
      SameLooks();
      var k := 0;
      while k < |dirs|
        invariant 0 <= k <= |dirs| && Sane() && !Hung() && Puts() == old(Puts()) && Empty(k) &&
                Opened() == old(Opened())
        invariant forall j | 0 <= j < k :: old(dirs[j].Seen()).Wrote(dirs[j].Seen())
        invariant forall j | k <= j < |dirs| :: dirs[j].Seen() == old(dirs[j].Seen())
      {
        dirs[k].Flush();
        if dirs[k].stuck {
          return false;
        }
        k := k + 1;
      }
      alive := true;
    }

    /** Every directory is rotated, or only those that are due by their age, at the time of
        the last rotation.  "nows" are these times. */
    method RotateAll(all: bool, start: Instant) returns (alive: bool, ghost nows: seq<Instant>)
      requires Sane() && !Hung() && Empty(|dirs|) && start.Normal()
      modifies dirs
      ensures Sane() && Puts() == old(Puts()) && alive == !Hung() && Empty(|dirs|) && Opened() == old(Opened())
      ensures alive ==> Selected(old(Looks()), Looks(), all, start, nows)
    {
      hide LogDir.Sane, LogDir.Seen, Look.Turned, Look.Due;
      var now := start;
      nows := [now];
      var k := 0;
      while k < |dirs|
        invariant 0 <= k <= |dirs| && Sane() && !Hung() && Puts() == old(Puts()) && Empty(|dirs|) &&
                Opened() == old(Opened())
        invariant |nows| == k + 1 && nows[0] == start && nows[k] == now && now.Normal()
        invariant forall j | 0 <= j < k :: Chosen(
                old(dirs[j].Seen()), dirs[j].Seen(), all, nows[j], nows[j + 1], dirs[j].forward)
        invariant forall j | k <= j < |dirs| :: dirs[j].Seen() == old(dirs[j].Seen())
      {
        dirs[k].DueShown(now);
        if all || (dirs[k].tmax != 0 && TaiaLess(dirs[k].trotate, now)) {
          now := dirs[k].RotateEmpty(now);
          if dirs[k].stuck {
            return false, nows;
          }
        }
        nows := nows + [now];
        k := k + 1;
      }
      alive := true;
    }

    /** logdirs_reopen; without a single working directory svlogd exits. */
    method ReopenAll() returns (alive: bool)
      requires Sane() && !Hung() && Empty(|dirs|)
      modifies dirs
      ensures Sane() && Puts() == old(Puts()) && (alive ==> !Hung() && Opened() != {}) && Empty(|dirs|)
      ensures !alive ==> Over()
      ensures alive ==> AllRenewed(old(Looks()), Looks())
    {
      hide LogDir.Sane, LogDir.Seen, Look.Renewed;
      var k := 0;
      alive := false;
      while k < |dirs|
        invariant 0 <= k <= |dirs| && Sane() && !Hung() && Puts() == old(Puts()) && Empty(|dirs|)
        invariant !alive ==> forall j | 0 <= j < k :: !dirs[j].open && !dirs[j].reliable
        invariant alive ==> exists j: nat :: j < k && dirs[j].open
        invariant forall j | 0 <= j < k :: old(dirs[j].Seen()).Renewed(dirs[j].Seen())
        invariant forall j | k <= j < |dirs| :: dirs[j].Seen() == old(dirs[j].Seen())
      {
        var ok := dirs[k].Reopen();
        if dirs[k].stuck {
          return false;
        }
        alive := alive || ok;
        assert ok ==> dirs[k].open;
        k := k + 1;
      }
      if alive {
        var j: nat :| j < k && dirs[j].open;
        assert j in Opened();
      } else if dirs != [] {
        assert !dirs[0].reliable;
      }
    }

    /** The first part of buffer_pread: everything is flushed, and rotated if an alarm said so. */
    method EmptyAll() returns (alive: bool)
      requires Sane() && !Hung()
      modifies this`rotateasap, dirs
      ensures Sane() && Puts() == old(Puts()) && (alive ==> !Hung() && Empty(|dirs|) && !rotateasap) &&
              Opened() == old(Opened())
      ensures !alive ==> Hung()
      ensures alive ==> AllOpens(old(Looks()), Looks(), 0)
      ensures alive && !old(rotateasap) ==> AllWrote(old(Looks()), Looks())
      ensures alive && old(rotateasap) ==>
              AllRotate(old(Looks()), Looks()) &&
              forall k | 0 <= k < |dirs| && old(Looks())[k].open :: Looks()[k].size == 0
    {
      hide LogDir.Sane, Logger.Sane, Logger.Hung, Logger.Empty, Logger.Puts, Logger.Opened, Logger.Looks,
        Logger.AllWrote, Logger.AllOpens, Logger.AllRotate, Logger.Selected;
      ghost var before := Looks();
      LooksShown();
      alive := FlushAll();
      if alive {
        WroteOpens(before, Looks());
      }
      if alive && rotateasap {
        ghost var mid, nows := Looks(), [];
        alive, nows := RotateAll(true, At(0));
        rotateasap := false;
        if alive {
          AlarmObeyed(before, mid, Looks(), At(0), nows);
          OpensSame(before, mid, Looks(), true, At(0), nows, 0);
        }
      }
    }

    lemma SameLooks()
      ensures forall k | 0 <= k < |dirs| :: dirs[k].Seen().Wrote(dirs[k].Seen())
    {
    }

    lemma OpenShown()
      ensures |Looks()| == |dirs| && forall k: nat | k < |dirs| :: k in Opened() <==> Looks()[k].open
    {
    }

    lemma LooksShown()
      ensures |Looks()| == |dirs| && forall k | 0 <= k < |dirs| :: Looks()[k] == dirs[k].Seen()
    {
    }

    /** buffer_pread: all output is flushed before anything is rotated or reopened.
        Asked to exit, it reads single bytes until a line is complete. */
    method BufferPread(most: nat, now: Instant, offered: Option<Data>) returns (i: int, data: Data, alive: bool)
      requires Sane() && !Hung() && most > 0 && now.Normal()
      modifies this, dirs
      ensures Sane() && Puts() == old(Puts()) && (alive ==> !Hung() && Empty(|dirs|))
      ensures (!old(reopenasap) ==> Opened() == old(Opened())) && (reopenasap ==> old(reopenasap))
      ensures exitasap == old(exitasap) && -1 <= i <= most && |data| == if i < 0 then 0 else i
      ensures alive && exitasap && old(linecomplete) ==> i == 0
      ensures alive && !(exitasap && old(linecomplete)) ==>
                var len := if exitasap then 1 else most;
                if offered.None? then i == -1
                else i == (if |offered.value| < len then |offered.value| else len) && data == offered.value[..i]
      ensures i > 0 ==> (linecomplete <==> data[i - 1] == NEWLINE)
      ensures i <= 0 ==> linecomplete == old(linecomplete)
      ensures !alive ==> Over()
      ensures alive ==> !rotateasap && (reopenasap ==> exitasap && linecomplete)
      ensures alive ==>
              AllOpens(old(Looks()), Looks(), if old(reopenasap) && !(exitasap && old(linecomplete)) then 1 else 0)
      ensures alive && old(rotateasap) ==> AllRotate(old(Looks()), Looks())
      ensures alive && !old(rotateasap) && !old(reopenasap) && !(exitasap && old(linecomplete)) ==>
              DueRotate(old(Looks()), Looks(), now)
    {
      hide LogDir.Sane, Logger.Sane, Logger.Hung, Logger.Empty, Logger.Puts, Logger.Opened, Logger.Looks,
        Logger.AllWrote, Logger.AllOpens, Logger.AllRotate, Logger.AllGrew, Logger.AllRenewed, Logger.DueRotate,
        Logger.Selected;
      i, data := 0, [];
      OpenShown();
      alive := EmptyAll();
      OpenShown();
      var len := most;
      if !alive {
        return;
      }
      if exitasap {
        if linecomplete {
          return;
        }
        len := 1;
      }
      alive := ReopenAndRotate(old(Looks()), now, old(rotateasap));
      if alive {
        i, data := ReadInput(len, offered);
        if i > 0 {
          linecomplete := data[i - 1] == NEWLINE;
        }
      }
    }

    /** The rest of it before the read. */
    method ReopenAndRotate(ghost before: seq<Look>, now: Instant, ghost alarmed: bool) returns (alive: bool)
      requires Sane() && !Hung() && Empty(|dirs|) && now.Normal() && |before| == |dirs|
      requires AllOpens(before, Looks(), 0) && if alarmed then AllRotate(before, Looks()) else AllWrote(before, Looks())
      requires forall k | 0 <= k < |dirs| :: Looks()[k].open == before[k].open
      modifies this`reopenasap, dirs
      ensures Sane() && Puts() == old(Puts()) && (alive ==> !Hung() && Empty(|dirs|) && !reopenasap)
      ensures (!old(reopenasap) ==> Opened() == old(Opened())) && (reopenasap ==> old(reopenasap))
      ensures !alive ==> Over()
      ensures alive ==> AllOpens(before, Looks(), if old(reopenasap) then 1 else 0)
      ensures alive && alarmed ==> AllRotate(before, Looks())
      ensures alive && !alarmed && !old(reopenasap) ==> DueRotate(before, Looks(), now)
    {
      hide LogDir.Sane, Logger.Sane, Logger.Hung, Logger.Empty, Logger.Puts, Logger.Opened, Logger.Looks,
        Logger.AllWrote, Logger.AllOpens, Logger.AllRotate, Logger.AllGrew, Logger.AllRenewed, Logger.DueRotate,
        Logger.Selected;
      alive := true;
      ghost var reopened := reopenasap;
      if reopenasap {
        ghost var mid := Looks();
        alive := ReopenAll();
        reopenasap := false;
        if alive {
          RenewedMeans(mid, Looks());
          OpensMore(before, mid, Looks());
        }
        if alive && alarmed {
          ReopenStays(before, mid, Looks());
        }
      }
      if alive {
        ghost var mid, nows := Looks(), [];
        alive, nows := RotateAll(false, now);
        if alive {
          OpensSame(before, mid, Looks(), false, now, nows, if reopened then 1 else 0);
        }
        if alive && alarmed {
          GrewStays(before, mid, Looks(), now, nows);
        } else if alive && !reopened {
          AgeObeyed(before, mid, Looks(), now, nows);
        }
      }
    }

    /** read(2) of what is offered, if it does not fail. */
    method ReadInput(len: nat, offered: Option<Data>) returns (i: int, data: Data)
      requires len > 0
      ensures offered.None? ==> i == -1 && data == []
      ensures offered.Some? ==>
              i == (if |offered.value| < len then |offered.value| else len) && data == offered.value[..i]
    {
      if offered.None? {
        return -1, [];
      }
      i := if |offered.value| < len then |offered.value| else len;
      data := offered.value[..i];
    }

    /** svlogd from its start on: at least one directory must open. */
    method Serve(events: seq<Event>) returns (alive: bool, ghost ready: seq<set<nat>>)
      requires Sane() && !Hung() && Empty(|dirs|)
      modifies this, dirs, set k | 0 <= k < |dirs| :: dirs[k].x
      ensures Sane() && (alive ==> !Hung())
      ensures Held(old(Puts()), events, ready, alive) && (ready != [] ==> ready[0] != {})
      ensures !alive && Reliable() && dirs != [] ==> Jammed()
      ensures !alive ==> Over()
    {
      hide LogDir.Sane, Logger.Sane, Logger.Hung, Logger.Empty;
      alive := ReopenAll();
      ready := [];
      if alive {
        alive, ready := Run(events);
      } else {
        NothingYet(events);
        if Reliable() && dirs != [] {
          OverJammed();
        }
      }
    }

    lemma NothingYet(events: seq<Event>)
      ensures Held(Puts(), events, [], false)
    {
      assert events[..0] == [];
    }

    /** Any run of output, flushes, reads and signals.  "ready" are the directories that
        are open before each event that happens; they only change when a hangup is obeyed. */
    method Run(events: seq<Event>) returns (alive: bool, ghost ready: seq<set<nat>>)
      requires Sane() && !Hung()
      modifies this, dirs, set k | 0 <= k < |dirs| :: dirs[k].x
      ensures Sane() && (alive ==> !Hung())
      ensures Held(old(Puts()), events, ready, alive)
      ensures ready != [] ==> ready[0] == old(Opened())
      ensures !old(reopenasap) && Hangup !in events ==> forall o <- ready :: o == old(Opened())
      ensures !alive && Reliable() && dirs != [] ==> Jammed()
      ensures !alive ==> Over()
    {
      hide LogDir.Sane, Logger.Sane, Logger.Hung, Logger.Opened, Logger.Puts, GivenBy, Given;
      var n := 0;
      alive, ready := true, [];
      PutsShown();
      NothingYet(events);
      while n < |events| && alive
        invariant !alive ==> Over()
        invariant 0 <= n <= |events| && Sane() && (alive ==> !Hung())
        invariant |ready| == n && Held(old(Puts()), events[..n], ready, alive) && (n > 0 ==> ready[0] == old(Opened()))
        invariant n == 0 ==> Opened() == old(Opened()) && reopenasap == old(reopenasap)
        invariant !old(reopenasap) && Hangup !in events ==> !reopenasap && Opened() == old(Opened())
        invariant !old(reopenasap) && Hangup !in events ==> forall o <- ready :: o == old(Opened())
      {
        ghost var before, now := Puts(), Opened();
        PutsShown();
        assert events[n] in events;
        alive := Step(events[n]);
        HeldStep(old(Puts()), before, events, n, ready, now, alive);
        ready := ready + [now];
        n := n + 1;
      }
      HeldPrefix(old(Puts()), events, n, ready, alive);
      if !alive && Reliable() && dirs != [] {
        OverJammed();
      }
    }

    /** What every directory was given while it was open is what has been put into it. */
    ghost predicate Held(before: seq<Data>, events: seq<Event>, ready: seq<set<nat>>, alive: bool)
      reads dirs
    {
      && |before| == |dirs| && |ready| <= |events| && (alive ==> |ready| == |events|)
      && forall k | 0 <= k < |dirs| :: dirs[k].put == before[k] + GivenBy(events[..|ready|], ready, k)
    }

    lemma HeldStep(
        start: seq<Data>, before: seq<Data>, events: seq<Event>, n: nat, ready: seq<set<nat>>, now: set<nat>,
        alive: bool)
      requires n < |events| && |ready| == n && |start| == |dirs| == |before|
      requires forall k | 0 <= k < |dirs| :: before[k] == start[k] + GivenBy(events[..n][..n], ready, k)
      requires forall k | 0 <= k < |dirs| :: dirs[k].put == before[k] + if k in now then Given(events[n], k) else []
      ensures Held(start, events[..n + 1], ready + [now], alive)
    {
      var longer := ready + [now];
      assert events[..n + 1][..|longer|] == events[..n + 1] && events[..n][..n] == events[..n] &&
              events[..n + 1][..n] == events[..n] && longer[..n] == ready;
    }

    lemma HeldPrefix(start: seq<Data>, events: seq<Event>, n: nat, ready: seq<set<nat>>, alive: bool)
      requires n <= |events| && |ready| == n && Held(start, events[..n], ready, alive) && (alive ==> n == |events|)
      ensures Held(start, events, ready, alive)
    {
      assert events[..n][..n] == events[..n];
    }

    lemma PutsShown()
      ensures |Puts()| == |dirs| && forall k | 0 <= k < |dirs| :: Puts()[k] == dirs[k].put
    {
    }

    /** One event gives a directory its own bytes if the directory is open. */
    method Step(e: Event) returns (alive: bool)
      requires Sane() && !Hung()
      modifies this, dirs, set k | 0 <= k < |dirs| :: dirs[k].x
      ensures Sane() && (alive ==> !Hung())
      ensures forall k | 0 <= k < |dirs| ::
              dirs[k].put == old(Puts())[k] + if k in old(Opened()) then Given(e, k) else []
      ensures !e.Read? || !old(reopenasap) ==> Opened() == old(Opened())
      ensures reopenasap ==> old(reopenasap) || e.Hangup?
      ensures exitasap == (old(exitasap) || e.Term?)
      ensures alive ==> rotateasap == (e.Alarm? || (old(rotateasap) && !Reads(e)))
      ensures alive && !Reads(e) ==> reopenasap == (old(reopenasap) || e.Hangup?)
      ensures alive && Reads(e) ==>
              AllOpens(old(Looks()), Looks(), if old(reopenasap) && !(exitasap && old(linecomplete)) then 1 else 0)
      ensures alive && Reads(e) ==> (reopenasap ==> exitasap && linecomplete)
      ensures alive && Reads(e) && old(rotateasap) ==> AllRotate(old(Looks()), Looks())
      ensures alive && Reads(e) && !old(rotateasap) && !old(reopenasap) && !(exitasap && old(linecomplete)) ==>
              DueRotate(old(Looks()), Looks(), At(e.clock))
      ensures !alive ==> Over()
    {
      hide LogDir.Sane, Logger.Sane, Logger.Hung;
      alive := true;
      match e
      case Put(k, data) => alive := StepPut(k, data);
      case Putc(k, c) => alive := StepPutc(k, c);
      case Flush(k) => alive := StepFlush(k);
      case Read(len, clock, offered) => alive := StepRead(len, At(clock), offered);
      case Alarm => rotateasap := true;
      case Hangup => reopenasap := true;
      case Term => exitasap := true;
    }

    method StepPut(k: nat, data: Data) returns (alive: bool)
      requires Sane() && !Hung()
      modifies this, dirs, set k | 0 <= k < |dirs| :: dirs[k].x
      ensures Sane() && (alive ==> !Hung())
      ensures Opened() == old(Opened()) && unchanged(this)
      ensures forall j | 0 <= j < |dirs| ::
              dirs[j].put == old(dirs[j].put) + if j == k && old(dirs[j].open) then data else []
      ensures !alive ==> Over()
    {
      hide LogDir.Sane;
      alive := true;
      if k < |dirs| && dirs[k].open {
        var buf := new int[|data|](j requires 0 <= j < |data| => data[j]);
        assert buf[0..|data|] == data;
        dirs[k].BufferPut(buf, 0, |data|);
        alive := !dirs[k].stuck;
      }
    }

    method StepPutc(k: nat, c: int) returns (alive: bool)
      requires Sane() && !Hung()
      modifies this, dirs, set k | 0 <= k < |dirs| :: dirs[k].x
      ensures Sane() && (alive ==> !Hung())
      ensures Opened() == old(Opened()) && unchanged(this)
      ensures forall j | 0 <= j < |dirs| ::
              dirs[j].put == old(dirs[j].put) + if j == k && old(dirs[j].open) then [c] else []
      ensures !alive ==> Over()
    {
      hide LogDir.Sane;
      alive := true;
      if k < |dirs| && dirs[k].open {
        dirs[k].BufferPutc(c);
        alive := !dirs[k].stuck;
      }
    }

    method StepFlush(k: nat) returns (alive: bool)
      requires Sane() && !Hung()
      modifies this, dirs
      ensures Sane() && (alive ==> !Hung())
      ensures Opened() == old(Opened()) && unchanged(this)
      ensures forall j | 0 <= j < |dirs| :: dirs[j].put == old(dirs[j].put)
      ensures !alive ==> Over()
    {
      hide LogDir.Sane;
      alive := true;
      if k < |dirs| {
        dirs[k].Flush();
        alive := !dirs[k].stuck;
      }
    }

    method StepRead(len: nat, now: Instant, offered: Option<Data>) returns (alive: bool)
      requires Sane() && !Hung() && now.Normal()
      modifies this, dirs
      ensures (len == 0 ==> unchanged(this)) && exitasap == old(exitasap) && (alive && len > 0 ==> !rotateasap)
      ensures alive && len > 0 ==> (reopenasap ==> exitasap && linecomplete)
      ensures alive && len > 0 ==>
              AllOpens(old(Looks()), Looks(), if old(reopenasap) && !(exitasap && old(linecomplete)) then 1 else 0)
      ensures alive && len > 0 && old(rotateasap) ==> AllRotate(old(Looks()), Looks())
      ensures alive && len > 0 && !old(rotateasap) && !old(reopenasap) && !(exitasap && old(linecomplete)) ==>
              DueRotate(old(Looks()), Looks(), now)
      ensures Sane() && (alive ==> !Hung())
      ensures (!old(reopenasap) ==> Opened() == old(Opened())) && (reopenasap ==> old(reopenasap))
      ensures forall j | 0 <= j < |dirs| :: dirs[j].put == old(dirs[j].put)
      ensures !alive ==> Over()
    {
      hide LogDir.Sane, Logger.Sane, Logger.Hung, Logger.Empty;
      ghost var before := Puts();
      assert forall k | 0 <= k < |dirs| :: before[k] == dirs[k].put;
      alive := true;
      if len > 0 {
        var i, data;
        i, data, alive := BufferPread(len, now, offered);
      }
      assert forall k | 0 <= k < |dirs| :: Puts()[k] == before[k];
    }
  }

  /** A read with room for at least one byte. */
  predicate Reads(e: Event) {
    e.Read? && e.len > 0
  }

  function Given(e: Event, k: nat): Data {
    match e
    case Put(j, data) => if j == k then data else []
    case Putc(j, c) => if j == k then [c] else []
    case _ => []
  }

  /** What directory k was given by events that found these directories open. */
  function GivenBy(events: seq<Event>, ready: seq<set<nat>>, k: nat): Data
    requires |events| == |ready|
  {
    if events == [] then []
    else
      var n := |events| - 1;
      GivenBy(events[..n], ready[..n], k) + if k in ready[n] then Given(events[n], k) else []
  }
}
