/** The trimmer's policy: which of the sorted archives have to go. */
module Trimming {
  import opened LogStore

  datatype Entry = Entry(name: Name, size: nat)

  /** filesize_cmp: the 26 characters after '@' order by timestamp, then 's' before 'u'. */
  predicate Older(a: Name, b: Name)
    requires a.Archive? && b.Archive?
  {
    a.stamp < b.stamp || (a.stamp == b.stamp && a.suffix.Finished? && b.suffix.Unfinished?)
  }

  predicate AllArchives(es: seq<Entry>) {
    forall e <- es :: e.name.Archive?
  }

  predicate Distinct(es: seq<Entry>) {
    forall j, k | 0 <= j < k < |es| :: es[j].name != es[k].name
  }

  ghost predicate OldestFirst(es: seq<Entry>)
    requires AllArchives(es)
  {
    forall j, k | 0 <= j < k < |es| :: Older(es[j].name, es[k].name)
  }

  function Insert(e: Entry, es: seq<Entry>): (r: seq<Entry>)
    requires e.name.Archive? && AllArchives(es)
    ensures AllArchives(r) && multiset(r) == multiset(es) + multiset{e}
  {
    if es == [] then [e]
    else if Older(es[0].name, e.name) then
      var rest := Insert(e, es[1..]);
      assert es == [es[0]] + es[1..];
      assert forall x <- rest :: x in multiset(rest);
      [es[0]] + rest
    else [e] + es
  }

  /** What qsort leaves: the same entries, oldest first. */
  function Sort(es: seq<Entry>): (r: seq<Entry>)
    requires AllArchives(es)
    ensures AllArchives(r) && multiset(r) == multiset(es)
  {
    if es == [] then []
    else
      assert es == [es[0]] + es[1..];
      Insert(es[0], Sort(es[1..]))
  }

  lemma {:induction false} InsertSorts(e: Entry, es: seq<Entry>)
    requires e.name.Archive? && AllArchives(es) && OldestFirst(es)
    requires forall x <- es :: x.name != e.name
    ensures OldestFirst(Insert(e, es))
  {
    if es != [] && Older(es[0].name, e.name) {
      InsertSorts(e, es[1..]);
      var rest := Insert(e, es[1..]);
      forall k | 0 <= k < |rest| ensures Older(es[0].name, rest[k].name) {
        assert rest[k] in multiset(rest);
        assert rest[k] == e || rest[k] in es[1..];
      }
    }
  }

  lemma {:induction false} SortSorts(es: seq<Entry>)
    requires AllArchives(es) && Distinct(es)
    ensures OldestFirst(Sort(es)) && Distinct(Sort(es)) && |Sort(es)| == |es|
    ensures forall e :: e in Sort(es) <==> e in es
  {
    assert |multiset(Sort(es))| == |multiset(es)|;
    if es != [] {
      SortSorts(es[1..]);
      forall x <- Sort(es[1..]) ensures x.name != es[0].name {
        assert x in multiset(Sort(es[1..]));
        var k :| 0 <= k < |es[1..]| && es[1..][k] == x;
        assert es[0].name != es[k + 1].name;
      }
      InsertSorts(es[0], Sort(es[1..]));
    }
    forall e ensures e in Sort(es) <==> e in es {
      assert e in Sort(es) <==> e in multiset(Sort(es));
    }
  }

  function Total(es: seq<Entry>): nat {
    if es == [] then 0 else es[0].size + Total(es[1..])
  }

  /** The bytes that stay because unlink(2) refuses those names. */
  function Stuck(es: seq<Entry>, refused: set<Name>): nat {
    if es == [] then 0 else (if es[0].name in refused then es[0].size else 0) + Stuck(es[1..], refused)
  }

  /** Too many archives, or (when a limit is set) too many bytes of them. */
  predicate Exceeds(es: seq<Entry>, limit: nat, maxSize: nat) {
    |es| > limit || (maxSize > 0 && Total(es) > maxSize)
  }

  /** How many of the oldest archives have to go. */
  function Excess(es: seq<Entry>, limit: nat, maxSize: nat): (k: nat)
    ensures k <= |es|
  {
    if es != [] && Exceeds(es, limit, maxSize) then 1 + Excess(es[1..], limit, maxSize) else 0
  }

  /** The trimmer keeps the longest suffix of newest archives within both limits. */
  lemma {:induction false} ExcessIsLeast(es: seq<Entry>, limit: nat, maxSize: nat, k: nat)
    requires k <= |es|
    ensures !Exceeds(es[k..], limit, maxSize) <==> Excess(es, limit, maxSize) <= k
  {
    if es == [] {
      assert es[k..] == [];
    } else if !Exceeds(es, limit, maxSize) {
      TotalSuffix(es, k);
    } else if k > 0 {
      ExcessIsLeast(es[1..], limit, maxSize, k - 1);
      assert es[1..][k - 1..] == es[k..];
    } else {
      assert es[k..] == es;
    }
  }

  lemma {:induction false} TotalSuffix(es: seq<Entry>, k: nat)
    requires k <= |es|
    ensures Total(es[k..]) <= Total(es)
  {
    if k == 0 {
      assert es[k..] == es;
    } else {
      TotalSuffix(es[1..], k - 1);
      assert es[1..][k - 1..] == es[k..];
    }
  }

  lemma {:induction false} StuckSplit(es: seq<Entry>, refused: set<Name>, k: nat)
    requires k <= |es|
    ensures Stuck(es, refused) == Stuck(es[..k], refused) + Stuck(es[k..], refused)
    ensures Stuck(es[k..], refused) <= Total(es[k..])
  {
    if k == 0 {
      assert es[k..] == es && es[..k] == [];
      if es != [] {
        StuckSplit(es[1..], refused, 0);
      }
    } else {
      StuckSplit(es[1..], refused, k - 1);
      assert es[1..][k - 1..] == es[k..] && es[1..][..k - 1] == es[..k][1..];
    }
  }

  lemma {:induction false} NothingStuck(es: seq<Entry>)
    ensures Stuck(es, {}) == 0
  {
    if es != [] {
      NothingStuck(es[1..]);
    }
  }

  lemma {:induction false} InsertTotal(e: Entry, es: seq<Entry>)
    requires e.name.Archive? && AllArchives(es)
    ensures Total(Insert(e, es)) == e.size + Total(es)
  {
    if es != [] && Older(es[0].name, e.name) {
      InsertTotal(e, es[1..]);
    }
  }

  lemma {:induction false} SortTotal(es: seq<Entry>)
    requires AllArchives(es)
    ensures Total(Sort(es)) == Total(es)
  {
    if es != [] {
      SortTotal(es[1..]);
      InsertTotal(es[0], Sort(es[1..]));
    }
  }

  lemma {:induction false} TotalAppend(es: seq<Entry>, e: Entry)
    ensures Total(es + [e]) == Total(es) + e.size
  {
    if es == [] {
      assert es + [e] == [e];
    } else {
      TotalAppend(es[1..], e);
      assert (es + [e])[1..] == es[1..] + [e];
    }
  }

  lemma {:induction false} StuckAppend(es: seq<Entry>, e: Entry, refused: set<Name>)
    ensures Stuck(es + [e], refused) == Stuck(es, refused) + (if e.name in refused then e.size else 0)
  {
    StuckSplit(es + [e], refused, |es|);
    assert (es + [e])[..|es|] == es && (es + [e])[|es|..] == [e];
    assert Stuck([e], refused) == (if e.name in refused then e.size else 0) + Stuck([], refused);
  }

  /** The archives from n on are too many, or with what is stuck before them too big. */
  predicate Over(es: seq<Entry>, n: nat, refused: set<Name>, limit: nat, maxSize: nat)
    requires n <= |es|
  {
    |es| > limit + n || (maxSize > 0 && Total(es[n..]) + Stuck(es[..n], refused) > maxSize)
  }

  /** How many of the oldest archives have to go, or be tried, when "kept" bytes of older
      ones are stuck already. */
  function Needed(es: seq<Entry>, refused: set<Name>, kept: nat, limit: nat, maxSize: nat): (k: nat)
    ensures k <= |es|
  {
    if es != [] && (|es| > limit || (maxSize > 0 && Total(es) + kept > maxSize)) then
      1 + Needed(es[1..], refused, kept + (if es[0].name in refused then es[0].size else 0), limit, maxSize)
    else 0
  }

  /** If nothing is refused, that is the number of archives over the limits. */
  lemma {:induction false} NeededExcess(es: seq<Entry>, limit: nat, maxSize: nat)
    ensures Needed(es, {}, 0, limit, maxSize) == Excess(es, limit, maxSize)
  {
    if es != [] {
      NeededExcess(es[1..], limit, maxSize);
    }
  }

  /** Before that many, the rest is over the limits; with that many, only what is stuck can be. */
  lemma {:induction false} NeededIsLeast(
      es: seq<Entry>, refused: set<Name>, kept: nat, limit: nat, maxSize: nat, k: nat)
    requires k <= |es|
    ensures var over := |es| > limit + k || (maxSize > 0 && Total(es[k..]) + kept + Stuck(es[..k], refused) > maxSize);
            var m := Needed(es, refused, kept, limit, maxSize);
            (k < m ==> over) && (k >= m && over ==> maxSize > 0 && kept + Stuck(es, refused) > maxSize)
  {
    assert es[0..] == es && es[..0] == [];
    if es == [] {
      assert es[k..] == [] && es[..k] == [];
    } else if |es| > limit || (maxSize > 0 && Total(es) + kept > maxSize) {
      if k > 0 {
        var more := kept + if es[0].name in refused then es[0].size else 0;
        NeededIsLeast(es[1..], refused, more, limit, maxSize, k - 1);
        assert es[1..][k - 1..] == es[k..] && es[1..][..k - 1] == es[..k][1..];
      }
    } else {
      StuckSplit(es, refused, k);
      TotalStuck(es, refused, k);
    }
  }

  lemma {:induction false} TotalStuck(es: seq<Entry>, refused: set<Name>, k: nat)
    requires k <= |es|
    ensures Total(es[k..]) + Stuck(es[..k], refused) <= Total(es)
  {
    if k == 0 {
      assert es[k..] == es && es[..k] == [];
    } else {
      TotalStuck(es[1..], refused, k - 1);
      assert es[1..][k - 1..] == es[k..] && es[1..][..k - 1] == es[..k][1..];
    }
  }

  // ----- the trimming loop -----

  /** The loop's guard after n removals, with a 32-bit sum. */
  predicate Guard(count: nat, n: nat, total: nat, limit: nat, maxSize: nat) {
    count > (limit + n) % UINT_WRAP || (maxSize > 0 && total > maxSize)
  }

  /** The loop runs out of entries exactly when those that cannot be removed are by
      themselves over the size limit, or when the count limit and the number of removals
      that are needed do not fit a word together. */
  predicate Overruns(es: seq<Entry>, refused: set<Name>, limit: nat, maxSize: nat) {
    (maxSize > 0 && Stuck(es, refused) > maxSize) || limit + Needed(es, refused, 0, limit, maxSize) >= UINT_WRAP
  }

  /** How far the loop has come: "total" counts what is left and what is stuck.  It goes
      beyond what is needed only if it is going to overrun. */
  ghost predicate Progress(es: seq<Entry>, n: nat, total: nat, refused: set<Name>, limit: nat, maxSize: nat) {
    && n <= |es|
    && total == Total(es[n..]) + Stuck(es[..n], refused)
    && (n <= Needed(es, refused, 0, limit, maxSize) || limit + Needed(es, refused, 0, limit, maxSize) >= UINT_WRAP)
  }

  /** Where the loop stops. */
  ghost predicate Trimmed(es: seq<Entry>, n: nat, refused: set<Name>, limit: nat, maxSize: nat) {
    !Overruns(es, refused, limit, maxSize) && n == Needed(es, refused, 0, limit, maxSize)
  }

  /** The guard holds wherever the limits are exceeded, and once the sum has wrapped. */
  lemma GuardOver(es: seq<Entry>, n: nat, refused: set<Name>, limit: nat, maxSize: nat)
    requires n <= |es| && limit < UINT_WRAP
    ensures Guard(|es|, n, Total(es[n..]) + Stuck(es[..n], refused), limit, maxSize) <==>
            Over(es, n, refused, limit, maxSize) || limit + n >= UINT_WRAP
  {
    Wraps(limit, n);
  }

  lemma Wraps(limit: nat, n: nat)
    requires limit < UINT_WRAP
    ensures (limit + n) % UINT_WRAP <= limit + n
    ensures limit + n < UINT_WRAP ==> (limit + n) % UINT_WRAP == limit + n
    ensures limit + n >= UINT_WRAP ==> (limit + n) % UINT_WRAP < n
  {
    if limit + n >= UINT_WRAP && n < UINT_WRAP {
      assert (limit + n) % UINT_WRAP == limit + n - UINT_WRAP;
    }
  }

  /** The guard never fails, at any number of removals, exactly when the loop overruns. */
  lemma GuardAlwaysIffOverruns(es: seq<Entry>, refused: set<Name>, limit: nat, maxSize: nat)
    requires limit < UINT_WRAP
    ensures (forall n | 0 <= n <= |es| :: Guard(|es|, n, Total(es[n..]) + Stuck(es[..n], refused), limit, maxSize)) <==>
            Overruns(es, refused, limit, maxSize)
  {
    hide Guard, Needed, Overruns;
    if Overruns(es, refused, limit, maxSize) {
      forall n | 0 <= n <= |es|
        ensures Guard(|es|, n, Total(es[n..]) + Stuck(es[..n], refused), limit, maxSize)
      {
        GuardHolds(es, n, refused, limit, maxSize);
      }
    } else {
      var m := GuardFails(es, refused, limit, maxSize);
    }
  }

  lemma GuardHolds(es: seq<Entry>, n: nat, refused: set<Name>, limit: nat, maxSize: nat)
    requires limit < UINT_WRAP && n <= |es| && Overruns(es, refused, limit, maxSize)
    ensures Guard(|es|, n, Total(es[n..]) + Stuck(es[..n], refused), limit, maxSize)
  {
    hide Guard, Needed, Stuck, Total;
    GuardOver(es, n, refused, limit, maxSize);
    NeededIsLeast(es, refused, 0, limit, maxSize, n);
    StuckSplit(es, refused, n);
  }

  lemma GuardFails(es: seq<Entry>, refused: set<Name>, limit: nat, maxSize: nat) returns (m: nat)
    requires limit < UINT_WRAP && !Overruns(es, refused, limit, maxSize)
    ensures m <= |es| && !Guard(|es|, m, Total(es[m..]) + Stuck(es[..m], refused), limit, maxSize)
  {
    hide Guard, Needed, Stuck, Total;
    m := Needed(es, refused, 0, limit, maxSize);
    GuardOver(es, m, refused, limit, maxSize);
    NeededIsLeast(es, refused, 0, limit, maxSize, m);
  }

  lemma ProgressStart(es: seq<Entry>, refused: set<Name>, limit: nat, maxSize: nat)
    ensures Progress(es, 0, Total(es), refused, limit, maxSize)
  {
    assert es[0..] == es && es[..0] == [];
  }

  /** One more removal: either the limits are exceeded, or the sum has wrapped and the
      loop is going to overrun. */
  lemma ProgressStep(es: seq<Entry>, n: nat, total: nat, refused: set<Name>, limit: nat, maxSize: nat)
    requires n < |es| && limit < UINT_WRAP
    requires Progress(es, n, total, refused, limit, maxSize) && Guard(|es|, n, total, limit, maxSize)
    ensures total >= es[n].size
    ensures Progress(es, n + 1, if es[n].name in refused then total else total - es[n].size, refused, limit, maxSize)
    ensures Over(es, n, refused, limit, maxSize) || Overruns(es, refused, limit, maxSize)
  {
    assert es[..n + 1] == es[..n] + [es[n]];
    StuckAppend(es[..n], es[n], refused);
    assert es[n..][1..] == es[n + 1..];
    GuardOver(es, n, refused, limit, maxSize);
    var m := Needed(es, refused, 0, limit, maxSize);
    if n == m && limit + m < UINT_WRAP {
      NeededIsLeast(es, refused, 0, limit, maxSize, n);
      AllStuck(es, refused, limit, maxSize);
    }
  }

  /** If what is stuck is over the size limit, every entry is tried. */
  lemma AllStuck(es: seq<Entry>, refused: set<Name>, limit: nat, maxSize: nat)
    requires maxSize > 0 && Stuck(es, refused) > maxSize
    ensures Needed(es, refused, 0, limit, maxSize) == |es|
  {
    var m := Needed(es, refused, 0, limit, maxSize);
    StuckSplit(es, refused, m);
    NeededStops(es, refused, 0, limit, maxSize);
  }

  /** It stops only where the limits are met. */
  lemma {:induction false} NeededStops(es: seq<Entry>, refused: set<Name>, kept: nat, limit: nat, maxSize: nat)
    ensures var m := Needed(es, refused, kept, limit, maxSize);
            m < |es| ==>
                |es| <= limit + m && (maxSize > 0 ==> Total(es[m..]) + kept + Stuck(es[..m], refused) <= maxSize)
  {
    assert es[0..] == es && es[..0] == [];
    if es != [] && (|es| > limit || (maxSize > 0 && Total(es) + kept > maxSize)) {
      var more := kept + if es[0].name in refused then es[0].size else 0;
      NeededStops(es[1..], refused, more, limit, maxSize);
      var m := Needed(es[1..], refused, more, limit, maxSize);
      assert es[1..][m..] == es[m + 1..] && es[1..][..m] == es[..m + 1][1..];
    }
  }

  lemma ProgressOverrun(es: seq<Entry>, total: nat, refused: set<Name>, limit: nat, maxSize: nat)
    requires limit < UINT_WRAP
    requires Progress(es, |es|, total, refused, limit, maxSize) && Guard(|es|, |es|, total, limit, maxSize)
    ensures Overruns(es, refused, limit, maxSize)
  {
    assert es[..|es|] == es && es[|es|..] == [];
    GuardOver(es, |es|, refused, limit, maxSize);
  }

  lemma ProgressEnd(es: seq<Entry>, n: nat, total: nat, refused: set<Name>, limit: nat, maxSize: nat)
    requires limit < UINT_WRAP
    requires Progress(es, n, total, refused, limit, maxSize) && !Guard(|es|, n, total, limit, maxSize)
    ensures Trimmed(es, n, refused, limit, maxSize)
  {
    StuckSplit(es, refused, n);
    GuardOver(es, n, refused, limit, maxSize);
    NeededIsLeast(es, refused, 0, limit, maxSize, n);
  }

  /** Nothing has to go: the test before the loop. */
  lemma NoneNeeded(es: seq<Entry>, refused: set<Name>, limit: nat, maxSize: nat)
    requires limit < UINT_WRAP && |es| <= limit && (maxSize == 0 || Total(es) <= maxSize)
    ensures Trimmed(es, 0, refused, limit, maxSize)
  {
    StuckSplit(es, refused, 0);
    assert es[0..] == es;
  }

  /** When every unlink works, the loop overruns exactly if the limit and the number of
      archives over the limits do not fit a word together; else it removes just those. */
  lemma NothingRefused(es: seq<Entry>, limit: nat, maxSize: nat)
    ensures Overruns(es, {}, limit, maxSize) <==> limit + Excess(es, limit, maxSize) >= UINT_WRAP
    ensures forall n :: Trimmed(es, n, {}, limit, maxSize) <==>
              limit + Excess(es, limit, maxSize) < UINT_WRAP && n == Excess(es, limit, maxSize)
  {
    NothingStuck(es);
    NeededExcess(es, limit, maxSize);
  }

  /** With the largest count limit, two archives of four and three bytes and a size limit of
      four, one removal is enough, but the loop does not stop. */
  lemma LargestLimitOverruns()
    ensures var es, limit := [Entry(Archive(1, Finished), 4), Entry(Archive(2, Finished), 3)], UINT_WRAP - 1;
            && Excess(es, limit, 4) == 1 && Overruns(es, {}, limit, 4)
            && forall n | 0 <= n <= |es| :: Guard(|es|, n, Total(es[n..]) + Stuck(es[..n], {}), limit, 4)
  {
    var es, limit := [Entry(Archive(1, Finished), 4), Entry(Archive(2, Finished), 3)], UINT_WRAP - 1;
    assert Total(es[1..]) == 3 + Total(es[1..][1..]) && es[1..][1..] == [];
    assert Total(es) == 7;
    assert Excess(es[1..], limit, 4) == 0;
    NothingRefused(es, limit, 4);
    GuardAlwaysIffOverruns(es, {}, limit, 4);
  }
}
