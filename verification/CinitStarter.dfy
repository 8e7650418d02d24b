/** cinit's starter: the loop over deps_pending, and what exits do to it. */
module CinitStarter {
  import opened DepRing
  import opened CinitTree

  datatype Verdict = NeedsStarted | NeedsFailed | NeedsUnfinished

  predicate HasFailed(s: set<Flag>) {
    NeedFailed in s || OnceFail in s || BadErr in s
  }

  predicate IsUnfinished(s: set<Flag>) {
    ShOnce in s || ShRespawn in s || OnceRun in s
  }

  predicate IsUp(s: set<Flag>) {
    OnceOk in s || Respawning in s
  }

  predicate ShouldStart(s: set<Flag>) {
    ShOnce in s || ShRespawn in s
  }

  /** The words that a service of either sort can have, outside or inside the list. */
  predicate Legal(cfg: Config, p: Path, s: set<Flag>) {
    if Initial(cfg, p) == {ShOnce} then
      s == {ShOnce} || s == {ShOnce, InList} || s == {OnceRun} || s == {OnceOk} || s == {NeedFailed} || s == {BadErr}
    else
      s == {ShRespawn} || s == {ShRespawn, InList} || s == {Respawning} || s == {NeedFailed} || s == {BadErr}
  }

  /** A need that is up has neither failed nor is it unfinished, and there is nothing else. */
  lemma LegalVerdict(cfg: Config, p: Path, s: set<Flag>)
    requires Legal(cfg, p, s)
    ensures IsUp(s) <==> !HasFailed(s) && !IsUnfinished(s)
  {
  }

  /** One call of svc_start: the status words of the needs at that moment, and the
      services that had a running process. */
  datatype Start = Start(svc: ListItem, needs: seq<set<Flag>>, live: set<ListItem>)

  function Statuses(g: Graph, xs: seq<ListItem>): seq<set<Flag>> {
    seq(|xs|, k requires 0 <= k < |xs| => g.StatusOf(xs[k]))
  }

  function Starts(log: seq<Start>, x: ListItem): nat {
    if log == [] then 0 else Starts(log[..|log| - 1], x) + if log[|log| - 1].svc == x then 1 else 0
  }

  lemma StartsAppend(log: seq<Start>, e: Start, x: ListItem)
    ensures Starts(log + [e], x) == Starts(log, x) + if e.svc == x then 1 else 0
  {
    assert (log + [e])[..|log|] == log;
  }

  /** Services on the list, and no others, carry the bit that says so. */
  ghost predicate Marked(g: Graph, listed: seq<ListItem>) {
    && (forall j, k | 0 <= j < k < |listed| :: listed[j] != listed[k])
    && (forall x <- listed :: x in g.items)
    && (forall i <- g.items :: i in listed <==> InList in g.StatusOf(i))
  }

  /** Every status word is one of the legal ones. */
  ghost predicate AllLegal(g: Graph, cfg: Config) {
    forall i <- g.items :: Legal(cfg, i.absPath, g.StatusOf(i))
  }

  /** Nothing was started without its needs, or over a running process of its own. */
  ghost predicate Sound(g: Graph, cfg: Config, log: seq<Start>) {
    forall e <- log ::
      && e.svc in g.items && e.svc !in e.live
      && |e.needs| == |g.Out(DepNeeds, e.svc)|
      && forall k | 0 <= k < |e.needs| :: IsUp(e.needs[k]) && Legal(cfg, g.Out(DepNeeds, e.svc)[k].absPath, e.needs[k])
  }

  /** A once-service is started once, if ever; the status word tells whether a
      service has been started at all. */
  ghost predicate Counted(g: Graph, cfg: Config, log: seq<Start>) {
    forall i <- g.items ::
      && (Initial(cfg, i.absPath) == {ShOnce} ==>
          Starts(log, i) <= 1 && (ShOnce in g.StatusOf(i) || NeedFailed in g.StatusOf(i) ==> Starts(log, i) == 0))
      && (!ShouldStart(g.StatusOf(i)) && NeedFailed !in g.StatusOf(i) ==> Starts(log, i) > 0)
  }

  /** The processes that have not been reaped, and what they run. */
  ghost predicate Tracked(g: Graph, live: map<ListItem, int>) {
    && (forall i <- live :: i in g.items && (OnceRun in g.StatusOf(i) || Respawning in g.StatusOf(i)) && live[i] > 0)
    && (forall i, j | i in live && j in live && i != j :: live[i] != live[j])
  }

  /** Started, on the list, or given up. */
  predicate Handled(g: Graph, log: seq<Start>, x: ListItem) {
    Starts(log, x) > 0 || InList in g.StatusOf(x) || NeedFailed in g.StatusOf(x)
  }

  predicate Free(g: Graph, x: ListItem) {
    g.Out(DepNeeds, x) == [] && g.Out(DepWants, x) == []
  }

  /** No service is forgotten that depends on nothing, or on a service that was
      started; "excused" are starts whose dependents are still to be listed. */
  ghost predicate Offered(g: Graph, log: seq<Start>, excused: set<(ListItem, Kind)>) {
    && (forall x <- g.items | Free(g, x) :: Handled(g, log, x))
    && (forall d, kind, x | d in g.items && Starts(log, d) > 0 && (d, kind) !in excused && x in g.In(kind, d) ::
        Handled(g, log, x))
  }

  /** A service is given up only over a need that failed, and in the end over a
      process that could not be made. */
  ghost predicate Blamed(g: Graph) {
    forall x <- g.items | NeedFailed in g.StatusOf(x) ::
      && (exists y :: y in g.Out(DepNeeds, x) && HasFailed(g.StatusOf(y)))
      && (exists z :: z in g.items && BadErr in g.StatusOf(z))
  }

  /** What holds as long as no exit has been noticed. */
  ghost predicate Quiet(g: Graph, log: seq<Start>) {
    && (forall i <- g.items :: OnceOk !in g.StatusOf(i))
    && (forall e, s | e in log && s in e.needs :: OnceOk !in s)
  }

  ghost predicate Safe(
      g: Graph, cfg: Config, listed: seq<ListItem>, live: map<ListItem, int>, log: seq<Start>,
      excused: set<(ListItem, Kind)>) {
    && g.Total() && Marked(g, listed) && AllLegal(g, cfg) && Sound(g, cfg, log) && Counted(g, cfg, log)
    && Tracked(g, live) && Offered(g, log, excused) && Blamed(g)
  }

  /** A finished graph is ready to be started. */
  lemma BuiltStarts(g: Graph, cfg: Config)
    requires g.Built(cfg, {})
    ensures Safe(g, cfg, g.pending, map[], [], {}) && Quiet(g, [])
  {
    forall i <- g.items
      ensures Legal(cfg, i.absPath, g.StatusOf(i)) && (i in g.pending <==> InList in g.StatusOf(i)) &&
              (Free(g, i) <==> i in g.pending)
      ensures OnceOk !in g.StatusOf(i) && NeedFailed !in g.StatusOf(i) && ShouldStart(g.StatusOf(i))
    {
      assert g.Complete(cfg, i);
      assert Initial(cfg, i.absPath) == {ShOnce} || Initial(cfg, i.absPath) == {ShRespawn};
      assert g.StatusOf(i) == if i in g.pending then Initial(cfg, i.absPath) + {InList} else Initial(cfg, i.absPath);
    }
  }

  /** deps_pending is empty exactly when every service depends on another one. */
  lemma PendingEmptyIffNoneFree(g: Graph, cfg: Config)
    requires g.Built(cfg, {})
    ensures g.pending == [] <==> forall x <- g.items :: !Free(g, x)
  {
    forall x <- g.items ensures x in g.pending <==> Free(g, x) {
      assert g.Complete(cfg, x);
    }
    if g.pending != [] {
      assert g.pending[0] in g.pending && g.pending[0] in g.items;
    }
  }

  lemma StatusLists(g: Graph, i: ListItem, s: set<Flag>)
    ensures forall x :: WithStatus(g, i, s).StatusOf(x) == if x == i then s else g.StatusOf(x)
    ensures forall k, x :: WithStatus(g, i, s).Out(k, x) == g.Out(k, x) && WithStatus(g, i, s).In(k, x) == g.In(k, x)
    ensures WithStatus(g, i, s).items == g.items && WithStatus(g, i, s).pending == g.pending &&
            WithStatus(g, i, s).lists == g.lists
    ensures g.Total() ==> WithStatus(g, i, s).Total()
  {
  }

  lemma TwiceSet(g: Graph, i: ListItem, s: set<Flag>, t: set<Flag>)
    ensures WithStatus(WithStatus(g, i, s), i, t) == WithStatus(g, i, t)
    ensures WithStatus(g, i, t).items == g.items && WithStatus(g, i, t).lists == g.lists &&
            WithStatus(g, i, t).pending == g.pending
  {
    assert g.status[i := s][i := t] == g.status[i := t];
  }

  /** The order of the list, and what is left of it, do not matter but to Marked. */
  lemma PendingOrder(
      g: Graph, h: Graph, cfg: Config, listed: seq<ListItem>, live: map<ListItem, int>, log: seq<Start>,
      excused: set<(ListItem, Kind)>)
    requires Safe(g, cfg, listed, live, log, excused) && h == g.(pending := h.pending) &&
            forall x <- h.pending :: x in g.items
    ensures Safe(h, cfg, listed, live, log, excused)
    ensures Quiet(g, log) ==> Quiet(h, log)
  {
    assert forall x :: h.StatusOf(x) == g.StatusOf(x);
    assert forall k, x :: h.Out(k, x) == g.Out(k, x) && h.In(k, x) == g.In(k, x);
    assert h.Total();
    hide Graph.Out, Graph.In, Graph.StatusOf, Graph.Total, Legal, Starts;
    SameWords(g, h, cfg, listed, live, log);
    SameOffers(g, h, log, excused);
    hide Marked, AllLegal, Sound, Counted, Tracked, Offered, Blamed;
  }

  lemma SameWords(g: Graph, h: Graph, cfg: Config, listed: seq<ListItem>, live: map<ListItem, int>, log: seq<Start>)
    requires Marked(g, listed) && AllLegal(g, cfg) && Sound(g, cfg, log) && Counted(g, cfg, log) && Tracked(g, live)
    requires h.items == g.items && (forall x :: h.StatusOf(x) == g.StatusOf(x)) &&
            forall k, x :: h.Out(k, x) == g.Out(k, x)
    ensures Marked(h, listed) && AllLegal(h, cfg) && Sound(h, cfg, log) && Counted(h, cfg, log) && Tracked(h, live)
  {
    hide Graph.Out, Graph.StatusOf, Legal, Starts;
  }

  lemma SameOffers(g: Graph, h: Graph, log: seq<Start>, excused: set<(ListItem, Kind)>)
    requires Offered(g, log, excused) && Blamed(g) && h.items == g.items && (forall x :: h.StatusOf(x) == g.StatusOf(x))
    requires (forall k, x :: h.Out(k, x) == g.Out(k, x)) && forall k, x :: h.In(k, x) == g.In(k, x)
    ensures Offered(h, log, excused) && Blamed(h)
  {
    hide Graph.Out, Graph.In, Graph.StatusOf, Starts;
    forall x <- h.items | NeedFailed in h.StatusOf(x)
      ensures exists y :: y in h.Out(DepNeeds, x) && HasFailed(h.StatusOf(y))
      ensures exists z :: z in h.items && BadErr in h.StatusOf(z)
    {
      var y :| y in g.Out(DepNeeds, x) && HasFailed(g.StatusOf(y));
      assert y in h.Out(DepNeeds, x) && HasFailed(h.StatusOf(y));
      var z :| z in g.items && BadErr in g.StatusOf(z);
      assert BadErr in h.StatusOf(z);
    }
    forall x <- h.items | Free(h, x) ensures Handled(h, log, x) {
      assert Free(g, x) && Handled(g, log, x);
    }
    forall d, kind, x | d in h.items && Starts(log, d) > 0 && (d, kind) !in excused && x in h.In(kind, d)
        ensures Handled(h, log, x) {
      assert x in g.In(kind, d) && Handled(g, log, x);
    }
  }

  lemma TurnListed(g: Graph, listed: seq<ListItem>)
    requires Marked(g, listed) && listed != []
    ensures Marked(g, listed[1..] + [listed[0]])
  {
    var turned := listed[1..] + [listed[0]];
    forall x ensures x in listed <==> x in turned {
      if x in listed {
        var k :| 0 <= k < |listed| && listed[k] == x;
        assert k > 0 ==> turned[k - 1] == x;
        assert turned[|turned| - 1] == listed[0];
      }
    }
  }

  /** Nothing has failed, and nothing has been given up. */
  ghost predicate Hale(g: Graph) {
    forall i <- g.items :: !HasFailed(g.StatusOf(i))
  }

  lemma BuiltHale(g: Graph, cfg: Config)
    requires g.Built(cfg, {})
    ensures Hale(g)
  {
    forall i <- g.items ensures !HasFailed(g.StatusOf(i)) {
      assert g.Complete(cfg, i);
    }
  }

  // ----- one status word changes -----

  lemma HaleUpdate(g: Graph, x: ListItem, s: set<Flag>)
    requires Hale(g) && !HasFailed(s)
    ensures Hale(WithStatus(g, x, s))
  {
    StatusLists(g, x, s);
    hide WithStatus, Graph.StatusOf, HasFailed;
  }

  lemma RestMarked(g: Graph, listed: seq<ListItem>, s: set<Flag>)
    requires Marked(g, listed) && listed != [] && InList !in s
    ensures Marked(WithStatus(g, listed[0], s), listed[1..])
  {
    StatusLists(g, listed[0], s);
    hide WithStatus, Graph.StatusOf;
    assert forall x :: x in listed <==> x == listed[0] || x in listed[1..];
  }

  lemma MoreMarked(g: Graph, listed: seq<ListItem>, x: ListItem)
    requires Marked(g, listed) && x in g.items && InList !in g.StatusOf(x)
    ensures Marked(WithStatus(g, x, g.StatusOf(x) + {InList}), listed + [x])
  {
    StatusLists(g, x, g.StatusOf(x) + {InList});
    hide WithStatus, Graph.StatusOf;
  }

  lemma SameMarked(g: Graph, listed: seq<ListItem>, x: ListItem, s: set<Flag>)
    requires Marked(g, listed) && (InList in s <==> InList in g.StatusOf(x))
    ensures Marked(WithStatus(g, x, s), listed)
  {
    StatusLists(g, x, s);
    hide WithStatus, Graph.StatusOf;
  }

  lemma LegalUpdate(g: Graph, cfg: Config, x: ListItem, s: set<Flag>, log: seq<Start>)
    requires AllLegal(g, cfg) && Sound(g, cfg, log) && Legal(cfg, x.absPath, s)
    ensures AllLegal(WithStatus(g, x, s), cfg) && Sound(WithStatus(g, x, s), cfg, log)
  {
    StatusLists(g, x, s);
    hide WithStatus, Graph.StatusOf, Graph.Out;
  }

  lemma CountedUpdate(g: Graph, cfg: Config, log: seq<Start>, x: ListItem, s: set<Flag>)
    requires Counted(g, cfg, log) && x in g.items
    requires (Initial(cfg, x.absPath) == {ShOnce} && (ShOnce in s || NeedFailed in s)) ==> Starts(log, x) == 0
    requires !ShouldStart(s) && NeedFailed !in s ==> Starts(log, x) > 0
    ensures Counted(WithStatus(g, x, s), cfg, log)
  {
    StatusLists(g, x, s);
    hide WithStatus, Graph.StatusOf, Starts, Initial;
  }

  lemma TrackedUpdate(g: Graph, live: map<ListItem, int>, x: ListItem, s: set<Flag>)
    requires Tracked(g, live) && (x in live ==> OnceRun in s || Respawning in s)
    ensures Tracked(WithStatus(g, x, s), live)
  {
    StatusLists(g, x, s);
    hide WithStatus, Graph.StatusOf;
  }

  lemma OfferedUpdate(g: Graph, log: seq<Start>, excused: set<(ListItem, Kind)>, x: ListItem, s: set<Flag>)
    requires g.Total() && Offered(g, log, excused)
    requires Handled(g, log, x) ==> Handled(WithStatus(g, x, s), log, x)
    ensures Offered(WithStatus(g, x, s), log, excused)
  {
    StatusLists(g, x, s);
    var h := WithStatus(g, x, s);
    assert forall y :: Handled(g, log, y) ==> Handled(h, log, y);
    hide WithStatus, Graph.Out, Graph.In, Graph.StatusOf, Starts, Handled;
    assert forall y <- h.items :: Free(h, y) ==> Free(g, y);
  }

  lemma NoOnceFail(g: Graph, cfg: Config)
    requires AllLegal(g, cfg)
    ensures forall i <- g.items :: OnceFail !in g.StatusOf(i)
  {
    hide Graph.StatusOf;
    forall i <- g.items ensures OnceFail !in g.StatusOf(i) {
      assert Legal(cfg, i.absPath, g.StatusOf(i));
    }
  }

  /** A service that failed has failed for good. */
  lemma BlamedUpdate(g: Graph, cfg: Config, x: ListItem, s: set<Flag>)
    requires g.Total() && Blamed(g) && AllLegal(g, cfg) && x in g.items && !HasFailed(g.StatusOf(x))
    requires NeedFailed in s ==> exists y :: y in g.Out(DepNeeds, x) && HasFailed(g.StatusOf(y))
    ensures Blamed(WithStatus(g, x, s))
  {
    StatusLists(g, x, s);
    NoOnceFail(g, cfg);
    var h := WithStatus(g, x, s);
    hide WithStatus, Graph.StatusOf, Graph.Out, Graph.In, AllLegal, Legal;
    forall i <- h.items | NeedFailed in h.StatusOf(i)
      ensures exists y :: y in h.Out(DepNeeds, i) && HasFailed(h.StatusOf(y))
      ensures exists z :: z in h.items && BadErr in h.StatusOf(z)
    {
      var y :| y in g.Out(DepNeeds, i) && HasFailed(g.StatusOf(y));
      assert y in g.items && y in h.Out(DepNeeds, i) && HasFailed(h.StatusOf(y));
      if NeedFailed in g.StatusOf(y) {
        var z :| z in g.items && BadErr in g.StatusOf(z);
        assert BadErr in h.StatusOf(z);
      }
    }
  }

  lemma SameBlame(g: Graph, x: ListItem)
    requires Blamed(g)
    ensures Blamed(WithStatus(g, x, g.StatusOf(x)))
  {
    StatusLists(g, x, g.StatusOf(x));
    var h := WithStatus(g, x, g.StatusOf(x));
    hide WithStatus, Graph.StatusOf, Graph.Out;
    forall i <- h.items | NeedFailed in h.StatusOf(i)
      ensures exists y :: y in h.Out(DepNeeds, i) && HasFailed(h.StatusOf(y))
      ensures exists z :: z in h.items && BadErr in h.StatusOf(z)
    {
      var y :| y in g.Out(DepNeeds, i) && HasFailed(g.StatusOf(y));
      assert y in h.Out(DepNeeds, i) && HasFailed(h.StatusOf(y));
      var z :| z in g.items && BadErr in g.StatusOf(z);
      assert BadErr in h.StatusOf(z);
    }
  }

  lemma QuietUpdate(g: Graph, log: seq<Start>, x: ListItem, s: set<Flag>)
    requires Quiet(g, log) && OnceOk !in s
    ensures Quiet(WithStatus(g, x, s), log)
  {
    StatusLists(g, x, s);
    hide WithStatus, Graph.StatusOf;
  }

  /** The head of the list is a service that is due. */
  lemma HeadDue(
      g: Graph, cfg: Config, listed: seq<ListItem>, live: map<ListItem, int>, log: seq<Start>,
      excused: set<(ListItem, Kind)>)
    requires Safe(g, cfg, listed, live, log, excused) && listed != []
    ensures var li := listed[0];
            && li in g.items && li !in live && InList in g.StatusOf(li) && ShouldStart(g.StatusOf(li)) &&
                !HasFailed(g.StatusOf(li))
            && (ShOnce in g.StatusOf(li) <==> Initial(cfg, li.absPath) == {ShOnce})
            && (ShOnce in g.StatusOf(li) ==> Starts(log, li) == 0)
            && Legal(cfg, li.absPath, {NeedFailed}) && Legal(cfg, li.absPath, {BadErr})
            && Legal(cfg, li.absPath, if ShOnce in g.StatusOf(li) then {OnceRun} else {Respawning})
  {
    var li := listed[0];
    assert li in listed && li in g.items && InList in g.StatusOf(li) && Legal(cfg, li.absPath, g.StatusOf(li));
    hide Graph.StatusOf, Graph.Out, Graph.In, Graph.Total, Offered, Blamed, Sound;
  }

  // ----- the steps of the loop -----

  function Record(g: Graph, li: ListItem, live: map<ListItem, int>): Start {
    Start(li, Statuses(g, g.Out(DepNeeds, li)), live.Keys)
  }

  /** A start of li, entered into the log with its status still unchanged. */
  lemma LogStart(g: Graph, cfg: Config, listed: seq<ListItem>, live: map<ListItem, int>, log: seq<Start>)
    requires Safe(g, cfg, listed, live, log, {}) && listed != []
    requires forall x <- g.Out(DepNeeds, listed[0]) :: IsUp(g.StatusOf(x))
    ensures var li := listed[0];
            && Sound(g, cfg, log + [Record(g, li, live)])
            && Offered(g, log + [Record(g, li, live)], {(li, DepNeeds), (li, DepWants)})
            && (forall x :: Starts(log + [Record(g, li, live)], x) == Starts(log, x) + if li == x then 1 else 0)
            && (Quiet(g, log) ==> Quiet(g, log + [Record(g, li, live)]))
  {
    HeadDue(g, cfg, listed, live, log, {});
    var li := listed[0];
    var e := Record(g, li, live);
    forall x ensures Starts(log + [e], x) == Starts(log, x) + if li == x then 1 else 0 {
      StartsAppend(log, e, x);
    }
    forall k | 0 <= k < |e.needs|
      ensures IsUp(e.needs[k]) && Legal(cfg, g.Out(DepNeeds, li)[k].absPath, e.needs[k])
      ensures exists y :: y in g.items && e.needs[k] == g.StatusOf(y)
    {
      assert g.Out(DepNeeds, li)[k] in g.Out(DepNeeds, li);
    }
    assert |e.needs| == |g.Out(DepNeeds, li)| && e.svc !in e.live;
    hide Graph.Out, Graph.In, Graph.StatusOf, Graph.Total, Statuses, Starts, Record, Marked, AllLegal, Counted,
      Tracked, Blamed;
    assert forall x :: Handled(g, log, x) ==> Handled(g, log + [e], x);
    forall d, kind, x | d in g.items && Starts(log + [e], d) > 0 && (d, kind) !in {(li, DepNeeds), (li, DepWants)} &&
        x in g.In(kind, d)
      ensures Handled(g, log + [e], x)
    {
      assert kind == DepNeeds || kind == DepWants;
    }
  }

  /** svc_start gave the head of the list its new status and, perhaps, a process. */
  lemma StepStart(
      g: Graph, cfg: Config, listed: seq<ListItem>, live: map<ListItem, int>, log: seq<Start>, s: set<Flag>, pid: int)
    requires Safe(g, cfg, listed, live, log, {}) && listed != []
    requires forall x <- g.Out(DepNeeds, listed[0]) :: IsUp(g.StatusOf(x))
    requires s == if pid <= 0 then {BadErr} else if ShOnce in g.StatusOf(listed[0]) then {OnceRun} else {Respawning}
    requires pid > 0 ==> forall i <- live :: live[i] != pid
    ensures var li := listed[0];
            Safe(WithStatus(g, li, s), cfg, listed[1..],
                 if pid > 0 then live[li := pid] else live,
                 log + [Record(g, li, live)], {(li, DepNeeds), (li, DepWants)})
    ensures var li := listed[0];
            Quiet(g, log) ==> Quiet(WithStatus(g, li, s), log + [Record(g, li, live)])
  {
    var li := listed[0];
    var longer := log + [Record(g, li, live)];
    HeadDue(g, cfg, listed, live, log, {});
    LogStart(g, cfg, listed, live, log);
    StatusLists(g, li, s);
    RestMarked(g, listed, s);
    LegalUpdate(g, cfg, li, s, longer);
    assert Counted(g, cfg, log) && !ShouldStart(s) && NeedFailed !in s && OnceOk !in s;
    hide Sound, Marked, AllLegal, Blamed, Quiet, Record, Graph.StatusOf, Graph.Out, Graph.In, Graph.Total,
      WithStatus, Starts, Initial,
      Counted, Tracked, Offered, Legal, HasFailed, ShouldStart;
    StartCounted(g, cfg, log, longer, li, s);
    StartTracked(g, live, li, s, pid);
    OfferedUpdate(g, longer, {(li, DepNeeds), (li, DepWants)}, li, s);
    BlamedUpdate(g, cfg, li, s);
    if Quiet(g, log) {
      QuietUpdate(g, longer, li, s);
    }
  }

  lemma StartCounted(g: Graph, cfg: Config, log: seq<Start>, longer: seq<Start>, li: ListItem, s: set<Flag>)
    requires Counted(g, cfg, log) && li in g.items &&
            forall x :: Starts(longer, x) == Starts(log, x) + if li == x then 1 else 0
    requires !ShouldStart(s) && NeedFailed !in s && (Initial(cfg, li.absPath) == {ShOnce} ==> ShOnce in g.StatusOf(li))
    ensures Counted(WithStatus(g, li, s), cfg, longer)
  {
    StatusLists(g, li, s);
    hide WithStatus, Graph.StatusOf, Starts, Initial;
  }

  lemma StartTracked(g: Graph, live: map<ListItem, int>, li: ListItem, s: set<Flag>, pid: int)
    requires Tracked(g, live) && li in g.items && li !in live && (pid > 0 ==> forall i <- live :: live[i] != pid)
    requires pid > 0 ==> OnceRun in s || Respawning in s
    ensures Tracked(WithStatus(g, li, s), if pid > 0 then live[li := pid] else live)
  {
    StatusLists(g, li, s);
    hide WithStatus, Graph.StatusOf;
  }

  lemma PendingKnown(
      g: Graph, cfg: Config, listed: seq<ListItem>, live: map<ListItem, int>, log: seq<Start>,
      excused: set<(ListItem, Kind)>)
    requires Safe(g, cfg, listed, live, log, excused)
    ensures forall x <- g.pending :: x in g.items
  {
  }

  lemma SameStatusWord(g: Graph, h: Graph, x: ListItem)
    requires h == g.(pending := h.pending)
    ensures h.StatusOf(x) == g.StatusOf(x)
  {
  }

  /** dep_needs_wants_add put one dependent on the list. */
  lemma StepEnlist(
      g: Graph, cfg: Config, listed: seq<ListItem>, live: map<ListItem, int>, log: seq<Start>,
      excused: set<(ListItem, Kind)>, x: ListItem)
    requires Safe(g, cfg, listed, live, log, excused) && x in g.items
    requires ShouldStart(g.StatusOf(x)) && InList !in g.StatusOf(x)
    ensures Safe(WithStatus(g, x, g.StatusOf(x) + {InList}), cfg, listed + [x], live, log, excused)
    ensures Quiet(g, log) ==> Quiet(WithStatus(g, x, g.StatusOf(x) + {InList}), log)
    ensures var h := WithStatus(g, x, g.StatusOf(x) + {InList});
            Handled(h, log, x) && forall y :: Handled(g, log, y) ==> Handled(h, log, y)
  {
    var s := g.StatusOf(x) + {InList};
    assert Legal(cfg, x.absPath, g.StatusOf(x)) && Legal(cfg, x.absPath, s);
    StatusLists(g, x, s);
    MoreMarked(g, listed, x);
    LegalUpdate(g, cfg, x, s, log);
    assert OnceOk !in s && NeedFailed !in s && x !in live;
    hide Sound, Marked, AllLegal, Blamed, Quiet, Graph.StatusOf, Graph.Out, Graph.In, Graph.Total, WithStatus,
      Starts, Initial;
    CountedUpdate(g, cfg, log, x, s);
    TrackedUpdate(g, live, x, s);
    OfferedUpdate(g, log, excused, x, s);
    BlamedUpdate(g, cfg, x, s);
    if Quiet(g, log) {
      QuietUpdate(g, log, x, s);
    }
  }

  /** A service that is not due has been dealt with before. */
  lemma SkipHandled(
      g: Graph, cfg: Config, listed: seq<ListItem>, live: map<ListItem, int>, log: seq<Start>,
      excused: set<(ListItem, Kind)>, x: ListItem)
    requires Safe(g, cfg, listed, live, log, excused) && x in g.items
    requires !ShouldStart(g.StatusOf(x)) || InList in g.StatusOf(x)
    ensures Handled(g, log, x)
  {
    hide Sound, Marked, AllLegal, Blamed, Tracked, Offered, Graph.StatusOf, Graph.Out, Graph.In, Graph.Total, Starts;
  }

  /** The head of the list is given up. */
  lemma StepFail(g: Graph, cfg: Config, listed: seq<ListItem>, live: map<ListItem, int>, log: seq<Start>)
    requires Safe(g, cfg, listed, live, log, {}) && listed != []
    requires exists y :: y in g.Out(DepNeeds, listed[0]) && HasFailed(g.StatusOf(y))
    ensures Safe(WithStatus(g, listed[0], {NeedFailed}), cfg, listed[1..], live, log, {})
    ensures Quiet(g, log) ==> Quiet(WithStatus(g, listed[0], {NeedFailed}), log)
  {
    var li := listed[0];
    HeadDue(g, cfg, listed, live, log, {});
    StatusLists(g, li, {NeedFailed});
    RestMarked(g, listed, {NeedFailed});
    LegalUpdate(g, cfg, li, {NeedFailed}, log);
    hide Sound, Marked, AllLegal, Blamed, Quiet, Graph.StatusOf, Graph.Out, Graph.In, Graph.Total, WithStatus,
      Starts, Initial;
    CountedUpdate(g, cfg, log, li, {NeedFailed});
    TrackedUpdate(g, live, li, {NeedFailed});
    OfferedUpdate(g, log, {}, li, {NeedFailed});
    BlamedUpdate(g, cfg, li, {NeedFailed});
    if Quiet(g, log) {
      QuietUpdate(g, log, li, {NeedFailed});
    }
  }

  /** All dependents of one kind are on the list by now. */
  lemma StepOffered(
      g: Graph, cfg: Config, listed: seq<ListItem>, live: map<ListItem, int>, log: seq<Start>,
      excused: set<(ListItem, Kind)>, d: ListItem, kind: Kind)
    requires Safe(g, cfg, listed, live, log, excused)
    requires forall x <- g.In(kind, d) :: Handled(g, log, x)
    ensures Safe(g, cfg, listed, live, log, excused - {(d, kind)})
  {
    hide Sound, Marked, AllLegal, Blamed, Counted, Tracked, Graph.StatusOf, Graph.Out, Graph.In, Graph.Total, Starts,
      Handled;
  }

  /** What svc_status_changed makes of a service whose process has ended. */
  function Ended(s: set<Flag>, success: bool): set<Flag> {
    if OnceRun in s then (if success then {OnceOk} else {OnceFail})
    else if Respawning in s then {ShRespawn}
    else s
  }

  /** What an exit makes of the status of a service that it is, or is not, taken to belong
      to: a once-service has ended well, the other sort is due again. */
  predicate Told(s: set<Flag>, exited: bool, t: set<Flag>) {
    && (exited && OnceRun in s ==> t == {OnceOk})
    && (exited && Respawning in s && OnceRun !in s ==> t == {ShRespawn})
    && (!exited || (OnceRun !in s && Respawning !in s) ==> t == s)
  }

  lemma EndedTold(s: set<Flag>)
    ensures Told(s, true, Ended(s, true))
  {
  }

  lemma ToldNothing(s: set<Flag>)
    ensures Told(s, false, s)
  {
  }

  /** A second exit of the same number changes nothing. */
  lemma ToldTwice(s: set<Flag>, first: bool, t: set<Flag>, second: bool, u: set<Flag>)
    requires Told(s, first, t) && Told(t, second, u)
    ensures Told(s, first || second, u)
  {
  }

  /** The exit of a service's process is noticed exactly if the walk finds that service; the
      process is its own, as live numbers are distinct.  Then the word depends only on the sort. */
  lemma ExitNoticed(g: Graph, cfg: Config, live: map<ListItem, int>, i: ListItem, found: bool, t: set<Flag>)
    requires AllLegal(g, cfg) && Tracked(g, live) && i in live && Told(g.StatusOf(i), found, t)
    ensures t != g.StatusOf(i) <==> found
    ensures found ==> t == if Initial(cfg, i.absPath) == {ShOnce} then {OnceOk} else {ShRespawn}
    ensures forall j | j in live && live[j] == live[i] :: j == i
  {
    assert Legal(cfg, i.absPath, g.StatusOf(i));
  }

  lemma OnlyForemost(items: seq<ListItem>, svc: ListItem)
    requires Foremost(items, svc)
    ensures forall i | i in items && i.pid == svc.pid :: Foremost(items, i) <==> i == svc
  {
    forall i | i in items && i.pid == svc.pid && Foremost(items, i) ensures i == svc {
      OneForemost(items, i, svc);
    }
  }

  function Reaped(live: map<ListItem, int>, pid: int): map<ListItem, int> {
    map i | i in live && live[i] != pid :: live[i]
  }

  lemma ReapedKeeps(live: map<ListItem, int>, pid: int)
    ensures forall i <- Reaped(live, pid) :: i in live && Reaped(live, pid)[i] == live[i]
  {
  }

  /** A process was reaped, and "found" was taken to be the service that it belonged to. */
  lemma StepExit(
      g: Graph, cfg: Config, listed: seq<ListItem>, live: map<ListItem, int>, log: seq<Start>,
      excused: set<(ListItem, Kind)>, pid: int, found: ListItem)
    requires Safe(g, cfg, listed, live, log, excused) && found in g.items
    requires found in live ==> live[found] == pid
    ensures Safe(WithStatus(g, found, Ended(g.StatusOf(found), true)), cfg, listed, Reaped(live, pid), log, excused)
  {
    var s := Ended(g.StatusOf(found), true);
    assert Legal(cfg, found.absPath, g.StatusOf(found)) && Legal(cfg, found.absPath, s);
    StatusLists(g, found, s);
    SameMarked(g, listed, found, s);
    LegalUpdate(g, cfg, found, s, log);
    hide Sound, Marked, AllLegal, Blamed, Graph.StatusOf, Graph.Out, Graph.In, Graph.Total, WithStatus, Starts, Initial;
    ReapTracked(g, live, pid);
    CountedUpdate(g, cfg, log, found, s);
    TrackedUpdate(g, Reaped(live, pid), found, s);
    OfferedUpdate(g, log, excused, found, s);
    if s != g.StatusOf(found) {
      BlamedUpdate(g, cfg, found, s);
    } else {
      SameBlame(g, found);
    }
  }

  lemma SameWord(
      g: Graph, cfg: Config, listed: seq<ListItem>, live: map<ListItem, int>, log: seq<Start>,
      excused: set<(ListItem, Kind)>, i: ListItem)
    requires Safe(g, cfg, listed, live, log, excused) && i in g.items
    ensures OnceRun !in g.StatusOf(i) && Respawning !in g.StatusOf(i) ==>
            WithStatus(g, i, Ended(g.StatusOf(i), true)) == g
  {
    assert Legal(cfg, i.absPath, g.StatusOf(i));
    hide Safe;
    if i in g.status {
      assert g.status[i := g.status[i]] == g.status;
    }
  }

  lemma ReapTracked(g: Graph, live: map<ListItem, int>, pid: int)
    requires Tracked(g, live)
    ensures Tracked(g, Reaped(live, pid))
  {
    hide Graph.StatusOf;
  }

  // ----- whether the loop ends -----

  /** The dependencies alone, which starting services does not change. */
  function Bare(g: Graph): Graph {
    Graph(g.items, g.lists, map[], [])
  }

  lemma BareLists(g: Graph)
    ensures Bare(g).items == g.items &&
            forall k, x :: Bare(g).Out(k, x) == g.Out(k, x) && Bare(g).In(k, x) == g.In(k, x)
    ensures forall x :: Free(Bare(g), x) <==> Free(g, x)
  {
  }

  /** A service comes onto the list if it depends on nothing, or on a service that is started. */
  ghost predicate DueIn(b: Graph, s: set<ListItem>, x: ListItem) {
    Free(b, x) || exists kind, d :: d in b.Out(kind, x) && d in s
  }

  /** It is started from there if its needs are started, and do not have to end first. */
  ghost predicate UpIn(b: Graph, cfg: Config, s: set<ListItem>, x: ListItem) {
    DueIn(b, s, x) && forall d <- b.Out(DepNeeds, x) :: d in s && Initial(cfg, d.absPath) == {ShRespawn}
  }

  /** The services that can be started in n steps. */
  ghost function Up(b: Graph, cfg: Config, n: nat): set<ListItem> {
    if n == 0 then {} else set x | x in b.items && UpIn(b, cfg, Up(b, cfg, n - 1), x)
  }

  ghost function Top(b: Graph, cfg: Config): set<ListItem> {
    Up(b, cfg, |b.items|)
  }

  /** Some service comes onto the list and can never be started. */
  ghost predicate Blocked(b: Graph, cfg: Config) {
    exists x :: x in b.items && DueIn(b, Top(b, cfg), x) && x !in Top(b, cfg)
  }

  lemma MoreDue(b: Graph, cfg: Config, s: set<ListItem>, t: set<ListItem>, x: ListItem)
    requires s <= t
    ensures DueIn(b, s, x) ==> DueIn(b, t, x)
    ensures UpIn(b, cfg, s, x) ==> UpIn(b, cfg, t, x)
  {
    hide Graph.Out, Free, Initial;
  }

  lemma {:induction false} UpGrows(b: Graph, cfg: Config, n: nat)
    ensures Up(b, cfg, n) <= Up(b, cfg, n + 1)
  {
    if n > 0 {
      UpGrows(b, cfg, n - 1);
      forall x <- Up(b, cfg, n) ensures x in Up(b, cfg, n + 1) {
        MoreDue(b, cfg, Up(b, cfg, n - 1), Up(b, cfg, n), x);
      }
    }
  }

  lemma {:induction false} UpStays(b: Graph, cfg: Config, k: nat, n: nat)
    requires k <= n && Up(b, cfg, k) == Up(b, cfg, k + 1)
    ensures Up(b, cfg, n) == Up(b, cfg, k) && Up(b, cfg, n + 1) == Up(b, cfg, k)
  {
    if k < n {
      UpStays(b, cfg, k, n - 1);
    }
  }

  /** Each step finds another service until no step does. */
  lemma {:induction false} UpCounts(b: Graph, cfg: Config, n: nat)
    ensures |Up(b, cfg, n)| >= n || Up(b, cfg, n) == Up(b, cfg, n + 1)
  {
    hide Up;
    if n > 0 {
      UpCounts(b, cfg, n - 1);
      UpGrows(b, cfg, n - 1);
      if Up(b, cfg, n - 1) == Up(b, cfg, n) {
        UpStays(b, cfg, n - 1, n);
      } else {
        var x :| x in Up(b, cfg, n) && x !in Up(b, cfg, n - 1);
        Fewer(Up(b, cfg, n - 1) + {x}, Up(b, cfg, n));
      }
    }
  }

  lemma Fewer(s: set<ListItem>, t: set<ListItem>)
    requires s <= t
    ensures |s| <= |t|
  {
    assert t == s + (t - s);
  }

  lemma {:induction false} ItemCount(items: seq<ListItem>)
    ensures |set x | x in items| <= |items|
  {
    if items != [] {
      var n := |items| - 1;
      ItemCount(items[..n]);
      assert items == items[..n] + [items[n]];
      assert (set x | x in items) == (set x | x in items[..n]) + {items[n]};
    }
  }

  /** Nothing more can be started than in |items| steps. */
  lemma TopClosed(b: Graph, cfg: Config)
    ensures Up(b, cfg, |b.items| + 1) == Top(b, cfg)
    ensures forall x <- b.items :: UpIn(b, cfg, Top(b, cfg), x) <==> x in Top(b, cfg)
  {
    var n := |b.items|;
    UpCounts(b, cfg, n + 1);
    UpGrows(b, cfg, n);
    UpCounts(b, cfg, n);
    var all := set x | x in b.items;
    ItemCount(b.items);
    Fewer(Up(b, cfg, n + 1), all);
    if Up(b, cfg, n) != Up(b, cfg, n + 1) {
      var x :| x in Up(b, cfg, n + 1) && x !in Up(b, cfg, n);
      Fewer(Up(b, cfg, n) + {x}, Up(b, cfg, n + 1));
    }
  }

  /** What blocks a service that has come onto the list is a need that runs once, and so
      never ends as far as the loop can see, or one that is never started. */
  lemma BlockedMeans(b: Graph, cfg: Config)
    requires b.Total()
    ensures Blocked(b, cfg) <==>
            exists x, d :: x in b.items && DueIn(b, Top(b, cfg), x) && d in b.Out(DepNeeds, x)
                           && (Initial(cfg, d.absPath) == {ShOnce} || d !in Top(b, cfg))
  {
    TopClosed(b, cfg);
    hide Top, DueIn, Graph.Out, Graph.Total;
    if Blocked(b, cfg) {
      var x :| x in b.items && DueIn(b, Top(b, cfg), x) && x !in Top(b, cfg);
      var d :| d in b.Out(DepNeeds, x) && !(d in Top(b, cfg) && Initial(cfg, d.absPath) == {ShRespawn});
    }
    if x, d :| x in b.items && DueIn(b, Top(b, cfg), x) && d in b.Out(DepNeeds, x)
               && (Initial(cfg, d.absPath) == {ShOnce} || d !in Top(b, cfg)) {
      assert !UpIn(b, cfg, Top(b, cfg), x);
    }
  }

  /** The services that have been started. */
  ghost function Begun(g: Graph, log: seq<Start>): set<ListItem> {
    set x | x in g.items && Starts(log, x) > 0
  }

  /** What holds while no exit has been noticed and nothing has been refused. */
  ghost predicate Calm(g: Graph, cfg: Config, log: seq<Start>) {
    && g.Mirrored()
    && (forall i <- g.items :: BadErr !in g.StatusOf(i) && NeedFailed !in g.StatusOf(i))
    && (forall i <- g.items | ShouldStart(g.StatusOf(i)) :: Starts(log, i) == 0)
    && (forall i <- g.items | Starts(log, i) > 0 || InList in g.StatusOf(i) :: DueIn(Bare(g), Begun(g, log), i))
    && Begun(g, log) <= Top(Bare(g), cfg)
  }

  lemma BuiltCalm(g: Graph, cfg: Config)
    requires g.Built(cfg, {})
    ensures Calm(g, cfg, [])
  {
    BareLists(g);
    assert Begun(g, []) == {};
    forall i <- g.items
      ensures BadErr !in g.StatusOf(i) && NeedFailed !in g.StatusOf(i)
      ensures InList in g.StatusOf(i) ==> DueIn(Bare(g), Begun(g, []), i)
    {
      assert g.Complete(cfg, i);
      assert Initial(cfg, i.absPath) == {ShOnce} || Initial(cfg, i.absPath) == {ShRespawn};
    }
    hide Graph.Out, Graph.In, Graph.StatusOf, Top;
  }

  /** Needs that are up without any exit are respawning, and have been started. */
  lemma UpMeansBegun(g: Graph, cfg: Config, log: seq<Start>, x: ListItem)
    requires Quiet(g, log) && AllLegal(g, cfg) && Counted(g, cfg, log) && Calm(g, cfg, log) && x in g.items
    ensures IsUp(g.StatusOf(x)) <==> x in Begun(g, log) && Initial(cfg, x.absPath) == {ShRespawn}
    ensures !HasFailed(g.StatusOf(x))
  {
    assert Legal(cfg, x.absPath, g.StatusOf(x));
    hide Graph.StatusOf, Graph.Mirrored, Top, Starts, DueIn, Bare;
  }

  lemma StatusBare(g: Graph, x: ListItem, s: set<Flag>, log: seq<Start>)
    ensures var h := WithStatus(g, x, s);
            Bare(h) == Bare(g) && Begun(h, log) == Begun(g, log) && (g.Mirrored() ==> h.Mirrored())
  {
    StatusLists(g, x, s);
    hide Graph.Out, Graph.In, Graph.StatusOf, Count, Starts;
    if g.Mirrored() {
      var h := WithStatus(g, x, s);
      assert h.items == g.items;
      assert forall kind, a, b :: h.Out(kind, a) == g.Out(kind, a) && h.In(kind, b) == g.In(kind, b);
    }
  }

  lemma CalmStart(g: Graph, cfg: Config, log: seq<Start>, e: Start, s: set<Flag>)
    requires Quiet(g, log) && AllLegal(g, cfg) && Counted(g, cfg, log) && Calm(g, cfg, log) && g.Total()
    requires e.svc in g.items && InList in g.StatusOf(e.svc) && (s == {OnceRun} || s == {Respawning})
    requires forall x <- g.Out(DepNeeds, e.svc) :: IsUp(g.StatusOf(x))
    ensures Calm(WithStatus(g, e.svc, s), cfg, log + [e])
  {
    var li, h, longer := e.svc, WithStatus(g, e.svc, s), log + [e];
    BegunMore(g, cfg, log, e);
    DueStays(g, cfg, log, e);
    StatusLists(g, li, s);
    StatusBare(g, li, s, longer);
    forall x ensures Starts(longer, x) == Starts(log, x) + if li == x then 1 else 0 {
      StartsAppend(log, e, x);
    }
    hide WithStatus, Graph.Out, Graph.In, Graph.StatusOf, Graph.Mirrored, Graph.Total, Bare, Top, Initial, Begun;
    hide Quiet, AllLegal, Counted, IsUp, Starts, DueIn;
  }

  /** A start makes due what was due before, and the service itself. */
  lemma DueStays(g: Graph, cfg: Config, log: seq<Start>, e: Start)
    requires Calm(g, cfg, log) && e.svc in g.items && InList in g.StatusOf(e.svc) &&
            Begun(g, log) <= Begun(g, log + [e])
    ensures forall i <- g.items | Starts(log + [e], i) > 0 || InList in g.StatusOf(i) ::
            DueIn(Bare(g), Begun(g, log + [e]), i)
  {
    forall i <- g.items | Starts(log + [e], i) > 0 || InList in g.StatusOf(i)
      ensures DueIn(Bare(g), Begun(g, log + [e]), i)
    {
      StartsAppend(log, e, i);
      MoreDue(Bare(g), cfg, Begun(g, log), Begun(g, log + [e]), i);
    }
  }

  lemma StepCalm(
      g: Graph, cfg: Config, listed: seq<ListItem>, live: map<ListItem, int>, log: seq<Start>, s: set<Flag>, pid: int)
    requires Safe(g, cfg, listed, live, log, {}) && listed != []
    requires forall x <- g.Out(DepNeeds, listed[0]) :: IsUp(g.StatusOf(x))
    requires s == if pid <= 0 then {BadErr} else if ShOnce in g.StatusOf(listed[0]) then {OnceRun} else {Respawning}
    ensures Quiet(g, log) && Calm(g, cfg, log) && pid > 0 ==>
              Calm(WithStatus(g, listed[0], s), cfg, log + [Record(g, listed[0], live)])
  {
    HeadDue(g, cfg, listed, live, log, {});
    if Quiet(g, log) && Calm(g, cfg, log) && pid > 0 {
      hide Quiet, Calm, AllLegal, Counted, Sound, Tracked, Offered, Blamed, Marked, Graph.Total;
      CalmStart(g, cfg, log, Record(g, listed[0], live), s);
    }
  }

  lemma BegunMore(g: Graph, cfg: Config, log: seq<Start>, e: Start)
    requires Quiet(g, log) && AllLegal(g, cfg) && Counted(g, cfg, log) && Calm(g, cfg, log) && g.Total()
    requires e.svc in g.items && InList in g.StatusOf(e.svc)
    requires forall x <- g.Out(DepNeeds, e.svc) :: IsUp(g.StatusOf(x))
    ensures Begun(g, log) <= Begun(g, log + [e]) == Begun(g, log) + {e.svc} <= Top(Bare(g), cfg)
  {
    var li := e.svc;
    forall x ensures Starts(log + [e], x) == Starts(log, x) + if li == x then 1 else 0 {
      StartsAppend(log, e, x);
    }
    BareLists(g);
    forall x <- g.Out(DepNeeds, li) ensures x in Begun(g, log) && Initial(cfg, x.absPath) == {ShRespawn} {
      UpMeansBegun(g, cfg, log, x);
    }
    assert Begun(g, log + [e]) == Begun(g, log) + {li};
    hide Graph.Out, Graph.In, Graph.StatusOf, Bare, Top, Initial, Begun, Quiet, AllLegal, Counted, IsUp, Starts, DueIn;
    MoreDue(Bare(g), cfg, Begun(g, log), Top(Bare(g), cfg), li);
    TopClosed(Bare(g), cfg);
  }

  /** A dependent of a started service comes onto the list. */
  lemma CalmEnlist(g: Graph, cfg: Config, log: seq<Start>, x: ListItem, kind: Kind, d: ListItem)
    requires Calm(g, cfg, log) && g.Total() && x in g.items && d in g.items && Starts(log, d) > 0 && x in g.In(kind, d)
    requires ShouldStart(g.StatusOf(x))
    ensures Calm(WithStatus(g, x, g.StatusOf(x) + {InList}), cfg, log)
  {
    var s := g.StatusOf(x) + {InList};
    StatusLists(g, x, s);
    StatusBare(g, x, s, log);
    DependentDue(g, log, x, kind, d);
    hide WithStatus, Graph.Out, Graph.In, Graph.StatusOf, Graph.Mirrored, Graph.Total, Bare, Top, Starts, Begun, DueIn;
  }

  lemma StepEnlistCalm(g: Graph, mid: Graph, cfg: Config, log: seq<Start>, x: ListItem, kind: Kind, d: ListItem)
    requires g.Total() && mid == g.(pending := mid.pending) && forall y <- mid.pending :: y in g.items
    requires x in g.items && d in g.items && Starts(log, d) > 0 && x in g.In(kind, d) && ShouldStart(g.StatusOf(x))
    ensures Calm(g, cfg, log) ==> Calm(WithStatus(mid, x, g.StatusOf(x) + {InList}), cfg, log)
  {
    if Calm(g, cfg, log) {
      CalmOrder(g, mid, cfg, log);
      assert mid.StatusOf(x) == g.StatusOf(x);
      assert forall k, y :: mid.Out(k, y) == g.Out(k, y) && mid.In(k, y) == g.In(k, y);
      assert mid.Total();
      hide Calm, Starts, ShouldStart;
      CalmEnlist(mid, cfg, log, x, kind, d);
    }
  }

  lemma DependentDue(g: Graph, log: seq<Start>, x: ListItem, kind: Kind, d: ListItem)
    requires g.Mirrored() && x in g.items && d in g.items && Starts(log, d) > 0 && x in g.In(kind, d)
    ensures DueIn(Bare(g), Begun(g, log), x)
  {
    BareLists(g);
    assert Count(g.Out(kind, x), d) == Count(g.In(kind, d), x);
    CountPositive(g.Out(kind, x), d);
    CountPositive(g.In(kind, d), x);
    assert d in Begun(g, log) && d in Bare(g).Out(kind, x);
  }

  lemma CalmOrder(g: Graph, h: Graph, cfg: Config, log: seq<Start>)
    requires Calm(g, cfg, log) && h == g.(pending := h.pending)
    ensures Calm(h, cfg, log)
  {
    assert forall x :: h.StatusOf(x) == g.StatusOf(x);
    assert forall k, x :: h.Out(k, x) == g.Out(k, x) && h.In(k, x) == g.In(k, x);
    assert Bare(h) == Bare(g) && Begun(h, log) == Begun(g, log);
    hide Graph.Out, Graph.In, Graph.StatusOf, Bare, Top, Starts, Begun, DueIn;
  }

  /** When the list is empty, everything has been started that ever comes onto it. */
  lemma CalmEmpty(g: Graph, cfg: Config, live: map<ListItem, int>, log: seq<Start>)
    requires Safe(g, cfg, [], live, log, {}) && Calm(g, cfg, log)
    ensures !Blocked(Bare(g), cfg)
  {
    BareLists(g);
    forall x <- g.items | DueIn(Bare(g), Begun(g, log), x) ensures x in Begun(g, log) {
      DueHandled(g, cfg, [], live, log, x);
      assert InList !in g.StatusOf(x);
    }
    hide Graph.Out, Graph.In, Graph.StatusOf, Graph.Total, Bare, Top, Starts, Begun, DueIn, Offered, Sound, Counted,
      Tracked, Blamed, AllLegal, Marked;
    AllBegun(Bare(g), cfg, Begun(g, log), |g.items|);
    assert Begun(g, log) == Top(Bare(g), cfg) by {
      hide Up;
      assert Top(Bare(g), cfg) == Up(Bare(g), cfg, |g.items|) by { assert Bare(g).items == g.items; }
    }
  }

  /** Whatever comes onto the list has been started, is on it, or has been given up. */
  lemma DueHandled(g: Graph, cfg: Config, listed: seq<ListItem>, live: map<ListItem, int>, log: seq<Start>, x: ListItem)
    requires Safe(g, cfg, listed, live, log, {}) && g.Mirrored() && x in g.items && DueIn(Bare(g), Begun(g, log), x)
    ensures Handled(g, log, x)
  {
    BareLists(g);
    if !Free(g, x) {
      var kind, d :| d in Bare(g).Out(kind, x) && d in Begun(g, log);
      assert Count(g.Out(kind, x), d) == Count(g.In(kind, d), x);
      CountPositive(g.Out(kind, x), d);
      CountPositive(g.In(kind, d), x);
    }
    hide Sound, Counted, Tracked, Blamed, AllLegal, Graph.StatusOf, Handled, Starts;
  }

  lemma {:induction false} AllBegun(b: Graph, cfg: Config, s: set<ListItem>, n: nat)
    requires forall x <- b.items | DueIn(b, s, x) :: x in s
    ensures Up(b, cfg, n) <= s
  {
    if n > 0 {
      AllBegun(b, cfg, s, n - 1);
      forall x <- Up(b, cfg, n) ensures x in s {
        MoreDue(b, cfg, Up(b, cfg, n - 1), s, x);
      }
    }
  }

  /** Otherwise, unless some service is blocked, one on the list is ready. */
  lemma CalmReady(
      g: Graph, cfg: Config, listed: seq<ListItem>, live: map<ListItem, int>, log: seq<Start>) returns (k: nat)
    requires Safe(g, cfg, listed, live, log, {}) && Quiet(g, log) && Calm(g, cfg, log) && listed != []
    requires !Blocked(Bare(g), cfg)
    ensures k < |listed| && listed[k] !in Begun(g, log) && forall d <- g.Out(DepNeeds, listed[k]) :: IsUp(g.StatusOf(d))
  {
    BareLists(g);
    var x := listed[0];
    HeadDue(g, cfg, listed, live, log, {});
    MoreDue(Bare(g), cfg, Begun(g, log), Top(Bare(g), cfg), x);
    assert x in Top(Bare(g), cfg) && x !in Begun(g, log);
    var y := NextUp(Bare(g), cfg, Begun(g, log), |g.items|, x);
    DueHandled(g, cfg, listed, live, log, y);
    assert y in listed;
    k :| 0 <= k < |listed| && listed[k] == y;
    forall d <- g.Out(DepNeeds, y) ensures IsUp(g.StatusOf(d)) {
      assert d in Bare(g).Out(DepNeeds, y) && d in g.items;
      UpMeansBegun(g, cfg, log, d);
    }
  }

  /** The first service that can be started next. */
  lemma {:induction false} NextUp(b: Graph, cfg: Config, s: set<ListItem>, n: nat, x: ListItem) returns (y: ListItem)
    requires x in Up(b, cfg, n) && x !in s
    ensures y in b.items && y !in s && UpIn(b, cfg, s, y)
  {
    assert n > 0;
    if z :| z in Up(b, cfg, n - 1) && z !in s {
      y := NextUp(b, cfg, s, n - 1, z);
    } else {
      y := x;
      MoreDue(b, cfg, Up(b, cfg, n - 1), s, x);
    }
  }

  /** What a round has to do to the head of the list: start it if all its needs are up,
      give it up if one of them has failed, and otherwise come back to it last. */
  ghost predicate RoundResult(g: Graph, h: Graph, live: map<ListItem, int>, log: seq<Start>, after: seq<Start>)
    requires g.pending != []
  {
    var li := g.pending[0];
    if exists x :: x in g.Out(DepNeeds, li) && HasFailed(g.StatusOf(x)) then
      after == log && h.StatusOf(li) == {NeedFailed} && h.pending == g.pending[1..]
    else if forall x <- g.Out(DepNeeds, li) :: IsUp(g.StatusOf(x)) then after == log + [Record(g, li, live)]
    else after == log && h == g.(pending := g.pending[1..] + [li])
  }

  lemma BareSame(g: Graph, h: Graph)
    requires g.items == h.items && g.lists == h.lists
    ensures Bare(g) == Bare(h)
  {
  }

  /** The service at place k of the list is ready, and what has been started and its place
      bound the number of rounds that are left. */
  ghost predicate ReadyAt(g: Graph, log: seq<Start>, k: nat) {
    && k < |g.pending| && g.pending[k] in g.items && g.pending[k] !in Begun(g, log)
    && forall d <- g.Out(DepNeeds, g.pending[k]) :: IsUp(g.StatusOf(d))
  }

  ghost predicate Within(g: Graph, log: seq<Start>, left: nat) {
    exists k ::
        ReadyAt(g, log, k) && |Begun(g, log)| < |g.items| &&
        left == (|g.items| - |Begun(g, log)| - 1) * |g.items| + k + 1
  }

  /** All that is known between two rounds while nothing disturbs them. */
  ghost predicate Steady(g: Graph, cfg: Config, live: map<ListItem, int>, log: seq<Start>) {
    Safe(g, cfg, g.pending, live, log, {}) && Quiet(g, log) && Calm(g, cfg, log)
  }

  /** The list is no longer than the number of services. */
  lemma ListFits(g: Graph)
    requires Marked(g, g.pending)
    ensures |g.pending| <= |g.items|
  {
    var listed, all := set x | x in g.pending, set x | x in g.items;
    DistinctCount(g.pending);
    ItemCount(g.items);
    Fewer(listed, all);
  }

  lemma {:induction false} DistinctCount(s: seq<ListItem>)
    requires forall j, k | 0 <= j < k < |s| :: s[j] != s[k]
    ensures |set x | x in s| == |s|
  {
    if s != [] {
      var n := |s| - 1;
      DistinctCount(s[..n]);
      assert s == s[..n] + [s[n]];
      assert (set x | x in s) == (set x | x in s[..n]) + {s[n]};
    }
  }

  lemma RoundsLeft(g: Graph, cfg: Config, live: map<ListItem, int>, log: seq<Start>) returns (left: nat)
    requires Steady(g, cfg, live, log) && g.pending != [] && !Blocked(Bare(g), cfg)
    ensures Within(g, log, left) && left <= (|g.items| - |Begun(g, log)|) * |g.items| <= |g.items| * |g.items|
  {
    hide Blocked, Bare, Quiet, Calm, AllLegal, Sound, Counted, Tracked, Offered, Blamed, Graph.Total, Begun, IsUp,
      Graph.Out, Graph.StatusOf;
    var k := CalmReady(g, cfg, g.pending, live, log);
    ListFits(g);
    assert g.pending[k] in g.pending && ReadyAt(g, log, k);
    RoomLeft(g, log, g.pending[k]);
    hide Safe, Steady, ReadyAt;
    var n, b := |g.items|, |Begun(g, log)|;
    Products(n, b);
    left := (n - b - 1) * n + k + 1;
  }

  lemma RoomLeft(g: Graph, log: seq<Start>, x: ListItem)
    requires x in g.items && x !in Begun(g, log)
    ensures |Begun(g, log)| < |g.items|
  {
    ItemCount(g.items);
    Fewer(Begun(g, log) + {x}, set y | y in g.items);
  }

  lemma Products(n: nat, b: nat)
    requires b < n
    ensures (n - b) * n == (n - b - 1) * n + n && (n - b - 1) * n >= 0 && (n - b) * n <= n * n
  {
    var m := n - b;
    assert m * n == (m - 1) * n + n;
    assert n * n == m * n + b * n;
    NotNegative(b, n);
    NotNegative(m - 1, n);
  }

  lemma {:induction false} NotNegative(a: nat, b: nat)
    ensures a * b >= 0
  {
    if a > 0 {
      NotNegative(a - 1, b);
      assert a * b == (a - 1) * b + b;
    }
  }

  /** A round starts a service, or brings one that is ready nearer to the head. */
  lemma OneRoundLess(
      g: Graph, h: Graph, cfg: Config, live: map<ListItem, int>, after: map<ListItem, int>, log: seq<Start>,
          longer: seq<Start>,
      left: nat) returns (fewer: nat)
    requires Steady(g, cfg, live, log) && g.pending != [] && Within(g, log, left) && !Blocked(Bare(g), cfg)
    requires Steady(h, cfg, after, longer) && h.pending != [] && h.items == g.items && h.lists == g.lists
    requires RoundResult(g, h, live, log, longer)
    ensures Within(h, longer, fewer) && fewer < left
  {
    hide Steady, Blocked, Bare, RoundResult, Within, ReadyAt, Record;
    HeadUnbegun(g, cfg, live, log);
    BareSame(g, h);
    TwoResults(g, h, cfg, live, log, longer);
    if longer == log {
      fewer := LessByTurn(g, h, log, left);
    } else {
      OneMoreBegun(g, h, log, Record(g, g.pending[0], live));
      fewer := RoundsLeft(h, cfg, after, longer);
      AtLeast(g, log, left);
    }
  }

  /** Undisturbed, a round starts the head or puts it last. */
  lemma TwoResults(g: Graph, h: Graph, cfg: Config, live: map<ListItem, int>, log: seq<Start>, longer: seq<Start>)
    requires Steady(g, cfg, live, log) && g.pending != [] && g.pending[0] in g.items &&
            RoundResult(g, h, live, log, longer)
    ensures Record(g, g.pending[0], live).svc == g.pending[0]
    ensures longer == log + [Record(g, g.pending[0], live)] ||
            (longer == log && h == g.(pending := g.pending[1..] + [g.pending[0]]) &&
             exists x :: x in g.Out(DepNeeds, g.pending[0]) && !IsUp(g.StatusOf(x)))
  {
    NoneFailed(g, cfg, live, log, g.pending[0]);
    hide Steady, Statuses, Graph.Out, Graph.StatusOf, IsUp, HasFailed;
  }

  lemma LessByTurn(g: Graph, h: Graph, log: seq<Start>, left: nat) returns (fewer: nat)
    requires g.pending != [] && Within(g, log, left) && h == g.(pending := g.pending[1..] + [g.pending[0]])
    requires exists x :: x in g.Out(DepNeeds, g.pending[0]) && !IsUp(g.StatusOf(x))
    ensures Within(h, log, fewer) && fewer < left
  {
    hide ReadyAt, Begun, Graph.Out, Graph.StatusOf, IsUp;
    var k :| ReadyAt(g, log, k) && left == (|g.items| - |Begun(g, log)| - 1) * |g.items| + k + 1;
    NotFirst(g, log, k);
    TurnedReady(g, h, log, k);
    SomeLeft(g, log, left);
    fewer := left - 1;
  }

  lemma AtLeast(g: Graph, log: seq<Start>, left: nat)
    requires Within(g, log, left)
    ensures left > (|g.items| - |Begun(g, log)| - 1) * |g.items|
  {
  }

  lemma HeadUnbegun(g: Graph, cfg: Config, live: map<ListItem, int>, log: seq<Start>)
    requires Steady(g, cfg, live, log) && g.pending != []
    ensures g.pending[0] in g.items && Starts(log, g.pending[0]) == 0
  {
    HeadDue(g, cfg, g.pending, live, log, {});
    hide Safe, Quiet, Starts, Graph.StatusOf, ShouldStart;
  }

  lemma NotFirst(g: Graph, log: seq<Start>, k: nat)
    requires ReadyAt(g, log, k) && exists x :: x in g.Out(DepNeeds, g.pending[0]) && !IsUp(g.StatusOf(x))
    ensures k > 0
  {
  }

  lemma NoneFailed(g: Graph, cfg: Config, live: map<ListItem, int>, log: seq<Start>, li: ListItem)
    requires Steady(g, cfg, live, log) && li in g.items
    ensures forall x <- g.Out(DepNeeds, li) :: !HasFailed(g.StatusOf(x))
  {
    forall x <- g.Out(DepNeeds, li) ensures !HasFailed(g.StatusOf(x)) {
      assert x in g.items;
      UpMeansBegun(g, cfg, log, x);
    }
  }

  lemma OneMoreBegun(g: Graph, h: Graph, log: seq<Start>, e: Start)
    requires h.items == g.items && e.svc in g.items && Starts(log, e.svc) == 0
    ensures |Begun(h, log + [e])| == |Begun(g, log)| + 1
  {
    forall x ensures Starts(log + [e], x) == Starts(log, x) + if e.svc == x then 1 else 0 {
      StartsAppend(log, e, x);
    }
    assert Begun(h, log + [e]) == Begun(g, log) + {e.svc};
  }

  lemma SomeLeft(g: Graph, log: seq<Start>, left: nat)
    requires Within(g, log, left)
    ensures left > 0
  {
    var n, b := |g.items|, |Begun(g, log)|;
    Products(n, b);
  }

  lemma TurnedReady(g: Graph, h: Graph, log: seq<Start>, k: nat)
    requires ReadyAt(g, log, k) && k > 0 && h == g.(pending := g.pending[1..] + [g.pending[0]])
    ensures ReadyAt(h, log, k - 1) && Begun(h, log) == Begun(g, log)
  {
    assert h.pending[k - 1] == g.pending[k];
    assert forall x :: h.StatusOf(x) == g.StatusOf(x);
    assert h.Out(DepNeeds, h.pending[k - 1]) == g.Out(DepNeeds, g.pending[k]);
  }

  class Starter {
    const g: Services
    /** The kernel's process table: services with a child that has not been reaped. */
    var live: map<ListItem, int>
    ghost var log: seq<Start>
    /** The services on the list, but for one that is just being dealt with. */
    ghost var listed: seq<ListItem>
    ghost var excused: set<(ListItem, Kind)>
    /** Whether svc_status_changed has found any process. */
    ghost var noticed: bool

    /** What holds all the time. */
    ghost predicate Inv()
      reads this, g, g.cells, g.nodes, g.services
    {
      && g.Shape() && Safe(g.graph, g.cfg, listed, live, log, excused)
      && (forall i <- live :: i.pid == live[i])
      && (!noticed ==> Quiet(g.graph, log))
      && (!noticed && g.reliable ==> Calm(g.graph, g.cfg, log))
      && (g.reliable ==> Hale(g.graph))
    }

    /** What holds between two iterations as well. */
    ghost predicate Between()
      reads this, g
    {
      listed == g.graph.pending && excused == {}
    }

    /** The graph as it has been built, with nothing running. */
    constructor (g: Services)
      requires g.Shape() && g.graph.Built(g.cfg, {})
      ensures this.g == g && Inv() && Between() && live == map[] && log == [] && !noticed
    {
      this.g := g;
      live, log, listed, excused, noticed := map[], [], g.graph.pending, {}, false;
      new;
      hide Services.Shape, Graph.Built, Safe, Quiet, Calm, Hale;
      BuiltHale(g.graph, g.cfg);
      BuiltStarts(g.graph, g.cfg);
      BuiltCalm(g.graph, g.cfg);
    }

    /** svc_needs_status */
    method SvcNeedsStatus(svc: ListItem) returns (v: Verdict)
      requires g.Shape() && g.graph.Total() && svc in g.graph.items
      ensures v == NeedsFailed <==> exists x :: x in g.graph.Out(DepNeeds, svc) && HasFailed(g.graph.StatusOf(x))
      ensures v == NeedsUnfinished ==> exists x :: x in g.graph.Out(DepNeeds, svc) && IsUnfinished(g.graph.StatusOf(x))
      ensures v == NeedsStarted ==>
              forall x <- g.graph.Out(DepNeeds, svc) ::
              !HasFailed(g.graph.StatusOf(x)) && !IsUnfinished(g.graph.StatusOf(x))
    {
      v := NeedsStarted;
      g.NullMeansEmpty(svc, Needs);
      if svc.needs.head == null {
        return;
      }
      var deps: Dep := svc.needs.head;
      ghost var needs := g.graph.Out(DepNeeds, svc);
      ghost var n, k := |needs|, 0;
      g.EntryShown(svc, Needs, 0);
      hide Services.Shape, Graph.StatusOf, Graph.Total;
      while true
        invariant 0 <= k < n == |svc.needs.nodes| && deps == svc.needs.nodes[k]
        invariant v == NeedsStarted || v == NeedsUnfinished
        invariant forall j | 0 <= j < k :: !HasFailed(g.graph.StatusOf(needs[j]))
        invariant v == NeedsUnfinished <==> exists j :: 0 <= j < k && IsUnfinished(g.graph.StatusOf(needs[j]))
        decreases n - k
      {
        NeedShown(svc, k);
        g.EntryShown(svc, Needs, k);
        if HasFailed(deps.svc.status) {
          return NeedsFailed;
        }
        if IsUnfinished(deps.svc.status) {
          v := NeedsUnfinished;
        }
        deps := deps.next;
        k := k + 1;
        if deps == svc.needs.head {
          break;
        }
      }
    }

    lemma NeedShown(svc: ListItem, k: nat)
      requires g.Shape() && g.graph.Total() && svc in g.graph.items && k < |g.graph.Out(DepNeeds, svc)|
      ensures k < |svc.needs.nodes| && g.graph.Out(DepNeeds, svc)[k] in g.graph.Out(DepNeeds, svc)
      ensures svc.needs.nodes[k].svc.status == g.graph.StatusOf(g.graph.Out(DepNeeds, svc)[k])
    {
    }

    /** fork: a new process number, or a failure. */
    method Fork() returns (pid: int)
      ensures pid == -1 || (pid > 0 && forall i <- live :: live[i] != pid)
      ensures g.reliable ==> pid > 0
    {
      pid := *;
      if pid <= 0 || exists i :: i in live && live[i] == pid {
        pid := -1;
        if g.reliable {
          pid := UnusedPid();
        }
      }
    }

    method UnusedPid() returns (pid: int)
      ensures pid > 0 && forall i <- live :: live[i] != pid
    {
      pid := 1;
      var todo := live.Keys;
      while todo != {}
        invariant todo <= live.Keys && pid > 0 && forall i <- live | i !in todo :: live[i] < pid
        decreases todo
      {
        var i :| i in todo;
        todo := todo - {i};
        pid := if live[i] < pid then pid else live[i] + 1;
      }
    }

    /** The service at the head of the list. */
    lemma HeadShown()
      requires Inv() && Between() && listed != []
      ensures var li := listed[0];
              && li in g.graph.items && li.status == g.graph.StatusOf(li) && li !in live
              && g.depsPending.head != null && g.depsPending.head.svc == li
    {
      HeadDue(g.graph, g.cfg, listed, live, log, excused);
      g.StatusShown(listed[0]);
      assert Holds(g.depsPending, g.graph.pending);
      hide Services.Shape, Safe;
    }

    /** svc_start, as the parent sees it. */
    method SvcStart(li: ListItem)
      requires Inv() && Between() && listed != [] && li == listed[0]
      requires forall x <- g.graph.Out(DepNeeds, li) :: IsUp(g.graph.StatusOf(x))
      modifies this, g`graph, li`status, li`pid
      ensures Inv() && excused == {(li, DepNeeds), (li, DepWants)} && g.graph.pending == [li] + listed
      ensures log == old(log) + [Record(old(g.graph), li, old(live))] && noticed == old(noticed)
      ensures g.graph.items == old(g.graph).items && g.graph.lists == old(g.graph).lists
      ensures if li in live then live == old(live)[li := li.pid] else live == old(live) && !g.reliable
    {
      hide Services.Shape, Safe, Quiet, Calm, Hale, Record, Graph.StatusOf, Graph.Out;
      HeadShown();
      ghost var before := g.graph;
      ghost var run := if ShOnce in li.status then {OnceRun} else {Respawning};
      if ShOnce in li.status {
        g.SetStatus(li, {OnceRun});
      } else {
        g.SetStatus(li, {Respawning});
      }
      var pid := Fork();
      g.SetPid(li, pid);
      if pid < 0 {
        g.SetStatus(li, {BadErr});
      }
      TwiceSet(before, li, run, {BadErr});
      Started(li, before, if pid < 0 then {BadErr} else run, pid);
      if pid > 0 {
        live := live[li := pid];
      }
    }

    ghost method Started(li: ListItem, before: Graph, s: set<Flag>, pid: int)
      requires Safe(before, g.cfg, listed, live, log, {}) && listed != [] && li == listed[0]
      requires forall x <- before.Out(DepNeeds, li) :: IsUp(before.StatusOf(x))
      requires s == if pid <= 0 then {BadErr} else if ShOnce in before.StatusOf(li) then {OnceRun} else {Respawning}
      requires pid > 0 ==> forall i <- live :: live[i] != pid
      modifies this`log, this`listed, this`excused
      ensures Safe(WithStatus(before, li, s), g.cfg, listed, if pid > 0 then live[li := pid] else live, log, excused)
      ensures Quiet(before, old(log)) ==> Quiet(WithStatus(before, li, s), log)
      ensures Quiet(before, old(log)) && Calm(before, g.cfg, old(log)) && pid > 0 ==>
              Calm(WithStatus(before, li, s), g.cfg, log)
      ensures Hale(before) && pid > 0 ==> Hale(WithStatus(before, li, s))
      ensures excused == {(li, DepNeeds), (li, DepWants)} && listed == old(listed)[1..] &&
              log == old(log) + [Record(before, li, live)]
    {
      hide Safe, Quiet, Calm, Hale, Record, WithStatus, Graph.StatusOf, Graph.Out;
      StepStart(before, g.cfg, listed, live, log, s, pid);
      StepCalm(before, g.cfg, listed, live, log, s, pid);
      if Hale(before) && pid > 0 {
        HaleUpdate(before, li, s);
      }
      log, listed, excused := log + [Record(before, li, live)], listed[1..], {(li, DepNeeds), (li, DepWants)};
    }

    /** One dependent goes to the end of the list. */
    method Enlist(x: ListItem, ghost first: ListItem, ghost svc: ListItem, ghost kind: Kind) returns (ok: bool)
      requires Inv() && g.graph.pending == [first] + listed && x in g.graph.items
      requires ShouldStart(x.status) && InList !in x.status
      requires svc in g.graph.items && Starts(log, svc) > 0 && x in g.graph.In(kind, svc)
      modifies this`listed, g`graph, g`nodes, g.depsPending, g.nodes, x`status
      ensures g.reliable ==> ok
      ensures Inv() && fresh(g.nodes - old(g.nodes)) && g.graph.pending == [first] + listed
      ensures g.graph.items == old(g.graph).items && g.graph.lists == old(g.graph).lists
      ensures ok ==> g.graph.pending == old(g.graph).pending + [x] && Handled(g.graph, log, x)
      ensures forall y :: Handled(old(g.graph), log, y) ==> Handled(g.graph, log, y)
      ensures forall k, y :: g.graph.In(k, y) == old(g.graph).In(k, y)
      ensures !ok ==> g.graph == old(g.graph)
    {
      hide Services.Shape, Safe, Quiet, Calm, Hale, Graph.StatusOf, Starts, ShouldStart;
      ghost var before := g.graph;
      g.StatusShown(x);
      SafeTotal();
      PendingKnown(g.graph, g.cfg, listed, live, log, excused);
      ok := g.EnterPending(x);
      if ok {
        ghost var mid := g.graph;
        PendingOrder(before, mid, g.cfg, listed, live, log, excused);
        SameStatusWord(before, mid, x);
        g.SetStatus(x, x.status + {InList});
        StepEnlist(mid, g.cfg, listed, live, log, excused, x);
        StepEnlistCalm(before, mid, g.cfg, log, x, kind, svc);
        OrderHale(before, mid);
        EnlistHale(mid, x);
        forall y ensures Handled(before, log, y) ==> Handled(mid, log, y) {
          SameStatusWord(before, mid, y);
        }
        listed := listed + [x];
      }
    }

    lemma DependentsShown(svc: ListItem, kind: Kind)
      requires Inv() && svc in g.graph.items
      ensures svc.List(InRole(kind)).head == null <==> g.graph.In(kind, svc) == []
    {
      g.NullMeansEmpty(svc, InRole(kind));
    }

    ghost method ListOffered(svc: ListItem, kind: Kind)
      requires Inv() && forall x <- g.graph.In(kind, svc) :: Handled(g.graph, log, x)
      modifies this`excused
      ensures Inv() && excused == old(excused) - {(svc, kind)}
    {
      hide Services.Shape, Safe, Quiet, Calm, Hale, Handled;
      StepOffered(g.graph, g.cfg, listed, live, log, excused, svc, kind);
      excused := excused - {(svc, kind)};
    }

    /** Entry k of a list of dependents. */
    lemma DependentShown(svc: ListItem, kind: Kind, k: nat)
      requires Inv() && svc in g.graph.items && k < |g.graph.In(kind, svc)|
      ensures var l := svc.List(InRole(kind));
              var x := g.graph.In(kind, svc)[k];
              && |l.nodes| == |g.graph.In(kind, svc)| && l != g.depsPending && l.head == l.nodes[0]
              && l.nodes[k].svc == x && l.nodes[k].next == l.nodes[Succ(k, |l.nodes|)] && x in g.graph.items
              && (Succ(k, |l.nodes|) > 0 ==> l.nodes[Succ(k, |l.nodes|)] != l.head)
              && (!ShouldStart(x.status) || InList in x.status ==> Handled(g.graph, log, x))
    {
      g.EntryShown(svc, InRole(kind), k);
      var x := g.graph.In(kind, svc)[k];
      assert g.graph.Total();
      assert x in g.graph.In(kind, svc) && x in g.graph.items;
      g.StatusShown(x);
      hide Services.Shape, Safe;
      if !ShouldStart(x.status) || InList in x.status {
        SkipHandled(g.graph, g.cfg, listed, live, log, excused, x);
      }
    }

    /** One round of that loop: the service is put on the list if it is due. */
    method OfferOne(svc: ListItem, kind: Kind, ghost k: nat, tmp: Dep, ghost first: ListItem) returns (ok: bool)
      requires Inv() && g.graph.pending == [first] + listed && svc in g.graph.items && k < |g.graph.In(kind, svc)|
      requires k < |svc.List(InRole(kind)).nodes| && tmp == svc.List(InRole(kind)).nodes[k] && Starts(log, svc) > 0
      modifies this`listed, g`graph, g`nodes, g.depsPending, g.nodes, g.graph.items`status
      ensures g.reliable ==> ok
      ensures Inv() && fresh(g.nodes - old(g.nodes)) && g.graph.pending == [first] + listed
      ensures g.graph.items == old(g.graph).items && g.graph.lists == old(g.graph).lists
      ensures forall q, y :: g.graph.In(q, y) == old(g.graph).In(q, y)
      ensures forall y :: Handled(old(g.graph), log, y) ==> Handled(g.graph, log, y)
      ensures ok ==> Handled(g.graph, log, g.graph.In(kind, svc)[k])
    {
      DependentShown(svc, kind, k);
      hide Services.Shape, Safe, Quiet, Calm, Hale, Graph.StatusOf, Graph.In, Starts, Handled, Starter.Inv;
      ok := true;
      if ShouldStart(tmp.svc.status) && InList !in tmp.svc.status {
        ok := Enlist(tmp.svc, first, svc, kind);
      }
    }

    /** dep_needs_wants_add */
    method DepNeedsWantsAdd(svc: ListItem, kind: Kind, ghost first: ListItem) returns (ok: bool)
      requires Inv() && g.graph.pending == [first] + listed && svc in g.graph.items && Starts(log, svc) > 0
      modifies this`listed, this`excused, g`graph, g`nodes, g.depsPending, g.nodes, g.graph.items`status
      ensures g.reliable ==> ok
      ensures Inv() && fresh(g.nodes - old(g.nodes))
      ensures g.graph.items == old(g.graph).items && g.graph.lists == old(g.graph).lists
      ensures g.graph.pending == [first] + listed
      ensures ok ==> excused == old(excused) - {(svc, kind)}
    {
      hide Services.Shape, Safe, Quiet, Calm, Hale, Graph.StatusOf, Graph.In, Starts, Handled, ShouldStart, Starter.Inv;
      var end := if kind.DepNeeds? then svc.neededBy.head else svc.wantedBy.head;
      ghost var people := g.graph.In(kind, svc);
      ghost var r, n, k := InRole(kind), |people|, 0;
      DependentsShown(svc, kind);
      if end != null {
        var tmp: Dep := end;
        DependentShown(svc, kind, 0);
        while true
          invariant Inv() && fresh(g.nodes - old(g.nodes)) && excused == old(excused) && svc in g.graph.items
          invariant g.graph.items == old(g.graph).items && g.graph.lists == old(g.graph).lists
          invariant g.graph.pending == [first] + listed
          invariant 0 <= k < n == |svc.List(r).nodes| && tmp == svc.List(r).nodes[k] && svc.List(r) != g.depsPending
          invariant g.graph.In(kind, svc) == people
          invariant forall j | 0 <= j < k :: Handled(g.graph, log, people[j])
          decreases n - k
        {
          ghost var was := g.graph;
          DependentShown(svc, kind, k);
          ok := OfferOne(svc, kind, k, tmp, first);
          if !ok {
            return;
          }
          forall j | 0 <= j < k ensures Handled(g.graph, log, people[j]) {
            assert Handled(was, log, people[j]);
          }
          DependentShown(svc, kind, k);
          tmp := tmp.next;
          k := k + 1;
          if tmp == end {
            break;
          }
        }
      }
      ListOffered(svc, kind);
      ok := true;
    }

    /** One round of svc_tree_exec. */
    method Round() returns (ok: bool)
      requires Inv() && Between() && g.graph.pending != []
      modifies this, g`graph, g`nodes, g.depsPending, g.nodes, g.graph.items`status, g.graph.items`pid
      ensures g.reliable ==> ok
      ensures Inv() && (ok ==> Between()) && fresh(g.nodes - old(g.nodes))
      ensures g.graph.items == old(g.graph).items && g.graph.lists == old(g.graph).lists
      ensures noticed == old(noticed) && old(log) <= log
      ensures RoundResult(old(g.graph), g.graph, old(live), old(log), log)
    {
      hide Services.Shape, Safe, Quiet, Calm, Hale, Graph.StatusOf, Graph.Out, Record;
      HeadShown();
      hide HasFailed, IsUnfinished, IsUp;
      SafeTotal();
      var svc := g.depsPending.head.svc;
      OneVerdict(svc);
      var v := SvcNeedsStatus(svc);
      assert svc == g.graph.pending[0];
      match v
      case NeedsStarted => ok := StartHead(svc);
      case NeedsFailed =>
        DropHead(svc);
        ok := true;
      case NeedsUnfinished =>
        TurnHead();
        ok := true;
    }

    lemma OneVerdict(svc: ListItem)
      requires Inv() && svc in g.graph.items
      ensures forall x <- g.graph.Out(DepNeeds, svc) ::
                IsUp(g.graph.StatusOf(x)) <==> !HasFailed(g.graph.StatusOf(x)) && !IsUnfinished(g.graph.StatusOf(x))
    {
      assert g.graph.Total() && AllLegal(g.graph, g.cfg);
      hide Services.Shape, Safe, Graph.StatusOf, HasFailed, IsUnfinished, IsUp, Legal;
      forall x <- g.graph.Out(DepNeeds, svc)
        ensures IsUp(g.graph.StatusOf(x)) <==> !HasFailed(g.graph.StatusOf(x)) && !IsUnfinished(g.graph.StatusOf(x))
      {
        assert x in g.graph.items;
        LegalVerdict(g.cfg, x.absPath, g.graph.StatusOf(x));
      }
    }

    lemma SafeTotal()
      requires Inv()
      ensures g.graph.Total() && forall x <- g.graph.pending :: x in g.graph.items
    {
    }

    method StartHead(svc: ListItem) returns (ok: bool)
      requires Inv() && Between() && g.graph.pending != [] && svc == listed[0] && svc in g.graph.items
      requires forall x <- g.graph.Out(DepNeeds, svc) ::
              !HasFailed(g.graph.StatusOf(x)) && !IsUnfinished(g.graph.StatusOf(x))
      modifies this, g`graph, g`nodes, g.depsPending, g.nodes, g.graph.items`status, g.graph.items`pid
      ensures g.reliable ==> ok
      ensures Inv() && (ok ==> Between()) && fresh(g.nodes - old(g.nodes))
      ensures g.graph.items == old(g.graph).items && g.graph.lists == old(g.graph).lists
      ensures noticed == old(noticed) && log == old(log) + [Record(old(g.graph), svc, old(live))]
    {
      hide Services.Shape, Safe, Quiet, Calm, Hale, Graph.StatusOf, Graph.Out, Statuses, IsUp, HasFailed, IsUnfinished;
      OneVerdict(svc);
      SvcStart(svc);
      StartsAppend(old(log), Record(old(g.graph), svc, old(live)), svc);
      ok := DepNeedsWantsAdd(svc, DepNeeds, svc);
      if ok {
        ok := DepNeedsWantsAdd(svc, DepWants, svc);
      }
      if ok {
        assert excused == {};
        Dropped(svc);
      }
    }

    /** tmp = dep_entry_del(tmp), for a service that is no longer due. */
    method Dropped(svc: ListItem)
      requires Inv() && g.graph.pending == [svc] + listed
      modifies g`graph, g.depsPending, g.nodes
      ensures Inv() && listed == g.graph.pending && g.graph == old(g.graph).(pending := listed)
      ensures g.graph.items == old(g.graph).items && g.graph.lists == old(g.graph).lists
    {
      hide Services.Shape, Safe, Quiet, Calm, Hale, Graph.StatusOf, Graph.Out;
      SafeTotal();
      ghost var before := g.graph;
      g.PopPending();
      PendingOrder(before, g.graph, g.cfg, listed, live, log, excused);
      OrderCalm(before);
      OrderHale(before, g.graph);
    }

    static lemma OrderHale(before: Graph, after: Graph)
      requires after == before.(pending := after.pending)
      ensures Hale(before) ==> Hale(after)
    {
      assert forall i :: after.StatusOf(i) == before.StatusOf(i);
    }

    static lemma EnlistHale(before: Graph, x: ListItem)
      ensures Hale(before) && x in before.items ==> Hale(WithStatus(before, x, before.StatusOf(x) + {InList}))
    {
      if Hale(before) && x in before.items {
        HaleUpdate(before, x, before.StatusOf(x) + {InList});
      }
    }

    /** The order of the list does not matter to Calm. */
    lemma OrderCalm(before: Graph)
      requires g.graph == before.(pending := g.graph.pending)
      ensures Calm(before, g.cfg, log) ==> Calm(g.graph, g.cfg, log)
    {
      if Calm(before, g.cfg, log) {
        CalmOrder(before, g.graph, g.cfg, log);
      }
    }

    /** As long as nothing is refused, no need fails. */
    lemma NeverFails(svc: ListItem)
      requires Inv() && svc in g.graph.items &&
              exists y :: y in g.graph.Out(DepNeeds, svc) && HasFailed(g.graph.StatusOf(y))
      ensures !g.reliable
    {
      var y :| y in g.graph.Out(DepNeeds, svc) && HasFailed(g.graph.StatusOf(y));
      assert g.graph.Total() && y in g.graph.items;
      hide Services.Shape, Safe, Quiet, Calm, HasFailed;
    }

    method DropHead(svc: ListItem)
      requires Inv() && Between() && g.graph.pending != [] && svc == listed[0]
      requires exists y :: y in g.graph.Out(DepNeeds, svc) && HasFailed(g.graph.StatusOf(y))
      modifies this`listed, g`graph, g.depsPending, g.nodes, svc`status
      ensures Inv() && Between() && g.graph.StatusOf(svc) == {NeedFailed} &&
              g.graph.pending == old(g.graph).pending[1..]
      ensures g.graph.items == old(g.graph).items && g.graph.lists == old(g.graph).lists
    {
      hide Services.Shape, Safe, Quiet, Calm, Hale, Graph.StatusOf, Graph.Out;
      HeadShown();
      NeverFails(svc);
      StepFail(g.graph, g.cfg, listed, live, log);
      StatusLists(g.graph, svc, {NeedFailed});
      g.SetStatus(svc, {NeedFailed});
      listed := listed[1..];
      ghost var failed := g.graph;
      Dropped(svc);
      SameStatusWord(failed, g.graph, svc);
    }

    method TurnHead()
      requires Inv() && Between() && g.graph.pending != []
      modifies this`listed, g`graph, g.depsPending
      ensures Inv() && Between() &&
              g.graph == old(g.graph).(pending := old(g.graph).pending[1..] + [old(g.graph).pending[0]])
      ensures g.graph.items == old(g.graph).items && g.graph.lists == old(g.graph).lists
    {
      hide Services.Shape, Quiet, Calm, Hale, Graph.StatusOf, Graph.Out, Sound, Blamed, Offered, Counted, AllLegal,
        Tracked;
      SafeTotal();
      ghost var before := g.graph;
      g.TurnPending();
      TurnListed(before, listed);
      assert Safe(before, g.cfg, listed[1..] + [listed[0]], live, log, excused);
      PendingOrder(before, g.graph, g.cfg, listed[1..] + [listed[0]], live, log, excused);
      OrderCalm(before);
      OrderHale(before, g.graph);
      listed := listed[1..] + [listed[0]];
    }

    /** svc_status_changed: the kernel reports children that have ended.  The result
        of each is looked for where it has never been put. */
    method SvcStatusChanged(pids: seq<int>)
      requires Inv() && Between()
      modifies this`live, this`noticed, g`graph, g.graph.items`status
      ensures Inv() && Between() && (pids == [] ==> noticed == old(noticed) && g.graph == old(g.graph))
      ensures g.graph.items == old(g.graph).items && g.graph.lists == old(g.graph).lists &&
              g.graph.pending == old(g.graph).pending
      ensures forall i <- old(live) :: i in live <==> old(live)[i] !in pids
      ensures forall i <- g.graph.items ::
                Told(old(g.graph).StatusOf(i), i.pid in pids && Foremost(g.graph.items, i), g.graph.StatusOf(i))
      ensures forall i <- old(live) | i.pid in pids && Foremost(g.graph.items, i) ::
                g.graph.StatusOf(i) == if Initial(g.cfg, i.absPath) == {ShOnce} then {OnceOk} else {ShRespawn}
    {
      hide Services.Shape, Safe, Quiet, Calm, Hale, Graph.StatusOf, Graph.Out, Starter.Inv, Told, Foremost, Initial,
        AllLegal, Tracked;
      KnownLive();
      forall i ensures Told(g.graph.StatusOf(i), false, g.graph.StatusOf(i)) {
        ToldNothing(g.graph.StatusOf(i));
      }
      var k := 0;
      while k < |pids|
        invariant 0 <= k <= |pids| && Inv() && Between() &&
                (k == 0 ==> noticed == old(noticed) && g.graph == old(g.graph))
        invariant g.graph.items == old(g.graph).items && g.graph.lists == old(g.graph).lists &&
                g.graph.pending == old(g.graph).pending
        invariant forall i <- live :: i in old(live) && live[i] == old(live)[i]
        invariant forall i <- old(live) :: i in live <==> old(live)[i] !in pids[..k]
        invariant forall i <- g.graph.items ::
                Told(old(g.graph).StatusOf(i), i.pid in pids[..k] && Foremost(g.graph.items, i), g.graph.StatusOf(i))
      {
        ghost var before := g.graph;
        ReapOne(pids[k]);
        assert pids[..k + 1] == pids[..k] + [pids[k]];
        forall i <- g.graph.items
          ensures Told(
                    old(g.graph).StatusOf(i), i.pid in pids[..k + 1] && Foremost(g.graph.items, i), g.graph.StatusOf(i))
        {
          ToldTwice(
            old(g.graph).StatusOf(i), i.pid in pids[..k] && Foremost(g.graph.items, i), before.StatusOf(i),
            i.pid == pids[k] && Foremost(g.graph.items, i), g.graph.StatusOf(i));
        }
        k := k + 1;
      }
      assert pids[..k] == pids;
      forall i <- old(live) | i.pid in pids && Foremost(g.graph.items, i)
        ensures g.graph.StatusOf(i) == if Initial(g.cfg, i.absPath) == {ShOnce} then {OnceOk} else {ShRespawn}
      {
        assert i in g.graph.items;
        ExitNoticed(old(g.graph), g.cfg, old(live), i, true, g.graph.StatusOf(i));
      }
    }

    lemma KnownLive()
      requires Inv()
      ensures AllLegal(g.graph, g.cfg) && Tracked(g.graph, live) && forall i <- live :: i in g.graph.items
    {
      hide Services.Shape, Quiet, Calm, Hale, AllLegal;
    }

    /** WIFEXITED and not WEXITSTATUS */
    static predicate Succeeded(status: int) {
      status % 128 == 0 && status / 256 % 256 == 0
    }

    method ReapOne(pid: int)
      requires Inv() && Between()
      modifies this`live, this`noticed, g`graph, g.graph.items`status
      ensures Inv() && Between() && noticed
      ensures g.graph.items == old(g.graph).items && g.graph.lists == old(g.graph).lists &&
              g.graph.pending == old(g.graph).pending
      ensures live == Reaped(old(live), pid)
      ensures forall i <- g.graph.items ::
                Told(old(g.graph).StatusOf(i), i.pid == pid && Foremost(g.graph.items, i), g.graph.StatusOf(i))
    {
      hide Services.Shape, Safe, Quiet, Calm, Hale, Graph.StatusOf, Graph.Out, Ended, Told, WithStatus, Reaped,
        Foremost;
      var svc := SearchPid(pid);
      if svc != null {
        OnlyForemost(g.graph.items, svc);
      }
      if svc != null {
        FoundExit(pid, svc);
        var success := Succeeded(svc.waitpid);
        if OnceRun in svc.status || Respawning in svc.status {
          g.SetStatus(svc, Ended(svc.status, success));
        }
      } else {
        NobodyReaped(pid);
      }
      ReapedKeeps(live, pid);
      live := Reaped(live, pid);
      noticed := true;
    }

    /** What to do about the service that was found keeps all that has to hold. */
    lemma FoundExit(pid: int, svc: ListItem)
      requires Inv() && svc in g.graph.items && svc.pid == pid
      ensures var s := g.graph.StatusOf(svc);
              var h := WithStatus(g.graph, svc, Ended(s, true));
              && Safe(h, g.cfg, listed, Reaped(live, pid), log, excused) && (g.reliable ==> Hale(h))
              && (forall x :: h.StatusOf(x) == if x == svc then Ended(s, true) else g.graph.StatusOf(x))
              && h.items == g.graph.items && h.pending == g.graph.pending && h.lists == g.graph.lists
              && svc.status == s && Told(s, true, Ended(s, true)) &&
                  (OnceRun !in s && Respawning !in s ==> h == g.graph)
      ensures forall i <- g.graph.items :: Told(g.graph.StatusOf(i), false, g.graph.StatusOf(i))
    {
      hide Services.Shape, Safe, Quiet, Calm, Hale, Graph.StatusOf, WithStatus, Reaped, Ended;
      StepExit(g.graph, g.cfg, listed, live, log, excused, pid, svc);
      SameWord(g.graph, g.cfg, listed, live, log, excused, svc);
      StatusLists(g.graph, svc, Ended(g.graph.StatusOf(svc), true));
      g.StatusShown(svc);
      EndedTold(g.graph.StatusOf(svc));
      if g.reliable {
        EndedHale(g.graph, svc);
      }
    }

    static lemma EndedHale(h: Graph, svc: ListItem)
      requires Hale(h) && svc in h.items
      ensures Hale(WithStatus(h, svc, Ended(h.StatusOf(svc), true)))
    {
      hide WithStatus, Graph.StatusOf;
      HaleUpdate(h, svc, Ended(h.StatusOf(svc), true));
    }

    method SearchPid(pid: int) returns (found: ListItem?)
      requires Inv()
      ensures found != null ==> found in g.graph.items && found.pid == pid && Foremost(g.graph.items, found)
      ensures found == null ==> forall i <- g.graph.items :: i.pid != pid
    {
      found := g.ListSearchPid(pid);
    }

    lemma NobodyReaped(pid: int)
      requires Inv() && forall i <- g.graph.items :: i.pid != pid
      ensures Reaped(live, pid) == live
      ensures forall i <- g.graph.items :: Told(g.graph.StatusOf(i), false, g.graph.StatusOf(i))
    {
      assert Tracked(g.graph, live);
      hide Services.Shape, Safe;
    }

    lemma HaleShown()
      requires Inv()
      ensures g.reliable ==> Hale(g.graph)
    {
      hide Services.Shape, Safe, Quiet, Calm, Hale;
    }

    lemma SteadyShown()
      requires Inv() && Between() && g.reliable && !noticed
      ensures Steady(g.graph, g.cfg, live, log)
    {
      hide Services.Shape, Safe, Quiet, Calm, Hale;
    }

    lemma EmptyUnblocked()
      requires Inv() && Between() && g.reliable && !noticed && g.graph.pending == []
      ensures !Blocked(Bare(g.graph), g.cfg)
    {
      hide Services.Shape, Safe, Quiet, Calm, Hale;
      CalmEmpty(g.graph, g.cfg, live, log);
    }

    /** svc_tree_exec: rounds until the list is empty, with whatever exits the kernel
        reports between them.  The caller's list must not be empty.  The program itself
        never looks for exits in this loop; without them it ends, within |items| times
        |items| rounds, exactly if no service that comes onto the list is blocked. */
    method SvcTreeExec(updates: seq<seq<int>>) returns (ok: bool, done: bool)
      requires Inv() && Between() && g.graph.pending != []
      modifies this, g`graph, g`nodes, g.depsPending, g.nodes, g.graph.items`status, g.graph.items`pid
      ensures Inv() && (ok ==> Between()) && old(log) <= log
      ensures g.graph.items == old(g.graph).items && g.graph.lists == old(g.graph).lists
      ensures done ==> ok && g.graph.pending == []
      ensures g.reliable ==> ok && Hale(g.graph)
      ensures (forall u <- updates :: u == []) ==> noticed == old(noticed)
      ensures g.reliable && !old(noticed) && (forall u <- updates :: u == []) ==>
                ok && (done ==> !Blocked(Bare(g.graph), g.cfg))
      ensures g.reliable && !old(noticed) && (forall u <- updates :: u == []) &&
              |updates| >= |g.graph.items| * |g.graph.items| ==>
                (done <==> !Blocked(Bare(g.graph), g.cfg))
    {
      hide Services.Shape, Safe, Quiet, Calm, Hale, Steady, Starter.Inv, Starter.Between, Blocked, Bare, Within;
      HaleShown();
      ghost var calm := g.reliable && !noticed && (forall u <- updates :: u == []);
      ghost var open := calm && !Blocked(Bare(g.graph), g.cfg);
      ghost var n := |g.graph.items|;
      var k := 0;
      ok, done := true, false;
      ghost var left := 0;
      if open {
        SteadyShown();
        left := RoundsLeft(g.graph, g.cfg, live, log);
      }
      while k < |updates|
        invariant 0 <= k <= |updates| && Inv() && Between() && g.graph.pending != [] && old(log) <= log && !done && ok
        invariant g.graph.items == old(g.graph).items && g.graph.lists == old(g.graph).lists &&
                fresh(g.nodes - old(g.nodes))
        invariant (forall u <- updates :: u == []) ==> noticed == old(noticed)
        invariant g.reliable ==> Hale(g.graph)
        invariant open ==> Within(g.graph, log, left) && k + left <= n * n
      {
        ghost var before := g.graph;
        BareSame(old(g.graph), before);
        assert updates[k] in updates;
        ok, done, left := RoundAndExits(updates[k], open, left);
        HaleShown();
        BareSame(before, g.graph);
        k := k + 1;
        assert done && calm ==> !Blocked(Bare(g.graph), g.cfg);
        if !ok || done {
          return;
        }
      }
      BareSame(old(g.graph), g.graph);
      if open {
        SomeLeft(g.graph, log, left);
      }
    }

    /** A round, and the exits that are noticed after it.  "open" says that the loop is
        undisturbed and nothing is blocked; then one round less is left. */
    method RoundAndExits(
        pids: seq<int>, ghost open: bool, ghost left: nat) returns (ok: bool, done: bool, ghost fewer: nat)
      requires Inv() && Between() && g.graph.pending != []
      requires open ==>
              g.reliable && !noticed && pids == [] && !Blocked(Bare(g.graph), g.cfg) && Within(g.graph, log, left)
      modifies this, g`graph, g`nodes, g.depsPending, g.nodes, g.graph.items`status, g.graph.items`pid
      ensures Inv() && (ok ==> Between()) && old(log) <= log && fresh(g.nodes - old(g.nodes)) && (g.reliable ==> ok)
      ensures g.graph.items == old(g.graph).items && g.graph.lists == old(g.graph).lists
      ensures (done ==> ok) && (ok ==> (done <==> g.graph.pending == [])) && (pids == [] ==> noticed == old(noticed))
      ensures done && g.reliable && !noticed ==> !Blocked(Bare(g.graph), g.cfg)
      ensures open && !done ==> Within(g.graph, log, fewer) && fewer < left
    {
      hide Services.Shape, Safe, Quiet, Calm, Hale, Steady, Starter.Inv, Blocked, Bare, Within, RoundResult;
      ghost var before, earlier, running := g.graph, log, live;
      done, fewer := false, 0;
      if open {
        SteadyShown();
      }
      ok := Round();
      if !ok {
        return;
      }
      SvcStatusChanged(pids);
      BareSame(before, g.graph);
      done := Emptied();
      if done && g.reliable && !noticed {
        EmptyUnblocked();
      }
      if open && !done {
        SteadyShown();
        fewer := OneRoundLess(before, g.graph, g.cfg, running, live, earlier, log, left);
      }
    }

    method Emptied() returns (empty: bool)
      requires Inv()
      ensures empty <==> g.graph.pending == []
    {
      empty := g.depsPending.head == null;
    }
  }

  // ----- what follows for every run -----

  /** Each start found all needs done or running, and none of its own processes. */
  lemma StartedInOrder(
      g: Graph, cfg: Config, listed: seq<ListItem>, live: map<ListItem, int>, log: seq<Start>,
      excused: set<(ListItem, Kind)>, k: nat)
    requires Safe(g, cfg, listed, live, log, excused) && k < |log|
    ensures var e := log[k];
            && e.svc !in e.live && |e.needs| == |g.Out(DepNeeds, e.svc)|
            && forall j | 0 <= j < |e.needs| :: OnceOk in e.needs[j] || Respawning in e.needs[j]
    ensures Initial(cfg, log[k].svc.absPath) == {ShOnce} ==> Starts(log, log[k].svc) == 1
  {
    var e := log[k];
    assert e in log && e.svc in g.items;
    StartsPositive(log, k);
    hide Offered, Blamed, Marked, Tracked, AllLegal, Graph.StatusOf, Graph.Out, Graph.Total, Initial;
  }

  lemma {:induction false} StartsPositive(log: seq<Start>, k: nat)
    requires k < |log|
    ensures Starts(log, log[k].svc) > 0
  {
    if k < |log| - 1 {
      StartsPositive(log[..|log| - 1], k);
    }
  }

  /** As long as no exit is noticed, nothing that needs a once-service gets started. */
  lemma WaitsForever(
      g: Graph, cfg: Config, listed: seq<ListItem>, live: map<ListItem, int>, log: seq<Start>,
      excused: set<(ListItem, Kind)>, e: Start, x: ListItem)
    requires Safe(g, cfg, listed, live, log, excused) && Quiet(g, log) && e in log && x in g.Out(DepNeeds, e.svc)
    ensures Initial(cfg, x.absPath) == {ShRespawn}
  {
    hide Marked, AllLegal, Counted, Tracked, Offered, Blamed, Graph.StatusOf, Graph.Out, Graph.Total;
    var k :| 0 <= k < |g.Out(DepNeeds, e.svc)| && g.Out(DepNeeds, e.svc)[k] == x;
    assert IsUp(e.needs[k]) && Legal(cfg, x.absPath, e.needs[k]);
    assert e.needs[k] in e.needs;
  }

  /** No service is taken to have failed as a process, whatever its exit status. */
  lemma NeverOnceFail(
      g: Graph, cfg: Config, listed: seq<ListItem>, live: map<ListItem, int>, log: seq<Start>,
      excused: set<(ListItem, Kind)>, x: ListItem)
    requires Safe(g, cfg, listed, live, log, excused) && x in g.items
    ensures OnceFail !in g.StatusOf(x)
    ensures forall exited, t | Told(g.StatusOf(x), exited, t) :: HasFailed(t) <==> HasFailed(g.StatusOf(x))
    ensures (forall z <- g.items :: BadErr !in g.StatusOf(z)) ==> !HasFailed(g.StatusOf(x))
  {
    assert Legal(cfg, x.absPath, g.StatusOf(x));
    hide Marked, AllLegal, Sound, Counted, Tracked, Offered, Graph.StatusOf, Graph.Out, Graph.Total;
  }

  lemma {:induction false} CountPositive(s: seq<ListItem>, x: ListItem)
    ensures Count(s, x) > 0 <==> x in s
  {
    if s != [] {
      CountPositive(s[..|s| - 1], x);
      assert s == s[..|s| - 1] + [s[|s| - 1]];
    }
  }

  /** When the list has run empty, a service that was not started has been given up,
      or depends on others of which none was started. */
  lemma NoneForgotten(g: Graph, cfg: Config, live: map<ListItem, int>, log: seq<Start>, x: ListItem)
    requires Safe(g, cfg, [], live, log, {}) && g.Mirrored() && x in g.items
    requires Starts(log, x) == 0 && NeedFailed !in g.StatusOf(x)
    ensures !Free(g, x) && forall kind, d | d in g.Out(kind, x) :: Starts(log, d) == 0
  {
    assert InList !in g.StatusOf(x);
    assert !Handled(g, log, x);
    forall kind, d | d in g.Out(kind, x) ensures Starts(log, d) == 0 {
      assert d in g.items;
      assert Count(g.Out(kind, x), d) == Count(g.In(kind, d), x);
      CountPositive(g.Out(kind, x), d);
      CountPositive(g.In(kind, d), x);
    }
    hide Sound, Counted, Tracked, Blamed, AllLegal;
  }
}
