/** cinit's service graph: recursive discovery of services and their dependencies. */
module CinitTree {
  import opened DepRing

  /** What reading a needs or wants directory gives: a dot name, a name that does
      not resolve, or the path of a service. */
  datatype Entry = Hidden | Broken | To(path: Path)
  datatype Listing = Missing | Unreadable | Entries(es: seq<Entry>)
  datatype Probe = Present | Absent | Failing
  datatype Service = Service(needs: Listing, wants: Listing, respawn: Probe)
  type Config = map<Path, Service>

  datatype Kind = DepNeeds | DepWants

  function ListingOf(cfg: Config, p: Path, kind: Kind): Listing {
    if p !in cfg then Missing else if kind.DepNeeds? then cfg[p].needs else cfg[p].wants
  }

  function RespawnOf(cfg: Config, p: Path): Probe {
    if p in cfg then cfg[p].respawn else Absent
  }

  /** A directory of service p cannot be read, or it cannot be found out whether p respawns. */
  predicate Faulty(cfg: Config, p: Path) {
    ListingOf(cfg, p, DepNeeds).Unreadable? || ListingOf(cfg, p, DepWants).Unreadable? || RespawnOf(cfg, p).Failing?
  }

  /** The services that entries point to, in directory order. */
  function Resolved(es: seq<Entry>): seq<Path> {
    if es == [] then []
    else
      var last := es[|es| - 1];
      Resolved(es[..|es| - 1]) + if last.To? then [last.path] else []
  }

  function Targets(cfg: Config, p: Path, kind: Kind): seq<Path> {
    var l := ListingOf(cfg, p, kind);
    if l.Entries? then Resolved(l.es) else []
  }

  // ----- the graph as a value -----

  function OutRole(kind: Kind): Role {
    if kind.DepNeeds? then Needs else Wants
  }

  function InRole(kind: Kind): Role {
    if kind.DepNeeds? then NeededBy else WantedBy
  }

  /** The services in order of creation, with the services on each of their lists. */
  datatype Graph = Graph(
    items: seq<ListItem>,
    lists: map<(ListItem, Role), seq<ListItem>>,
    status: map<ListItem, set<Flag>>,
    pending: seq<ListItem>)
  {
    function List(i: ListItem, r: Role): seq<ListItem> {
      if (i, r) in lists then lists[(i, r)] else []
    }

    function Out(kind: Kind, i: ListItem): seq<ListItem> {
      List(i, OutRole(kind))
    }

    function In(kind: Kind, i: ListItem): seq<ListItem> {
      List(i, InRole(kind))
    }

    function StatusOf(i: ListItem): set<Flag> {
      if i in status then status[i] else {}
    }

    /** The lists lead to services that exist, and no two of these share a path. */
    ghost predicate Total() {
      && (forall kind, i, x {:trigger x in Out(kind, i)} | i in items && x in Out(kind, i) :: x in items)
      && (forall kind, i, x {:trigger x in In(kind, i)} | i in items && x in In(kind, i) :: x in items)
      && (forall x <- pending :: x in items)
      && (forall j, k | 0 <= j < k < |items| :: items[j].absPath != items[k].absPath)
    }

    /** Both directions of every dependency are recorded equally often. */
    ghost predicate Mirrored() {
      forall kind, a, b | a in items && b in items :: Count(Out(kind, a), b) == Count(In(kind, b), a)
    }

    /** Everything the configuration says of service a has been recorded. */
    ghost predicate Complete(cfg: Config, a: ListItem) {
      && PathsOf(Out(DepNeeds, a)) == Targets(cfg, a.absPath, DepNeeds)
      && PathsOf(Out(DepWants, a)) == Targets(cfg, a.absPath, DepWants)
      && (a in pending <==> Out(DepNeeds, a) == [] && Out(DepWants, a) == [])
      && StatusOf(a) == Initial(cfg, a.absPath) + (if a in pending then {InList} else {})
      && !Faulty(cfg, a.absPath)
    }

    /** All services but those still being built are complete. */
    ghost predicate Built(cfg: Config, open: set<ListItem>) {
      && Total() && Mirrored()
      && (forall a <- items | a !in open :: Complete(cfg, a))
      && (forall a <- pending :: a !in open)
      && (forall j, k | 0 <= j < k < |pending| :: pending[j] != pending[k])
    }

    function WithItem(i: ListItem, s: set<Flag>): Graph {
      Graph(items + [i], lists[(i, Needs) := []][(i, Wants) := []][(i, NeededBy) := []][(i, WantedBy) := []],
          status[i := s], pending)
    }

    function WithEntry(i: ListItem, r: Role, x: ListItem): Graph {
      this.(lists := lists[(i, r) := List(i, r) + [x]])
    }

    /** One dependency of a on b, recorded on both sides. */
    function WithEdge(kind: Kind, a: ListItem, b: ListItem): Graph {
      WithEntry(b, InRole(kind), a).WithEntry(a, OutRole(kind), b)
    }

    function WithPending(a: ListItem): Graph {
      this.(pending := pending + [a], status := status[a := StatusOf(a) + {InList}])
    }
  }

  function WithStatus(g: Graph, i: ListItem, s: set<Flag>): Graph {
    g.(status := g.status[i := s])
  }

  /** svc_create's verdict on a new service. */
  function Initial(cfg: Config, p: Path): set<Flag> {
    if RespawnOf(cfg, p).Present? then {ShRespawn} else {ShOnce}
  }

  function PathsOf(s: seq<ListItem>): seq<Path> {
    seq(|s|, k requires 0 <= k < |s| => s[k].absPath)
  }

  function Count(s: seq<ListItem>, x: ListItem): nat {
    if s == [] then 0 else Count(s[..|s| - 1], x) + if s[|s| - 1] == x then 1 else 0
  }

  lemma CountAppend(s: seq<ListItem>, y: ListItem, x: ListItem)
    ensures Count(s + [y], x) == Count(s, x) + if y == x then 1 else 0
  {
    assert (s + [y])[..|s|] == s;
  }

  lemma {:induction false} CountAbsent(s: seq<ListItem>, x: ListItem)
    requires x !in s
    ensures Count(s, x) == 0
  {
    if s != [] {
      CountAbsent(s[..|s| - 1], x);
    }
  }

  /** A later graph that knows more services, but nothing new about the outgoing
      dependencies of the old ones outside "but". */
  ghost predicate Extends(g: Graph, h: Graph, but: set<ListItem>) {
    && g.items <= h.items
    && (forall kind, i | i in g.items && i !in but :: h.Out(kind, i) == g.Out(kind, i))
    && (forall i <- g.items :: h.StatusOf(i) == g.StatusOf(i))
    && g.pending <= h.pending
    && (forall x <- h.pending | x !in g.pending :: x !in g.items)
  }

  /** Everything new in h can be reached from p. */
  ghost predicate NewFrom(cfg: Config, g: Graph, h: Graph, p: Path) {
    forall i | i in h.items && i !in g.items :: Reaches(cfg, p, i.absPath)
  }

  lemma NewFromTransitive(cfg: Config, f: Graph, g: Graph, h: Graph, p: Path)
    requires NewFrom(cfg, f, g, p) && NewFrom(cfg, g, h, p)
    ensures NewFrom(cfg, f, h, p)
  {
  }

  lemma SameStatus(g: Graph, h: Graph, but: set<ListItem>, i: ListItem)
    requires Extends(g, h, but) && i in g.items
    ensures h.StatusOf(i) == g.StatusOf(i) && i in h.items
    ensures forall x <- g.items :: x in h.items
  {
  }

  lemma FreshItem(g: Graph, i: ListItem, s: set<Flag>)
    ensures g.WithItem(i, s).Out(DepNeeds, i) == [] && g.WithItem(i, s).Out(DepWants, i) == []
    ensures g.WithItem(i, s).StatusOf(i) == s && g.WithItem(i, s).items == g.items + [i]
  {
  }

  lemma NothingNew(cfg: Config, g: Graph, but: set<ListItem>, p: Path)
    ensures Extends(g, g, but) && NewFrom(cfg, g, g, p)
  {
  }

  lemma ResolvedStart(es: seq<Entry>)
    ensures Resolved(es[..0]) == [] == PathsOf([])
  {
  }

  lemma ResolvedStep(es: seq<Entry>, k: nat)
    requires k < |es|
    ensures Resolved(es[..k + 1]) == Resolved(es[..k]) + if es[k].To? then [es[k].path] else []
  {
    assert es[..k + 1][..k] == es[..k];
  }

  lemma InResolved(es: seq<Entry>, k: nat)
    requires k < |es| && es[k].To?
    ensures es[k].path in Resolved(es)
  {
    if k < |es| - 1 {
      InResolved(es[..|es| - 1], k);
    }
  }

  /** What building service li from end to end amounts to. */
  lemma ServiceBuilt(cfg: Config, f: Graph, g: Graph, h: Graph, li: ListItem)
    requires li !in f.items && g.items == f.items + [li] && Extends(f, g, {}) && Extends(g, h, {li})
    requires NewFrom(cfg, g, h, li.absPath)
    ensures Extends(f, h, {}) && NewFrom(cfg, f, h, li.absPath)
  {
    ReachesSelf(cfg, li.absPath);
    hide Graph.Out, Graph.StatusOf, Reaches;
    forall i <- f.items ensures i in g.items && i != li && i in h.items {
    }
  }

  lemma PendingBuilt(cfg: Config, f: Graph, h: Graph, li: ListItem)
    requires li !in f.items && Extends(f, h, {}) && NewFrom(cfg, f, h, li.absPath)
    ensures Extends(f, h.WithPending(li), {}) && NewFrom(cfg, f, h.WithPending(li), li.absPath)
  {
    PendingLists(h, li);
    hide Graph.Out, Graph.StatusOf, Reaches;
  }

  /** Both directories of the new service have been read, one after the other. */
  lemma DepsRead(cfg: Config, before: Graph, item: Graph, half: Graph, after: Graph, li: ListItem)
    requires li !in before.items && item.items == before.items + [li] && Extends(before, item, {})
    requires Extends(item, half, {li}) && Extends(half, after, {li})
    requires NewFrom(cfg, item, half, li.absPath) && NewFrom(cfg, half, after, li.absPath)
    ensures Extends(before, after, {}) && NewFrom(cfg, before, after, li.absPath)
    ensures Extends(before, after.WithPending(li), {}) && NewFrom(cfg, before, after.WithPending(li), li.absPath)
    ensures li in after.items && after.StatusOf(li) == item.StatusOf(li)
  {
    hide Extends, NewFrom;
    SameStatus(item, half, {li}, li);
    SameStatus(half, after, {li}, li);
    ExtendsTransitive(item, half, after, {li});
    NewFromTransitive(cfg, item, half, after, li.absPath);
    ServiceBuilt(cfg, before, item, after, li);
    PendingBuilt(cfg, before, after, li);
  }

  lemma ExtendsTransitive(f: Graph, g: Graph, h: Graph, but: set<ListItem>)
    requires Extends(f, g, but) && Extends(g, h, but)
    ensures Extends(f, h, but)
  {
    assert forall i <- f.items :: i in g.items;
  }

  lemma ItemLists(g: Graph, i: ListItem, s: set<Flag>)
    ensures forall x, r :: g.WithItem(i, s).List(x, r) == if x == i then [] else g.List(x, r)
    ensures forall x, k :: g.WithItem(i, s).Out(k, x) == if x == i then [] else g.Out(k, x)
    ensures forall x, k :: g.WithItem(i, s).In(k, x) == if x == i then [] else g.In(k, x)
    ensures forall x :: g.WithItem(i, s).StatusOf(x) == if x == i then s else g.StatusOf(x)
  {
    forall x, r ensures g.WithItem(i, s).List(x, r) == if x == i then [] else g.List(x, r) {
      assert r == Needs || r == Wants || r == NeededBy || r == WantedBy;
    }
  }

  lemma NewItemLists(g: Graph, i: ListItem, s: set<Flag>)
    requires i !in g.items
    ensures var h := g.WithItem(i, s);
            && h.items == g.items + [i] && h.pending == g.pending && h.StatusOf(i) == s
            && (forall r :: h.List(i, r) == []) && (forall x, r | x in g.items :: h.List(x, r) == g.List(x, r))
            && forall x <- g.items :: h.StatusOf(x) == g.StatusOf(x)
  {
    ItemLists(g, i, s);
  }

  lemma EntryLists(g: Graph, i: ListItem, r: Role, x: ListItem)
    ensures forall j, q ::
            g.WithEntry(i, r, x).List(j, q) == if j == i && q == r then g.List(j, q) + [x] else g.List(j, q)
    ensures forall j :: g.WithEntry(i, r, x).StatusOf(j) == g.StatusOf(j)
    ensures g.WithEntry(i, r, x).items == g.items && g.WithEntry(i, r, x).pending == g.pending
  {
  }

  lemma EdgeLists(g: Graph, kind: Kind, a: ListItem, b: ListItem)
    ensures forall k, x ::
            g.WithEdge(kind, a, b).Out(k, x) == if k == kind && x == a then g.Out(k, x) + [b] else g.Out(k, x)
    ensures forall k, x ::
            g.WithEdge(kind, a, b).In(k, x) == if k == kind && x == b then g.In(k, x) + [a] else g.In(k, x)
    ensures forall x :: g.WithEdge(kind, a, b).StatusOf(x) == g.StatusOf(x)
    ensures g.WithEdge(kind, a, b).items == g.items && g.WithEdge(kind, a, b).pending == g.pending
  {
    EntryLists(g, b, InRole(kind), a);
    EntryLists(g.WithEntry(b, InRole(kind), a), a, OutRole(kind), b);
    hide Graph.List, Graph.StatusOf, Graph.WithEntry;
  }

  lemma EdgeTotal(g: Graph, kind: Kind, a: ListItem, b: ListItem)
    requires g.Total() && a in g.items && b in g.items
    ensures g.WithEdge(kind, a, b).Total()
  {
    EdgeLists(g, kind, a, b);
    hide Graph.Out, Graph.In, Graph.WithEdge;
  }

  lemma PendingLists(g: Graph, a: ListItem)
    ensures forall k, x :: g.WithPending(a).Out(k, x) == g.Out(k, x) && g.WithPending(a).In(k, x) == g.In(k, x)
    ensures forall k, x :: g.WithPending(a).List(k, x) == g.List(k, x)
    ensures forall x :: g.WithPending(a).StatusOf(x) == if x == a then g.StatusOf(a) + {InList} else g.StatusOf(x)
  {
  }

  lemma ItemMirrored(g: Graph, i: ListItem, s: set<Flag>)
    requires g.Total() && g.Mirrored() && i !in g.items
    ensures g.WithItem(i, s).Mirrored()
  {
    ItemLists(g, i, s);
    hide Graph.Out, Graph.In;
    var h := g.WithItem(i, s);
    forall kind, a, b | a in h.items && b in h.items ensures Count(h.Out(kind, a), b) == Count(h.In(kind, b), a) {
      if a == i && b != i {
        CountAbsent(g.In(kind, b), i);
      } else if b == i && a != i {
        CountAbsent(g.Out(kind, a), i);
      }
    }
  }

  /** svc_create adds a service without dependencies, still to be built. */
  lemma ItemStep(g: Graph, cfg: Config, open: set<ListItem>, i: ListItem)
    requires g.Built(cfg, open) && i !in g.items && forall j <- g.items :: j.absPath != i.absPath
    ensures g.WithItem(i, Initial(cfg, i.absPath)).Built(cfg, open + {i})
    ensures Extends(g, g.WithItem(i, Initial(cfg, i.absPath)), {})
  {
    var s := Initial(cfg, i.absPath);
    ItemLists(g, i, s);
    ItemMirrored(g, i, s);
    hide Graph.Out, Graph.In, Graph.StatusOf, Graph.Mirrored, PathsOf, Targets, Initial;
    var h := g.WithItem(i, s);
    assert h.Total();
    forall a <- h.items | a !in open + {i} ensures h.Complete(cfg, a) {
      assert a in g.items && g.Complete(cfg, a);
    }
  }

  lemma EdgeMirrored(g: Graph, kind: Kind, a: ListItem, b: ListItem)
    requires g.Mirrored() && a in g.items && b in g.items
    ensures g.WithEdge(kind, a, b).Mirrored()
  {
    EdgeLists(g, kind, a, b);
    hide Graph.Out, Graph.In, Graph.WithEdge, Count;
    var h := g.WithEdge(kind, a, b);
    forall k, x, y | x in h.items && y in h.items ensures Count(h.Out(k, x), y) == Count(h.In(k, y), x) {
      assert Count(g.Out(k, x), y) == Count(g.In(k, y), x);
      CountAppend(g.Out(k, x), b, y);
      CountAppend(g.In(k, y), a, x);
    }
  }

  /** One entry of a needs or wants directory, recorded on both sides. */
  lemma EdgeStep(g: Graph, cfg: Config, open: set<ListItem>, kind: Kind, a: ListItem, b: ListItem)
    requires g.Built(cfg, open) && a in g.items && b in g.items && a in open
    ensures g.WithEdge(kind, a, b).Built(cfg, open)
    ensures Extends(g, g.WithEdge(kind, a, b), {a})
  {
    EdgeLists(g, kind, a, b);
    EdgeMirrored(g, kind, a, b);
    EdgeTotal(g, kind, a, b);
    hide Graph.Out, Graph.In, Graph.WithEdge, Graph.StatusOf, Graph.Mirrored, Graph.Total, PathsOf, Targets, Initial;
    var h := g.WithEdge(kind, a, b);
    forall x <- h.items | x !in open ensures h.Complete(cfg, x) {
      assert g.Complete(cfg, x);
    }
  }

  /** Both directories of service a have been read. */
  ghost predicate Read(g: Graph, cfg: Config, a: ListItem) {
    && PathsOf(g.Out(DepNeeds, a)) == Targets(cfg, a.absPath, DepNeeds)
    && PathsOf(g.Out(DepWants, a)) == Targets(cfg, a.absPath, DepWants)
    && g.StatusOf(a) == Initial(cfg, a.absPath) && !Faulty(cfg, a.absPath)
  }

  /** A service without dependencies becomes a start service. */
  lemma PendingStep(g: Graph, cfg: Config, open: set<ListItem>, a: ListItem)
    requires g.Built(cfg, open) && a in g.items && a in open && Read(g, cfg, a)
    requires g.Out(DepNeeds, a) == [] && g.Out(DepWants, a) == []
    ensures g.WithPending(a).Built(cfg, open - {a})
  {
    PendingLists(g, a);
    hide Graph.Out, Graph.In, Graph.StatusOf, PathsOf, Targets, Initial;
    var h := g.WithPending(a);
    assert h.Total();
    assert h.Mirrored() by {
      forall k, x, y | x in h.items && y in h.items ensures Count(h.Out(k, x), y) == Count(h.In(k, y), x) {
        assert Count(g.Out(k, x), y) == Count(g.In(k, y), x);
      }
    }
    forall x <- h.items | x !in open - {a} ensures h.Complete(cfg, x) {
      if x != a {
        assert g.Complete(cfg, x);
      }
    }
  }

  /** Any other service is complete as it is. */
  lemma ReadStep(g: Graph, cfg: Config, open: set<ListItem>, a: ListItem)
    requires g.Built(cfg, open) && a in g.items && a in open && Read(g, cfg, a)
    requires g.Out(DepNeeds, a) != [] || g.Out(DepWants, a) != []
    ensures g.Built(cfg, open - {a})
  {
  }

  // ----- what can be reached -----

  ghost predicate Closed(cfg: Config, universe: set<Path>) {
    forall p, kind, q | p in universe && q in Targets(cfg, p, kind) :: q in universe
  }

  /** A route along needs and wants. */
  ghost predicate Leads(cfg: Config, route: seq<Path>) {
    forall k | 0 <= k < |route| - 1 ::
        route[k + 1] in Targets(cfg, route[k], DepNeeds) || route[k + 1] in Targets(cfg, route[k], DepWants)
  }

  ghost predicate Reaches(cfg: Config, a: Path, b: Path) {
    exists route :: |route| > 0 && route[0] == a && route[|route| - 1] == b && Leads(cfg, route)
  }

  lemma ReachesSelf(cfg: Config, a: Path)
    ensures Reaches(cfg, a, a)
  {
    assert Leads(cfg, [a]);
  }

  lemma ReachesStep(cfg: Config, a: Path, kind: Kind, b: Path, c: Path)
    requires b in Targets(cfg, a, kind) && Reaches(cfg, b, c)
    ensures Reaches(cfg, a, c)
  {
    var route :| |route| > 0 && route[0] == b && route[|route| - 1] == c && Leads(cfg, route);
    var longer := [a] + route;
    assert kind == DepNeeds || kind == DepWants;
    forall k | 0 <= k < |longer| - 1
      ensures longer[k + 1] in Targets(cfg, longer[k], DepNeeds) || longer[k + 1] in Targets(cfg, longer[k], DepWants)
    {
      if k > 0 {
        assert longer[k] == route[k - 1] && longer[k + 1] == route[k];
      }
    }
    assert Leads(cfg, longer);
  }

  /** Building p must come across a service that cannot be read. */
  ghost predicate Spoiled(cfg: Config, p: Path) {
    exists q :: Reaches(cfg, p, q) && Faulty(cfg, q)
  }

  lemma SpoiledHere(cfg: Config, p: Path)
    ensures Faulty(cfg, p) ==> Spoiled(cfg, p)
  {
    ReachesSelf(cfg, p);
  }

  lemma SpoiledThrough(cfg: Config, a: Path, kind: Kind, b: Path)
    requires b in Targets(cfg, a, kind)
    ensures Spoiled(cfg, b) ==> Spoiled(cfg, a)
  {
    if Spoiled(cfg, b) {
      var q :| Reaches(cfg, b, q) && Faulty(cfg, q);
      ReachesStep(cfg, a, kind, b, q);
    }
  }

  lemma RouteTail(cfg: Config, route: seq<Path>)
    requires |route| > 1 && Leads(cfg, route)
    ensures Leads(cfg, route[1..])
  {
    var rest := route[1..];
    forall j | 0 <= j < |rest| - 1
        ensures rest[j + 1] in Targets(cfg, rest[j], DepNeeds) || rest[j + 1] in Targets(cfg, rest[j], DepWants) {
      assert rest[j] == route[j + 1] && rest[j + 1] == route[j + 2];
    }
  }

  lemma TargetRecorded(g: Graph, cfg: Config, i: ListItem, kind: Kind, q: Path) returns (j: ListItem)
    requires g.Built(cfg, {}) && i in g.items && q in Targets(cfg, i.absPath, kind)
    ensures j in g.items && j.absPath == q
  {
    assert g.Complete(cfg, i);
    var k :| 0 <= k < |PathsOf(g.Out(kind, i))| && PathsOf(g.Out(kind, i))[k] == q;
    j := g.Out(kind, i)[k];
    assert j in g.Out(kind, i);
  }

  lemma EdgeRecorded(g: Graph, cfg: Config, open: set<ListItem>, kind: Kind, a: ListItem, b: ListItem)
    requires g.Built(cfg, open) && a in g.items && b in g.items && a in open
    ensures var h := g.WithEdge(kind, a, b);
            && h.Built(cfg, open) && Extends(g, h, {a}) && h.items == g.items
            && PathsOf(h.Out(kind, a)) == PathsOf(g.Out(kind, a)) + [b.absPath]
            && (forall k | k != kind :: h.Out(k, a) == g.Out(k, a))
  {
    EdgeStep(g, cfg, open, kind, a, b);
    EdgeLists(g, kind, a, b);
    hide Graph.Built, Extends, Graph.Out, Graph.In, Graph.WithEdge;
  }

  /** Building a service that svc depends on, then recording the dependency. */
  lemma DependencyAdded(
      cfg: Config, before: Graph, start: Graph, found: Graph, kind: Kind, svc: ListItem, other: ListItem,
      open: set<ListItem>)
    requires Extends(before, start, {svc}) && NewFrom(cfg, before, start, svc.absPath)
    requires Extends(start, found, {}) && NewFrom(cfg, start, found, other.absPath) && found.Built(cfg, open)
    requires svc in start.items && svc in open && other in found.items &&
            other.absPath in Targets(cfg, svc.absPath, kind)
    ensures var after := found.WithEdge(kind, svc, other);
            && after.Built(cfg, open) && Extends(before, after, {svc}) && NewFrom(cfg, before, after, svc.absPath)
            && PathsOf(after.Out(kind, svc)) == PathsOf(start.Out(kind, svc)) + [other.absPath]
            && (forall k | k != kind :: after.Out(k, svc) == start.Out(k, svc))
  {
    var after := found.WithEdge(kind, svc, other);
    SameStatus(start, found, {}, svc);
    EdgeRecorded(found, cfg, open, kind, svc, other);
    hide Graph.Built, Graph.Out, Graph.In, Graph.StatusOf, Graph.WithEdge, Reaches, Targets, PathsOf;
    assert Extends(start, found, {svc});
    ExtendsTransitive(before, start, found, {svc});
    ExtendsTransitive(before, found, after, {svc});
    forall i | i in after.items && i !in before.items ensures Reaches(cfg, svc.absPath, i.absPath) {
      if i !in start.items {
        ReachesStep(cfg, svc.absPath, kind, other.absPath, i.absPath);
      }
    }
  }

  /** A finished graph that holds the root holds everything on any route from it. */
  lemma {:induction false} RouteCovered(g: Graph, cfg: Config, route: seq<Path>, i: ListItem) returns (j: ListItem)
    requires g.Built(cfg, {}) && |route| > 0 && Leads(cfg, route)
    requires i in g.items && i.absPath == route[0]
    ensures j in g.items && j.absPath == route[|route| - 1]
  {
    j := i;
    if |route| > 1 {
      var kind := if route[1] in Targets(cfg, route[0], DepNeeds) then DepNeeds else DepWants;
      j := TargetRecorded(g, cfg, i, kind, route[1]);
      RouteTail(cfg, route);
      hide Graph.Built;
      j := RouteCovered(g, cfg, route[1..], j);
    }
  }

  // ----- the heap -----

  /** The services in order form a circle. */
  ghost predicate ItemRing(head: ListItem?, items: seq<ListItem>)
    reads items`next, items`prev
  {
    && (head == null <==> items == [])
    && (items != [] ==> head == items[0])
    && (forall i, j | 0 <= i < j < |items| :: items[i] != items[j])
    && (forall i | 0 <= i < |items| :: items[i].next == items[Succ(i, |items|)])
    && (forall i | 0 <= i < |items| :: items[Succ(i, |items|)].prev == items[i])
  }

  /** The backward walk comes to service i before any other with its process number: i is the
      head, or the head has another number and so have all services created after i. */
  ghost predicate Foremost(items: seq<ListItem>, i: ListItem)
    reads items`pid, i`pid
  {
    exists r :: 0 <= r < |items| && items[r] == i &&
      (r == 0 || (items[0].pid != i.pid && forall j | r < j < |items| :: items[j].pid != i.pid))
  }

  /** Only one service with a number is the foremost. */
  lemma OneForemost(items: seq<ListItem>, i: ListItem, j: ListItem)
    requires Foremost(items, i) && Foremost(items, j) && i.pid == j.pid
    ensures i == j
  {
  }

  /** A stale number hides the service that has it now, if the walk comes to it first. */
  lemma StaleHides(stale: ListItem, now: ListItem)
    requires stale != now && stale.pid == now.pid
    ensures Foremost([stale, now], stale) && !Foremost([stale, now], now)
  {
    assert [stale, now][0] == stale;
  }

  /** List l has one entry for each of "svcs", in order. */
  ghost predicate Holds(l: DepList, svcs: seq<ListItem>)
    reads l, l.nodes
  {
    && l.Valid() && |l.nodes| == |svcs|
    && forall k | 0 <= k < |svcs| :: l.nodes[k].svc == svcs[k]
  }

  /** Every list belongs to one service, and only deps_pending to none. */
  ghost predicate Disjoint(items: seq<ListItem>, cells: set<DepList>, pending: DepList) {
    && pending.serial == -1 && pending in cells
    && (forall k | 0 <= k < |items| :: items[k].serial == k && items[k].OwnLists())
    && (forall i, r | i in items :: i.List(r) in cells)
  }

  /** Different services, or different roles, mean different lists. */
  lemma Distinguish(items: seq<ListItem>, cells: set<DepList>, pending: DepList, i: ListItem, r: Role)
    requires Disjoint(items, cells, pending) && i in items
    ensures i.List(r) != pending
    ensures forall j, q | j in items && (j != i || q != r) :: j.List(q) != i.List(r)
  {
    var k :| 0 <= k < |items| && items[k] == i;
    forall j, q | j in items && (j != i || q != r) ensures j.List(q) != i.List(r) {
      var m :| 0 <= m < |items| && items[m] == j;
      assert items[m].OwnLists() && items[k].OwnLists();
    }
  }

  lemma OneMoreDisjoint(items: seq<ListItem>, cells: set<DepList>, pending: DepList, i: ListItem)
    requires Disjoint(items, cells, pending) && i.serial == |items| && i.OwnLists()
    ensures Disjoint(items + [i], cells + {i.needs, i.wants, i.neededBy, i.wantedBy}, pending)
  {
    forall r ensures i.List(r) in {i.needs, i.wants, i.neededBy, i.wantedBy} {
      assert r == Needs || r == Wants || r == NeededBy || r == WantedBy;
    }
  }

  lemma PendingApart(items: seq<ListItem>, cells: set<DepList>, pending: DepList)
    requires Disjoint(items, cells, pending)
    ensures forall j, q | j in items :: j.List(q) != pending
  {
    forall j, q | j in items ensures j.List(q) != pending {
      var m :| 0 <= m < |items| && items[m] == j;
      assert items[m].OwnLists();
    }
  }

  /** A call that the kernel or the allocator may refuse, unless it is reliable. */
  method Oracle(reliable: bool) returns (ok: bool)
    ensures reliable ==> ok
  {
    ok := *;
    ok := ok || reliable;
  }

  /** dep_create and dep_entry_add. */
  method Push(l: DepList, x: ListItem, reliable: bool, ghost svcs: seq<ListItem>) returns (ok: bool, ghost entry: Dep?)
    requires Holds(l, svcs)
    modifies l, l.nodes
    ensures reliable ==> ok
    ensures Holds(l, if ok then svcs + [x] else svcs)
    ensures ok ==> entry != null && fresh(entry) && l.nodes == old(l.nodes) + [entry]
    ensures !ok ==> l.nodes == old(l.nodes)
  {
    entry := null;
    ok := Oracle(reliable);
    if ok {
      var created := new Dep(x, l);
      l.Add(created);
      entry := created;
    }
  }

  /** svc_list and deps_pending, with the graph that the heap stands for. */
  class Services {
    const cfg: Config
    /** Allocation, getcwd and chdir never fail. */
    const reliable: bool
    var svcList: ListItem?
    const depsPending: DepList
    ghost var graph: Graph
    ghost var cells: set<DepList>
    ghost var nodes: set<Dep>
    ghost var services: set<ListItem>

    ghost predicate Footed()
      reads this`cells, this`nodes, cells
    {
      forall l, d | l in cells && d in l.nodes :: d in nodes
    }

    /** The heap is well formed and stands for the graph. */
    ghost predicate Shape()
      reads this, cells, nodes, services
    {
      && (forall i <- graph.items :: i in services)
      && ItemRing(svcList, graph.items)
      && Disjoint(graph.items, cells, depsPending) && Cells()
      && Holds(depsPending, graph.pending)
      && (forall i, r | i in graph.items :: Holds(i.List(r), graph.List(i, r)))
      && (forall i <- graph.items :: i.status == graph.StatusOf(i))
    }

    constructor (cfg: Config, reliable: bool)
      ensures Shape() && graph == Graph([], map[], map[], []) && this.cfg == cfg && this.reliable == reliable
      ensures fresh(cells) && nodes == {} && services == {}
    {
      this.cfg, this.reliable := cfg, reliable;
      svcList := null;
      depsPending := new DepList(-1, Needs);
      graph := Graph([], map[], map[], []);
      cells, nodes, services := {depsPending}, {}, {};
    }

    /** The heap part of Shape that every list takes part in. */
    ghost predicate Cells()
      reads this`cells, this`nodes, cells, nodes
    {
      Footed() && forall l <- cells :: l.Valid()
    }

    /** Adding to one list leaves the others alone. */
    method PushTo(l: DepList, x: ListItem, ghost svcs: seq<ListItem>) returns (ok: bool)
      requires Cells() && l in cells && Holds(l, svcs)
      modifies this`nodes, l, nodes
      ensures reliable ==> ok
      ensures Cells() && fresh(nodes - old(nodes))
      ensures Holds(l, if ok then svcs + [x] else svcs)
      ensures forall m, s {:trigger Holds(m, s)} | m in cells && m != l && old(allocated(s)) && old(Holds(m, s)) ::
              Holds(m, s)
    {
      hide Ring;
      ghost var entry;
      ok, entry := Push(l, x, reliable, svcs);
      if ok {
        nodes := nodes + {entry};
      }
    }

    /** The same for one of i's lists, with all the others named. */
    method PushEntry(i: ListItem, r: Role, x: ListItem) returns (ok: bool)
      requires Cells() && Disjoint(graph.items, cells, depsPending) && i in graph.items &&
              Holds(depsPending, graph.pending)
      requires forall j, q | j in graph.items :: Holds(j.List(q), graph.List(j, q))
      modifies this`nodes, cells, nodes
      ensures reliable ==> ok
      ensures Cells() && fresh(nodes - old(nodes)) && Holds(depsPending, graph.pending)
      ensures !ok ==> forall j, q | j in graph.items :: Holds(j.List(q), graph.List(j, q))
      ensures ok ==> forall j, q | j in graph.items :: Holds(j.List(q), graph.WithEntry(i, r, x).List(j, q))
    {
      EntryLists(graph, i, r, x);
      Distinguish(graph.items, cells, depsPending, i, r);
      assert forall j, q | j in graph.items :: j.List(q) in cells;
      hide Ring, DepList.Valid, Holds, Disjoint, Services.Cells, Graph.List, Graph.WithEntry, ListItem.List;
      ok := PushTo(i.List(r), x, graph.List(i, r));
    }

    /** An entry for x on one of i's lists. */
    method Append(i: ListItem, r: Role, x: ListItem) returns (ok: bool)
      requires Shape() && i in graph.items
      modifies this`graph, this`nodes, cells, nodes
      ensures reliable ==> ok
      ensures Shape() && fresh(nodes - old(nodes))
      ensures graph == if ok then old(graph).WithEntry(i, r, x) else old(graph)
    {
      hide ItemRing, Ring, DepList.Valid, Holds, Disjoint, Services.Cells, Graph.List, ListItem.List;
      ok := PushEntry(i, r, x);
      if ok {
        graph := graph.WithEntry(i, r, x);
      }
    }

    /** Both entries of one dependency: svc on the other service's list, then the
        other service on svc's. */
    method AddEdge(kind: Kind, svc: ListItem, other: ListItem) returns (ok: bool)
      requires Shape() && svc in graph.items && other in graph.items
      modifies this`graph, this`nodes, cells, nodes
      ensures reliable ==> ok
      ensures Shape() && fresh(nodes - old(nodes))
      ensures ok ==> graph == old(graph).WithEdge(kind, svc, other)
      ensures graph.items == old(graph).items
    {
      hide Services.Shape;
      ok := Append(other, InRole(kind), svc);
      if ok {
        ok := Append(svc, OutRole(kind), other);
      }
    }

    method PushPending(li: ListItem) returns (ok: bool)
      requires Cells() && Disjoint(graph.items, cells, depsPending) && Holds(depsPending, graph.pending)
      requires forall j, q | j in graph.items :: Holds(j.List(q), graph.List(j, q))
      modifies this`nodes, depsPending, nodes
      ensures reliable ==> ok
      ensures Cells() && fresh(nodes - old(nodes))
      ensures Holds(depsPending, if ok then graph.pending + [li] else graph.pending)
      ensures forall j, q | j in graph.items :: Holds(j.List(q), graph.List(j, q))
    {
      PendingApart(graph.items, cells, depsPending);
      assert forall j, q | j in graph.items :: j.List(q) in cells;
      hide Ring, DepList.Valid, Holds, Disjoint, Services.Cells, Graph.List, ListItem.List;
      ok := PushTo(depsPending, li, graph.pending);
    }

    /** Unlinking the head of one list leaves the others alone. */
    method PopFrom(l: DepList, ghost svcs: seq<ListItem>)
      requires Cells() && l in cells && Holds(l, svcs) && svcs != []
      modifies l, nodes
      ensures Cells() && Holds(l, svcs[1..])
      ensures forall m, s {:trigger Holds(m, s)} | m in cells && m != l && old(allocated(s)) && old(Holds(m, s)) ::
              Holds(m, s)
    {
      hide Ring;
      l.RemoveHead();
    }

    method TurnOne(l: DepList, ghost svcs: seq<ListItem>)
      requires Cells() && l in cells && Holds(l, svcs) && svcs != []
      modifies l
      ensures Cells() && Holds(l, svcs[1..] + [svcs[0]])
      ensures forall m, s {:trigger Holds(m, s)} | m in cells && m != l && old(allocated(s)) && old(Holds(m, s)) ::
              Holds(m, s)
    {
      hide Ring;
      l.Turn();
    }

    method PopShown()
      requires Cells() && Disjoint(graph.items, cells, depsPending) && Holds(depsPending, graph.pending) &&
              graph.pending != []
      requires forall j, q | j in graph.items :: Holds(j.List(q), graph.List(j, q))
      modifies depsPending, nodes
      ensures Cells() && Holds(depsPending, graph.pending[1..])
      ensures forall j, q | j in graph.items :: Holds(j.List(q), graph.List(j, q))
    {
      PendingApart(graph.items, cells, depsPending);
      assert forall j, q | j in graph.items :: j.List(q) in cells;
      hide Ring, DepList.Valid, Holds, Disjoint, Services.Cells, Graph.List, ListItem.List;
      PopFrom(depsPending, graph.pending);
    }

    method TurnShown()
      requires Cells() && Disjoint(graph.items, cells, depsPending) && Holds(depsPending, graph.pending) &&
              graph.pending != []
      requires forall j, q | j in graph.items :: Holds(j.List(q), graph.List(j, q))
      modifies depsPending
      ensures Cells() && Holds(depsPending, graph.pending[1..] + [graph.pending[0]])
      ensures forall j, q | j in graph.items :: Holds(j.List(q), graph.List(j, q))
    {
      PendingApart(graph.items, cells, depsPending);
      assert forall j, q | j in graph.items :: j.List(q) in cells;
      hide Ring, DepList.Valid, Holds, Disjoint, Services.Cells, Graph.List, ListItem.List;
      TurnOne(depsPending, graph.pending);
    }

    /** tmp = dep_entry_del(tmp) */
    method PopPending()
      requires Shape() && graph.pending != []
      modifies this`graph, depsPending, nodes
      ensures Shape() && graph == old(graph).(pending := old(graph).pending[1..])
    {
      hide ItemRing, Ring, DepList.Valid, Holds, Disjoint, Services.Cells, ListItem.List;
      PopShown();
      graph := graph.(pending := graph.pending[1..]);
      assert forall j, q :: graph.List(j, q) == old(graph).List(j, q);
    }

    /** tmp = tmp->next */
    method TurnPending()
      requires Shape() && graph.pending != []
      modifies this`graph, depsPending
      ensures Shape() && graph == old(graph).(pending := old(graph).pending[1..] + [old(graph).pending[0]])
    {
      hide ItemRing, Ring, DepList.Valid, Holds, Disjoint, Services.Cells, ListItem.List;
      TurnShown();
      graph := graph.(pending := graph.pending[1..] + [graph.pending[0]]);
      assert forall j, q :: graph.List(j, q) == old(graph).List(j, q);
    }

    /** svc_set_status */
    method SetStatus(li: ListItem, status: set<Flag>)
      requires Shape() && li in graph.items
      modifies this`graph, li`status
      ensures Shape() && graph == WithStatus(old(graph), li, status)
    {
      hide ItemRing, Ring, DepList.Valid, Holds, Disjoint, Services.Cells, ListItem.List;
      li.status := status;
      graph := graph.(status := graph.status[li := status]);
      assert forall j, q :: graph.List(j, q) == old(graph).List(j, q);
    }

    method SetPid(li: ListItem, pid: int)
      requires Shape() && li in graph.items
      modifies li`pid
      ensures Shape() && li.pid == pid
    {
      hide ItemRing, Ring, DepList.Valid, Holds, Disjoint, Services.Cells, ListItem.List, Graph.List;
      li.pid := pid;
    }

    /** Walking along one of i's lists. */
    lemma EntryShown(i: ListItem, r: Role, k: nat)
      requires Shape() && i in graph.items && k < |graph.List(i, r)|
      ensures |i.List(r).nodes| == |graph.List(i, r)| && i.List(r) != depsPending &&
              graph.List(i, r)[k] in graph.List(i, r)
      ensures i.List(r).head == i.List(r).nodes[0] && i.List(r).nodes[k].svc == graph.List(i, r)[k]
      ensures i.List(r).nodes[k].next == i.List(r).nodes[Succ(k, |graph.List(i, r)|)]
      ensures Succ(k, |graph.List(i, r)|) > 0 ==> i.List(r).nodes[Succ(k, |graph.List(i, r)|)] != i.List(r).nodes[0]
    {
      PendingApart(graph.items, cells, depsPending);
      assert Holds(i.List(r), graph.List(i, r));
    }

    /** An entry for a service without dependencies on deps_pending; the service is
        marked as being in the list. */
    method AppendPending(li: ListItem) returns (ok: bool)
      requires Shape() && li in graph.items
      modifies this`graph, this`nodes, depsPending, nodes, li`status
      ensures reliable ==> ok
      ensures Shape() && fresh(nodes - old(nodes)) && graph.items == old(graph).items
      ensures ok ==> graph == old(graph).WithPending(li)
    {
      ok := EnterPending(li);
      hide Services.Shape;
      if ok {
        assert li.status == graph.StatusOf(li) by {
          StatusShown(li);
        }
        SetStatus(li, li.status + {InList});
      }
    }

    lemma StatusShown(li: ListItem)
      requires Shape() && li in graph.items
      ensures li.status == graph.StatusOf(li)
    {
    }

    method EnterPending(li: ListItem) returns (ok: bool)
      requires Shape() && li in graph.items
      modifies this`graph, this`nodes, depsPending, nodes
      ensures reliable ==> ok
      ensures Shape() && fresh(nodes - old(nodes))
      ensures graph == if ok then old(graph).(pending := old(graph).pending + [li]) else old(graph)
    {
      hide ItemRing, Ring, DepList.Valid, Holds, Disjoint, Services.Cells, ListItem.List;
      ok := PushPending(li);
      if ok {
        graph := graph.(pending := graph.pending + [li]);
        assert forall j, q :: graph.List(j, q) == old(graph).List(j, q);
      }
    }

    /** list_search: from the head backwards, all the way round. */
    method ListSearch(path: Path) returns (found: ListItem?)
      requires ItemRing(svcList, graph.items)
      ensures found != null ==> found in graph.items && found.absPath == path
      ensures found == null ==> forall i <- graph.items :: i.absPath != path
    {
      if svcList == null {
        return null;
      }
      var tmp: ListItem := svcList;
      ghost var n := |graph.items|;
      ghost var k := 0;
      while true
        invariant 0 <= k < n && tmp == graph.items[k]
        invariant k > 0 ==> graph.items[0].absPath != path && forall j | k < j < n :: graph.items[j].absPath != path
        decreases if k == 0 then n else k
      {
        if path == tmp.absPath {
          return tmp;
        }
        ghost var before := if k == 0 then n - 1 else k - 1;
        assert graph.items[Succ(before, n)] == tmp;
        tmp := tmp.prev;
        k := before;
        if tmp == svcList {
          break;
        }
      }
      return null;
    }

    /** list_search_pid: the same walk, by process number. */
    method ListSearchPid(pid: int) returns (found: ListItem?)
      requires ItemRing(svcList, graph.items)
      ensures found != null ==> found in graph.items && found.pid == pid && Foremost(graph.items, found)
      ensures found == null ==> forall i <- graph.items :: i.pid != pid
    {
      if svcList == null {
        return null;
      }
      var tmp: ListItem := svcList;
      ghost var n := |graph.items|;
      ghost var k := 0;
      while true
        invariant 0 <= k < n && tmp == graph.items[k]
        invariant k > 0 ==> graph.items[0].pid != pid && forall j | k < j < n :: graph.items[j].pid != pid
        decreases if k == 0 then n else k
      {
        if pid == tmp.pid {
          assert graph.items[k] == tmp;
          return tmp;
        }
        ghost var before := if k == 0 then n - 1 else k - 1;
        assert graph.items[Succ(before, n)] == tmp;
        tmp := tmp.prev;
        k := before;
        if tmp == svcList {
          break;
        }
      }
      return null;
    }

    /** The pointer part of list_insert. */
    method LinkItem(tmp: ListItem)
      requires ItemRing(svcList, graph.items) && tmp !in graph.items
      modifies this`svcList, tmp`next, tmp`prev, graph.items`next, graph.items`prev
      ensures ItemRing(svcList, graph.items + [tmp])
    {
      ghost var items := graph.items;
      ghost var n := |items|;
      ghost var all := items + [tmp];
      if svcList == null {
        svcList := tmp;
        svcList.next := svcList;
        svcList.prev := svcList;
        return;
      }
      assert items[Succ(n - 1, n)] == items[0] && svcList.prev == items[n - 1];
      tmp.next := svcList;
      tmp.prev := svcList.prev;
      svcList.prev.next := tmp;
      svcList.prev := tmp;
      forall i | 0 <= i < n + 1 ensures all[i].next == all[Succ(i, n + 1)] {
        if i < n - 1 {
          assert old(items[i].next) == items[Succ(i, n)];
        }
      }
      forall i | 0 <= i < n + 1 ensures all[Succ(i, n + 1)].prev == all[i] {
        if i < n - 1 {
          assert old(items[Succ(i, n)].prev) == items[i];
          assert all[Succ(i, n + 1)] == items[i + 1];
        }
      }
    }

    /** list_insert: a new service at the end of the circle. */
    method ListInsert(path: Path, status: set<Flag>) returns (li: ListItem?)
      requires Shape()
      modifies this`svcList, this`graph, this`cells, this`services, services`next, services`prev
      ensures reliable ==> li != null
      ensures Shape() && fresh(cells - old(cells)) && fresh(services - old(services))
      ensures li == null ==> graph == old(graph)
      ensures li != null ==> fresh(li) && li.absPath == path && graph == old(graph).WithItem(li, status)
    {
      var ok := Oracle(reliable);
      if ok {
        hide Services.Shape;
        li := Insert(path, status);
      } else {
        li := null;
      }
    }

    method Insert(path: Path, status: set<Flag>) returns (li: ListItem)
      requires Shape()
      modifies this`svcList, this`graph, this`cells, this`services, services`next, services`prev
      ensures Shape() && fresh(cells - old(cells)) && fresh(services - old(services))
      ensures fresh(li) && li.absPath == path && graph == old(graph).WithItem(li, status)
    {
      li := NewItem(path, status);
      hide ItemRing, Ring, DepList.Valid, Holds, Disjoint, Services.Cells, ListItem.List, Graph.List, Graph.WithItem;
      ghost var after := graph.WithItem(li, status);
      LinkShown(li, after);
      Adopt(li, after);
    }

    /** From now on the heap is taken to stand for graph g. */
    ghost method Adopt(li: ListItem, g: Graph)
      requires forall i <- g.items :: i in services || i == li
      requires ItemRing(svcList, g.items) && Disjoint(g.items, cells, depsPending) && Cells() &&
              Holds(depsPending, g.pending)
      requires forall j, q | j in g.items :: Holds(j.List(q), g.List(j, q))
      requires forall j <- g.items :: j.status == g.StatusOf(j)
      modifies this`graph, this`services
      ensures Shape() && graph == g && services == old(services) + {li}
    {
      hide ItemRing, Ring, DepList.Valid, Holds, Disjoint, Services.Cells, ListItem.List, Graph.List;
      graph := g;
      services := services + {li};
    }

    /** The pointers of the services are of no concern to their lists. */
    method LinkShown(tmp: ListItem, ghost g: Graph)
      requires ItemRing(svcList, graph.items) && tmp !in graph.items && Cells() && Holds(depsPending, g.pending)
      requires forall j, q | j in g.items :: Holds(j.List(q), g.List(j, q))
      requires forall j <- g.items :: j.status == g.StatusOf(j)
      modifies this`svcList, tmp`next, tmp`prev, graph.items`next, graph.items`prev
      ensures ItemRing(svcList, graph.items + [tmp]) && Cells() && Holds(depsPending, g.pending)
      ensures forall j, q | j in g.items :: Holds(j.List(q), g.List(j, q))
      ensures forall j <- g.items :: j.status == g.StatusOf(j)
    {
      hide ItemRing, Ring, DepList.Valid, Holds, Services.Cells, ListItem.List, Graph.List;
      LinkItem(tmp);
      forall j, q | j in g.items ensures Holds(j.List(q), g.List(j, q)) {
        assert old(Holds(j.List(q), g.List(j, q)));
      }
    }

    lemma NewHolds(li: ListItem)
      requires li.wantedBy.Valid() && li.neededBy.Valid() && li.wants.Valid() && li.needs.Valid()
      requires li.wantedBy.nodes == li.neededBy.nodes == li.wants.nodes == li.needs.nodes == []
      ensures forall r: Role :: Holds(li.List(r), []) && li.List(r).nodes == []
    {
      forall r: Role ensures Holds(li.List(r), []) && li.List(r).nodes == [] {
        assert r == Needs || r == Wants || r == NeededBy || r == WantedBy;
      }
    }

    /** The memory of a new service, zeroed. */
    method NewItem(path: Path, status: set<Flag>) returns (li: ListItem)
      requires Shape()
      modifies this`cells
      ensures fresh(li) && fresh(cells - old(cells)) && li.absPath == path && li.status == status
      ensures Cells() && Disjoint(graph.items + [li], cells, depsPending) && Holds(depsPending, graph.pending)
      ensures ItemRing(svcList, graph.items) && li !in graph.items
      ensures forall j, q | j in graph.items + [li] :: Holds(j.List(q), graph.WithItem(li, status).List(j, q))
      ensures forall j <- graph.items + [li] :: j.status == graph.WithItem(li, status).StatusOf(j)
      ensures graph.WithItem(li, status).items == graph.items + [li] &&
              graph.WithItem(li, status).pending == graph.pending
    {
      hide ItemRing, Ring, Graph.List, Graph.WithItem, Graph.StatusOf, Graph.Out, Graph.In, Holds, DepList.Valid,
        Disjoint;
      hide ListItem.OwnLists;
      li := new ListItem(path, status, |graph.items|);
      NewItemLists(graph, li, status);
      NewHolds(li);
      OneMoreDisjoint(graph.items, cells, depsPending, li);
      cells := cells + {li.needs, li.wants, li.neededBy, li.wantedBy};
    }

    ghost function Known(): set<Path>
      reads this
    {
      set i | i in graph.items :: i.absPath
    }

    /** Whether entry lists are null pointers in the C structure. */
    lemma NullMeansEmpty(i: ListItem, r: Role)
      requires Shape() && i in graph.items
      ensures i.List(r).head == null <==> graph.List(i, r) == []
    {
    }

    /** svc_create: a service and its verdict on respawning; when that cannot be
        found out, the service stays in the list but the caller gives up. */
    method SvcCreate(path: Path) returns (li: ListItem?)
      requires Shape()
      modifies this`svcList, this`graph, this`cells, this`services, services
      ensures reliable ==> (li != null <==> !RespawnOf(cfg, path).Failing?)
      ensures li != null ==> !RespawnOf(cfg, path).Failing?
      ensures Shape() && fresh(cells - old(cells)) && fresh(services - old(services))
      ensures li != null ==> fresh(li) && li.absPath == path && graph == old(graph).WithItem(li, Initial(cfg, path))
      ensures li != null ==> graph.StatusOf(li) == if RespawnOf(cfg, path).Present? then {ShRespawn} else {ShOnce}
    {
      hide Services.Shape;
      li := ListInsert(path, {ShOnce, ShRespawn, OnceOk, OnceFail, Respawning, NeedFailed, InList, BadErr, OnceRun});
      if li == null {
        return;
      }
      match RespawnOf(cfg, path)
      case Failing => return null;
      case Absent => SetStatus(li, {ShOnce});
      case Present => SetStatus(li, {ShRespawn});
    }

    /** gen_svc_tree */
    method GenSvcTree(path: Path, ghost open: set<ListItem>, ghost universe: set<Path>) returns (li: ListItem?)
      requires Shape() && graph.Built(cfg, open) && (forall i <- open :: i in graph.items)
      requires path in universe && Closed(cfg, universe) && Known() <= universe
      modifies this, services, cells, nodes
      ensures li == null ==> !reliable || Spoiled(cfg, path)
      ensures Shape() && fresh(cells - old(cells)) && fresh(nodes - old(nodes)) && fresh(services - old(services))
      ensures li != null ==>
                && li in graph.items && li.absPath == path && graph.Built(cfg, open)
                && Extends(old(graph), graph, {}) && NewFrom(cfg, old(graph), graph, path)
                && Known() <= universe && old(Known()) <= Known()
      decreases universe - Known(), 1
    {
      hide Services.Shape, Graph.Built, Extends, NewFrom, Spoiled;
      li := Search(path);
      if li != null {
        NothingNew(cfg, graph, {}, path);
        return;
      }
      li := SvcCreate(path);
      SpoiledHere(cfg, path);
      if li == null {
        return null;
      }
      ItemStep(old(graph), cfg, open, li);
      KnownWith(old(graph), li, Initial(cfg, path));
      var ok := BuildService(li, old(graph), open, universe);
      if !ok {
        return null;
      }
    }

    /** The dependencies of a new service, and its place in deps_pending. */
    method BuildService(
        li: ListItem, ghost before: Graph, ghost open: set<ListItem>, ghost universe: set<Path>) returns (ok: bool)
      requires Shape() && graph.Built(cfg, open + {li}) && (forall i <- open :: i in graph.items)
      requires li !in open && li !in before.items && graph == before.WithItem(li, Initial(cfg, li.absPath)) &&
              Extends(before, graph, {})
      requires li.absPath in universe && Closed(cfg, universe) && Known() <= universe
      requires !RespawnOf(cfg, li.absPath).Failing?
      modifies this, services, cells, nodes
      ensures !ok ==> !reliable || Spoiled(cfg, li.absPath)
      ensures Shape() && fresh(cells - old(cells)) && fresh(nodes - old(nodes)) && fresh(services - old(services))
      ensures ok ==>
                && li in graph.items && graph.Built(cfg, open)
                && Extends(before, graph, {}) && NewFrom(cfg, before, graph, li.absPath)
                && Known() <= universe && old(Known()) <= Known()
      decreases universe - Known(), 5
    {
      hide Services.Shape, Graph.Built, Extends, NewFrom, Spoiled, Targets;
      ok := BuildDeps(li, before, open, universe);
      if ok {
        assert open + {li} - {li} == open;
        ok := StartIfFree(li, before, open + {li});
      }
    }

    method BuildDeps(
        li: ListItem, ghost before: Graph, ghost open: set<ListItem>, ghost universe: set<Path>) returns (ok: bool)
      requires Shape() && graph.Built(cfg, open + {li}) && (forall i <- open :: i in graph.items)
      requires li !in open && li !in before.items && graph == before.WithItem(li, Initial(cfg, li.absPath)) &&
              Extends(before, graph, {})
      requires li.absPath in universe && Closed(cfg, universe) && Known() <= universe
      requires !RespawnOf(cfg, li.absPath).Failing?
      modifies this, services, cells, nodes
      ensures !ok ==> !reliable || Spoiled(cfg, li.absPath)
      ensures Shape() && fresh(cells - old(cells)) && fresh(nodes - old(nodes)) && fresh(services - old(services))
      ensures ok ==>
                && li in graph.items && graph.Built(cfg, open + {li}) && Read(graph, cfg, li)
                && Extends(before, graph, {}) && NewFrom(cfg, before, graph, li.absPath)
                && Extends(before, graph.WithPending(li), {}) && NewFrom(cfg, before, graph.WithPending(li), li.absPath)
                && Known() <= universe && old(Known()) <= Known()
      decreases universe - Known(), 4
    {
      hide Services.Shape, Graph.Built, Extends, NewFrom, Spoiled, Targets, Graph.WithPending, PathsOf, Closed;
      ghost var within, item := open + {li}, graph;
      FreshItem(before, li, Initial(cfg, li.absPath));
      ok := CheckAddDeps(li, DepNeeds, within, universe);
      if !ok {
        return;
      }
      ghost var half := graph;
      SameStatus(item, half, {li}, li);
      ok := CheckAddDeps(li, DepWants, within, universe);
      if !ok {
        return;
      }
      DepsRead(cfg, before, item, half, graph, li);
    }

    /** If it has no dependencies, then the service is a start service. */
    method StartIfFree(li: ListItem, ghost before: Graph, ghost within: set<ListItem>) returns (ok: bool)
      requires Shape() && graph.Built(cfg, within) && li in graph.items && li in within && Read(graph, cfg, li)
      modifies this, services, cells, nodes
      ensures reliable ==> ok
      ensures Shape() && fresh(cells - old(cells)) && fresh(nodes - old(nodes)) && fresh(services - old(services))
      ensures ok ==> graph.Built(cfg, within - {li}) && (graph == old(graph) || graph == old(graph).WithPending(li))
    {
      hide Services.Shape, Graph.Built;
      NullMeansEmpty(li, Wants);
      NullMeansEmpty(li, Needs);
      InServices(li);
      ok := true;
      if li.wants.head == null && li.needs.head == null {
        PendingStep(graph, cfg, within, li);
        ok := AppendPending(li);
      } else {
        ReadStep(graph, cfg, within, li);
      }
    }

    lemma KnownWith(g: Graph, li: ListItem, status: set<Flag>)
      requires graph == g.WithItem(li, status)
      ensures Known() == (set i | i in g.items :: i.absPath) + {li.absPath}
    {
      assert forall i :: i in graph.items <==> i in g.items || i == li;
    }

    lemma InServices(i: ListItem)
      requires Shape() && i in graph.items
      ensures i in services && depsPending in cells
    {
    }

    /** list_search, for callers that know the heap to be well formed. */
    method Search(path: Path) returns (found: ListItem?)
      requires Shape()
      ensures found != null ==> found in graph.items && found.absPath == path
      ensures found == null ==> forall i <- graph.items :: i.absPath != path
    {
      found := ListSearch(path);
    }

    /** check_add_deps */
    method CheckAddDeps(
        svc: ListItem, kind: Kind, ghost open: set<ListItem>, ghost universe: set<Path>) returns (ok: bool)
      requires Shape() && graph.Built(cfg, open) && (forall i <- open :: i in graph.items)
      requires svc in graph.items && svc in open && graph.Out(kind, svc) == [] && svc.absPath in universe
      requires Closed(cfg, universe) && Known() <= universe
      modifies this, services, cells, nodes
      ensures !ok ==> !reliable || Spoiled(cfg, svc.absPath)
      ensures Shape() && fresh(cells - old(cells)) && fresh(nodes - old(nodes)) && fresh(services - old(services))
      ensures ok ==>
                && graph.Built(cfg, open) && Extends(old(graph), graph, {svc})
                && PathsOf(graph.Out(kind, svc)) == Targets(cfg, svc.absPath, kind)
                && (forall k | k != kind :: graph.Out(k, svc) == old(graph).Out(k, svc))
                && NewFrom(cfg, old(graph), graph, svc.absPath) && Known() <= universe && old(Known()) <= Known()
      ensures ok ==> !ListingOf(cfg, svc.absPath, kind).Unreadable?
      decreases universe - Known(), 3
    {
      hide Services.Shape, Graph.Built, Extends, NewFrom, Spoiled, Reaches;
      NothingNew(cfg, graph, {svc}, svc.absPath);
      SpoiledHere(cfg, svc.absPath);
      ok := Oracle(reliable);
      if !ok {
        return;
      }
      var listing := ListingOf(cfg, svc.absPath, kind);
      match listing
      case Missing => return true;
      case Unreadable => return false;
      case Entries(es) =>
        ok := Oracle(reliable);
        if ok {
          ok := ReadEntries(svc, kind, es, open, universe);
        }
    }

    /** The directory loop, and the way back to the old working directory. */
    method ReadEntries(
        svc: ListItem, kind: Kind, es: seq<Entry>, ghost open: set<ListItem>, ghost universe: set<Path>)
          returns (ok: bool)
      requires Shape() && graph.Built(cfg, open) && (forall i <- open :: i in graph.items)
      requires svc in graph.items && svc in open && graph.Out(kind, svc) == [] && svc.absPath in universe
      requires Closed(cfg, universe) && Known() <= universe && Targets(cfg, svc.absPath, kind) == Resolved(es)
      modifies this, services, cells, nodes
      ensures !ok ==> !reliable || Spoiled(cfg, svc.absPath)
      ensures Shape() && fresh(cells - old(cells)) && fresh(nodes - old(nodes)) && fresh(services - old(services))
      ensures ok ==>
                && graph.Built(cfg, open) && Extends(old(graph), graph, {svc})
                && PathsOf(graph.Out(kind, svc)) == Resolved(es)
                && (forall k | k != kind :: graph.Out(k, svc) == old(graph).Out(k, svc))
                && NewFrom(cfg, old(graph), graph, svc.absPath) && Known() <= universe && old(Known()) <= Known()
      decreases universe - Known(), 2, 1
    {
      hide Services.Shape, Graph.Built, Extends, NewFrom, Spoiled, Reaches, Targets, Graph.Out, Resolved, Closed;
      NothingNew(cfg, graph, {svc}, svc.absPath);
      ResolvedStart(es);
      var k := 0;
      while k < |es|
        invariant 0 <= k <= |es|
        invariant Shape() && fresh(cells - old(cells)) && fresh(nodes - old(nodes)) && fresh(services - old(services))
        invariant graph.Built(cfg, open) && Extends(old(graph), graph, {svc}) && (forall i <- open :: i in graph.items)
        invariant PathsOf(graph.Out(kind, svc)) == Resolved(es[..k])
        invariant forall q | q != kind :: graph.Out(q, svc) == old(graph).Out(q, svc)
        invariant NewFrom(cfg, old(graph), graph, svc.absPath) && Known() <= universe && old(Known()) <= Known()
      {
        ResolvedStep(es, k);
        if es[k].To? {
          InResolved(es, k);
          ok := AddDependency(svc, kind, es[k].path, old(graph), open, universe);
          if !ok {
            return;
          }
        }
        k := k + 1;
      }
      assert es[..k] == es;
      ok := Oracle(reliable);
    }

    /** One entry of the directory: find or build the service, then record the edge. */
    method AddDependency(
        svc: ListItem, kind: Kind, path: Path, ghost before: Graph, ghost open: set<ListItem>,
        ghost universe: set<Path>) returns (ok: bool)
      requires Shape() && graph.Built(cfg, open) && (forall i <- open :: i in graph.items)
      requires Extends(before, graph, {svc}) && NewFrom(cfg, before, graph, svc.absPath)
      requires svc in graph.items && svc in open && path in Targets(cfg, svc.absPath, kind) && svc.absPath in universe
      requires Closed(cfg, universe) && Known() <= universe
      modifies this, services, cells, nodes
      ensures !ok ==> !reliable || Spoiled(cfg, svc.absPath)
      ensures Shape() && fresh(cells - old(cells)) && fresh(nodes - old(nodes)) && fresh(services - old(services))
      ensures ok ==>
                && graph.Built(cfg, open) && Extends(before, graph, {svc}) && NewFrom(cfg, before, graph, svc.absPath)
                && PathsOf(graph.Out(kind, svc)) == PathsOf(old(graph).Out(kind, svc)) + [path]
                && (forall k | k != kind :: graph.Out(k, svc) == old(graph).Out(k, svc))
                && Known() <= universe && old(Known()) <= Known() && (forall i <- open :: i in graph.items)
      decreases universe - Known(), 2, 0
    {
      hide Services.Shape, Graph.Built, Extends, NewFrom, Spoiled, Reaches;
      ghost var start := graph;
      SpoiledThrough(cfg, svc.absPath, kind, path);
      var newSvc := GenSvcTree(path, open, universe);
      if newSvc == null {
        return false;
      }
      SameStatus(start, graph, {}, svc);
      DependencyAdded(cfg, before, start, graph, kind, svc, newSvc, open);
      ok := AddEdge(kind, svc, newSvc);
    }

    /** The call that cinit makes at startup.  Unless a call is refused, it succeeds exactly if
        every service that can be reached is readable.  When it succeeds, the services are
        those that can be reached from the initial one, each of them once. */
    method BuildTree(root: Path) returns (li: ListItem?)
      requires Shape() && graph == Graph([], map[], map[], [])
      modifies this, services, cells, nodes
      ensures Shape()
      ensures li != null ==> graph.Built(cfg, {}) && forall p :: Reaches(cfg, root, p) <==> p in Known()
      ensures li != null ==> !Spoiled(cfg, root)
      ensures reliable ==> (li != null <==> !Spoiled(cfg, root))
    {
      hide Services.Shape;
      UniverseClosed(cfg, root);
      li := GenSvcTree(root, {}, Universe(cfg, root));
      hide Extends;
      if li != null {
        forall p ensures Reaches(cfg, root, p) <==> p in Known() {
          if Reaches(cfg, root, p) {
            var route :| |route| > 0 && route[0] == root && route[|route| - 1] == p && Leads(cfg, route);
            var j := RouteCovered(graph, cfg, route, li);
          }
        }
      }
    }
  }

  function Universe(cfg: Config, root: Path): set<Path> {
    {root} + (set p, q | p in cfg && q in Targets(cfg, p, DepNeeds) :: q) + set p, q | p in cfg &&
        q in Targets(cfg, p, DepWants) :: q
  }

  lemma UniverseClosed(cfg: Config, root: Path)
    ensures Closed(cfg, Universe(cfg, root)) && root in Universe(cfg, root)
  {
    forall p, kind, q | p in Universe(cfg, root) && q in Targets(cfg, p, kind) ensures q in Universe(cfg, root) {
      assert p in cfg && (kind == DepNeeds || kind == DepWants);
    }
  }

  /** How often a directory names path p. */
  function Mentions(ps: seq<Path>, p: Path): nat {
    if ps == [] then 0 else Mentions(ps[..|ps| - 1], p) + if ps[|ps| - 1] == p then 1 else 0
  }

  lemma {:induction false} CountByPath(g: Graph, s: seq<ListItem>, b: ListItem)
    requires g.Total() && b in g.items && forall x <- s :: x in g.items
    ensures Count(s, b) == Mentions(PathsOf(s), b.absPath)
  {
    if s != [] {
      var front := s[..|s| - 1];
      CountByPath(g, front, b);
      assert PathsOf(s)[..|s| - 1] == PathsOf(front);
      var x := s[|s| - 1];
      assert x in g.items;
      var j :| 0 <= j < |g.items| && g.items[j] == x;
      var k :| 0 <= k < |g.items| && g.items[k] == b;
    }
  }

  /** In a finished graph, a and b list each other as often as a's directory names b. */
  lemma MultiplicityConfigured(g: Graph, cfg: Config, kind: Kind, a: ListItem, b: ListItem)
    requires g.Built(cfg, {}) && a in g.items && b in g.items
    ensures Count(g.Out(kind, a), b) == Mentions(Targets(cfg, a.absPath, kind), b.absPath)
    ensures Count(g.In(kind, b), a) == Mentions(Targets(cfg, a.absPath, kind), b.absPath)
  {
    assert g.Complete(cfg, a);
    assert forall x <- g.Out(kind, a) :: x in g.items;
    CountByPath(g, g.Out(kind, a), b);
    assert kind == DepNeeds || kind == DepWants;
  }

  /** deps_pending holds exactly the services that depend on nothing, each once. */
  lemma PendingIsFree(g: Graph, cfg: Config, a: ListItem)
    requires g.Built(cfg, {}) && a in g.items
    ensures Count(g.pending, a) == if Targets(cfg, a.absPath, DepNeeds) == [] &&
            Targets(cfg, a.absPath, DepWants) == [] then 1 else 0
  {
    assert g.Complete(cfg, a);
    assert |g.Out(DepNeeds, a)| == |PathsOf(g.Out(DepNeeds, a))| &&
            |g.Out(DepWants, a)| == |PathsOf(g.Out(DepWants, a))|;
    CountDistinct(g.pending, a);
  }

  lemma {:induction false} CountDistinct(s: seq<ListItem>, x: ListItem)
    requires forall j, k | 0 <= j < k < |s| :: s[j] != s[k]
    ensures Count(s, x) == if x in s then 1 else 0
  {
    if s != [] {
      CountDistinct(s[..|s| - 1], x);
      assert s == s[..|s| - 1] + [s[|s| - 1]];
    }
  }
}
