/** cinit's services and dependency entries: heap nodes in circular doubly linked
    lists, linked and unlinked in place. */
module DepRing {

  /** The bits of a service's status word. */
  datatype Flag =
    | ShOnce
    | ShRespawn
    | OnceOk
    | OnceFail
    | Respawning
    | NeedFailed
    | InList
    | BadErr
    | OnceRun

  type Path = string

  /** struct dep; "home" remembers the list that it was made for. */
  class Dep {
    var prev: Dep?
    var next: Dep?
    const svc: ListItem
    ghost const home: DepList

    /** dep_create */
    constructor (svc: ListItem, ghost home: DepList)
      ensures this.svc == svc && this.home == home
    {
      this.svc := svc;
      this.home := home;
    }
  }

  datatype Role = Needs | Wants | NeededBy | WantedBy

  /** A variable that holds a struct dep pointer: the head of a circular list. */
  class DepList {
    var head: Dep?
    ghost var nodes: seq<Dep>
    /** Which variable this is: the service that has it, and which of its lists;
        deps_pending has the serial number -1. */
    ghost const serial: int
    ghost const role: Role

    constructor (ghost serial: int, ghost role: Role)
      ensures Valid() && nodes == [] && this.serial == serial && this.role == role
    {
      head := null;
      nodes := [];
      this.serial, this.role := serial, role;
    }

    ghost predicate Valid()
      reads this, nodes
    {
      Ring(head, nodes) && forall k | 0 <= k < |nodes| :: nodes[k].home == this
    }

    /** dep_entry_add: the new entry goes before the head, at the end of the circle. */
    method Add(entry: Dep)
      requires Valid() && entry !in nodes && entry.home == this
      modifies this, entry, nodes
      ensures Valid() && nodes == old(nodes) + [entry]
    {
      head := Link(head, entry, nodes);
      nodes := nodes + [entry];
    }

    /** The variable takes the value of dep_entry_del of its own head. */
    method RemoveHead()
      requires Valid() && nodes != []
      modifies this, nodes
      ensures Valid() && nodes == old(nodes)[1..]
    {
      head := DepEntryDel(head, nodes);
      nodes := nodes[1..];
    }

    /** The variable moves on to the next entry. */
    method Turn()
      requires Valid() && nodes != []
      modifies this
      ensures Valid() && nodes == old(nodes)[1..] + [old(nodes)[0]]
    {
      RingTurned(head, nodes);
      head := head.next;
      nodes := nodes[1..] + [nodes[0]];
    }
  }

  /** struct listitem */
  class ListItem {
    var prev: ListItem?
    var next: ListItem?
    const absPath: Path
    var status: set<Flag>
    var pid: int
    /** Meant for the result of waitpid(2); zeroed with the rest, never assigned. */
    const waitpid: int := 0
    const wantedBy: DepList
    const neededBy: DepList
    const wants: DepList
    const needs: DepList

    ghost const serial: int

    constructor (path: Path, status: set<Flag>, ghost serial: int)
      ensures absPath == path && this.status == status && pid == 0 && this.serial == serial
      ensures fresh(wantedBy) && fresh(neededBy) && fresh(wants) && fresh(needs)
      ensures wantedBy.Valid() && neededBy.Valid() && wants.Valid() && needs.Valid()
      ensures wantedBy.nodes == neededBy.nodes == wants.nodes == needs.nodes == []
      ensures OwnLists()
    {
      absPath := path;
      this.status := status;
      pid := 0;
      this.serial := serial;
      wantedBy := new DepList(serial, WantedBy);
      neededBy := new DepList(serial, NeededBy);
      wants := new DepList(serial, Wants);
      needs := new DepList(serial, Needs);
    }

    ghost predicate OwnLists() {
      forall r: Role :: List(r).serial == serial && List(r).role == r
    }

    function List(r: Role): DepList {
      match r
      case Needs => needs
      case Wants => wants
      case NeededBy => neededBy
      case WantedBy => wantedBy
    }
  }

  /** The index after i on a circle of n. */
  function Succ(i: nat, n: nat): nat
    requires i < n
  {
    if i + 1 < n then i + 1 else 0
  }

  /** "head" is the first node of the circle through "nodes". */
  ghost predicate Ring(head: Dep?, nodes: seq<Dep>)
    reads nodes
  {
    && (head == null <==> nodes == [])
    && (nodes != [] ==> head == nodes[0])
    && (forall i, j | 0 <= i < j < |nodes| :: nodes[i] != nodes[j])
    && (forall i | 0 <= i < |nodes| :: nodes[i].next == nodes[Succ(i, |nodes|)])
    && (forall i | 0 <= i < |nodes| :: nodes[Succ(i, |nodes|)].prev == nodes[i])
  }

  method Link(list: Dep?, entry: Dep, ghost nodes: seq<Dep>) returns (head: Dep)
    requires Ring(list, nodes) && entry !in nodes
    modifies entry, nodes
    ensures Ring(head, nodes + [entry])
    ensures list != null ==> head == list
  {
    if list == null {
      head := entry;
      entry.prev := entry;
      entry.next := entry;
      assert (nodes + [entry]) == [entry];
    } else {
      ghost var n := |nodes|;
      assert list == nodes[0];
      assert nodes[Succ(n - 1, n)] == nodes[0];
      var last := list.prev;
      assert last == nodes[n - 1];
      head := list;
      entry.next := list;
      entry.prev := list.prev;
      list.prev.next := entry;
      list.prev := entry;
      ghost var all := nodes + [entry];
      forall i | 0 <= i < n + 1 ensures all[i].next == all[Succ(i, n + 1)] {
        if i < n - 1 {
          assert old(nodes[i].next) == nodes[Succ(i, n)];
        }
      }
      forall i | 0 <= i < n + 1 ensures all[Succ(i, n + 1)].prev == all[i] {
        if i < n - 1 {
          assert old(nodes[Succ(i, n)].prev) == nodes[i];
          assert all[Succ(i, n + 1)] == nodes[i + 1];
        }
      }
    }
  }

  /** dep_entry_del: unlink the head; the result is its successor, or null. */
  method DepEntryDel(del: Dep, ghost nodes: seq<Dep>) returns (head: Dep?)
    requires Ring(del, nodes)
    modifies nodes
    ensures Ring(head, nodes[1..])
  {
    ghost var n := |nodes|;
    assert nodes[Succ(0, n)] == del.next;
    assert nodes[Succ(n - 1, n)] == nodes[0];
    if del.next == del && del.prev == del {
      head := null;
      assert n == 1;
    } else {
      assert n > 1;
      assert nodes[Succ(0, n)].prev == nodes[0];
      del.prev.next := del.next;
      del.next.prev := del.prev;
      head := del.next;
      ghost var rest := nodes[1..];
      forall i | 0 <= i < n - 1 ensures rest[i].next == rest[Succ(i, n - 1)] {
        if i < n - 2 {
          assert old(nodes[i + 1].next) == nodes[Succ(i + 1, n)];
        }
      }
      forall i | 0 <= i < n - 1 ensures rest[Succ(i, n - 1)].prev == rest[i] {
        if i < n - 2 {
          assert old(nodes[Succ(i + 1, n)].prev) == nodes[i + 1];
        }
      }
    }
  }

  /** Stepping to the next entry turns the circle by one. */
  lemma RingTurned(head: Dep, nodes: seq<Dep>)
    requires Ring(head, nodes)
    ensures Ring(head.next, nodes[1..] + [nodes[0]])
  {
    var n := |nodes|;
    var turned := nodes[1..] + [nodes[0]];
    assert nodes[Succ(0, n)] == head.next;
    forall i | 0 <= i < n ensures turned[i] == nodes[Succ(i, n)] {
    }
    forall i | 0 <= i < n ensures turned[i].next == turned[Succ(i, n)] {
      assert nodes[Succ(i, n)].next == nodes[Succ(Succ(i, n), n)];
    }
    forall i | 0 <= i < n ensures turned[Succ(i, n)].prev == turned[i] {
      assert nodes[Succ(Succ(i, n), n)].prev == nodes[Succ(i, n)];
    }
    forall i, j | 0 <= i < j < n ensures turned[i] != turned[j] {
    }
  }
}
