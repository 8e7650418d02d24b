/** s6-svwait: a waiter that subscribes to announcements, reads the status files, and
    then follows the announcements. */
module Svwait {
  import opened Supervise

  // ----- the protocol with one supervisor -----

  function IsChange(s: Step): bool {
    s == Sent(EvU) || s == Sent(EvD)
  }

  /** The announcements that a subscription to "u|d" delivers. */
  function Heard(tr: seq<Step>): seq<Event> {
    if tr == [] then []
    else Heard(tr[..|tr| - 1]) + if IsChange(tr[|tr| - 1]) then [tr[|tr| - 1].ev] else []
  }

  /** The state that events leave behind. */
  function LastOf(evs: seq<Event>, was: bool): bool {
    if evs == [] then was else evs[|evs| - 1] == EvU
  }

  /** Whoever listens from some moment on knows the last announcement since then. */
  lemma {:induction false} LastHeard(tr: seq<Step>, a: nat)
    requires a <= |tr|
    ensures AnnouncedUp(tr) == LastOf(Heard(tr[a..]), AnnouncedUp(tr[..a]))
    ensures forall e <- Heard(tr[a..]) :: e == EvU || e == EvD
  {
    if a < |tr| {
      LastHeard(tr[..|tr| - 1], a);
      assert tr[..|tr| - 1][a..] == tr[a..][..|tr| - a - 1];
      assert tr[..|tr| - 1][..a] == tr[..a];
    } else {
      assert tr[..a] == tr;
    }
  }

  /** If nothing is announced from some moment on, and in the end nothing is left to
      be announced, then nothing was left at that moment. */
  lemma {:induction false} QuietMeansSettled(tr: seq<Step>, b: nat)
    requires Disciplined(tr) && b <= |tr| && Heard(tr[b..]) == [] && !InFlight(tr)
    ensures !InFlight(tr[..b])
  {
    if b < |tr| {
      var prev := tr[..|tr| - 1];
      assert prev[b..] == tr[b..][..|tr| - b - 1];
      assert prev[..b] == tr[..b];
      assert Follows(prev, tr[|tr| - 1]);
      QuietMeansSettled(prev, b);
    } else {
      assert tr[..b] == tr;
    }
  }

  lemma {:induction false} HeardLater(tr: seq<Step>, a: nat, b: nat)
    requires a <= b <= |tr| && Heard(tr[a..]) == []
    ensures Heard(tr[b..]) == []
  {
    if b < |tr| {
      assert tr[a..][..|tr| - a - 1] == tr[..|tr| - 1][a..];
      assert tr[b..][..|tr| - b - 1] == tr[..|tr| - 1][b..];
      HeardLater(tr[..|tr| - 1], a, b);
    }
  }

  /** No transition is missed: a waiter that subscribed at moment a and read the status
      at moment b ends up with the state that was announced last.  That is so exactly
      if it has heard something, or did not read the status of a finish script. */
  lemma NoMissedTransition(tr: seq<Step>, a: nat, b: nat, st: Status)
    requires Disciplined(tr) && a <= b <= |tr| && LastWritten(tr[..b]) == Some(st) && !InFlight(tr)
    ensures LastOf(Heard(tr[a..]), st.pid != 0) == AnnouncedUp(tr) <==>
            Heard(tr[a..]) != [] || !(st.pid != 0 && st.finishing)
  {
    LastHeard(tr, a);
    if Heard(tr[a..]) == [] {
      HeardLater(tr, a, b);
      LastHeard(tr, b);
      QuietMeansSettled(tr, b);
      assert st.SaysUp() == AnnouncedUp(tr[..b]) == AnnouncedUp(tr);
    }
  }

  // ----- the test for being done -----

  /** bitarray_first */
  method BitarrayFirst(states: seq<bool>, b: bool) returns (n: nat)
    ensures n <= |states| && (forall k | 0 <= k < n :: states[k] != b) && (n < |states| ==> states[n] == b)
  {
    n := 0;
    while n < |states| && states[n] != b
      invariant n <= |states| && forall k | 0 <= k < n :: states[k] != b
    {
      n := n + 1;
    }
  }

  /** check: with "or", one service in the wanted state is enough. */
  method Check(states: seq<bool>, wantup: bool, or: bool) returns (done: bool)
    ensures done <==> if or then (exists k :: 0 <= k < |states| && states[k] == wantup)
                      else (forall k | 0 <= k < |states| :: states[k] == wantup)
  {
    var n := BitarrayFirst(states, or == wantup);
    done := (n < |states|) == or;
  }

  // ----- the client of the notification daemon -----

  datatype Phase = WaitAck | WaitAckData | Listening | Broken

  /** ftrigr1_t */
  datatype Entry = Entry(repeat: bool, count: int, phase: Phase, what: Event)

  /** What the daemon sends: an event for a subscription, or its end. */
  datatype Message = Message(id: nat, ended: bool, what: Event)

  const UINT := 0x1_0000_0000

  /** The events that messages bring for one subscription. */
  function Brought(ms: seq<Message>, id: nat): seq<Event> {
    if ms == [] then []
    else Brought(ms[..|ms| - 1], id) + if ms[|ms| - 1].id == id then [ms[|ms| - 1].what] else []
  }

  predicate Brings(m: Message, data: seq<Entry>) {
    m.id < |data| && !m.ended && data[m.id].repeat && data[m.id].phase.Listening?
  }

  class Client {
    var data: seq<Entry>

    constructor ()
      ensures data == []
    {
      data := [];
    }

    /** ftrigr_subscribe, when the daemon agrees; numbers start at one. */
    method Subscribe(repeat: bool) returns (id: nat)
      modifies this
      ensures data == old(data) + [Entry(repeat, 0, Listening, EvS)] && id == |data|
    {
      data := data + [Entry(repeat, 0, Listening, EvS)];
      id := |data|;
    }

    /** msghandler; a number that belongs to no subscription is ignored. */
    method MsgHandler(m: Message) returns (ok: bool)
      modifies this
      ensures ok <==> m.id >= |old(data)| || old(data)[m.id].phase.Listening?
      ensures data == if ok && m.id < |old(data)| then old(data)[m.id := Delivered(old(data)[m.id], m)] else old(data)
    {
      if m.id >= |data| {
        return true;
      }
      var p := data[m.id];
      if !p.phase.Listening? {
        return false;
      }
      if m.ended {
        p := p.(phase := WaitAck);
      } else if p.repeat {
        p := p.(count := (p.count + 1) % UINT);
      } else {
        p := p.(phase := WaitAckData);
      }
      p := p.(what := m.what);
      data := data[m.id := p];
      ok := true;
    }

    /** ftrigr_update: the messages are handled until one is refused. */
    method Update(ms: seq<Message>) returns (ok: bool)
      modifies this
      ensures (ok, data) == DeliverAll(old(data), ms)
    {
      var k := 0;
      ok := true;
      while k < |ms|
        invariant 0 <= k <= |ms| && |data| == |old(data)|
        invariant (true, data) == DeliverAll(old(data), ms[..k])
      {
        assert ms[..k + 1][..k] == ms[..k];
        ok := MsgHandler(ms[k]);
        if !ok {
          RefusedForGood(old(data), ms, k + 1);
          return;
        }
        k := k + 1;
      }
      assert ms[..k] == ms;
    }

    /** ftrigr_check */
    method CheckEvents(id: nat) returns (r: int, what: Event)
      requires id <= |data|
      modifies this
      ensures |data| == |old(data)| && (forall i | 0 <= i < |data| && i != id - 1 :: data[i] == old(data)[i])
      ensures r == -1 || id > 0
      ensures id > 0 ==>
                var p := old(data)[id - 1];
                match p.phase
                case WaitAckData => r == 1 && what == p.what && data[id - 1].phase.Broken?
                case Listening => r == AsInt(p.count) && (r != 0 ==> what == p.what) && data[id - 1] == p.(count := 0)
                case WaitAck => r == -1 && data[id - 1].phase.Broken?
                case Broken => r == -1 && data[id - 1] == p
    {
      r, what := -1, EvS;
      if id == 0 {
        return;
      }
      var p := data[id - 1];
      match p.phase
      case WaitAckData =>
        what := p.what;
        data := data[id - 1 := Entry(false, 0, Broken, EvS)];
        r := 1;
      case Listening =>
        r := p.count;
        if r != 0 {
          what := p.what;
        }
        data := data[id - 1 := p.(count := 0)];
        r := AsInt(r);
      case WaitAck =>
        data := data[id - 1 := Entry(false, 0, Broken, EvS)];
      case Broken =>
    }
  }

  /** The cast from unsigned int to int. */
  function AsInt(u: int): int {
    if u < 0x8000_0000 then u else u - UINT
  }

  /** A subscription after some events. */
  function Counted(p: Entry, evs: seq<Event>): Entry {
    if evs == [] then p else p.(count := (p.count + |evs|) % UINT, what := evs[|evs| - 1])
  }

  /** What an event, or the end of the subscription, makes of it. */
  function Delivered(p: Entry, m: Message): Entry {
    if m.ended then p.(phase := WaitAck, what := m.what)
    else if p.repeat then p.(count := (p.count + 1) % UINT, what := m.what)
    else p.(phase := WaitAckData, what := m.what)
  }

  /** All messages up to one that is refused. */
  function DeliverAll(data: seq<Entry>, ms: seq<Message>): (r: (bool, seq<Entry>))
    ensures |r.1| == |data|
  {
    if ms == [] then (true, data)
    else
      var m := ms[|ms| - 1];
      var (ok, d) := DeliverAll(data, ms[..|ms| - 1]);
      if ok && m.id >= |d| then (true, d)
      else if ok && d[m.id].phase.Listening? then (true, d[m.id := Delivered(d[m.id], m)])
      else (false, d)
  }

  lemma {:induction false} RefusedForGood(data: seq<Entry>, ms: seq<Message>, k: nat)
    requires k <= |ms| && !DeliverAll(data, ms[..k]).0
    ensures DeliverAll(data, ms) == DeliverAll(data, ms[..k])
  {
    if k < |ms| {
      assert ms[..|ms| - 1][..k] == ms[..k];
      RefusedForGood(data, ms[..|ms| - 1], k);
    } else {
      assert ms[..k] == ms;
    }
  }

  /** Subscriptions that go on count their events and keep the last one. */
  lemma {:induction false} DeliverCounts(data: seq<Entry>, ms: seq<Message>)
    requires forall m <- ms :: Brings(m, data)
    ensures DeliverAll(data, ms).0
    ensures forall i | 0 <= i < |data| :: DeliverAll(data, ms).1[i] == Counted(data[i], Brought(ms, i))
  {
    if ms != [] {
      var m, front := ms[|ms| - 1], ms[..|ms| - 1];
      DeliverCounts(data, front);
      assert m in ms && Brings(m, data);
      var d := DeliverAll(data, front).1;
      assert d[m.id] == Counted(data[m.id], Brought(front, m.id)) && d[m.id].phase.Listening?;
      assert DeliverAll(data, ms) == (true, d[m.id := Delivered(d[m.id], m)]);
      forall i | 0 <= i < |data| ensures DeliverAll(data, ms).1[i] == Counted(data[i], Brought(ms, i)) {
        if i == m.id {
          Wrap(data[i].count, |Brought(front, i)|);
        }
      }
    }
  }

  /** A message for a subscription that is over is refused, and changes nothing. */
  lemma {:induction false} DeliverRefuses(data: seq<Entry>, ms: seq<Message>)
    ensures forall i | 0 <= i < |data| && !data[i].phase.Listening? :: DeliverAll(data, ms).1[i] == data[i]
    ensures (exists m <- ms :: m.id < |data| && !data[m.id].phase.Listening?) ==> !DeliverAll(data, ms).0
  {
    if ms != [] {
      DeliverRefuses(data, ms[..|ms| - 1]);
      assert forall m <- ms :: m in ms[..|ms| - 1] || m == ms[|ms| - 1];
    }
  }

  /** A subscription that does not go on is over after its first event. */
  lemma {:induction false} DeliverOnce(data: seq<Entry>, ms: seq<Message>, m: Message)
    requires m in ms && m.id < |data| && !data[m.id].repeat && DeliverAll(data, ms).0
    ensures !DeliverAll(data, ms).1[m.id].phase.Listening?
    ensures Brought(ms, m.id) == [m.what]
  {
    var n, front := ms[|ms| - 1], ms[..|ms| - 1];
    RepeatStays(data, front);
    if m in front {
      DeliverOnce(data, front, m);
    } else {
      assert m == n;
      if Brought(front, m.id) != [] {
        var other := BroughtBy(front, m.id);
        DeliverOnce(data, front, other);
      }
    }
  }

  lemma {:induction false} RepeatStays(data: seq<Entry>, ms: seq<Message>)
    ensures forall i | 0 <= i < |data| :: DeliverAll(data, ms).1[i].repeat == data[i].repeat
  {
    if ms != [] {
      RepeatStays(data, ms[..|ms| - 1]);
    }
  }

  lemma {:induction false} BroughtBy(ms: seq<Message>, id: nat) returns (m: Message)
    requires Brought(ms, id) != []
    ensures m in ms && m.id == id
  {
    m := ms[|ms| - 1];
    if m.id != id {
      m := BroughtBy(ms[..|ms| - 1], id);
    }
  }

  lemma Wrap(c: int, n: nat)
    ensures ((c + n) % UINT + 1) % UINT == (c + n + 1) % UINT
    ensures 0 <= c < UINT ==> (c % UINT + 1) % UINT == (c + 1) % UINT
  {
  }

  // ----- the waiter -----

  class Waiter {
    const client: Client
    const wantup: bool
    const or: bool
    const repeat: bool
    var list: seq<nat>
    var states: seq<bool>

    /** Every service has a subscription of its own, and all of them are of one kind. */
    ghost predicate Valid()
      reads this, client
    {
      && |list| == |states| && (forall j | 0 <= j < |list| :: 0 < list[j] <= |client.data|)
      && (forall j, k | 0 <= j < k < |list| :: list[j] != list[k])
    }

    ghost predicate Listens()
      reads this, client
    {
      Valid() && forall j | 0 <= j < |list| :: Fresh(client.data[list[j] - 1])
    }

    /** Subscriptions first, status files second. */
    constructor (statuses: seq<Status>, wantup: bool, or: bool, repeat: bool)
      ensures this.wantup == wantup && this.or == or && this.repeat == repeat && fresh(client)
      ensures Valid() && (repeat ==> Listens()) && |states| == |statuses| &&
              forall j | 0 <= j < |states| :: states[j] == (statuses[j].pid != 0)
      ensures forall j | 0 <= j < |list| :: client.data[list[j] - 1] == Entry(repeat, 0, Listening, EvS)
    {
      var a := new Client();
      client := a;
      this.wantup, this.or, this.repeat := wantup, or, repeat;
      list, states := [], [];
      new;
      while |list| < |statuses|
        invariant |list| <= |statuses| && states == [] && fresh(client) && |client.data| == |list|
        invariant forall j | 0 <= j < |list| :: list[j] == j + 1 && client.data[j] == Entry(repeat, 0, Listening, EvS)
      {
        var id := client.Subscribe(repeat);
        list := list + [id];
      }
      while |states| < |statuses|
        invariant |states| <= |statuses| && |list| == |statuses| == |client.data| && fresh(client)
        invariant forall j | 0 <= j < |list| :: list[j] == j + 1 && client.data[j] == Entry(repeat, 0, Listening, EvS)
        invariant forall j | 0 <= j < |states| :: states[j] == (statuses[j].pid != 0)
      {
        states := states + [statuses[|states|].pid != 0];
      }
    }

    /** One round of the loop: what has arrived is counted, then each service's last
        event goes into its bit. */
    method Round(ms: seq<Message>) returns (ok: bool)
      requires Valid()
      modifies this, client
      ensures Valid() && list == old(list) && |client.data| == old(|client.data|)
      ensures RoundResult(old(client.data), client.data, list, old(states), states, ms, ok)
    {
      ghost var start, before := client.data, states;
      ok := client.Update(ms);
      if ok {
        ghost var data := client.data;
        ok := TakeEvents();
        RoundEffect(start, data, client.data, list, before, states, ms, ok);
      } else {
        RoundRefused(start, ms);
      }
    }

    /** The rest of main, until the condition holds, something fails, or nothing more
        arrives; "n" rounds have been dealt with. */
    method Wait(rounds: seq<seq<Message>>) returns (o: Outcome, ghost n: nat)
      requires Valid()
      modifies this, client
      ensures Valid() && list == old(list) && n <= |rounds|
      ensures o.Done? ==> Wanted(states, wantup, or)
      ensures o.StillWaiting? ==> !Wanted(states, wantup, or) && n == |rounds|
      ensures old(Listens()) && (forall ms <- rounds :: Expected(ms, list)) ==>
                !o.Died? && Abreast(client.data, list, states, old(states), Joined(rounds, n))
    {
      ListensShown();
      hide RoundResult, Expected, Joined, Abreast, Waiter.Listens;
      n := 0;
      var k := 0;
      ghost var fine := Listens() && forall ms <- rounds :: Expected(ms, list);
      assert Joined(rounds, 0) == [] by { NoRounds(rounds); }
      AbreastStart(client.data, list, states);
      while true
        invariant 0 <= k <= |rounds| && n == k && Valid() && list == old(list) && |client.data| == |old(client.data)|
        invariant fine ==> Abreast(client.data, list, states, old(states), Joined(rounds, k))
        decreases |rounds| - k
      {
        var done := Check(states, wantup, or);
        if done {
          return Done, n;
        }
        if k == |rounds| {
          return StillWaiting, n;
        }
        assert rounds[k] in rounds;
        ghost var before, was := client.data, states;
        var ok := Round(rounds[k]);
        if fine {
          Progress(rounds, k, before, client.data, list, old(states), was, states, ok);
        }
        if !ok {
          return Died, n;
        }
        k := k + 1;
        n := k;
      }
    }

    lemma ListensShown()
      ensures Listens() ==>
              |list| == |states| &&
              forall j | 0 <= j < |list| :: 0 < list[j] <= |client.data| && Fresh(client.data[list[j] - 1])
    {
    }

    /** The services are gone through in order; an error is the end. */
    method TakeEvents() returns (ok: bool)
      requires Valid()
      modifies this, client
      ensures Valid() && list == old(list) && |client.data| == old(|client.data|)
      ensures ok <==> forall j | 0 <= j < |list| :: Answers(At(old(client.data), list, j))
      ensures ok ==>
              forall j | 0 <= j < |list| ::
              !At(old(client.data), list, j).phase.Listening? ==> At(client.data, list, j).phase.Broken?
      ensures ok ==>
              forall j | 0 <= j < |list| ::
              Taken(At(old(client.data), list, j), At(client.data, list, j), old(states)[j], states[j])
    {
      ok := true;
      ghost var data := client.data;
      hide At, Taken, Answers;
      var i := 0;
      while i < |list|
        invariant 0 <= i <= |list| && Valid() && list == old(list) && |client.data| == |data|
        invariant forall j | i <= j < |list| ::
                At(client.data, list, j) == At(data, list, j) && states[j] == old(states)[j]
        invariant forall j | 0 <= j < i :: Answers(At(data, list, j))
        invariant forall j | 0 <= j < i ::
                !At(data, list, j).phase.Listening? ==> At(client.data, list, j).phase.Broken?
        invariant forall j | 0 <= j < i ::
                Taken(At(data, list, j), At(client.data, list, j), old(states)[j], states[j])
      {
        ok := TakeOne(i);
        if !ok {
          return;
        }
        i := i + 1;
      }
    }

    method TakeOne(i: nat) returns (ok: bool)
      requires Valid() && i < |list|
      modifies this`states, client
      ensures Valid() && |client.data| == old(|client.data|)
      ensures forall j | 0 <= j < |list| && j != i ::
              At(client.data, list, j) == At(old(client.data), list, j) && states[j] == old(states)[j]
      ensures ok <==> Answers(At(old(client.data), list, i))
      ensures !At(old(client.data), list, i).phase.Listening? ==> At(client.data, list, i).phase.Broken?
      ensures if ok then Taken(At(old(client.data), list, i), At(client.data, list, i), old(states)[i], states[i])
              else states[i] == old(states)[i]
    {
      var r, what := client.CheckEvents(list[i]);
      ok := r >= 0;
      if r > 0 {
        states := states[i := what == EvU];
      }
    }
  }

  function At(data: seq<Entry>, list: seq<nat>, j: int): Entry {
    if 0 <= j < |list| && 0 < list[j] <= |data| then data[list[j] - 1] else Entry(false, 0, Broken, EvS)
  }

  /** All of it together: once everything that was announced has been delivered, a bit says
      whether the supervisor is up, with the one exception of a finish script's status. */
  lemma BitIsState(s: Supervisor, w: Waiter, first: seq<bool>, heard: seq<Message>, j: nat, a: nat, b: nat, st: Status)
    requires s.Inv() && s.writable && a <= b <= |s.trace| && LastWritten(s.trace[..b]) == Option.Some(st)
    requires w.Valid() && Abreast(w.client.data, w.list, w.states, first, heard) && j < |w.list| &&
            first[j] == (st.pid != 0)
    requires Brought(heard, w.list[j] - 1) == Heard(s.trace[a..])
    ensures w.states[j] == s.Up() <==> Heard(s.trace[a..]) != [] || !(st.pid != 0 && st.finishing)
  {
    NoMissedTransition(s.trace, a, b, st);
  }

  /** What ftrigr_check and the loop around it make of a subscription and its bit. */
  predicate Taken(before: Entry, after: Entry, was: bool, now: bool) {
    if before.phase.WaitAckData? then after.phase.Broken? && now == (before.what == EvU)
    else after == before.(count := 0) && now == if AsInt(before.count) == 0 then was else before.what == EvU
  }

  /** What a round comes to, for subscriptions of either kind. */
  ghost predicate RoundResult(
      start: seq<Entry>, after: seq<Entry>, list: seq<nat>, was: seq<bool>, now: seq<bool>, ms: seq<Message>, ok: bool)
    requires |start| == |after| && |list| == |was| == |now| && (forall j | 0 <= j < |list| :: 0 < list[j] <= |start|)
  {
    && ((forall m <- ms :: Brings(m, start)) &&
        (forall j | 0 <= j < |list| :: Fresh(start[list[j] - 1]) && |Brought(ms, list[j] - 1)| < 0x8000_0000) ==>
          ok && forall j | 0 <= j < |list| ::
              Fresh(after[list[j] - 1]) && now[j] == LastOf(Brought(ms, list[j] - 1), was[j]))
    && ((exists j :: 0 <= j < |list| && start[list[j] - 1].phase.Broken?) ==> !ok)
    && (ok ==>
        forall j, m | 0 <= j < |list| && m in ms && m.id == list[j] - 1 && !start[m.id].repeat ::
        after[m.id].phase.Broken?)
    && (ok ==>
        forall j | 0 <= j < |list| && Once(start[list[j] - 1]) ::
            now[j] == LastOf(Brought(ms, list[j] - 1), was[j]) && |Brought(ms, list[j] - 1)| <= 1)
    && (ok <==> DeliverAll(start, ms).0 && forall j | 0 <= j < |list| :: Answers(At(DeliverAll(start, ms).1, list, j)))
  }

  /** ftrigr_check has an answer for this subscription. */
  predicate Answers(p: Entry) {
    p.phase.WaitAckData? || (p.phase.Listening? && AsInt(p.count) >= 0)
  }

  /** What the daemon sends to subscriptions that end with their first event. */
  predicate Single(data: seq<Entry>, ms: seq<Message>) {
    && (forall m <- ms :: !m.ended && (m.id < |data| ==> !data[m.id].repeat && data[m.id].phase.Listening?))
    && (forall i, j | 0 <= i < j < |ms| :: ms[i].id != ms[j].id)
  }

  lemma {:induction false} SingleDelivered(data: seq<Entry>, ms: seq<Message>)
    requires Single(data, ms)
    ensures DeliverAll(data, ms).0
    ensures forall i | 0 <= i < |data| ::
              var p := DeliverAll(data, ms).1[i];
              if exists m <- ms :: m.id == i then p.phase.WaitAckData? else p == data[i]
  {
    if ms != [] {
      var m, front := ms[|ms| - 1], ms[..|ms| - 1];
      SingleDelivered(data, front);
      assert forall o <- ms :: o in front || o == m;
      assert forall o <- front :: o.id != m.id;
    }
  }

  /** With -a or -o, a round fails exactly if an event was taken in an earlier round. */
  lemma FailsAfterEvent(
      start: seq<Entry>, after: seq<Entry>, list: seq<nat>, was: seq<bool>, now: seq<bool>, ms: seq<Message>, ok: bool)
    requires |start| == |after| && |list| == |was| == |now| && (forall j | 0 <= j < |list| :: 0 < list[j] <= |start|)
    requires RoundResult(start, after, list, was, now, ms, ok) && Single(start, ms)
    requires forall j | 0 <= j < |list| ::
            start[list[j] - 1].phase.Broken? || (start[list[j] - 1].phase.Listening? && start[list[j] - 1].count == 0)
    ensures ok <==> forall j | 0 <= j < |list| :: !start[list[j] - 1].phase.Broken?
  {
    SingleDelivered(start, ms);
  }

  datatype Outcome = Done | Died | StillWaiting

  predicate Wanted(states: seq<bool>, wantup: bool, or: bool) {
    if or then
        (exists k :: 0 <= k < |states| && states[k] == wantup)
        else (forall k | 0 <= k < |states| :: states[k] == wantup)
  }

  /** Events for subscriptions that go on, not more than can be counted. */
  predicate Expected(ms: seq<Message>, list: seq<nat>) {
    (forall m <- ms :: !m.ended && m.id + 1 in list) &&
        forall j | 0 <= j < |list| && list[j] > 0 :: |Brought(ms, list[j] - 1)| < 0x8000_0000
  }

  /** Each bit is what the events so far have made of it. */
  ghost predicate Abreast(data: seq<Entry>, list: seq<nat>, states: seq<bool>, first: seq<bool>, heard: seq<Message>) {
    && |list| == |states| == |first|
    && (forall j | 0 <= j < |list| :: 0 < list[j] <= |data| && Fresh(data[list[j] - 1]))
    && (forall j | 0 <= j < |list| :: states[j] == LastOf(Brought(heard, list[j] - 1), first[j]))
  }

  lemma AbreastStart(data: seq<Entry>, list: seq<nat>, states: seq<bool>)
    ensures |list| == |states| && (forall j | 0 <= j < |list| :: 0 < list[j] <= |data| && Fresh(data[list[j] - 1])) ==>
              Abreast(data, list, states, states, [])
  {
  }

  /** One more round that went as expected. */
  lemma Progress(
      rounds: seq<seq<Message>>, k: nat, before: seq<Entry>, after: seq<Entry>, list: seq<nat>, first: seq<bool>,
      was: seq<bool>, now: seq<bool>, ok: bool)
    requires k < |rounds| && |before| == |after| && |list| == |was| == |now| &&
            (forall j | 0 <= j < |list| :: 0 < list[j] <= |before|)
    requires RoundResult(before, after, list, was, now, rounds[k], ok)
    requires Expected(rounds[k], list) && Abreast(before, list, was, first, Joined(rounds, k))
    ensures ok && Abreast(after, list, now, first, Joined(rounds, k + 1))
  {
    hide DeliverAll, Answers, At, Brought;
    forall m <- rounds[k] ensures Brings(m, before) {
      var j :| 0 <= j < |list| && list[j] == m.id + 1;
      assert Fresh(before[list[j] - 1]);
    }
    hide Brings, Expected;
    assert Joined(rounds, k + 1) == Joined(rounds, k) + rounds[k];
    forall j | 0 <= j < |list| ensures now[j] == LastOf(Brought(Joined(rounds, k + 1), list[j] - 1), first[j]) {
      BroughtJoin(Joined(rounds, k), rounds[k], list[j] - 1, first[j]);
    }
  }

  /** The messages of the first n rounds. */
  function Joined(rounds: seq<seq<Message>>, n: nat): seq<Message>
    requires n <= |rounds|
  {
    if n == 0 then [] else Joined(rounds, n - 1) + rounds[n - 1]
  }

  lemma NoRounds(rounds: seq<seq<Message>>)
    ensures Joined(rounds, 0) == []
  {
  }

  lemma {:induction false} BroughtJoin(a: seq<Message>, b: seq<Message>, id: nat, was: bool)
    ensures LastOf(Brought(a + b, id), was) == LastOf(Brought(b, id), LastOf(Brought(a, id), was))
  {
    if b == [] {
      assert a + b == a;
    } else {
      assert (a + b)[..|a + b| - 1] == a + b[..|b| - 1];
      BroughtJoin(a, b[..|b| - 1], id, was);
    }
  }

  lemma RoundRefused(start: seq<Entry>, ms: seq<Message>)
    requires !DeliverAll(start, ms).0
    ensures exists m <- ms :: !Brings(m, start)
  {
    if forall m <- ms :: Brings(m, start) {
      DeliverCounts(start, ms);
    }
  }

  lemma RoundEffect(
      start: seq<Entry>, data: seq<Entry>, after: seq<Entry>, list: seq<nat>, was: seq<bool>, now: seq<bool>,
      ms: seq<Message>, ok: bool)
    requires |start| == |after| && |list| == |was| == |now| && (forall j | 0 <= j < |list| :: 0 < list[j] <= |start|)
    requires DeliverAll(start, ms) == (true, data)
    requires ok <==> forall j | 0 <= j < |list| :: Answers(At(data, list, j))
    requires ok ==>
            forall j | 0 <= j < |list| :: !At(data, list, j).phase.Listening? ==> At(after, list, j).phase.Broken?
    requires ok ==> forall j | 0 <= j < |list| :: Taken(At(data, list, j), At(after, list, j), was[j], now[j])
    ensures RoundResult(start, after, list, was, now, ms, ok)
  {
    DeliverRefuses(start, ms);
    if ok {
      OnceTaken(start, data, after, list, was, now, ms);
    }
    forall j, m | ok && 0 <= j < |list| && m in ms && m.id == list[j] - 1 && !start[m.id].repeat
        ensures after[m.id].phase.Broken? {
      DeliverOnce(start, ms, m);
      assert !At(data, list, j).phase.Listening?;
    }
    forall j | 0 <= j < |list| && start[list[j] - 1].phase.Broken? ensures At(data, list, j).phase.Broken? {
    }
    hide DeliverAll, Brought, At, Taken, Answers, Once, Fresh;
    if (forall m <- ms :: Brings(m, start)) &&
        (forall j | 0 <= j < |list| :: Fresh(start[list[j] - 1]) && |Brought(ms, list[j] - 1)| < 0x8000_0000) {
      RoundCounts(start, data, after, list, was, now, ms, ok);
    }
  }

  lemma RoundCounts(
      start: seq<Entry>, data: seq<Entry>, after: seq<Entry>, list: seq<nat>, was: seq<bool>, now: seq<bool>,
      ms: seq<Message>, ok: bool)
    requires |start| == |after| && |list| == |was| == |now| && (forall j | 0 <= j < |list| :: 0 < list[j] <= |start|)
    requires (forall m <- ms :: Brings(m, start)) && DeliverAll(start, ms) == (true, data)
    requires forall j | 0 <= j < |list| :: Fresh(start[list[j] - 1]) && |Brought(ms, list[j] - 1)| < 0x8000_0000
    requires ok <==> forall j | 0 <= j < |list| :: Answers(At(data, list, j))
    requires ok ==> forall j | 0 <= j < |list| :: Taken(At(data, list, j), At(after, list, j), was[j], now[j])
    ensures ok &&
            forall j | 0 <= j < |list| ::
            Fresh(after[list[j] - 1]) && now[j] == LastOf(Brought(ms, list[j] - 1), was[j])
  {
    DeliverCounts(start, ms);
    hide DeliverAll, Brought, Brings;
    forall j | 0 <= j < |list|
        ensures Answers(At(data, list, j)) &&
                At(data, list, j) == Counted(start[list[j] - 1], Brought(ms, list[j] - 1)) {
      Small(|Brought(ms, list[j] - 1)|);
    }
    forall j | 0 <= j < |list| ensures Fresh(after[list[j] - 1]) && now[j] == LastOf(Brought(ms, list[j] - 1), was[j]) {
      Small(|Brought(ms, list[j] - 1)|);
      assert Taken(At(data, list, j), At(after, list, j), was[j], now[j]);
    }
  }

  /** A subscription that goes on, with nothing counted. */
  predicate Fresh(p: Entry) {
    p.repeat && p.phase.Listening? && p.count == 0
  }

  /** A subscription that ends with its first event, and has had none. */
  predicate Once(p: Entry) {
    !p.repeat && p.phase.Listening? && p.count == 0
  }

  /** With -a or -o, the one event of a subscription goes into its bit. */
  lemma OnceTaken(
      start: seq<Entry>, data: seq<Entry>, after: seq<Entry>, list: seq<nat>, was: seq<bool>, now: seq<bool>,
      ms: seq<Message>)
    requires |start| == |after| && |list| == |was| == |now| && (forall j | 0 <= j < |list| :: 0 < list[j] <= |start|)
    requires DeliverAll(start, ms) == (true, data) && forall j | 0 <= j < |list| :: Answers(At(data, list, j))
    requires forall j | 0 <= j < |list| :: Taken(At(data, list, j), At(after, list, j), was[j], now[j])
    ensures forall j | 0 <= j < |list| && Once(start[list[j] - 1]) ::
            now[j] == LastOf(Brought(ms, list[j] - 1), was[j]) && |Brought(ms, list[j] - 1)| <= 1
  {
    hide DeliverAll;
    forall j | 0 <= j < |list| && Once(start[list[j] - 1])
      ensures now[j] == LastOf(Brought(ms, list[j] - 1), was[j]) && |Brought(ms, list[j] - 1)| <= 1
    {
      OnceDelivered(start, ms, list[j] - 1);
      assert Taken(At(data, list, j), At(after, list, j), was[j], now[j]) && Answers(At(data, list, j));
    }
  }

  lemma {:induction false} OnceDelivered(data: seq<Entry>, ms: seq<Message>, i: nat)
    requires i < |data| && Once(data[i]) && DeliverAll(data, ms).0
    ensures var p := DeliverAll(data, ms).1[i];
            if Brought(ms, i) == [] then p == data[i]
            else Brought(ms, i) == [p.what] && (p.phase.WaitAckData? || p.phase.WaitAck?)
  {
    if ms != [] {
      OnceDelivered(data, ms[..|ms| - 1], i);
    }
  }

  lemma Small(n: nat)
    requires n < 0x8000_0000
    ensures n % UINT == n
  {
  }
}
