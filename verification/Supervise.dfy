/** s6-supervise: the table of actions that drives one supervised process, and what
    it lets the world know in its status file and its event directory. */
module Supervise {

  datatype State = Down | Up | Finish | LastUp | LastFinish

  /** Timer, signals, and the commands in the order of the control alphabet. */
  datatype Trans =
    | Timeout | Chld | Term | Hup | Quit
    | CmdA | CmdB | CmdQ | CmdH | CmdK | CmdT | CmdI | Cmd1 | Cmd2 | CmdF | CmdFF | CmdP | CmdC
    | CmdO | CmdD | CmdU | CmdX | CmdOO
  {
    function Index(): (i: nat)
      ensures i < 23 && (IsCommand() <==> 5 <= i)
    {
      match this
      case Timeout => 0 case Chld => 1 case Term => 2 case Hup => 3 case Quit => 4
      case CmdA => 5 case CmdB => 6 case CmdQ => 7 case CmdH => 8 case CmdK => 9 case CmdT => 10 case CmdI => 11
      case Cmd1 => 12 case Cmd2 => 13 case CmdF => 14 case CmdFF => 15 case CmdP => 16 case CmdC => 17
      case CmdO => 18 case CmdD => 19 case CmdU => 20 case CmdX => 21 case CmdOO => 22
    }

    predicate IsCommand() {
      !Timeout? && !Chld? && !Term? && !Hup? && !Quit?
    }

    /** A command, or a signal to the supervisor itself. */
    predicate IsOrder() {
      !Timeout? && !Chld?
    }

    /** The supervisor is to go away. */
    predicate Leaving() {
      Term? || Hup? || Quit? || CmdX?
    }
  }

  datatype Action =
    | Nop | Bail
    | KillA | KillB | KillH | KillQ | KillK | KillT | KillI | Kill1 | Kill2 | KillP | KillC
    | DownTimeout | DownO | DownOO | DownU | DownD
    | UpTimeout | UpZ | UpO | UpD | UpU | UpX | UpTerm
    | FinishTimeout | FinishZ | FinishU | FinishX | LastUpZ

  /** The rows of the action array. */
  function Row(s: State): (r: seq<Action>)
    ensures |r| == 23
  {
    match s
    case Down => [
      DownTimeout, Nop, Bail, Bail, Bail,
      Nop, Nop, Nop, Nop, Nop, Nop, Nop, Nop, Nop, Nop, Nop, Nop, Nop,
      DownO, DownD, DownU, Bail, DownOO]
    case Up => [
      UpTimeout, UpZ, UpTerm, UpX, UpTerm,
      KillA, KillB, KillQ, KillH, KillK, KillT, KillI, Kill1, Kill2, Nop, Nop, KillP, KillC,
      UpO, UpD, UpU, UpX, UpO]
    case Finish => [
      FinishTimeout, FinishZ, FinishX, FinishX, FinishX,
      Nop, Nop, Nop, Nop, Nop, Nop, Nop, Nop, Nop, Nop, Nop, Nop, Nop,
      UpO, DownD, FinishU, FinishX, UpO]
    case LastUp => [
      UpTimeout, LastUpZ, UpD, Nop, UpD,
      KillA, KillB, KillQ, KillH, KillK, KillT, KillI, Kill1, Kill2, Nop, Nop, KillP, KillC,
      UpO, UpD, Nop, Nop, UpO]
    case LastFinish => [
      FinishTimeout, Bail, Nop, Nop, Nop,
      Nop, Nop, Nop, Nop, Nop, Nop, Nop, Nop, Nop, Nop, Nop, Nop, Nop,
      Nop, Nop, Nop, Nop, Nop]
  }

  function Lookup(s: State, t: Trans): Action {
    Row(s)[t.Index()]
  }

  /** Which actions there are in which state. */
  predicate Fits(s: State, a: Action) {
    match a
    case Nop => true
    case Bail => s.Down? || s.LastFinish?
    case DownTimeout => s.Down?
    case DownO => s.Down?
    case DownOO => s.Down?
    case DownU => s.Down?
    case DownD => s.Down? || s.Finish?
    case UpO => s.Up? || s.LastUp? || s.Finish?
    case UpZ => s.Up?
    case UpU => s.Up?
    case UpX => s.Up?
    case UpTerm => s.Up?
    case UpD => s.Up? || s.LastUp?
    case LastUpZ => s.LastUp?
    case FinishTimeout => s.Finish? || s.LastFinish?
    case FinishZ => s.Finish?
    case FinishU => s.Finish?
    case FinishX => s.Finish?
    case _ => s.Up? || s.LastUp?
  }

  /** What the table says, in rules. */
  predicate Rules(s: State, t: Trans, a: Action) {
    && Fits(s, a)
    && (a.UpTimeout? || a.DownTimeout? || a.FinishTimeout? ==> t.Timeout?)
    && (a.UpZ? || a.LastUpZ? || a.FinishZ? || (a.Bail? && s.LastFinish?) ==> t.Chld?)
    && (a.DownO? || a.DownU? ==> t.IsCommand())
    && (t.Chld? ==> match s
                    case Down => a.Nop?
                    case Up => a.UpZ?
                    case Finish => a.FinishZ?
                    case LastUp => a.LastUpZ?
                    case LastFinish => a.Bail?)
  }

  lemma LookupRules(s: State, t: Trans)
    ensures Rules(s, t, Lookup(s, t))
  {
    match s
    case Down => DownRules(t);
    case Up => UpRules(t);
    case Finish => FinishRules(t);
    case LastUp => LastUpRules(t);
    case LastFinish => LastFinishRules(t);
  }

  lemma DownRules(t: Trans)
    ensures Rules(Down, t, Lookup(Down, t))
  {
  }

  lemma UpRules(t: Trans)
    ensures Rules(Up, t, Lookup(Up, t))
  {
  }

  lemma FinishRules(t: Trans)
    ensures Rules(Finish, t, Lookup(Finish, t))
  {
  }

  lemma LastUpRules(t: Trans)
    ensures Rules(LastUp, t, Lookup(LastUp, t))
  {
  }

  lemma LastFinishRules(t: Trans)
    ensures Rules(LastFinish, t, Lookup(LastFinish, t))
  {
  }

  datatype Status = Status(pid: int, paused: bool, finishing: bool, want: bool, wantup: bool)
  {
    /** What a reader may conclude who looks at both fields. */
    predicate SaysUp() {
      pid != 0 && !finishing
    }
  }

  datatype Event = EvS | EvU | EvD | EvX

  /** What is seen from outside: the status file replaced, an event sent. */
  datatype Step = Wrote(st: Status) | Sent(ev: Event)

  function Events(tr: seq<Step>): seq<Event> {
    if tr == [] then []
    else Events(tr[..|tr| - 1]) + if tr[|tr| - 1].Sent? then [tr[|tr| - 1].ev] else []
  }

  /** Whether the last of "up" and "down" that was announced is "up". */
  function AnnouncedUp(tr: seq<Step>): bool {
    if tr == [] then false
    else if tr[|tr| - 1] == Sent(EvU) then true
    else if tr[|tr| - 1] == Sent(EvD) then false
    else AnnouncedUp(tr[..|tr| - 1])
  }

  datatype Option<T> = None | Some(value: T)

  function LastWritten(tr: seq<Step>): Option<Status> {
    if tr == [] then None
    else if tr[|tr| - 1].Wrote? then Some(tr[|tr| - 1].st)
    else LastWritten(tr[..|tr| - 1])
  }

  /** The file is ahead of the announcements. */
  predicate InFlight(tr: seq<Step>) {
    LastWritten(tr).Some? && LastWritten(tr).value.SaysUp() != AnnouncedUp(tr)
  }

  /** A change is announced right after it has been written, and nothing else is. */
  predicate Follows(tr: seq<Step>, s: Step) {
    match s
    case Wrote(st) => !InFlight(tr)
    case Sent(ev) =>
      LastWritten(tr).Some? &&
      match ev
      case EvU => InFlight(tr) && LastWritten(tr).value.SaysUp()
      case EvD => InFlight(tr) && !LastWritten(tr).value.SaysUp()
      case _ => !InFlight(tr)
  }

  predicate Disciplined(tr: seq<Step>) {
    tr == [] || (Disciplined(tr[..|tr| - 1]) && Follows(tr[..|tr| - 1], tr[|tr| - 1]))
  }

  lemma Extend(tr: seq<Step>, s: Step)
    ensures Disciplined(tr) && Follows(tr, s) ==> Disciplined(tr + [s])
    ensures AnnouncedUp(tr + [s]) == if s == Sent(EvU) then true else if s == Sent(EvD) then false else AnnouncedUp(tr)
    ensures LastWritten(tr + [s]) == if s.Wrote? then Some(s.st) else LastWritten(tr)
    ensures Events(tr + [s]) == Events(tr) + if s.Sent? then [s.ev] else []
  {
    assert (tr + [s])[..|tr|] == tr;
  }

  lemma Begins(st: Status)
    requires !st.SaysUp()
    ensures var tr := [Wrote(st), Sent(EvS)];
            Disciplined(tr) && !InFlight(tr) && LastWritten(tr) == Some(st) && !AnnouncedUp(tr) && Events(tr) == [EvS]
  {
    var one := [Wrote(st)];
    Extend([], Wrote(st));
    assert [] + [Wrote(st)] == one;
    assert [Wrote(st), Sent(EvS)] == one + [Sent(EvS)];
    Extend(one, Sent(EvS));
  }

  /** Pairs of "up" and "down". */
  function Pairs(n: nat): seq<Event> {
    if n == 0 then [] else Pairs(n - 1) + [EvU, EvD]
  }

  /** The beginning of a run: "s", pairs, and a last "u" if the service is up. */
  ghost predicate Running(evs: seq<Event>, up: bool) {
    exists n: nat :: evs == [EvS] + Pairs(n) + if up then [EvU] else []
  }

  lemma GoesUp(evs: seq<Event>)
    requires Running(evs, false)
    ensures Running(evs + [EvU], true)
  {
    var n: nat :| evs == [EvS] + Pairs(n) + [];
    assert evs + [EvU] == [EvS] + Pairs(n) + [EvU];
  }

  lemma GoesDown(evs: seq<Event>)
    requires Running(evs, true)
    ensures Running(evs + [EvD], false)
  {
    var n: nat :| evs == [EvS] + Pairs(n) + [EvU];
    assert Pairs(n + 1) == Pairs(n) + [EvU, EvD];
    assert evs + [EvD] == [EvS] + Pairs(n + 1) + [];
  }

  /** The file shows this status; what tells that the finish script runs may be missing yet. */
  predicate FileSays(f: Option<Status>, st: Status) {
    f.Some? && (f.value == st || (st.finishing && f.value == st.(pid := 0, finishing := false)))
  }

  datatype Deadline = Infinite | Finite(seconds: nat)

  datatype Sig = ALRM | ABRT | HUP | QUIT | KILL | TERM | INT | USR1 | USR2 | STOP | CONT

  /** A signal and the process that it was sent to. */
  datatype Killed = Killed(pid: int, sig: Sig)

  /** The signals that an action sends to the tracked process. */
  function Sends(a: Action): seq<Sig> {
    match a
    case KillA => [ALRM] case KillB => [ABRT] case KillH => [HUP] case KillQ => [QUIT]
    case KillK => [KILL] case KillT => [TERM] case KillI => [INT] case Kill1 => [USR1] case Kill2 => [USR2]
    case KillP => [STOP] case KillC => [CONT]
    case UpD => [TERM, CONT] case UpTerm => [TERM, CONT]
    case FinishTimeout => [CONT, KILL]
    case _ => []
  }

  predicate JustKills(a: Action) {
    a.KillA? || a.KillB? || a.KillH? || a.KillQ? || a.KillK? || a.KillT? || a.KillI? || a.Kill1? || a.Kill2?
  }

  /** The signals that the orders stand for while the service is up.  A termination is to
      reach a stopped process as well. */
  function Meant(t: Trans): seq<Sig> {
    match t
    case CmdA => [ALRM] case CmdB => [ABRT] case CmdQ => [QUIT] case CmdH => [HUP]
    case CmdK => [KILL] case CmdT => [TERM] case CmdI => [INT] case Cmd1 => [USR1] case Cmd2 => [USR2]
    case CmdP => [STOP] case CmdC => [CONT]
    case CmdD => [TERM, CONT] case Term => [TERM, CONT] case Quit => [TERM, CONT]
    case _ => []
  }

  function To(pid: int, sigs: seq<Sig>): seq<Killed> {
    seq(|sigs|, k requires 0 <= k < |sigs| => Killed(pid, sigs[k]))
  }

  /** The table sends each order's signals, and none in the other states. */
  lemma SignalsMeant(s: State, t: Trans)
    requires t.IsOrder()
    ensures Sends(Lookup(s, t)) == if s.Up? || s.LastUp? then Meant(t) else []
  {
    match s
    case Down => DownSignals(t);
    case Up => UpSignals(t);
    case Finish => FinishSignals(t);
    case LastUp => LastUpSignals(t);
    case LastFinish => LastFinishSignals(t);
  }

  lemma DownSignals(t: Trans)
    requires t.IsOrder()
    ensures Sends(Lookup(Down, t)) == []
  {
  }

  lemma UpSignals(t: Trans)
    requires t.IsOrder()
    ensures Sends(Lookup(Up, t)) == Meant(t)
  {
  }

  lemma FinishSignals(t: Trans)
    requires t.IsOrder()
    ensures Sends(Lookup(Finish, t)) == []
  {
  }

  lemma LastUpSignals(t: Trans)
    requires t.IsOrder()
    ensures Sends(Lookup(LastUp, t)) == Meant(t)
  {
  }

  lemma LastFinishSignals(t: Trans)
    requires t.IsOrder()
    ensures Sends(Lookup(LastFinish, t)) == []
  {
  }

  /** What an action makes of the status. */
  function Wished(a: Action, st: Status): Status {
    match a
    case DownU => st.(want := true, wantup := true)
    case UpU => st.(want := true, wantup := true)
    case FinishU => st.(want := true, wantup := true)
    case DownD => st.(want := true, wantup := false)
    case UpD => st.(want := true, wantup := false, paused := false)
    case UpTerm => st.(want := true, wantup := false, paused := false)
    case DownO => st.(want := false)
    case DownOO => st.(want := false)
    case UpO => st.(want := false)
    case KillP => st.(paused := true)
    case KillC => st.(paused := false)
    case FinishTimeout => st.(paused := false)
    case _ => st
  }

  /** The meaning of the orders for the status: u and d are for good, o and O give up on
      the service; the last run ignores u, and its finish script ignores everything.  A
      signal takes a running service down, except for HUP. */
  function Obeyed(t: Trans, s: State, st: Status): Status {
    var alive := s.Up? || s.LastUp?;
    if s.LastFinish? then st
    else if t.CmdU? then if s.LastUp? then st else st.(want := true, wantup := true)
    else if t.CmdD? && !alive then st.(want := true, wantup := false)
    else if t.CmdD? || (alive && (t.Term? || t.Quit?)) then st.(want := true, wantup := false, paused := false)
    else if t.CmdO? || t.CmdOO? then st.(want := false)
    else if alive && t.CmdP? then st.(paused := true)
    else if alive && t.CmdC? then st.(paused := false)
    else st
  }

  lemma WishesObeyed(s: State, t: Trans, st: Status)
    requires t.IsOrder()
    ensures Wished(Lookup(s, t), st) == Obeyed(t, s, st)
  {
    match s
    case Down => DownObeys(t, st);
    case Up => UpObeys(t, st);
    case Finish => FinishObeys(t, st);
    case LastUp => LastUpObeys(t, st);
    case LastFinish => LastFinishObeys(t, st);
  }

  lemma DownObeys(t: Trans, st: Status)
    requires t.IsOrder()
    ensures Wished(Lookup(Down, t), st) == Obeyed(t, Down, st)
  {
    if t.CmdD? || t.Term? || t.Quit? {
    } else if t.CmdU? || t.CmdO? || t.CmdOO? || t.CmdP? || t.CmdC? {
    }
  }

  lemma UpObeys(t: Trans, st: Status)
    requires t.IsOrder()
    ensures Wished(Lookup(Up, t), st) == Obeyed(t, Up, st)
  {
    if t.CmdD? || t.Term? || t.Quit? {
    } else if t.CmdU? || t.CmdO? || t.CmdOO? || t.CmdP? || t.CmdC? {
    }
  }

  lemma FinishObeys(t: Trans, st: Status)
    requires t.IsOrder()
    ensures Wished(Lookup(Finish, t), st) == Obeyed(t, Finish, st)
  {
    if t.CmdD? || t.Term? || t.Quit? {
    } else if t.CmdU? || t.CmdO? || t.CmdOO? || t.CmdP? || t.CmdC? {
    }
  }

  lemma LastUpObeys(t: Trans, st: Status)
    requires t.IsOrder()
    ensures Wished(Lookup(LastUp, t), st) == Obeyed(t, LastUp, st)
  {
    if t.CmdD? || t.Term? || t.Quit? {
    } else if t.CmdU? || t.CmdO? || t.CmdOO? || t.CmdP? || t.CmdC? {
    }
  }

  lemma LastFinishObeys(t: Trans, st: Status)
    requires t.IsOrder()
    ensures Wished(Lookup(LastFinish, t), st) == Obeyed(t, LastFinish, st)
  {
  }

  /** The state that an action leads to. */
  function Moves(a: Action, s: State): State {
    if a.UpX? || a.UpTerm? then LastUp else if a.FinishX? then LastFinish else s
  }

  /** From now on this is the last run. */
  function Parting(s: State): State {
    match s
    case Up => LastUp
    case Finish => LastFinish
    case _ => s
  }

  /** Whoever asks the supervisor to leave makes a service that is not down go through its
      last run, and ends the supervisor of one that is down. */
  lemma LeavingParts(s: State, t: Trans)
    requires t.IsOrder()
    ensures Moves(Lookup(s, t), s) == if t.Leaving() then Parting(s) else s
    ensures Lookup(s, t).Bail? <==> s.Down? && t.Leaving()
    ensures Lookup(s, t).FinishTimeout? == Lookup(s, t).DownTimeout? == false
    ensures Lookup(s, t).DownU? <==> s.Down? && t.CmdU?
    ensures Lookup(s, t).DownO? <==> s.Down? && t.CmdO?
  {
    match s
    case Down => DownParts(t);
    case Up => UpParts(t);
    case Finish => FinishParts(t);
    case LastUp => LastUpParts(t);
    case LastFinish => LastFinishParts(t);
  }

  /** The entry leads from s to the state u, and starts nothing. */
  predicate LeadsTo(a: Action, s: State, u: State) {
    Moves(a, s) == u && !a.Bail? && !a.FinishTimeout? && !a.DownTimeout? && !a.DownU? && !a.DownO?
  }

  lemma DownParts(t: Trans)
    requires t.IsOrder()
    ensures var a := Lookup(Down, t);
            && Moves(a, Down) == Down && !a.FinishTimeout? && !a.DownTimeout?
            && (a.Bail? <==> t.Leaving()) && (a.DownU? <==> t.CmdU?) && (a.DownO? <==> t.CmdO?)
  {
  }

  lemma UpParts(t: Trans)
    requires t.IsOrder()
    ensures LeadsTo(Lookup(Up, t), Up, if t.Leaving() then LastUp else Up)
  {
  }

  lemma FinishParts(t: Trans)
    requires t.IsOrder()
    ensures LeadsTo(Lookup(Finish, t), Finish, if t.Leaving() then LastFinish else Finish)
  {
  }

  lemma LastUpParts(t: Trans)
    requires t.IsOrder()
    ensures LeadsTo(Lookup(LastUp, t), LastUp, LastUp)
  {
  }

  lemma LastFinishParts(t: Trans)
    requires t.IsOrder()
    ensures LeadsTo(Lookup(LastFinish, t), LastFinish, LastFinish)
  {
  }

  /** All there is to a supervisor, but for its status file. */
  datatype View = View(state: State, status: Status, deadline: Deadline, cont: bool, last: bool, runs: nat,
      kills: seq<Killed>, events: seq<Event>, children: set<int>)

  /** What an action does that starts no process and buries none. */
  function Done(a: Action, v: View): View {
    v.(state := Moves(a, v.state), status := Wished(a, v.status), cont := v.cont && !a.Bail?,
      last := v.last || a.UpX? || a.UpTerm? || a.FinishX?, kills := v.kills + To(v.status.pid, Sends(a)),
      deadline := if a.FinishTimeout? then Finite(3) else v.deadline)
  }

  lemma DoneWish(a: Action, v: View)
    requires a.DownOO? || a.DownD? || a.UpO? || a.UpD? || a.UpU? || a.FinishU?
    ensures Done(a, v) == v.(status := Wished(a, v.status),
                             kills := if a.UpD? then v.kills + To(v.status.pid, [TERM, CONT]) else v.kills)
  {
    hide Wished;
    assert v.kills + [] == v.kills;
  }

  lemma DoneKill(a: Action, v: View)
    requires JustKills(a)
    ensures Done(a, v) == v.(kills := v.kills + To(v.status.pid, Sends(a)))
  {
  }

  lemma DoneRest(a: Action, v: View)
    ensures a.Nop? ==> Done(a, v) == v
    ensures a.Bail? ==> Done(a, v) == v.(cont := false)
    ensures a.UpX? ==> Done(a, v) == v.(state := LastUp, last := true)
    ensures a.FinishX? ==> Done(a, v) == v.(state := LastFinish, last := true)
    ensures a.KillP? ==>
            Done(a, v) == v.(status := v.status.(paused := true), kills := v.kills + [Killed(v.status.pid, STOP)])
    ensures a.KillC? ==>
            Done(a, v) == v.(status := v.status.(paused := false), kills := v.kills + [Killed(v.status.pid, CONT)])
    ensures a.UpTerm? ==> Done(a, v) == v.(state := LastUp, last := true, status := Wished(UpD, v.status),
                                          kills := v.kills + To(v.status.pid, [TERM, CONT]))
  {
    assert v.kills + [] == v.kills;
  }

  /** What an order is for, unless it starts the service. */
  function Carried(t: Trans, v: View): View {
    v.(state := if t.Leaving() then Parting(v.state) else v.state, status := Obeyed(t, v.state, v.status),
      cont := v.cont && !(t.Leaving() && v.state.Down?),
      last := v.last || (t.Leaving() && (v.state.Up? || v.state.Finish?)),
      kills := if v.state.Up? || v.state.LastUp? then v.kills + To(v.status.pid, Meant(t)) else v.kills)
  }

  lemma DoneCarried(t: Trans, v: View)
    requires t.IsOrder()
    ensures Done(Lookup(v.state, t), v) == Carried(t, v)
  {
    hide Row, Lookup, Wished, Obeyed, Meant;
    LeavingParts(v.state, t);
    SignalsMeant(v.state, t);
    WishesObeyed(v.state, t, v.status);
    LookupRules(v.state, t);
    assert v.kills + [] == v.kills;
  }

  /** An attempt to start: up, with a new process, or a time to try again. */
  predicate Begun(v: View, w: View, reliable: bool) {
    && w.cont == v.cont && w.last == v.last && (reliable ==> w.state.Up?)
    && if w.state.Up? then
         && w == v.(state := Up, status := v.status.(pid := w.status.pid), deadline := Infinite, runs := v.runs + 1,
                    events := v.events + [EvU], children := v.children + {w.status.pid})
         && w.status.pid > 0 && w.status.pid !in v.children
       else
         && w.state.Down? && w.status == v.status && w.events == v.events && NotBegun(v, w)
  }

  lemma TriedLater(v: View, w: View)
    requires NotBegun(v, w)
    ensures w.deadline.Finite?
  {
  }

  /** No process could be made, or it could not report, or there is no program to run. */
  predicate NotBegun(v: View, w: View) {
    if w.runs == v.runs then w.deadline == Finite(60) && w.kills == v.kills && w.children == v.children
    else
      && w.runs == v.runs + 1
      && if w.kills == v.kills then w.deadline == Finite(10) && v.children < w.children
         else
           && w.deadline == Finite(60) && |w.kills| == |v.kills| + 1
           && var k := w.kills[|v.kills|];
              w.kills == v.kills + [k] && k.sig.KILL? && k.pid !in v.children && w.children == v.children + {k.pid}
  }

  /** The end of the service: it is announced, and the finish script runs if there can be
      a process for it. */
  predicate Stopped(v: View, w: View, reliable: bool) {
    && w.events == v.events + [EvD] && w.kills == v.kills && w.runs == v.runs && w.last == v.last
    && if w.state.Down? then
         && !reliable && w.status == v.status.(pid := 0) && w.deadline == Finite(1)
         && w.cont == (v.cont && v.state.Up?)
       else
         && w.state == (if v.state.Up? then Finish else LastFinish)
         && w.status == v.status.(pid := w.status.pid, finishing := true)
         && w.deadline == Finite(5) && w.cont == v.cont
  }

  /** What becomes of the finish script. */
  predicate Finishes(islast: bool, v: View, w: View, reliable: bool) {
    && w.events == v.events && w.kills == v.kills && w.runs == v.runs && w.last == v.last
    && if w.state.Down? then
         !reliable && w.status == v.status && w.deadline == Finite(1) && w.cont == (v.cont && !islast)
       else
         && w.state == (if islast then LastFinish else Finish)
         && w.status == v.status.(pid := w.status.pid, finishing := true)
         && w.deadline == Finite(5) && w.cont == v.cont
  }

  /** What the end of the tracked process leads to. */
  predicate Buried(v: View, w: View, reliable: bool) {
    match v.state
    case Down => w == v
    case Up => Stopped(v, w, reliable)
    case LastUp => Stopped(v, w, reliable)
    case Finish => w == v.(state := Down, status := v.status.(pid := 0, finishing := false), deadline := Finite(1),
                           children := w.children)
    case LastFinish => w == v.(cont := false, status := v.status.(pid := w.status.pid), children := w.children)
  }

  /** What a signal means to the supervisor. */
  predicate Handled(c: Signal, v: View, w: View, reliable: bool) {
    match c
    case SigChld(dead) =>
      if v.status.pid in v.children && v.status.pid in dead then Buried(v, w, reliable)
      else w == v.(children := w.children)
    case SigTerm => w == Carried(Term, v)
    case SigHup => w == Carried(Hup, v)
    case SigQuit => w == Carried(Quit, v)
  }

  /** What a command means to it. */
  predicate Commanded(t: Trans, v: View, w: View, reliable: bool) {
    if v.state.Down? && (t.CmdU? || t.CmdO?) then Begun(v.(status := Obeyed(t, Down, v.status)), w, reliable)
    else w == Carried(t, v)
  }

  /** What the timer means to it. */
  predicate TimedOut(v: View, w: View, reliable: bool) {
    if v.state.Down? then
      if v.status.want && v.status.wantup then Begun(v, w, reliable) else w == v.(deadline := Infinite)
    else w == v.(deadline := Finite(3), status := v.status.(paused := false),
                 kills := v.kills + To(v.status.pid, [CONT, KILL]))
  }

  lemma HandledKeeps(c: Signal, v: View, w: View, reliable: bool)
    requires Handled(c, v, w, reliable)
    ensures (v.last ==> w.last) && w.runs == v.runs
    ensures w.state.Up? || w.state.LastUp? ==> (v.state.Up? || v.state.LastUp?) && w.cont == v.cont
  {
  }

  lemma CommandedKeeps(t: Trans, v: View, w: View, reliable: bool)
    requires Commanded(t, v, w, reliable) && t.IsCommand() && (v.last ==> !v.state.Down?)
    ensures (v.last ==> w.last && w.runs == v.runs) && (w.last ==> !w.state.Down?)
    ensures v.state.Down? && (t.CmdU? || t.CmdO?) ==>
            (w.state.Down? || w.state.Up?) && w.cont == v.cont && (reliable ==> w.state.Up?)
    ensures v.state.Down? && !t.CmdU? && !t.CmdO? ==> w.state.Down? && w.cont == (v.cont && !t.CmdX?)
    ensures !v.state.Down? ==> !w.state.Down? && w.cont == v.cont
    ensures !v.state.Down? ==> ((w.state.Up? || w.state.LastUp?) <==> (v.state.Up? || v.state.LastUp?))
  {
  }

  lemma TimeoutRules(s: State)
    ensures var a := Lookup(s, Timeout);
            match s
            case Down => a.DownTimeout?
            case Finish => a.FinishTimeout?
            case LastFinish => a.FinishTimeout?
            case _ => a.UpTimeout?
  {
  }

  /** The signals are handled one after the other. */
  ghost predicate HandledAll(signals: seq<Signal>, v: View, w: View, reliable: bool) {
    exists vs: seq<View> ::
      && |vs| == |signals| + 1 && vs[0] == v && vs[|signals|] == w
      && forall k | 0 <= k < |signals| :: Handled(signals[k], vs[k], vs[k + 1], reliable)
  }

  /** So are the bytes; those outside the alphabet mean nothing. */
  ghost predicate CommandedAll(bytes: seq<char>, v: View, w: View, reliable: bool) {
    exists vs: seq<View> ::
      && |vs| == |bytes| + 1 && vs[0] == v && vs[|bytes|] == w
      && forall k | 0 <= k < |bytes| :: Understood(bytes[k], vs[k], vs[k + 1], reliable)
  }

  predicate Understood(c: char, v: View, w: View, reliable: bool) {
    match CommandOf(c)
    case Some(t) => Commanded(t, v, w, reliable)
    case None => w == v
  }

  /** A signal; SIGCHLD comes with the processes that have ended. */
  datatype Signal = SigChld(dead: set<int>) | SigTerm | SigHup | SigQuit

  /** What makes the main loop go round: the timer, signals, or bytes on the control pipe. */
  datatype Wake = Tick | Signals(signals: seq<Signal>) | Control(bytes: seq<char>)

  /** byte_chr over the control alphabet. */
  function CommandOf(c: char): Option<Trans> {
    match c
    case 'a' => Some(CmdA) case 'b' => Some(CmdB) case 'q' => Some(CmdQ) case 'h' => Some(CmdH)
    case 'k' => Some(CmdK) case 't' => Some(CmdT) case 'i' => Some(CmdI) case '1' => Some(Cmd1)
    case '2' => Some(Cmd2) case 'f' => Some(CmdF) case 'F' => Some(CmdFF) case 'p' => Some(CmdP)
    case 'c' => Some(CmdC) case 'o' => Some(CmdO) case 'd' => Some(CmdD) case 'u' => Some(CmdU)
    case 'x' => Some(CmdX) case 'O' => Some(CmdOO)
    case _ => None
  }

  /** The places in the alphabet are those of the commands in the table. */
  lemma ControlAlphabet(c: char)
    ensures var alphabet := "abqhkti12fFpcoduxO";
            match CommandOf(c)
            case Some(t) => t.Index() < 5 + |alphabet| && t.IsCommand() && alphabet[t.Index() - 5] == c
            case None => c !in alphabet
  {
  }

  /** A command that starts a service that is down. */
  predicate Starts(c: char) {
    c == 'u' || c == 'o'
  }

  predicate NoStart(bytes: seq<char>, k: nat)
    requires k <= |bytes|
  {
    forall j | 0 <= j < k :: !Starts(bytes[j])
  }

  /** Among the first k commands, a start comes somewhere after an exit. */
  predicate StartAfterExit(bytes: seq<char>, k: nat)
    requires k <= |bytes|
  {
    exists i, j :: 0 <= i < j < k && bytes[i] == 'x' && Starts(bytes[j])
  }

  /** Among the first k commands, there is an exit before any start. */
  predicate ExitFirst(bytes: seq<char>, k: nat)
    requires k <= |bytes|
  {
    exists i :: 0 <= i < k && bytes[i] == 'x' && NoStart(bytes, i)
  }

  predicate SaidExit(bytes: seq<char>, k: nat)
    requires k <= |bytes|
  {
    exists i :: 0 <= i < k && bytes[i] == 'x'
  }

  lemma MoreBytes(bytes: seq<char>, k: nat)
    requires k < |bytes|
    ensures NoStart(bytes, k + 1) <==> NoStart(bytes, k) && !Starts(bytes[k])
    ensures SaidExit(bytes, k + 1) <==> SaidExit(bytes, k) || bytes[k] == 'x'
    ensures ExitFirst(bytes, k + 1) <==> ExitFirst(bytes, k) || (bytes[k] == 'x' && NoStart(bytes, k))
    ensures StartAfterExit(bytes, k + 1) <==> StartAfterExit(bytes, k) || (Starts(bytes[k]) && SaidExit(bytes, k))
  {
  }

  lemma AllBytes(bytes: seq<char>)
    ensures ExitFirst(bytes, |bytes|) ==> (StartAfterExit(bytes, |bytes|) <==> !NoStart(bytes, |bytes|))
  {
    if ExitFirst(bytes, |bytes|) && !NoStart(bytes, |bytes|) {
      var i :| 0 <= i < |bytes| && bytes[i] == 'x' && NoStart(bytes, i);
      var j :| 0 <= j < |bytes| && Starts(bytes[j]);
      assert i < j;
    }
  }

  lemma NoBytes(bytes: seq<char>)
    ensures NoStart(bytes, 0) && !SaidExit(bytes, 0) && !ExitFirst(bytes, 0) && !StartAfterExit(bytes, 0)
  {
  }

  class Supervisor {
    /** pipe, fork and execve never fail. */
    const reliable: bool
    /** Writing the status file never fails. */
    const writable: bool
    var deadline: Deadline
    var status: Status
    var state: State
    var cont: bool
    /** The kernel's view: children that have not been waited for. */
    var children: set<int>

    /** What happened outside. */
    ghost var trace: seq<Step>
    ghost var events: seq<Event>
    /** No write of the status file has failed. */
    ghost var faithful: bool
    /** The last run was asked for. */
    ghost var last: bool
    /** How often a process was made for ./run. */
    ghost var runs: nat
    ghost var kills: seq<Killed>

    ghost function Seen(): View
      reads this
    {
      View(state, status, deadline, cont, last, runs, kills, events, children)
    }

    ghost predicate Up()
      reads this`state
    {
      state.Up? || state.LastUp?
    }

    /** The process table as the state has it. */
    ghost predicate Process()
      reads this`children, this`state, this`status, this`deadline, this`cont
    {
      && (forall c <- children :: c > 0)
      && match state
         case Down => status.pid == 0 && !status.finishing && (status.want && status.wantup ==> deadline.Finite?)
         case Up => status.pid in children && !status.finishing && deadline.Infinite?
         case LastUp => status.pid in children && !status.finishing && deadline.Infinite?
         case Finish => status.pid in children && status.finishing && deadline.Finite?
         case LastFinish => (cont ==> status.pid in children) && status.finishing && deadline.Finite?
    }

    /** What has been let known says whether the service is up. */
    ghost predicate Known(up: bool)
      reads this`trace, this`events, this`faithful
    {
      && Running(events, up)
      && (writable ==> faithful)
      && (faithful ==>
            && events == Events(trace) && Disciplined(trace) && LastWritten(trace).Some?
            && !InFlight(trace) && AnnouncedUp(trace) == up)
    }

    /** After the last run there is no way back. */
    ghost predicate Ending()
      reads this`last, this`state, this`cont
    {
      if last then state.LastUp? || state.LastFinish? || (state.Down? && !cont)
      else !state.LastUp? && !state.LastFinish?
    }

    /** Nothing that is wished for is missing in the status file. */
    ghost predicate Written()
      reads this
    {
      faithful && (state.LastFinish? ==> cont) ==> FileSays(LastWritten(trace), status)
    }

    ghost predicate Inv()
      reads this
    {
      Process() && Known(Up()) && Ending() && Written()
    }

    /** Up to the first announcement; "down" is whether there is a file of that name. */
    constructor (down: bool, reliable: bool, writable: bool)
      ensures this.reliable == reliable && this.writable == writable
      ensures Inv() && cont && state == Down && events == [EvS] && !last && runs == 0
    {
      this.reliable, this.writable := reliable, writable;
      deadline := Finite(0);
      status := Status(0, false, false, true, !down);
      state, cont := Down, true;
      children := {};
      trace, events, faithful, last, runs, kills := [], [], true, false, 0, [];
      new;
      var ok: bool := *;
      ok := ok || writable;
      faithful := ok;
      trace := if ok then [Wrote(status), Sent(EvS)] else [Sent(EvS)];
      events := [EvS];
      Begins(status);
      hide Disciplined, LastWritten, AnnouncedUp, Events, InFlight;
      assert Pairs(0) == [];
      assert events == [EvS] + Pairs(0) + [];
    }

    /** s6_svstatus_write */
    method Save() returns (ok: bool)
      ensures writable ==> ok
    {
      ok := *;
      ok := ok || writable;
    }

    /** announce: the status file is replaced, if all goes well. */
    method Announce(ghost up: bool)
      requires Known(up) && status.SaysUp() == up
      modifies this`trace, this`faithful
      ensures Known(up) && Written()
    {
      var ok := Save();
      if ok {
        Extend(trace, Wrote(status));
        trace := trace + [Wrote(status)];
      } else {
        faithful := false;
      }
    }

    /** announce, then ftrigw_notify. */
    method AnnounceAndNotify(ev: Event, ghost up: bool)
      requires Known(!up) && status.SaysUp() == up && ev == if up then EvU else EvD
      modifies this`trace, this`faithful, this`events
      ensures Known(up) && events == old(events) + [ev] && Written()
    {
      var ok := Save();
      if ok {
        Extend(trace, Wrote(status));
        trace := trace + [Wrote(status)];
      } else {
        faithful := false;
      }
      Extend(trace, Sent(ev));
      trace, events := trace + [Sent(ev)], events + [ev];
      if up {
        GoesUp(old(events));
      } else {
        GoesDown(old(events));
      }
    }

    /** kill(2); it only ever hits a child that has not been waited for. */
    method Kill(pid: int, sig: Sig)
      requires pid in children && pid > 0
      modifies this`kills
      ensures kills == old(kills) + [Killed(pid, sig)]
    {
      kills := kills + [Killed(pid, sig)];
    }

    /** fork(2) */
    method Fork() returns (pid: int)
      requires forall c <- children :: c > 0
      modifies this`children
      ensures pid == -1 || (pid > 0 && pid !in old(children))
      ensures reliable ==> pid > 0
      ensures children == if pid > 0 then old(children) + {pid} else old(children)
    {
      pid := *;
      if pid <= 0 || pid in children {
        pid := -1;
        if reliable {
          pid := UnusedPid();
        }
      }
      if pid > 0 {
        children := children + {pid};
      }
    }

    method UnusedPid() returns (pid: int)
      requires forall c <- children :: c > 0
      ensures pid > 0 && pid !in children
    {
      pid := 1;
      var todo: set<nat> := children;
      while todo != {}
        invariant todo <= children && pid > 0 && forall c <- children | c !in todo :: c < pid
        decreases todo
      {
        var c :| c in todo;
        todo := todo - {c};
        pid := if c < pid then pid else c + 1;
      }
    }

    /** bail */
    method Bail()
      modifies this`cont
      ensures !cont
    {
      cont := false;
    }

    method TryStart()
      requires state.Down? && status.pid == 0 && !status.finishing && (forall c <- children :: c > 0) &&
              Known(false) && !last && Written()
      modifies this
      ensures Inv() && (state.Down? || state.Up?) && (state.Down? ==> deadline.Finite? && status == old(status))
      ensures Begun(old(Seen()), Seen(), reliable)
    {
      hide Supervisor.Known, LastWritten, FileSays, NotBegun;
      var pid := Spawn();
      if pid < 0 {
        TriedLater(old(Seen()), Seen());
        return;
      }
      deadline := Infinite;
      state := State.Up;
      status := status.(pid := pid);
      AnnounceAndNotify(EvU, true);
    }

    /** The first part of trystart: a process that runs ./run, or a time to try again. */
    method Spawn() returns (pid: int)
      requires forall c <- children :: c > 0
      modifies this`deadline, this`children, this`runs, this`kills
      ensures pid == -1 || (pid > 0 && pid !in old(children) && children == old(children) + {pid}
                            && runs == old(runs) + 1 && kills == old(kills))
      ensures pid == -1 ==> !reliable && NotBegun(old(Seen()), Seen()) && (forall c <- children :: c > 0)
    {
      var piped: bool := *;
      if !piped && !reliable {
        deadline := Finite(60);
        return -1;
      }
      pid := Fork();
      if pid < 0 {
        deadline := Finite(60);
        return;
      }
      runs := runs + 1;
      var r: int := *;
      if r == -1 && !reliable {
        deadline := Finite(60);
        Kill(pid, KILL);
        return -1;
      }
      if r == 1 && !reliable {
        deadline := Finite(10);
        return -1;
      }
    }

    method TryFinish(islast: bool)
      requires status.pid == 0 && !status.finishing && Known(false) && (forall c <- children :: c > 0) && last == islast
      requires Written() && (state.LastFinish? ==> cont)
      modifies this
      ensures Inv() && (state.Down? || state.Finish? || state.LastFinish?)
      ensures Finishes(islast, old(Seen()), Seen(), reliable)
    {
      hide Supervisor.Known, LastWritten;
      var pid := Fork();
      if pid < 0 {
        if islast {
          Bail();
        }
        state := Down;
        status := status.(pid := 0);
        deadline := Finite(1);
        return;
      }
      status := status.(pid := pid, finishing := true);
      state := if islast then LastFinish else Finish;
      deadline := Finite(5);
    }

    /** up_z and lastup_z; the exit status is in the place of the process number. */
    method UpEnds(islast: bool)
      requires Up() && Known(true) && !status.finishing && last == islast && islast == state.LastUp? &&
              forall c <- children :: c > 0
      modifies this
      ensures Inv() && Stopped(old(Seen()), Seen(), reliable)
    {
      var wstat := status.pid;
      status := status.(pid := 0);
      AnnounceAndNotify(EvD, false);
      TryFinish(islast);
    }

    /** finish_z */
    method FinishEnds()
      requires state.Finish? && Known(false) && Ending() && forall c <- children :: c > 0
      modifies this
      ensures Inv() && Buried(old(Seen()), Seen(), reliable)
    {
      status := status.(pid := 0, finishing := false);
      state := Down;
      Announce(false);
      deadline := Finite(1);
    }

    /** killp and killc */
    method Pause(paused: bool)
      requires Process() && Known(Up()) && Ending() && status.pid in children && !state.Down? && status.SaysUp() == Up()
      modifies this`status, this`trace, this`faithful, this`kills
      ensures Inv() && status == old(status).(paused := paused)
      ensures kills == old(kills) + [Killed(status.pid, if paused then STOP else CONT)]
    {
      Kill(status.pid, if paused then STOP else CONT);
      status := status.(paused := paused);
      Announce(Up());
    }

    method Want(want: bool, wantup: bool)
      requires Inv() && (state.Down? && want && wantup ==> deadline.Finite?)
      modifies this`status, this`trace, this`faithful
      ensures Inv() && status == old(status).(want := want, wantup := wantup)
    {
      status := status.(want := want, wantup := wantup);
      Announce(Up());
    }

    /** finishtimeout */
    method FinishTimeout()
      requires Inv() && cont && (state.Finish? || state.LastFinish?)
      modifies this
      ensures Inv() && Seen() == Done(Action.FinishTimeout, old(Seen()))
    {
      Pause(false);
      Kill(status.pid, KILL);
      deadline := Finite(3);
    }

    /** up_d */
    method UpDown()
      requires Inv() && Up()
      modifies this`status, this`trace, this`faithful, this`kills
      ensures Inv() && status == Wished(UpD, old(status))
      ensures kills == old(kills) + To(old(status.pid), [TERM, CONT])
    {
      status := status.(want := true, wantup := false);
      Kill(status.pid, TERM);
      Pause(false);
      Announce(Up());
    }

    /** up_x and finish_x */
    method GoLast()
      requires Inv() && (state.Up? || state.Finish?)
      modifies this`state, this`last
      ensures Inv() && last && state == Parting(old(state))
    {
      last := true;
      state := if state.Up? then LastUp else LastFinish;
    }

    /** down_O, up_o */
    method Unwant()
      requires Inv()
      modifies this`status, this`trace, this`faithful
      ensures Inv() && status == old(status).(want := false)
    {
      status := status.(want := false);
      Announce(Up());
    }

    // ----- the action array at work -----

    /** downtimeout, down_o and down_u */
    method PerformStart(a: Action)
      requires Inv() && state.Down? && !last && (a.DownTimeout? || a.DownO? || a.DownU?)
      modifies this
      ensures Inv()
      ensures if !a.DownTimeout? || (old(status).want && old(status).wantup)
              then Begun(old(Seen()).(status := Wished(a, old(status))), Seen(), reliable)
              else Seen() == old(Seen()).(deadline := Infinite)
    {
      hide Supervisor.Known, Begun;
      if a.DownO? {
        Unwant();
        TryStart();
      } else if a.DownU? {
        status := status.(want := true, wantup := true);
        Announce(false);
        TryStart();
      } else if status.want && status.wantup {
        TryStart();
      } else {
        deadline := Infinite;
      }
    }

    /** An action other than those for the death of a process. */
    method Perform(a: Action)
      requires Inv() && Fits(state, a) && !a.UpZ? && !a.LastUpZ? && !a.FinishZ? && !a.UpTimeout? &&
              (a.Bail? ==> state.Down?)
      requires (a.FinishTimeout? ==> cont) && (a.DownO? || a.DownU? || a.DownTimeout? ==> !last)
      modifies this
      ensures Inv()
      ensures if a.DownO? || a.DownU? || (a.DownTimeout? && old(status).want && old(status).wantup)
              then Begun(old(Seen()).(status := Wished(a, old(status))), Seen(), reliable)
              else if a.DownTimeout? then Seen() == old(Seen()).(deadline := Infinite)
              else Seen() == Done(a, old(Seen()))
    {
      hide Supervisor.Inv, Done, Begun, Wished;
      if a.DownTimeout? || a.DownO? || a.DownU? {
        PerformStart(a);
      } else if a.DownOO? || a.DownD? || a.UpO? || a.UpD? || a.UpU? || a.FinishU? {
        PerformWish(a);
      } else if JustKills(a) {
        PerformKill(a);
      } else {
        PerformRest(a);
      }
    }

    /** The others: those that end something. */
    method PerformRest(a: Action)
      requires Inv() && Fits(state, a) && !a.UpZ? && !a.LastUpZ? && !a.FinishZ? && !a.UpTimeout? &&
              (a.Bail? ==> state.Down?)
      requires !a.DownTimeout? && !a.DownO? && !a.DownU? && !a.DownOO? && !a.DownD? && !a.UpO? && !a.UpD? && !a.UpU? &&
              !a.FinishU? && !JustKills(a) && (a.FinishTimeout? ==> cont)
      modifies this
      ensures Inv() && Seen() == Done(a, old(Seen()))
    {
      hide Supervisor.Known, Done, Sends, To, Moves, Wished;
      DoneRest(a, Seen());
      match a
      case Nop =>
      case Bail => Bail();
      case KillP => Pause(true);
      case KillC => Pause(false);
      case UpX => GoLast();
      case UpTerm =>
        GoLast();
        UpDown();
      case FinishTimeout => FinishTimeout();
      case FinishX => GoLast();
    }

    /** killa to killi, kill1 and kill2 */
    method PerformKill(a: Action)
      requires Inv() && Fits(state, a) && JustKills(a)
      modifies this`kills
      ensures Inv() && Seen() == Done(a, old(Seen()))
    {
      hide Supervisor.Known, Done, Moves, Wished;
      DoneKill(a, Seen());
      match a
      case KillA => Kill(status.pid, ALRM);
      case KillB => Kill(status.pid, ABRT);
      case KillH => Kill(status.pid, HUP);
      case KillQ => Kill(status.pid, QUIT);
      case KillK => Kill(status.pid, KILL);
      case KillT => Kill(status.pid, TERM);
      case KillI => Kill(status.pid, INT);
      case Kill1 => Kill(status.pid, USR1);
      case Kill2 => Kill(status.pid, USR2);
    }

    /** The actions that change nothing but wishes, apart from a kill. */
    method PerformWish(a: Action)
      requires Inv() && Fits(state, a) && (a.DownOO? || a.DownD? || a.UpO? || a.UpD? || a.UpU? || a.FinishU?)
      modifies this`status, this`trace, this`faithful, this`kills
      ensures Inv() && Seen() == Done(a, old(Seen()))
    {
      hide Supervisor.Inv, Done, Sends, To, Moves;
      DoneWish(a, Seen());
      match a
      case DownOO => Unwant();
      case DownD => Want(true, false);
      case UpO => Unwant();
      case UpD => UpDown();
      case UpU => Want(true, true);
      case FinishU => Want(true, true);
    }

    /** The tracked process has been waited for, and its exit status stands where
        its process number did. */
    method PerformChld()
      requires Known(Up()) && Ending() && !state.Down? && (forall c <- children :: c > 0) &&
              status.finishing == !Up() && deadline.Finite? == !Up()
      modifies this
      ensures Inv() && Buried(old(Seen()), Seen(), reliable)
    {
      hide Supervisor.Known, Row;
      LookupRules(state, Chld);
      var a := Lookup(state, Chld);
      if a.UpZ? {
        UpEnds(false);
      } else if a.LastUpZ? {
        UpEnds(true);
      } else if a.FinishZ? {
        FinishEnds();
      } else {
        Bail();
      }
    }

    /** handle_signals */
    method HandleSignals(signals: seq<Signal>)
      requires Inv()
      modifies this
      ensures Inv() && HandledAll(signals, old(Seen()), Seen(), reliable)
      ensures (old(last) ==> last) && runs == old(runs) && (Up() ==> old(Up()) && cont == old(cont))
    {
      hide Supervisor.Inv, Handled;
      var k := 0;
      ghost var vs := [Seen()];
      while k < |signals|
        invariant 0 <= k <= |signals| && Inv() && |vs| == k + 1 && vs[0] == old(Seen()) && vs[k] == Seen()
        invariant forall j | 0 <= j < k :: Handled(signals[j], vs[j], vs[j + 1], reliable)
        invariant (old(last) ==> last) && runs == old(runs) && (Up() ==> old(Up()) && cont == old(cont))
      {
        HandleSignal(signals[k]);
        HandledKeeps(signals[k], vs[k], Seen(), reliable);
        vs := vs + [Seen()];
        k := k + 1;
      }
    }

    method HandleSignal(c: Signal)
      requires Inv()
      modifies this
      ensures Inv() && Handled(c, old(Seen()), Seen(), reliable)
    {
      match c
      case SigChld(dead) =>
        if status.pid == 0 {
          children := children - dead;
        } else {
          var gone, wstat := WaitPid(status.pid, dead);
          if gone {
            status := status.(pid := wstat);
            PerformChld();
          }
        }
      case SigTerm => PerformSignal(Term);
      case SigHup => PerformSignal(Hup);
      case SigQuit => PerformSignal(Quit);
    }

    /** wait_pid_nohang: other children that have ended may be waited for on the way. */
    method WaitPid(pid: int, dead: set<int>) returns (gone: bool, wstat: int)
      modifies this`children
      ensures gone <==> pid in old(children) && pid in dead
      ensures children <= old(children) && old(children) - dead <= children && (gone ==> pid !in children)
    {
      var keep: set<int> := *;
      wstat := *;
      gone := pid in children && pid in dead;
      children := children - if gone then dead - keep + {pid} else dead;
    }

    method PerformSignal(t: Trans)
      requires Inv() && (t.Term? || t.Hup? || t.Quit?)
      modifies this
      ensures Inv() && Seen() == Carried(t, old(Seen()))
    {
      hide Supervisor.Inv, Row, Lookup, Done, Carried, Wished;
      LookupRules(state, t);
      LeavingParts(state, t);
      DoneCarried(t, Seen());
      Perform(Lookup(state, t));
    }

    /** handle_control */
    method HandleControl(bytes: seq<char>)
      requires Inv() && cont
      modifies this
      ensures Inv() && (old(last) ==> last && runs == old(runs))
      ensures !cont ==> old(state).Down?
      ensures !cont && Up() ==> StartAfterExit(bytes, |bytes|)
      ensures reliable && old(state).Down? ==>
                (!cont && Up() <==> ExitFirst(bytes, |bytes|) && StartAfterExit(bytes, |bytes|))
      ensures CommandedAll(bytes, old(Seen()), Seen(), reliable)
    {
      hide Supervisor.Inv, Row, Commanded, NoStart, SaidExit, ExitFirst, StartAfterExit;
      Awake();
      NoBytes(bytes);
      AllBytes(bytes);
      var k := 0;
      ghost var vs := [Seen()];
      while k < |bytes|
        invariant 0 <= k <= |bytes| && Inv() && (old(last) ==> last && runs == old(runs)) && (last ==> !state.Down?)
        invariant if old(state).Down? then state.Down? || Up() else cont && !state.Down?
        invariant !cont ==> SaidExit(bytes, k)
        invariant !cont && Up() ==> StartAfterExit(bytes, k)
        invariant reliable && old(state).Down? ==>
                (state.Down? <==> NoStart(bytes, k)) && (!cont <==> ExitFirst(bytes, k))
        invariant |vs| == k + 1 && vs[0] == old(Seen()) && vs[k] == Seen()
        invariant forall j | 0 <= j < k :: Understood(bytes[j], vs[j], vs[j + 1], reliable)
      {
        MoreBytes(bytes, k);
        match CommandOf(bytes[k]) {
          case Some(t) => PerformCommand(t);
          case None =>
        }
        vs := vs + [Seen()];
        k := k + 1;
      }
    }

    lemma Awake()
      requires Inv() && cont
      ensures last ==> !state.Down?
    {
    }

    method PerformCommand(t: Trans)
      requires Inv() && t.IsCommand() && (last ==> !state.Down?)
      modifies this
      ensures Inv() && (old(last) ==> last && runs == old(runs)) && (last ==> !state.Down?)
      ensures Commanded(t, old(Seen()), Seen(), reliable)
      ensures old(state).Down? && (t.CmdU? || t.CmdO?) ==>
              (state.Down? || state.Up?) && cont == old(cont) && (reliable ==> state.Up?)
      ensures old(state).Down? && !t.CmdU? && !t.CmdO? ==> state.Down? && cont == (old(cont) && !t.CmdX?)
      ensures !old(state).Down? ==> !state.Down? && Up() == old(Up()) && cont == old(cont)
    {
      hide Supervisor.Inv, Row, Lookup, Done, Wished, Obeyed, Carried, Begun;
      LookupRules(state, t);
      LeavingParts(state, t);
      WishesObeyed(state, t, status);
      DoneCarried(t, Seen());
      ghost var v := Seen();
      Perform(Lookup(state, t));
      CommandedKeeps(t, v, Seen(), reliable);
    }

    /** The timer has run out. */
    method PerformTimeout()
      requires Inv() && cont && deadline.Finite?
      modifies this
      ensures Inv() && TimedOut(old(Seen()), Seen(), reliable) && (old(last) ==> last && runs == old(runs)) && cont
    {
      hide Row;
      TimeoutRules(state);
      LookupRules(state, Timeout);
      Perform(Lookup(state, Timeout));
    }

    /** One turn of the main loop.  The timer does not run out at infinity. */
    method Turn(w: Wake)
      requires Inv() && cont && (w.Tick? ==> deadline.Finite?)
      modifies this
      ensures Inv() && (old(last) ==> last && runs == old(runs))
      ensures !cont && Up() ==> w.Control? && StartAfterExit(w.bytes, |w.bytes|)
      ensures reliable && old(state).Down? && w.Control? ==>
                (!cont && Up() <==> ExitFirst(w.bytes, |w.bytes|) && StartAfterExit(w.bytes, |w.bytes|))
      ensures match w
              case Tick => TimedOut(old(Seen()), Seen(), reliable)
              case Signals(signals) => HandledAll(signals, old(Seen()), Seen(), reliable)
              case Control(bytes) => CommandedAll(bytes, old(Seen()), Seen(), reliable)
    {
      hide HandledAll, CommandedAll, Row;
      match w
      case Tick => PerformTimeout();
      case Signals(signals) => HandleSignals(signals);
      case Control(bytes) => HandleControl(bytes);
    }

    /** The main loop and the farewell. */
    method Supervise(wakes: seq<Wake>) returns (done: bool)
      requires Inv() && cont
      modifies this
      ensures !done ==> Inv()
      ensures done ==> !cont && exists n: nat :: events == [EvS] + Pairs(n) + (if Up() then [EvU] else []) + [EvX]
      ensures old(last) ==> runs == old(runs)
      ensures done && Up() ==> exists w <- wakes :: w.Control? && StartAfterExit(w.bytes, |w.bytes|)
    {
      hide StartAfterExit, ExitFirst;
      var k := 0;
      while k < |wakes| && cont
        invariant 0 <= k <= |wakes| && Inv() && (old(last) ==> last && runs == old(runs))
        invariant !cont && Up() ==> exists w <- wakes :: w.Control? && StartAfterExit(w.bytes, |w.bytes|)
      {
        assert wakes[k] in wakes;
        var w := wakes[k];
        if w.Tick? && deadline.Infinite? {
          w := Signals([]);
        }
        Turn(w);
        k := k + 1;
      }
      done := !cont;
      if done {
        ghost var n: nat :| events == [EvS] + Pairs(n) + if Up() then [EvU] else [];
        trace, events := trace + [Sent(EvX)], events + [EvX];
      }
    }
  }
}
