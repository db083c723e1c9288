/** fork, exit, wait, sleep, wakeup, kill and the scheduler of kernel/proc.c as
    steps of all processes. A section that holds one p->lock and touches no
    other lock is one step; where wait_lock is acquired or released inside, or
    a loop takes the locks one by one, each part is a step of its own. */
module Processes {
  datatype Opt = None | Some(v: nat)
  datatype State = Unused | Used | Runnable | Running | Sleeping | Zombie
  datatype Chan = NoChan | Other | OfProc(p: nat)

  // Where a process is in the kernel.
  datatype Pc =
    | User                        // not in any of the functions below
    | Fork0(np: nat)              // fork: holding the lock of the new process
    | Fork1(np: nat)              // fork: before the parent link
    | Fork2(np: nat)              // fork: before RUNNABLE
    | Reparent(i: nat)            // exit: reparent has scanned i entries
    | WakeInit(i: nat, j: nat)    // exit: wakeup(initproc) has scanned j entries
    | Wake(j: nat)                // exit: wakeup(p->parent) has scanned j entries
    | Locked                      // exit: holding wait_lock and p->lock
    | Zombied                     // exit: state is ZOMBIE
    | Leaving                     // exit: wait_lock released, in sched
    | Dead                        // off its stack
    | Scan(i: nat, kids: bool)    // wait: scanned i entries
    | Reaped(r: int, st: int)     // wait: about to release wait_lock and return r
    | Checked                     // wait: not killed, before sleep
    | Sleep1                      // sleep: holding wait_lock and p->lock
    | Sleep2                      // sleep: wait_lock released
    | Asleep                      // sleep: in sched, until scheduled again
    | Retry                       // sleep: about to acquire wait_lock again

  // status is the argument of an exit that is going on; ret is what the last
  // wait of the process returned, and got the exit status it copied out.
  datatype Proc = Proc(state: State, parent: Opt, chan: Chan, lock: Opt, killed: bool, pid: nat, xstate: int,
                       status: int, ret: int, got: int, pc: Pc)
  datatype Sys = Sys(procs: seq<Proc>, waitLock: Opt, init: nat, nextpid: nat)

  datatype Action =
    | Schedule(p: nat) | Yield(p: nat) | SleepOther(p: nat) | WakeOther(p: nat) | Kill(p: nat)
    | ForkStart(p: nat, np: nat) | ForkFail(p: nat) | ExitStart(p: nat, status: int) | WaitStart(p: nat) | CopyFails(p: nat)
    | Advance(p: nat)

  function FreeProc(q: Proc): Proc {
    q.(state := Unused, parent := None, chan := NoChan, killed := false, pid := 0, xstate := 0, pc := User)
  }

  predicate Executing(q: Proc) {
    q.state == Running || q.pc == Zombied || q.pc == Leaving
  }

  predicate Free(s: Sys, q: nat) {
    q < |s.procs| && s.procs[q].lock == None
  }

  function Put(s: Sys, p: nat, q: Proc): Sys
    requires p < |s.procs|
  {
    s.(procs := s.procs[p := q])
  }

  function SetPc(s: Sys, p: nat, pc: Pc): Sys
    requires p < |s.procs|
  {
    Put(s, p, s.procs[p].(pc := pc))
  }

  // One iteration of the loop of wakeup, by process p.
  function WakeOne(s: Sys, p: nat, j: nat, chan: Chan): Sys
    requires j < |s.procs|
  {
    if j != p && s.procs[j].state == Sleeping && s.procs[j].chan == chan
    then Put(s, j, s.procs[j].(state := Runnable)) else s
  }

  function ParentChan(q: Proc): Chan {
    if q.parent == None then NoChan else OfProc(q.parent.v)
  }

  // The next step of p does not have to wait for a lock.
  predicate Unblocked(s: Sys, p: nat)
    requires p < |s.procs|
  {
    var n := |s.procs|;
    match s.procs[p].pc
    case Fork1(_) => s.waitLock == None
    case Fork2(np) => Free(s, np)
    case WakeInit(_, j) => j >= n || j == p || Free(s, j)
    case Wake(j) => if j < n then j == p || Free(s, j) else Free(s, p)
    case Scan(i, _) => if i < n then s.procs[i].parent == Some(p) ==> Free(s, i) else Free(s, p)
    case Checked => Free(s, p)
    case Retry => s.waitLock == None
    case _ => true
  }

  predicate Guard(s: Sys, a: Action) {
    a.p < |s.procs| &&
    var q := s.procs[a.p];
    match a
    case Schedule(p) => q.lock == None && q.state == Runnable
    case Yield(p) => q.lock == None && q.state == Running && (q.pc == User || q.pc.Fork1? || q.pc.Fork2? || q.pc == Retry)
    case SleepOther(p) => q.lock == None && q.state == Running && q.pc == User
    case WakeOther(p) => q.lock == None && q.state == Sleeping && q.chan == Other
    case Kill(p) => q.lock == None
    case ForkStart(p, np) => q.state == Running && q.pc == User && Free(s, np) && s.procs[np].state == Unused
    case ForkFail(p) => q.pc.Fork0?
    case ExitStart(p, _) => q.state == Running && q.pc == User && p != s.init && s.waitLock == None
    case WaitStart(p) => q.state == Running && q.pc == User && s.waitLock == None
    case CopyFails(p) =>
      q.pc.Scan? && q.pc.i < |s.procs| && s.procs[q.pc.i].parent == Some(p) && Free(s, q.pc.i) && s.procs[q.pc.i].state == Zombie
    case Advance(p) => Executing(q) && q.pc != User && Unblocked(s, p)
  }

  function Apply(s: Sys, a: Action): Sys
    requires Guard(s, a)
  {
    var q := s.procs[a.p];
    match a
    case Schedule(p) =>
      Put(s, p, if q.pc == Asleep then q.(state := Running, chan := NoChan, pc := Retry) else q.(state := Running, chan := NoChan))
    case Yield(p) => Put(s, p, q.(state := Runnable))
    case SleepOther(p) => Put(s, p, q.(state := Sleeping, chan := Other))
    case WakeOther(p) => Put(s, p, q.(state := Runnable))
    case Kill(p) => Put(s, p, q.(killed := true, state := if q.state == Sleeping then Runnable else q.state))
    case ForkStart(p, np) =>
      var s1 := Put(s, np, s.procs[np].(state := Used, lock := Some(p), pid := s.nextpid));
      SetPc(s1.(nextpid := s.nextpid + 1), p, Fork0(np))
    case ForkFail(p) =>
      var np := q.pc.np;
      if np >= |s.procs| then s else SetPc(Put(s, np, FreeProc(s.procs[np]).(lock := None)), p, User)
    case ExitStart(p, status) => Put(s.(waitLock := Some(p)), p, q.(status := status, pc := Reparent(0)))
    case WaitStart(p) => SetPc(s.(waitLock := Some(p)), p, Scan(0, false))
    case CopyFails(p) => SetPc(s, p, Reaped(-1, q.got))
    case Advance(p) => AdvanceOf(s, p)
  }

  function AdvanceOf(s: Sys, p: nat): Sys
    requires p < |s.procs| && Unblocked(s, p)
  {
    var n, q := |s.procs|, s.procs[p];
    match q.pc
    case Fork0(np) => if np >= n then s else SetPc(Put(s, np, s.procs[np].(lock := None)), p, Fork1(np))
    case Fork1(np) => if np >= n then s else SetPc(Put(s, np, s.procs[np].(parent := Some(p))), p, Fork2(np))
    case Fork2(np) => SetPc(Put(s, np, s.procs[np].(state := Runnable)), p, User)
    case Reparent(i) =>
      if i >= n then SetPc(s, p, Wake(0))
      else if s.procs[i].parent == Some(p) then SetPc(Put(s, i, s.procs[i].(parent := Some(s.init))), p, WakeInit(i, 0))
      else SetPc(s, p, Reparent(i + 1))
    case WakeInit(i, j) =>
      if j >= n then SetPc(s, p, Reparent(i + 1)) else SetPc(WakeOne(s, p, j, OfProc(s.init)), p, WakeInit(i, j + 1))
    case Wake(j) =>
      if j >= n then Put(s, p, q.(lock := Some(p), pc := Locked)) else SetPc(WakeOne(s, p, j, ParentChan(q)), p, Wake(j + 1))
    case Locked => Put(s, p, q.(xstate := q.status, state := Zombie, pc := Zombied))
    case Zombied => SetPc(s.(waitLock := None), p, Leaving)
    case Leaving => Put(s, p, q.(lock := None, pc := Dead))
    case Scan(i, kids) =>
      if i >= n then
        if !kids || q.killed then Put(s.(waitLock := None), p, q.(ret := -1, pc := User))
        else SetPc(s, p, Checked)
      else if s.procs[i].parent != Some(p) then SetPc(s, p, Scan(i + 1, kids))
      else if s.procs[i].state != Zombie then SetPc(s, p, Scan(i + 1, true))
      else SetPc(Put(s, i, FreeProc(s.procs[i])), p, Reaped(s.procs[i].pid, s.procs[i].xstate))
    case Reaped(r, st) => Put(s.(waitLock := None), p, q.(ret := r, got := st, pc := User))
    case Checked => Put(s, p, q.(lock := Some(p), pc := Sleep1))
    case Sleep1 => SetPc(s.(waitLock := None), p, Sleep2)
    case Sleep2 => Put(s, p, q.(chan := OfProc(p), state := Sleeping, lock := None, pc := Asleep))
    case Retry => SetPc(s.(waitLock := Some(p)), p, Scan(0, false))
    case _ => s
  }

  // ---------- invariants ----------

  // Process h holds the lock of process q.
  predicate Holds(pc: Pc, h: nat, q: nat) {
    match pc
    case Fork0(np) => np == q
    case _ => h == q && (pc == Locked || pc == Zombied || pc == Leaving || pc == Sleep1 || pc == Sleep2)
  }

  predicate HoldsWait(pc: Pc) {
    pc.Reparent? || pc.WakeInit? || pc.Wake? || pc == Locked || pc == Zombied || pc.Scan? || pc.Reaped? || pc == Checked || pc == Sleep1
  }

  predicate Exits(pc: Pc) {
    pc.Reparent? || pc.WakeInit? || pc.Wake? || pc == Locked
  }

  predicate Live(q: Proc) {
    q.state == Runnable || q.state == Running || q.state == Sleeping
  }

  // In wait with no zombie child seen, and not to be woken by itself.
  predicate Dozing(q: Proc) {
    q.pc == Sleep1 || q.pc == Sleep2 || (q.pc == Asleep && q.state == Sleeping)
  }

  predicate Consistent(q: Proc, p: nat) {
    match q.pc
    case User => q.state != Zombie && (q.state == Sleeping ==> q.chan == Other)
    case Dead => q.state == Zombie
    case Zombied => q.state == Zombie
    case Leaving => q.state == Zombie
    case Asleep => q.state == Runnable || (q.state == Sleeping && q.chan == OfProc(p))
    case Fork1(_) => q.state == Running || q.state == Runnable
    case Fork2(_) => q.state == Running || q.state == Runnable
    case Retry => q.state == Running || q.state == Runnable
    case _ => q.state == Running
  }

  predicate Forks(pc: Pc) {
    pc.Fork0? || pc.Fork1? || pc.Fork2?
  }

  // How many entries an exiting process has certainly dealt with.
  function Cleared(pc: Pc, n: nat): nat {
    match pc
    case Reparent(i) => i
    case WakeInit(i, _) => i + 1
    case _ => n
  }

  // An exiting process that has already woken its parent.
  predicate Woken(q: Proc) {
    q.parent.Some? && ((q.pc.Wake? && q.pc.j > q.parent.v) || q.pc == Locked)
  }

  // initproc is about to be woken by the process that is exiting.
  predicate WakingInit(s: Sys, r: nat) {
    && r == s.init && s.waitLock.Some? && s.waitLock.v < |s.procs|
    && s.procs[s.waitLock.v].pc.WakeInit? && s.procs[s.waitLock.v].pc.j <= r
  }

  // What holds of process p by itself.
  predicate One(s: Sys, p: nat)
    requires p < |s.procs|
  {
    var q, n := s.procs[p], |s.procs|;
    && (q.lock.Some? ==> q.lock.v < n) && (q.parent.Some? ==> q.parent.v < n)
    && (HoldsWait(q.pc) <==> s.waitLock == Some(p))
    && Consistent(q, p)
    && (p == s.init ==> Live(q) && q.parent == None && !Exits(q.pc))
    && (p != s.init && (Live(q) || q.state == Zombie) ==> q.parent.Some?)
    && (q.state == Unused ==> q.parent == None)
    && (Forks(q.pc) ==> q.pc.np < n)
    && (Exits(q.pc) ==> Cleared(q.pc, n) <= n) && (q.pc.Scan? ==> q.pc.i <= n)
    && (q.state == Zombie ==> q.xstate == q.status)
  }

  // What holds of processes p and q: q may be a child of p.
  predicate Two(s: Sys, p: nat, q: nat)
    requires p < |s.procs| && q < |s.procs|
  {
    var P, Q, n := s.procs[p], s.procs[q], |s.procs|;
    && (Q.lock == Some(p) <==> Holds(P.pc, p, q))
    && (Q.parent == Some(p) ==> p != q && Live(P))
    && (Forks(P.pc) && P.pc.np == q ==>
          p != q && Q.state == Used && Q.pc == User && Q.parent == if P.pc.Fork2? then Some(p) else None)
    && (Forks(P.pc) && Forks(Q.pc) && P.pc.np == Q.pc.np ==> p == q)
    && (Q.state == Used && Q.parent == Some(p) ==> P.pc == Fork2(q))
    && (Exits(P.pc) && q < Cleared(P.pc, n) ==> Q.parent != Some(p))
    && (P.pc.Scan? && q < P.pc.i && Q.parent == Some(p) ==> Q.state != Zombie && P.pc.kids)
    && (P.pc == Checked && Q.parent == Some(p) ==> Q.state != Zombie)
    && (Q.state == Zombie && Q.parent == Some(p) && Dozing(P) ==> WakingInit(s, p))
    && (Woken(Q) && Q.parent == Some(p) ==> !Dozing(P))
  }

  ghost predicate Inv(s: Sys) {
    && s.init < |s.procs| && (s.waitLock.Some? ==> s.waitLock.v < |s.procs|)
    && (forall p :: 0 <= p < |s.procs| ==> One(s, p))
    && (forall p, q :: 0 <= p < |s.procs| && 0 <= q < |s.procs| ==> Two(s, p, q))
  }

  lemma Facts(s: Sys, p: nat, q: nat)
    requires Inv(s) && p < |s.procs| && q < |s.procs|
    ensures s.init < |s.procs| && (s.waitLock.Some? ==> s.waitLock.v < |s.procs| && One(s, s.waitLock.v))
    ensures One(s, p) && One(s, q) && Two(s, p, q) && Two(s, q, p) && Two(s, p, p) && Two(s, q, q)
  {
    hide One, Two;
  }

  // All pairs among four processes.
  lemma Facts4(s: Sys, x: nat, y: nat, p: nat, t: nat)
    requires Inv(s) && x < |s.procs| && y < |s.procs| && p < |s.procs| && t < |s.procs|
    ensures s.init < |s.procs| && (s.waitLock.Some? ==> s.waitLock.v < |s.procs| && One(s, s.waitLock.v))
    ensures One(s, x) && One(s, y) && One(s, p) && One(s, t)
    ensures Two(s, x, y) && Two(s, y, x) && Two(s, x, p) && Two(s, p, x) && Two(s, y, p) && Two(s, p, y)
    ensures Two(s, x, t) && Two(s, t, x) && Two(s, y, t) && Two(s, t, y) && Two(s, p, t) && Two(s, t, p)
    ensures Two(s, x, x) && Two(s, y, y) && Two(s, p, p) && Two(s, t, t)
  {
    hide One, Two;
  }

  lemma ResumeKeeps(s: Sys, p: nat, x: nat, y: nat)
    requires Inv(s) && p < |s.procs| && x < |s.procs| && y < |s.procs|
    requires s.procs[p].lock == None && s.procs[p].state == Runnable && s.procs[p].pc != Asleep
    ensures var s' := Put(s, p, s.procs[p].(state := Running, chan := NoChan));
      One(s', x) && Two(s', x, y)
  {
    hide Inv;
    Facts4(s, x, y, p, p);
  }

  lemma WakeUpKeeps(s: Sys, p: nat, x: nat, y: nat)
    requires Inv(s) && p < |s.procs| && x < |s.procs| && y < |s.procs|
    requires s.procs[p].lock == None && s.procs[p].state == Runnable && s.procs[p].pc == Asleep
    ensures var s' := Put(s, p, s.procs[p].(state := Running, chan := NoChan, pc := Retry));
      One(s', x) && Two(s', x, y)
  {
    hide Inv;
    Facts4(s, x, y, p, p);
  }

  lemma YieldKeeps(s: Sys, p: nat, x: nat, y: nat)
    requires Inv(s) && p < |s.procs| && x < |s.procs| && y < |s.procs|
    requires s.procs[p].lock == None && s.procs[p].state == Running
    requires s.procs[p].pc == User || s.procs[p].pc.Fork1? || s.procs[p].pc.Fork2? || s.procs[p].pc == Retry
    ensures var s' := Put(s, p, s.procs[p].(state := Runnable));
      One(s', x) && Two(s', x, y)
  {
    hide Inv;
    Facts4(s, x, y, p, p);
  }

  lemma SleepOtherKeeps(s: Sys, p: nat, x: nat, y: nat)
    requires Inv(s) && p < |s.procs| && x < |s.procs| && y < |s.procs|
    requires s.procs[p].lock == None && s.procs[p].state == Running && s.procs[p].pc == User
    ensures var s' := Put(s, p, s.procs[p].(state := Sleeping, chan := Other));
      One(s', x) && Two(s', x, y)
  {
    hide Inv;
    Facts4(s, x, y, p, p);
  }

  lemma WakeSleeperKeeps(s: Sys, p: nat, k: bool, x: nat, y: nat)
    requires Inv(s) && p < |s.procs| && x < |s.procs| && y < |s.procs|
    requires s.procs[p].lock == None && s.procs[p].state == Sleeping
    ensures var s' := Put(s, p, s.procs[p].(state := Runnable, killed := k));
      One(s', x) && Two(s', x, y)
  {
    hide Inv;
    Facts4(s, x, y, p, p);
  }

  lemma KillOnlyKeeps(s: Sys, p: nat, x: nat, y: nat)
    requires Inv(s) && p < |s.procs| && x < |s.procs| && y < |s.procs|
    ensures var s' := Put(s, p, s.procs[p].(killed := true));
      One(s', x) && Two(s', x, y)
  {
    hide Inv;
    Facts4(s, x, y, p, p);
  }

  lemma ExitStartKeeps(s: Sys, p: nat, st: int, x: nat, y: nat)
    requires Inv(s) && p < |s.procs| && x < |s.procs| && y < |s.procs|
    requires s.procs[p].state == Running && s.procs[p].pc == User && p != s.init && s.waitLock == None
    ensures var s' := Put(s.(waitLock := Some(p)), p, s.procs[p].(status := st, pc := Reparent(0)));
      One(s', x) && Two(s', x, y)
  {
    hide Inv;
    Facts4(s, x, y, p, p);
  }

  lemma WaitStartKeeps(s: Sys, p: nat, x: nat, y: nat)
    requires Inv(s) && p < |s.procs| && x < |s.procs| && y < |s.procs|
    requires s.procs[p].state == Running && (s.procs[p].pc == User || s.procs[p].pc == Retry) && s.waitLock == None
    ensures var s' := SetPc(s.(waitLock := Some(p)), p, Scan(0, false));
      One(s', x) && Two(s', x, y)
  {
    hide Inv;
    Facts4(s, x, y, p, p);
  }

  lemma CopyFailsKeeps(s: Sys, p: nat, r: int, st: int, x: nat, y: nat)
    requires Inv(s) && p < |s.procs| && x < |s.procs| && y < |s.procs|
    requires s.procs[p].pc.Scan?
    ensures var s' := SetPc(s, p, Reaped(r, st));
      One(s', x) && Two(s', x, y)
  {
    hide Inv;
    Facts4(s, x, y, p, p);
  }

  lemma ForkStartKeeps(s: Sys, p: nat, np: nat, x: nat, y: nat)
    requires Inv(s) && p < |s.procs| && x < |s.procs| && y < |s.procs|
    requires s.procs[p].state == Running && s.procs[p].pc == User && Free(s, np) && s.procs[np].state == Unused
    ensures var s1 := Put(s, np, s.procs[np].(state := Used, lock := Some(p), pid := s.nextpid));
      var s' := SetPc(s1.(nextpid := s.nextpid + 1), p, Fork0(np));
      One(s', x) && Two(s', x, y)
  {
    hide Inv;
    Facts4(s, x, y, p, np);
  }

  lemma ForkFailKeeps(s: Sys, p: nat, np: nat, x: nat, y: nat)
    requires Inv(s) && p < |s.procs| && x < |s.procs| && y < |s.procs|
    requires s.procs[p].pc == Fork0(np) && np < |s.procs|
    ensures var s' := SetPc(Put(s, np, FreeProc(s.procs[np]).(lock := None)), p, User);
      One(s', x) && Two(s', x, y)
  {
    hide Inv;
    Facts4(s, x, y, p, np);
  }

  lemma ForkGoKeeps(s: Sys, p: nat, np: nat, x: nat, y: nat)
    requires Inv(s) && p < |s.procs| && x < |s.procs| && y < |s.procs|
    requires s.procs[p].pc == Fork0(np) && np < |s.procs|
    ensures var s' := SetPc(Put(s, np, s.procs[np].(lock := None)), p, Fork1(np));
      One(s', x) && Two(s', x, y)
  {
    hide Inv;
    Facts4(s, x, y, p, np);
  }

  lemma ForkLinkKeeps(s: Sys, p: nat, np: nat, x: nat, y: nat)
    requires Inv(s) && p < |s.procs| && x < |s.procs| && y < |s.procs|
    requires s.procs[p].pc == Fork1(np) && np < |s.procs| && s.waitLock == None
    ensures var s' := SetPc(Put(s, np, s.procs[np].(parent := Some(p))), p, Fork2(np));
      One(s', x) && Two(s', x, y)
  {
    hide Inv;
    Facts4(s, x, y, p, np);
  }

  lemma ForkRunKeeps(s: Sys, p: nat, np: nat, x: nat, y: nat)
    requires Inv(s) && p < |s.procs| && x < |s.procs| && y < |s.procs|
    requires s.procs[p].pc == Fork2(np) && Free(s, np)
    ensures var s' := SetPc(Put(s, np, s.procs[np].(state := Runnable)), p, User);
      One(s', x) && Two(s', x, y)
  {
    hide Inv;
    Facts4(s, x, y, p, np);
  }

  lemma ReparentDoneKeeps(s: Sys, p: nat, x: nat, y: nat)
    requires Inv(s) && p < |s.procs| && x < |s.procs| && y < |s.procs|
    requires s.procs[p].pc.Reparent? && s.procs[p].pc.i >= |s.procs|
    ensures var s' := SetPc(s, p, Wake(0));
      One(s', x) && Two(s', x, y)
  {
    hide Inv;
    Facts4(s, x, y, p, p);
  }

  lemma ReparentSkipKeeps(s: Sys, p: nat, i: nat, x: nat, y: nat)
    requires Inv(s) && p < |s.procs| && x < |s.procs| && y < |s.procs|
    requires s.procs[p].pc == Reparent(i) && i < |s.procs| && s.procs[i].parent != Some(p)
    ensures var s' := SetPc(s, p, Reparent(i + 1));
      One(s', x) && Two(s', x, y)
  {
    hide Inv;
    Facts4(s, x, y, p, i);
  }

  lemma ReparentChildOne(s: Sys, p: nat, i: nat, x: nat, y: nat)
    requires Inv(s) && p < |s.procs| && x < |s.procs| && y < |s.procs|
    requires s.procs[p].pc == Reparent(i) && i < |s.procs| && s.procs[i].parent == Some(p)
    ensures var s' := SetPc(Put(s, i, s.procs[i].(parent := Some(s.init))), p, WakeInit(i, 0));
      One(s', x)
  {
    hide Inv;
    Facts(s, p, i);
    Facts(s, s.init, i);
    Facts4(s, x, y, p, i);
  }

  lemma ReparentChildTwo(s: Sys, p: nat, i: nat, x: nat, y: nat)
    requires Inv(s) && p < |s.procs| && x < |s.procs| && y < |s.procs|
    requires s.procs[p].pc == Reparent(i) && i < |s.procs| && s.procs[i].parent == Some(p)
    ensures var s' := SetPc(Put(s, i, s.procs[i].(parent := Some(s.init))), p, WakeInit(i, 0));
      Two(s', x, y)
  {
    hide Inv;
    Facts(s, p, i);
    Facts(s, s.init, i);
    Facts4(s, x, y, p, i);
  }

  lemma WokenInitKeeps(s: Sys, p: nat, i: nat, j: nat, x: nat, y: nat)
    requires Inv(s) && p < |s.procs| && x < |s.procs| && y < |s.procs|
    requires s.procs[p].pc == WakeInit(i, j) && j >= |s.procs|
    ensures var s' := SetPc(s, p, Reparent(i + 1));
      One(s', x) && Two(s', x, y)
  {
    hide Inv;
    Facts4(s, x, y, p, p);
  }

  lemma WakeInitKeeps(s: Sys, p: nat, i: nat, j: nat, x: nat, y: nat)
    requires Inv(s) && p < |s.procs| && x < |s.procs| && y < |s.procs|
    requires s.procs[p].pc == WakeInit(i, j) && j < |s.procs| && (j == s.init ==> !Dozing(s.procs[j]))
    ensures var s' := SetPc(s, p, WakeInit(i, j + 1));
      One(s', x) && Two(s', x, y)
  {
    hide Inv;
    Facts4(s, x, y, p, j);
  }

  lemma WakeKeeps(s: Sys, p: nat, j: nat, x: nat, y: nat)
    requires Inv(s) && p < |s.procs| && x < |s.procs| && y < |s.procs|
    requires s.procs[p].pc == Wake(j) && j < |s.procs| && (s.procs[p].parent == Some(j) ==> !Dozing(s.procs[j]))
    ensures var s' := SetPc(s, p, Wake(j + 1));
      One(s', x) && Two(s', x, y)
  {
    hide Inv;
    Facts4(s, x, y, p, j);
  }

  lemma WokenParentKeeps(s: Sys, p: nat, j: nat, x: nat, y: nat)
    requires Inv(s) && p < |s.procs| && x < |s.procs| && y < |s.procs|
    requires s.procs[p].pc == Wake(j) && j >= |s.procs| && Free(s, p)
    ensures var s' := Put(s, p, s.procs[p].(lock := Some(p), pc := Locked));
      One(s', x) && Two(s', x, y)
  {
    hide Inv;
    Facts4(s, x, y, p, p);
  }

  lemma ZombieKeeps(s: Sys, p: nat, x: nat, y: nat)
    requires Inv(s) && p < |s.procs| && x < |s.procs| && y < |s.procs|
    requires s.procs[p].pc == Locked
    ensures var s' := Put(s, p, s.procs[p].(xstate := s.procs[p].status, state := Zombie, pc := Zombied));
      One(s', x) && Two(s', x, y)
  {
    hide Inv;
    Facts4(s, x, y, p, p);
  }

  lemma UnlockKeeps(s: Sys, p: nat, x: nat, y: nat)
    requires Inv(s) && p < |s.procs| && x < |s.procs| && y < |s.procs|
    requires s.procs[p].pc == Zombied
    ensures var s' := SetPc(s.(waitLock := None), p, Leaving);
      One(s', x) && Two(s', x, y)
  {
    hide Inv;
    Facts4(s, x, y, p, p);
  }

  lemma LeaveKeeps(s: Sys, p: nat, x: nat, y: nat)
    requires Inv(s) && p < |s.procs| && x < |s.procs| && y < |s.procs|
    requires s.procs[p].pc == Leaving
    ensures var s' := Put(s, p, s.procs[p].(lock := None, pc := Dead));
      One(s', x) && Two(s', x, y)
  {
    hide Inv;
    Facts4(s, x, y, p, p);
  }

  lemma ScanSkipKeeps(s: Sys, p: nat, i: nat, kids: bool, x: nat, y: nat)
    requires Inv(s) && p < |s.procs| && x < |s.procs| && y < |s.procs|
    requires s.procs[p].pc == Scan(i, kids) && i < |s.procs| && s.procs[i].parent != Some(p)
    ensures var s' := SetPc(s, p, Scan(i + 1, kids));
      One(s', x) && Two(s', x, y)
  {
    hide Inv;
    Facts4(s, x, y, p, i);
  }

  lemma ScanKidKeeps(s: Sys, p: nat, i: nat, kids: bool, x: nat, y: nat)
    requires Inv(s) && p < |s.procs| && x < |s.procs| && y < |s.procs|
    requires s.procs[p].pc == Scan(i, kids) && i < |s.procs| && s.procs[i].parent == Some(p) && s.procs[i].state != Zombie
    ensures var s' := SetPc(s, p, Scan(i + 1, true));
      One(s', x) && Two(s', x, y)
  {
    hide Inv;
    Facts4(s, x, y, p, i);
  }

  lemma ReapOne(s: Sys, p: nat, i: nat, r: int, st: int, x: nat, y: nat)
    requires Inv(s) && p < |s.procs| && x < |s.procs| && y < |s.procs|
    requires s.procs[p].pc.Scan? && i < |s.procs| && s.procs[i].parent == Some(p) && Free(s, i) && s.procs[i].state == Zombie
    ensures var s' := SetPc(Put(s, i, FreeProc(s.procs[i])), p, Reaped(r, st));
      One(s', x)
  {
    hide Inv;
    Facts4(s, x, y, p, i);
  }

  lemma ReapTwo(s: Sys, p: nat, i: nat, r: int, st: int, x: nat, y: nat)
    requires Inv(s) && p < |s.procs| && x < |s.procs| && y < |s.procs|
    requires s.procs[p].pc.Scan? && i < |s.procs| && s.procs[i].parent == Some(p) && Free(s, i) && s.procs[i].state == Zombie
    ensures var s' := SetPc(Put(s, i, FreeProc(s.procs[i])), p, Reaped(r, st));
      Two(s', x, y)
  {
    hide Inv;
    Facts4(s, x, y, p, i);
  }

  lemma WaitReturnKeeps(s: Sys, p: nat, r: int, st: int, x: nat, y: nat)
    requires Inv(s) && p < |s.procs| && x < |s.procs| && y < |s.procs|
    requires s.procs[p].pc.Scan? || s.procs[p].pc.Reaped?
    ensures var s' := Put(s.(waitLock := None), p, s.procs[p].(ret := r, got := st, pc := User));
      One(s', x) && Two(s', x, y)
  {
    hide Inv;
    Facts4(s, x, y, p, p);
  }

  lemma CheckedKeeps(s: Sys, p: nat, i: nat, x: nat, y: nat)
    requires Inv(s) && p < |s.procs| && x < |s.procs| && y < |s.procs|
    requires s.procs[p].pc == Scan(i, true) && i >= |s.procs|
    ensures var s' := SetPc(s, p, Checked);
      One(s', x) && Two(s', x, y)
  {
    hide Inv;
    Facts4(s, x, y, p, p);
  }

  lemma Sleep1Keeps(s: Sys, p: nat, x: nat, y: nat)
    requires Inv(s) && p < |s.procs| && x < |s.procs| && y < |s.procs|
    requires s.procs[p].pc == Checked && Free(s, p)
    ensures var s' := Put(s, p, s.procs[p].(lock := Some(p), pc := Sleep1));
      One(s', x) && Two(s', x, y)
  {
    hide Inv;
    Facts4(s, x, y, p, p);
  }

  lemma Sleep2Keeps(s: Sys, p: nat, x: nat, y: nat)
    requires Inv(s) && p < |s.procs| && x < |s.procs| && y < |s.procs|
    requires s.procs[p].pc == Sleep1
    ensures var s' := SetPc(s.(waitLock := None), p, Sleep2);
      One(s', x) && Two(s', x, y)
  {
    hide Inv;
    Facts4(s, x, y, p, p);
  }

  lemma FallAsleepKeeps(s: Sys, p: nat, x: nat, y: nat)
    requires Inv(s) && p < |s.procs| && x < |s.procs| && y < |s.procs|
    requires s.procs[p].pc == Sleep2
    ensures var s' := Put(s, p, s.procs[p].(chan := OfProc(p), state := Sleeping, lock := None, pc := Asleep));
      One(s', x) && Two(s', x, y)
  {
    hide Inv;
    Facts4(s, x, y, p, p);
  }

  // ---------- every step keeps the invariant ----------

  lemma FromPairs(s: Sys)
    requires s.init < |s.procs| && (s.waitLock.Some? ==> s.waitLock.v < |s.procs|)
    requires forall x, y :: 0 <= x < |s.procs| && 0 <= y < |s.procs| ==> Both(s, x, y)
    ensures Inv(s)
  {
    hide One, Two;
    forall x | 0 <= x < |s.procs| ensures One(s, x) { assert Both(s, x, x); }
    forall x, y | 0 <= x < |s.procs| && 0 <= y < |s.procs| ensures Two(s, x, y) { assert Both(s, x, y); }
  }

  predicate Both(s: Sys, x: nat, y: nat)
    requires x < |s.procs| && y < |s.procs|
  {
    One(s, x) && Two(s, x, y)
  }

  // After its iteration of the loop, process j is not asleep on chan.
  lemma WakeOneKeeps(s: Sys, p: nat, j: nat, chan: Chan)
    requires Inv(s) && j < |s.procs| && p < |s.procs| && (j == p || Free(s, j))
    ensures Inv(WakeOne(s, p, j, chan)) && (j != p && chan == OfProc(j) ==> !Dozing(WakeOne(s, p, j, chan).procs[j]))
    ensures WakeOne(s, p, j, chan).procs[p] == s.procs[p]
  {
    hide Inv, One, Two;
    Bounds(s);
    NotHeld(s, j);
    var s' := WakeOne(s, p, j, chan);
    if j != p && s.procs[j].state == Sleeping && s.procs[j].chan == chan {
      forall x, y | 0 <= x < |s'.procs| && 0 <= y < |s'.procs| ensures Both(s', x, y) {
        WakeSleeperKeeps(s, j, s.procs[j].killed, x, y);
      }
      FromPairs(s');
    }
  }

  lemma Bounds(s: Sys)
    requires Inv(s)
    ensures s.init < |s.procs| && (s.waitLock.Some? ==> s.waitLock.v < |s.procs|)
  {
    hide One, Two;
  }

  // A process that is dozing and whose lock is free is asleep on itself.
  lemma NotHeld(s: Sys, j: nat)
    requires Inv(s) && j < |s.procs|
    ensures s.procs[j].lock == None && Dozing(s.procs[j]) ==> s.procs[j].state == Sleeping && s.procs[j].chan == OfProc(j)
    ensures s.procs[j].state == Sleeping ==> s.procs[j].pc != Sleep1 && s.procs[j].pc != Sleep2
  {
    hide Inv;
    Facts(s, j, j);
  }

  // The steps other than Advance.
  lemma OtherPair(s: Sys, a: Action, x: nat, y: nat)
    requires Inv(s) && Guard(s, a) && !a.Advance? && x < |s.procs| && y < |s.procs|
    ensures var s' := Apply(s, a); |s'.procs| == |s.procs| && One(s', x) && Two(s', x, y)
  {
    hide Inv, One, Two;
    var p := a.p;
    match a
    case Schedule(_) => if s.procs[p].pc == Asleep { WakeUpKeeps(s, p, x, y); } else { ResumeKeeps(s, p, x, y); }
    case Yield(_) => YieldKeeps(s, p, x, y);
    case SleepOther(_) => SleepOtherKeeps(s, p, x, y);
    case WakeOther(_) => WakeSleeperKeeps(s, p, s.procs[p].killed, x, y);
    case Kill(_) => if s.procs[p].state == Sleeping { WakeSleeperKeeps(s, p, true, x, y); } else { KillOnlyKeeps(s, p, x, y); }
    case ForkStart(_, np) => ForkStartKeeps(s, p, np, x, y);
    case ForkFail(_) => ForkInBounds(s, p); ForkFailKeeps(s, p, s.procs[p].pc.np, x, y);
    case ExitStart(_, st) => ExitStartKeeps(s, p, st, x, y);
    case WaitStart(_) => WaitStartKeeps(s, p, x, y);
    case CopyFails(_) => CopyFailsKeeps(s, p, -1, s.procs[p].got, x, y);
  }

  lemma ForkInBounds(s: Sys, p: nat)
    requires Inv(s) && p < |s.procs|
    ensures Forks(s.procs[p].pc) ==> s.procs[p].pc.np < |s.procs|
  {
    hide Inv;
    Facts(s, p, p);
  }

  // The steps of fork and wait.
  lemma ForkWaitPair(s: Sys, p: nat, x: nat, y: nat)
    requires Inv(s) && Guard(s, Advance(p)) && !HoldsWait(s.procs[p].pc) && x < |s.procs| && y < |s.procs|
    ensures var s' := AdvanceOf(s, p); |s'.procs| == |s.procs| && One(s', x) && Two(s', x, y)
  {
    hide Inv, One, Two;
    ForkInBounds(s, p);
    Facts(s, x, y);
    match s.procs[p].pc
    case Fork0(np) => ForkGoKeeps(s, p, np, x, y);
    case Fork1(np) => ForkLinkKeeps(s, p, np, x, y);
    case Fork2(np) => ForkRunKeeps(s, p, np, x, y);
    case Leaving => LeaveKeeps(s, p, x, y);
    case Sleep2 => FallAsleepKeeps(s, p, x, y);
    case Retry => RunningRetry(s, p); WaitStartKeeps(s, p, x, y);
    case _ =>
  }

  lemma RunningRetry(s: Sys, p: nat)
    requires Inv(s) && Guard(s, Advance(p)) && s.procs[p].pc == Retry
    ensures s.procs[p].state == Running
  {
  }

  // The steps of a process that holds wait_lock, other than in wakeup.
  lemma HolderPair(s: Sys, p: nat, x: nat, y: nat)
    requires Inv(s) && Guard(s, Advance(p)) && HoldsWait(s.procs[p].pc) && x < |s.procs| && y < |s.procs|
    requires !s.procs[p].pc.WakeInit? && !s.procs[p].pc.Wake?
    ensures var s' := AdvanceOf(s, p); |s'.procs| == |s.procs| && One(s', x) && Two(s', x, y)
  {
    hide Inv, One, Two;
    match s.procs[p].pc
    case Reparent(i) =>
      if i >= |s.procs| { ReparentDoneKeeps(s, p, x, y); }
      else if s.procs[i].parent == Some(p) { ReparentChildOne(s, p, i, x, y); ReparentChildTwo(s, p, i, x, y); }
      else { ReparentSkipKeeps(s, p, i, x, y); }
    case Locked => ZombieKeeps(s, p, x, y);
    case Zombied => UnlockKeeps(s, p, x, y);
    case Scan(i, kids) => ScanPair(s, p, i, kids, x, y);
    case Reaped(r, st) => WaitReturnKeeps(s, p, r, st, x, y);
    case Checked => Sleep1Keeps(s, p, x, y);
    case Sleep1 => Sleep2Keeps(s, p, x, y);
    case _ =>
  }

  lemma ScanPair(s: Sys, p: nat, i: nat, kids: bool, x: nat, y: nat)
    requires Inv(s) && Guard(s, Advance(p)) && s.procs[p].pc == Scan(i, kids) && x < |s.procs| && y < |s.procs|
    ensures var s' := AdvanceOf(s, p); |s'.procs| == |s.procs| && One(s', x) && Two(s', x, y)
  {
    hide Inv, One, Two;
    if i >= |s.procs| {
      if !kids || s.procs[p].killed { WaitReturnKeeps(s, p, -1, s.procs[p].got, x, y); } else { CheckedKeeps(s, p, i, x, y); }
    } else if s.procs[i].parent != Some(p) {
      ScanSkipKeeps(s, p, i, kids, x, y);
    } else if s.procs[i].state != Zombie {
      ScanKidKeeps(s, p, i, kids, x, y);
    } else {
      ReapOne(s, p, i, s.procs[i].pid, s.procs[i].xstate, x, y);
      ReapTwo(s, p, i, s.procs[i].pid, s.procs[i].xstate, x, y);
    }
  }

  lemma ParentOfExiting(s: Sys, p: nat)
    requires Inv(s) && p < |s.procs| && Exits(s.procs[p].pc)
    ensures p != s.init && s.procs[p].parent.Some? && s.procs[p].parent.v != p && s.procs[p].state == Running
  {
    hide Inv;
    Facts(s, p, p);
  }

  lemma WakeInitPair(s: Sys, p: nat, i: nat, j: nat, x: nat, y: nat)
    requires Inv(s) && Guard(s, Advance(p)) && s.procs[p].pc == WakeInit(i, j) && x < |s.procs| && y < |s.procs|
    ensures var s' := AdvanceOf(s, p); |s'.procs| == |s.procs| && One(s', x) && Two(s', x, y)
  {
    hide Inv, One, Two, Dozing;
    ParentOfExiting(s, p);
    if j >= |s.procs| {
      WokenInitKeeps(s, p, i, j, x, y);
    } else {
      WakeOneKeeps(s, p, j, OfProc(s.init));
      WakeInitKeeps(WakeOne(s, p, j, OfProc(s.init)), p, i, j, x, y);
    }
  }

  lemma WakePair(s: Sys, p: nat, j: nat, x: nat, y: nat)
    requires Inv(s) && Guard(s, Advance(p)) && s.procs[p].pc == Wake(j) && x < |s.procs| && y < |s.procs|
    ensures var s' := AdvanceOf(s, p); |s'.procs| == |s.procs| && One(s', x) && Two(s', x, y)
  {
    hide Inv, One, Two, Dozing;
    ParentOfExiting(s, p);
    if j >= |s.procs| {
      WokenParentKeeps(s, p, j, x, y);
    } else {
      WakeOneKeeps(s, p, j, ParentChan(s.procs[p]));
      WakeKeeps(WakeOne(s, p, j, ParentChan(s.procs[p])), p, j, x, y);
    }
  }

  lemma StepPair(s: Sys, a: Action, x: nat, y: nat)
    requires Inv(s) && Guard(s, a) && x < |s.procs| && y < |s.procs|
    ensures var s' := Apply(s, a); |s'.procs| == |s.procs| && One(s', x) && Two(s', x, y)
  {
    hide Inv, One, Two, AdvanceOf, Unblocked;
    if a.Advance? {
      var pc := s.procs[a.p].pc;
      if pc.WakeInit? { WakeInitPair(s, a.p, pc.i, pc.j, x, y); }
      else if pc.Wake? { WakePair(s, a.p, pc.j, x, y); }
      else if HoldsWait(pc) { HolderPair(s, a.p, x, y); }
      else { ForkWaitPair(s, a.p, x, y); }
    } else {
      OtherPair(s, a, x, y);
    }
  }

  lemma SameTable(s: Sys, a: Action)
    requires Guard(s, a)
    ensures |Apply(s, a).procs| == |s.procs| && Apply(s, a).init == s.init
    ensures Apply(s, a).waitLock == s.waitLock || Apply(s, a).waitLock == None || Apply(s, a).waitLock == Some(a.p)
  {
  }

  // No step of any process breaks the invariant.
  lemma StepKeeps(s: Sys, a: Action)
    requires Inv(s) && Guard(s, a)
    ensures Inv(Apply(s, a))
  {
    hide Inv, One, Two, Apply;
    Bounds(s);
    SameTable(s, a);
    var s' := Apply(s, a);
    forall x, y | 0 <= x < |s'.procs| && 0 <= y < |s'.procs| ensures Both(s', x, y) {
      StepPair(s, a, x, y);
    }
    FromPairs(s');
  }

  // ---------- whole runs ----------

  // userinit: one process.
  predicate Boot(s: Sys) {
    && s.init < |s.procs| && s.waitLock == None
    && s.procs[s.init].pid < s.nextpid
    && forall p :: 0 <= p < |s.procs| ==>
         && s.procs[p].pc == User && s.procs[p].lock == None && s.procs[p].parent == None && !s.procs[p].killed
         && s.procs[p].state == if p == s.init then Runnable else Unused
  }

  ghost predicate Run(tr: seq<Sys>, acts: seq<Action>) {
    && |tr| == |acts| + 1 && Boot(tr[0])
    && forall i :: 0 <= i < |acts| ==> Guard(tr[i], acts[i]) && tr[i + 1] == Apply(tr[i], acts[i])
  }

  // There is such a state for every size of the table.
  lemma BootRun(n: nat) returns (s: Sys)
    requires n > 0
    ensures |s.procs| == n && Run([s], [])
  {
    var q := Proc(Unused, None, NoChan, None, false, 0, 0, 0, 0, 0, User);
    s := Sys(seq(n, _ => q)[0 := q.(state := Runnable, pid := 1)], None, 0, 2);
  }

  lemma BootInv(s: Sys)
    requires Boot(s)
    ensures Inv(s)
  {
  }

  lemma {:induction false} RunInv(tr: seq<Sys>, acts: seq<Action>, k: nat)
    requires Run(tr, acts) && k < |tr|
    ensures Inv(tr[k])
  {
    hide Inv, Guard, Apply;
    if k == 0 { BootInv(tr[0]); } else { RunInv(tr, acts, k - 1); StepKeeps(tr[k - 1], acts[k - 1]); }
  }

  // No live process and no zombie has a dead parent: it can always be waited
  // for.
  lemma ParentsLive(tr: seq<Sys>, acts: seq<Action>, k: nat, q: nat)
    requires Run(tr, acts) && k < |tr| && q < |tr[k].procs|
    ensures tr[k].procs[q].parent.Some? ==>
      tr[k].procs[q].parent.v < |tr[k].procs| && Live(tr[k].procs[tr[k].procs[q].parent.v])
    ensures (Live(tr[k].procs[q]) || tr[k].procs[q].state == Zombie) && q != tr[k].init ==> tr[k].procs[q].parent.Some?
  {
    hide Run;
    RunInv(tr, acts, k);
    hide Inv;
    Facts(tr[k], q, q);
    if tr[k].procs[q].parent.Some? { Facts(tr[k], tr[k].procs[q].parent.v, q); }
  }

  // No lost wakeup: while wait_lock is free, a process asleep in wait has no
  // zombie child.
  lemma NoLostWakeup(tr: seq<Sys>, acts: seq<Action>, k: nat, p: nat, c: nat)
    requires Run(tr, acts) && k < |tr| && p < |tr[k].procs| && c < |tr[k].procs|
    requires tr[k].waitLock == None && tr[k].procs[p].state == Sleeping && tr[k].procs[p].pc == Asleep
    requires tr[k].procs[c].parent == Some(p)
    ensures tr[k].procs[c].state != Zombie
  {
    hide Run;
    RunInv(tr, acts, k);
    hide Inv;
    Facts(tr[k], p, c);
  }

  // A zombie keeps its pid and status until it is freed, which only a step of
  // its current parent's wait does, and only when it has left its stack.
  lemma ReapedByParent(tr: seq<Sys>, acts: seq<Action>, k: nat, c: nat)
    requires Run(tr, acts) && k < |acts| && c < |tr[k].procs| && tr[k].procs[c].state == Zombie
    ensures c < |tr[k + 1].procs|
    ensures var q, q' := tr[k].procs[c], tr[k + 1].procs[c];
      || (q'.state == Zombie && q'.pid == q.pid && q'.xstate == q.xstate && q'.parent.Some?)
      || (q'.state == Unused && q.pc == Dead && acts[k].Advance? && q.parent == Some(acts[k].p) &&
          acts[k].p < |tr[k].procs| && tr[k].procs[acts[k].p].pc.Scan?)
  {
    hide Run;
    Length(tr, acts);
    RunInv(tr, acts, k);
    RunStep(tr, acts, k);
    hide Inv;
    SameTable(tr[k], acts[k]);
    StillParent(tr, acts, k, c);
    ZombieStep(tr[k], acts[k], c);
  }

  lemma Length(tr: seq<Sys>, acts: seq<Action>)
    requires Run(tr, acts)
    ensures |tr| == |acts| + 1
  {
  }

  lemma RunStep(tr: seq<Sys>, acts: seq<Action>, k: nat)
    requires Run(tr, acts) && k < |acts|
    ensures Guard(tr[k], acts[k]) && tr[k + 1] == Apply(tr[k], acts[k])
  {
    hide Guard, Apply;
  }

  lemma StillParent(tr: seq<Sys>, acts: seq<Action>, k: nat, c: nat)
    requires Run(tr, acts) && k < |acts| && c < |tr[k + 1].procs|
    ensures tr[k + 1].procs[c].state == Zombie ==> tr[k + 1].procs[c].parent.Some?
  {
    hide Run;
    Length(tr, acts);
    RunInv(tr, acts, k + 1);
    hide Inv;
    Facts(tr[k + 1], c, c);
  }

  lemma ZombieStep(s: Sys, a: Action, c: nat)
    requires Inv(s) && Guard(s, a) && c < |s.procs| && s.procs[c].state == Zombie && c < |Apply(s, a).procs|
    ensures var q, q' := s.procs[c], Apply(s, a).procs[c];
      || (q'.state == Zombie && q'.pid == q.pid && q'.xstate == q.xstate)
      || (q'.state == Unused && q.pc == Dead && a.Advance? && q.parent == Some(a.p) && s.procs[a.p].pc.Scan?)
  {
    hide Inv, AdvanceOf, One, Two, Unblocked;
    if a.Advance? { ZombieAdvance(s, a.p, c); } else { ZombieOther(s, a, c); }
  }

  lemma ZombieOther(s: Sys, a: Action, c: nat)
    requires Inv(s) && Guard(s, a) && !a.Advance? && c < |s.procs| && s.procs[c].state == Zombie && c < |Apply(s, a).procs|
    ensures var q, q' := s.procs[c], Apply(s, a).procs[c]; q'.state == Zombie && q'.pid == q.pid && q'.xstate == q.xstate
  {
    hide Inv, AdvanceOf;
    Facts(s, a.p, c);
  }

  lemma ZombieAdvance(s: Sys, p: nat, c: nat)
    requires Inv(s) && Guard(s, Advance(p)) && c < |s.procs| && s.procs[c].state == Zombie && c < |AdvanceOf(s, p).procs|
    ensures var q, q' := s.procs[c], AdvanceOf(s, p).procs[c];
      || (q'.state == Zombie && q'.pid == q.pid && q'.xstate == q.xstate)
      || (q'.state == Unused && q.pc == Dead && q.parent == Some(p) && s.procs[p].pc.Scan?)
  {
    hide Inv, One, Two, AdvanceOf;
    ZombieFacts(s, p, c);
    if s.procs[p].pc.Scan? { ZombieScan(s, p, c); } else { ZombieRest(s, p, c); }
  }

  lemma ZombieScan(s: Sys, p: nat, c: nat)
    requires Guard(s, Advance(p)) && s.procs[p].pc.Scan? && c < |s.procs| && s.procs[c].state == Zombie && c != p
    requires s.procs[c].lock == None ==> s.procs[c].pc == Dead
    ensures c < |AdvanceOf(s, p).procs|
    ensures var q, q' := s.procs[c], AdvanceOf(s, p).procs[c];
      || (q'.state == Zombie && q'.pid == q.pid && q'.xstate == q.xstate)
      || (q'.state == Unused && q.pc == Dead && q.parent == Some(p))
  {
  }

  lemma ZombieRest(s: Sys, p: nat, c: nat)
    requires p < |s.procs| && Unblocked(s, p) && !s.procs[p].pc.Scan? && c < |s.procs| && s.procs[c].state == Zombie
    requires Forks(s.procs[p].pc) ==> s.procs[p].pc.np != c
    requires c == p ==> s.procs[p].pc == Zombied || s.procs[p].pc == Leaving || s.procs[p].pc == Dead
    ensures c < |AdvanceOf(s, p).procs|
    ensures var q, q' := s.procs[c], AdvanceOf(s, p).procs[c]; q'.state == Zombie && q'.pid == q.pid && q'.xstate == q.xstate
  {
  }

  lemma ZombieFacts(s: Sys, p: nat, c: nat)
    requires Inv(s) && p < |s.procs| && c < |s.procs| && s.procs[c].state == Zombie
    ensures Forks(s.procs[p].pc) ==> s.procs[p].pc.np != c
    ensures c == p ==> s.procs[p].pc == Zombied || s.procs[p].pc == Leaving || s.procs[p].pc == Dead
    ensures s.procs[c].lock == None ==> s.procs[c].pc == Dead
  {
    hide Inv;
    Facts(s, p, c);
  }

  // Processes that exist have different pids.
  ghost predicate Pids(s: Sys) {
    && (forall p :: 0 <= p < |s.procs| && s.procs[p].state != Unused ==> s.procs[p].pid < s.nextpid)
    && (forall p, q :: 0 <= p < q < |s.procs| && s.procs[p].state != Unused && s.procs[q].state != Unused ==>
          s.procs[p].pid != s.procs[q].pid)
  }

  // Only fork makes a process exist, with the next pid.
  ghost predicate PidFrom(s: Sys, s': Sys, a: Action, c: nat) {
    c < |s.procs| && c < |s'.procs| &&
    (s'.procs[c].state != Unused ==>
       || (s.procs[c].state != Unused && s'.procs[c].pid == s.procs[c].pid)
       || (a.ForkStart? && c == a.np && s'.procs[c].pid == s.nextpid))
  }

  lemma PidOther(s: Sys, a: Action, c: nat)
    requires Guard(s, a) && !a.Advance? && c < |s.procs| && c < |Apply(s, a).procs|
    ensures PidFrom(s, Apply(s, a), a, c)
  {
    hide AdvanceOf;
  }

  lemma PidAdvance(s: Sys, p: nat, c: nat)
    requires Guard(s, Advance(p)) && c < |s.procs| && c < |AdvanceOf(s, p).procs|
    requires s.procs[p].pc.Fork2? && s.procs[p].pc.np == c ==> s.procs[c].state == Used
    requires s.procs[p].pc == Locked || s.procs[p].pc == Sleep2 ==> s.procs[p].state != Unused
    ensures PidFrom(s, AdvanceOf(s, p), Advance(p), c)
  {
  }

  lemma NotUnused(s: Sys, p: nat, c: nat)
    requires Inv(s) && p < |s.procs| && c < |s.procs|
    ensures s.procs[p].pc.Fork2? && s.procs[p].pc.np == c ==> s.procs[c].state == Used
    ensures s.procs[p].pc == Locked || s.procs[p].pc == Sleep2 ==> s.procs[p].state != Unused
  {
    hide Inv;
    Facts(s, p, c);
  }

  lemma PidsKept(s: Sys, a: Action)
    requires Inv(s) && Guard(s, a) && Pids(s)
    ensures Pids(Apply(s, a))
  {
    hide Inv, Apply, Guard;
    SameTable(s, a);
    var s' := Apply(s, a);
    NextPid(s, a);
    forall p | 0 <= p < |s'.procs| && s'.procs[p].state != Unused ensures s'.procs[p].pid < s'.nextpid {
      PidStep(s, a, p);
    }
    forall p, q | 0 <= p < q < |s'.procs| && s'.procs[p].state != Unused && s'.procs[q].state != Unused
      ensures s'.procs[p].pid != s'.procs[q].pid
    {
      PidStep(s, a, p);
      PidStep(s, a, q);
    }
  }

  lemma PidStep(s: Sys, a: Action, c: nat)
    requires Inv(s) && Guard(s, a) && c < |s.procs| && c < |Apply(s, a).procs|
    ensures PidFrom(s, Apply(s, a), a, c)
  {
    hide Inv, AdvanceOf, PidFrom;
    if a.Advance? { NotUnused(s, a.p, c); PidAdvance(s, a.p, c); } else { PidOther(s, a, c); }
  }

  lemma NextPid(s: Sys, a: Action)
    requires Guard(s, a)
    ensures Apply(s, a).nextpid == if a.ForkStart? then s.nextpid + 1 else s.nextpid
  {
  }

  lemma {:induction false} RunPids(tr: seq<Sys>, acts: seq<Action>, k: nat)
    requires Run(tr, acts) && k < |tr|
    ensures Pids(tr[k])
  {
    hide Inv, Guard, Apply;
    if k == 0 {
      assert Boot(tr[0]);
    } else {
      RunPids(tr, acts, k - 1);
      RunInv(tr, acts, k - 1);
      PidsKept(tr[k - 1], acts[k - 1]);
    }
  }

  // The status of a zombie is the argument of its exit.
  lemma ZombieStatus(tr: seq<Sys>, acts: seq<Action>, k: nat, p: nat)
    requires Run(tr, acts) && k < |tr| && p < |tr[k].procs| && tr[k].procs[p].state == Zombie
    ensures tr[k].procs[p].xstate == tr[k].procs[p].status
  {
    hide Run;
    RunInv(tr, acts, k);
    hide Inv;
    Facts(tr[k], p, p);
  }

  // Nothing but its own exit sets the status of a process.
  lemma StatusFromExit(s: Sys, a: Action, c: nat)
    requires Guard(s, a) && c < |s.procs| && c < |Apply(s, a).procs|
    ensures Apply(s, a).procs[c].status == if a.ExitStart? && a.p == c then a.status else s.procs[c].status
  {
    if a.Advance? { StatusAdvance(s, a.p, c); }
    hide AdvanceOf;
  }

  lemma StatusAdvance(s: Sys, p: nat, c: nat)
    requires p < |s.procs| && Unblocked(s, p) && c < |s.procs| && c < |AdvanceOf(s, p).procs|
    ensures AdvanceOf(s, p).procs[c].status == s.procs[c].status
  {
  }

  // wait gives up only if there is no child at all, or if it was killed.
  lemma WaitFails(tr: seq<Sys>, acts: seq<Action>, k: nat, c: nat)
    requires Run(tr, acts) && k < |acts| && acts[k].Advance? && acts[k].p < |tr[k].procs| && c < |tr[k].procs|
    requires tr[k].procs[acts[k].p].pc.Scan? && acts[k].p < |tr[k + 1].procs| && tr[k + 1].procs[acts[k].p].pc == User
    ensures tr[k].procs[acts[k].p].killed || tr[k].procs[c].parent != Some(acts[k].p)
  {
    hide Run;
    Length(tr, acts);
    RunInv(tr, acts, k);
    RunStep(tr, acts, k);
    hide Inv;
    Facts(tr[k], acts[k].p, c);
  }

  // The locks cannot deadlock: if wait_lock is held, its holder can go on, or
  // waits for a lock whose holder can go on.
  lemma LocksProgress(tr: seq<Sys>, acts: seq<Action>, k: nat) returns (p: nat)
    requires Run(tr, acts) && k < |tr| && tr[k].waitLock.Some?
    ensures Guard(tr[k], Advance(p)) && (p == tr[k].waitLock.v || exists q: nat :: Holds(tr[k].procs[p].pc, p, q))
  {
    hide Run;
    RunInv(tr, acts, k);
    var s := tr[k];
    hide Inv;
    Bounds(s);
    var h := s.waitLock.v;
    Facts(s, h, h);
    p := h;
    if !Unblocked(s, h) {
      var j := match s.procs[h].pc
        case WakeInit(_, j) => j
        case Wake(j) => if j < |s.procs| then j else h
        case Scan(i, _) => if i < |s.procs| then i else h
        case _ => h;
      Facts(s, h, j);
      p := s.procs[j].lock.v;
      Facts(s, p, j);
      Facts(s, p, h);
    }
  }
}
