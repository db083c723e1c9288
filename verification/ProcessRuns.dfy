/** What a call of exit, wait or kill achieves in a run of kernel/proc.c. */
module ProcessRuns {
  import opened Processes

  // ---------- one step ----------

  // kill marks the process, makes it runnable if it sleeps, and does nothing
  // else.
  lemma KillStep(s: Sys, p: nat)
    requires Guard(s, Kill(p))
    ensures var s', q := Apply(s, Kill(p)), s.procs[p];
      && |s'.procs| == |s.procs| && (forall x :: 0 <= x < |s.procs| && x != p ==> s'.procs[x] == s.procs[x])
      && s'.waitLock == s.waitLock && s'.init == s.init && s'.nextpid == s.nextpid
      && s'.procs[p].killed && s'.procs[p].state != Sleeping
      && s'.procs[p] == q.(killed := true, state := if q.state == Sleeping then Runnable else q.state)
  {
  }

  // A process that gives up the processor, or sleeps and is woken, goes on
  // where it was as soon as it is scheduled.
  lemma GoesOn(s: Sys, p: nat)
    requires p < |s.procs|
    ensures Guard(s, Yield(p)) ==> var s1 := Apply(s, Yield(p));
      Guard(s1, Schedule(p)) && Apply(s1, Schedule(p)) == Put(s, p, s.procs[p].(chan := NoChan))
    ensures Guard(s, SleepOther(p)) ==> var s1 := Apply(s, SleepOther(p));
      && !Guard(s1, Schedule(p)) && Guard(s1, WakeOther(p))
      && var s2 := Apply(s1, WakeOther(p));
         Guard(s2, Schedule(p)) && Apply(s2, Schedule(p)) == Put(s, p, s.procs[p].(chan := NoChan))
  {
    hide AdvanceOf;
  }

  // A sleeper in wait that has been woken tries wait_lock again.
  lemma WakesInWait(s: Sys, p: nat)
    requires Guard(s, Schedule(p)) && s.procs[p].pc == Asleep
    ensures var s' := Apply(s, Schedule(p));
      && s'.procs[p] == s.procs[p].(state := Running, chan := NoChan, pc := Retry)
      && (s.waitLock == None ==> Guard(s', Advance(p)) && AdvanceOf(s', p).procs[p].pc == Scan(0, false))
      && (s.waitLock == None ==> AdvanceOf(s', p).waitLock == Some(p))
  {
  }

  // The entry of a process that does not exist any more.
  predicate Clean(q: Proc) {
    q.state == Unused && q.parent == None && q.chan == NoChan && !q.killed && q.pid == 0 && q.xstate == 0
  }

  predicate InWait(pc: Pc) {
    pc.Scan? || pc.Reaped? || pc == Checked || pc == Sleep1 || pc == Sleep2 || pc == Asleep || pc == Retry
  }

  // The scan of p has come to a zombie child.
  predicate AtZombie(s: Sys, p: nat) {
    p < |s.procs| && s.procs[p].pc.Scan? && s.procs[p].pc.i < |s.procs| &&
    s.procs[s.procs[p].pc.i].parent == Some(p) && s.procs[s.procs[p].pc.i].state == Zombie
  }

  // Only a process's own steps move it on in wait.
  lemma OthersWait(s: Sys, a: Action, p: nat)
    requires Inv(s) && Guard(s, a) && p < |s.procs| && InWait(s.procs[p].pc) && a.p != p
    ensures p < |Apply(s, a).procs| && Apply(s, a).procs[p].pc == s.procs[p].pc
  {
    hide Inv, AdvanceOf;
    Facts(s, a.p, p);
    if a.Advance? { OthersMove(s, a.p, p); }
  }

  lemma OthersMove(s: Sys, h: nat, p: nat)
    requires Guard(s, Advance(h)) && p < |s.procs| && p != h
    requires AtZombie(s, h) && s.procs[h].pc.i == p ==> s.procs[p].lock != None
    ensures p < |AdvanceOf(s, h).procs| && AdvanceOf(s, h).procs[p].pc == s.procs[p].pc
  {
  }

  // What p's own steps in wait do, other than freeing a child.
  lemma OwnWait(s: Sys, a: Action, p: nat)
    requires Inv(s) && Guard(s, a) && a.p == p && InWait(s.procs[p].pc) && !(a == Advance(p) && AtZombie(s, p))
    ensures p < |Apply(s, a).procs|
    ensures var q, q' := s.procs[p], Apply(s, a).procs[p];
      if q.pc.Reaped? then
        if a == Advance(p) then q'.pc == User && q'.ret == q.pc.r && q'.got == q.pc.st else q'.pc == q.pc && !a.CopyFails?
      else if a == CopyFails(p) then q'.pc.Reaped? && q'.pc.r == -1
      else if q'.pc == User then a == Advance(p) && q.pc.Scan? && q.pc.i >= |s.procs| && q'.ret == -1
      else InWait(q'.pc) && !q'.pc.Reaped?
  {
    hide Inv;
    Facts(s, p, p);
  }

  // The child is freed, entry and all, and its pid and status are kept to be
  // returned; nothing else changes.
  lemma ReapStep(s: Sys, p: nat)
    requires Guard(s, Advance(p)) && AtZombie(s, p)
    ensures var s', c := AdvanceOf(s, p), s.procs[p].pc.i;
      && |s'.procs| == |s.procs| && (c != p ==>
           && Clean(s'.procs[c]) && s'.procs[p].pc == Reaped(s.procs[c].pid, s.procs[c].xstate)
           && s'.procs[p] == s.procs[p].(pc := s'.procs[p].pc)
           && forall x :: 0 <= x < |s.procs| && x != c && x != p ==> s'.procs[x] == s.procs[x])
  {
  }

  // A fork that fails leaves the entry as it was before.
  lemma ForkUndone(s: Sys, p: nat, np: nat)
    requires Guard(s, ForkStart(p, np)) && Clean(s.procs[np]) && p != np
    ensures var s1 := Apply(s, ForkStart(p, np));
      && Guard(s1, ForkFail(p)) && Clean(Apply(s1, ForkFail(p)).procs[np])
      && (s.procs[np].pc == User ==> Apply(s1, ForkFail(p)) == s.(nextpid := s.nextpid + 1))
  {
  }

  // Nothing but the scan of its parent at its entry frees a zombie.
  lemma FreedBy(s: Sys, a: Action, c: nat)
    requires Inv(s) && Guard(s, a) && c < |s.procs| && s.procs[c].state == Zombie
    requires c < |Apply(s, a).procs| && Apply(s, a).procs[c].state == Unused
    ensures a == Advance(a.p) && AtZombie(s, a.p) && s.procs[a.p].pc.i == c && c != a.p && s.procs[c].pc == Dead
  {
    hide Inv, AdvanceOf;
    Facts(s, a.p, c);
    if a.Advance? {
      ZombieFacts(s, a.p, c);
      FreedByAdvance(s, a.p, c);
    }
  }

  lemma FreedByAdvance(s: Sys, p: nat, c: nat)
    requires Guard(s, Advance(p)) && c < |s.procs| && s.procs[c].state == Zombie
    requires Forks(s.procs[p].pc) ==> s.procs[p].pc.np != c
    requires c == p ==> s.procs[p].pc == Zombied || s.procs[p].pc == Leaving || s.procs[p].pc == Dead
    requires s.procs[c].lock == None ==> s.procs[c].pc == Dead
    ensures c < |AdvanceOf(s, p).procs|
    ensures AdvanceOf(s, p).procs[c].state == Unused ==>
      AtZombie(s, p) && s.procs[p].pc.i == c && c != p && s.procs[c].pc == Dead
  {
  }

  // ---------- a call of wait ----------

  lemma {:induction false} TableSize(tr: seq<Sys>, acts: seq<Action>, k: nat)
    requires Run(tr, acts) && k < |tr|
    ensures |tr[k].procs| == |tr[0].procs| && tr[k].init == tr[0].init
  {
    hide Guard, Apply;
    if k > 0 {
      TableSize(tr, acts, k - 1);
      SameTable(tr[k - 1], acts[k - 1]);
    }
  }

  // A step of a run, with what is known of its first state.
  lemma StepOf(tr: seq<Sys>, acts: seq<Action>, k: nat)
    requires Run(tr, acts) && k < |acts|
    ensures |tr| == |acts| + 1 && Inv(tr[k]) && Guard(tr[k], acts[k]) && tr[k + 1] == Apply(tr[k], acts[k])
    ensures |tr[k].procs| == |tr[0].procs| == |tr[k + 1].procs|
  {
    hide Run, Guard, Apply, Inv;
    Length(tr, acts);
    RunInv(tr, acts, k);
    RunStep(tr, acts, k);
    TableSize(tr, acts, k);
    TableSize(tr, acts, k + 1);
  }

  // p is in the wait that it began at step a, in states a + 1 to b.
  ghost predicate Waits(tr: seq<Sys>, acts: seq<Action>, a: nat, b: nat, p: nat) {
    && Run(tr, acts) && a < b <= |acts| && |tr| == |acts| + 1 && acts[a] == WaitStart(p) && p < |tr[0].procs|
    && forall i :: a < i <= b ==> p < |tr[i].procs| && tr[i].procs[p].pc != User
  }

  // Step k frees the zombie child c of p.
  ghost predicate Frees(tr: seq<Sys>, k: nat, c: nat, p: nat) {
    && k + 1 < |tr| && c < |tr[k].procs| && c < |tr[k + 1].procs|
    && tr[k].procs[c].state == Zombie && tr[k].procs[c].parent == Some(p) && tr[k + 1].procs[c].state == Unused
  }

  ghost predicate NoneFreed(tr: seq<Sys>, a: nat, b: nat, p: nat) {
    forall k: nat, c: nat :: a <= k < b ==> !Frees(tr, k, c, p)
  }

  ghost predicate OneFreed(tr: seq<Sys>, a: nat, b: nat, p: nat, k: nat, c: nat) {
    && a < k < b && Frees(tr, k, c, p) && Clean(tr[k + 1].procs[c]) && tr[k].procs[c].pc == Dead
    && forall k': nat, c': nat :: a <= k' < b && Frees(tr, k', c', p) ==> k' == k && c' == c
  }

  ghost predicate CopyFailed(acts: seq<Action>, a: nat, b: nat, p: nat) {
    exists i :: a < i < b <= |acts| && acts[i] == CopyFails(p)
  }

  // How far the wait has come in state b.
  ghost predicate SoFar(tr: seq<Sys>, acts: seq<Action>, a: nat, b: nat, p: nat, k: nat, c: nat)
    requires b < |tr| && p < |tr[b].procs|
  {
    var pc := tr[b].procs[p].pc;
    && InWait(pc)
    && (CopyFailed(acts, a, b, p) <==> pc.Reaped? && pc.r == -1)
    && if pc.Reaped? && pc.r != -1 then
         OneFreed(tr, a, b, p, k, c) && pc.r == tr[k].procs[c].pid && pc.st == tr[k].procs[c].xstate
       else NoneFreed(tr, a, b, p)
  }

  // At most p's own scan frees a child of p.
  lemma FreedNext(tr: seq<Sys>, acts: seq<Action>, k: nat, c: nat, p: nat)
    requires Run(tr, acts) && k < |acts| && Frees(tr, k, c, p)
    ensures acts[k] == Advance(p) && AtZombie(tr[k], p) && tr[k].procs[p].pc.i == c && c != p && tr[k].procs[c].pc == Dead
  {
    hide Run, Inv, Guard, Apply, AtZombie;
    StepOf(tr, acts, k);
    FreedBy(tr[k], acts[k], c);
    Parented(tr[k], acts[k].p);
  }

  lemma Parented(s: Sys, p: nat)
    requires AtZombie(s, p)
    ensures s.procs[p].pc.Scan? && s.procs[p].pc.i < |s.procs| && s.procs[s.procs[p].pc.i].parent == Some(p)
  {
  }

  lemma NoneNext(tr: seq<Sys>, acts: seq<Action>, a: nat, b: nat, p: nat)
    requires Run(tr, acts) && a <= b < |acts| && NoneFreed(tr, a, b, p) && !(acts[b] == Advance(p) && AtZombie(tr[b], p))
    ensures NoneFreed(tr, a, b + 1, p)
  {
    hide Run, Frees, AtZombie;
    forall k: nat, c: nat | a <= k < b + 1 ensures !Frees(tr, k, c, p) {
      if k == b && Frees(tr, k, c, p) { FreedNext(tr, acts, k, c, p); }
    }
  }

  lemma OneNext(tr: seq<Sys>, acts: seq<Action>, a: nat, b: nat, p: nat, k: nat, c: nat)
    requires Run(tr, acts) && a < b < |acts| && OneFreed(tr, a, b, p, k, c) && !(acts[b] == Advance(p) && AtZombie(tr[b], p))
    ensures OneFreed(tr, a, b + 1, p, k, c)
  {
    hide Run, AtZombie;
    forall k': nat, c': nat | a <= k' < b + 1 && Frees(tr, k', c', p) ensures k' == k && c' == c {
      if k' == b { FreedNext(tr, acts, k', c', p); }
    }
  }

  // The step that frees the child.
  lemma FirstFreed(tr: seq<Sys>, acts: seq<Action>, a: nat, b: nat, p: nat)
    requires Run(tr, acts) && a < b < |acts| && NoneFreed(tr, a, b, p) && acts[b] == Advance(p) && AtZombie(tr[b], p)
    ensures |tr| == |acts| + 1 && p < |tr[b + 1].procs| && tr[b].procs[p].pc.Scan?
    ensures var c := tr[b].procs[p].pc.i;
      OneFreed(tr, a, b + 1, p, b, c) && tr[b + 1].procs[p].pc == Reaped(tr[b].procs[c].pid, tr[b].procs[c].xstate)
  {
    hide Run, Inv, Guard;
    StepOf(tr, acts, b);
    var c := tr[b].procs[p].pc.i;
    NotOneself(tr[b], p);
    ReapStep(tr[b], p);
    assert Frees(tr, b, c, p);
    FreedNext(tr, acts, b, c, p);
    forall k': nat, c': nat | a <= k' < b + 1 && Frees(tr, k', c', p) ensures k' == b && c' == c {
      if k' == b { FreedNext(tr, acts, k', c', p); }
    }
  }

  lemma NotOneself(s: Sys, p: nat)
    requires Inv(s) && AtZombie(s, p)
    ensures s.procs[p].pc.i != p
  {
    hide Inv;
    Facts(s, p, s.procs[p].pc.i);
  }

  lemma CopyNext(acts: seq<Action>, a: nat, b: nat, p: nat)
    requires a < b < |acts|
    ensures CopyFailed(acts, a, b + 1, p) <==> CopyFailed(acts, a, b, p) || acts[b] == CopyFails(p)
  {
  }

  lemma {:induction false} WaitSoFar(tr: seq<Sys>, acts: seq<Action>, a: nat, b: nat, p: nat) returns (k: nat, c: nat)
    requires Waits(tr, acts, a, b, p)
    ensures p < |tr[b].procs| && SoFar(tr, acts, a, b, p, k, c)
  {
    hide Run, SoFar;
    k, c := 0, 0;
    if b == a + 1 {
      WaitBegins(tr, acts, a, p);
    } else {
      k, c := WaitSoFar(tr, acts, a, b - 1, p);
      k, c := WaitGoesOn(tr, acts, a, b - 1, p, k, c);
    }
  }

  lemma WaitBegins(tr: seq<Sys>, acts: seq<Action>, a: nat, p: nat)
    requires Run(tr, acts) && a < |acts| && acts[a] == WaitStart(p)
    ensures |tr| == |acts| + 1 && p < |tr[a + 1].procs| && SoFar(tr, acts, a, a + 1, p, 0, 0)
  {
    hide Run, Inv, AtZombie;
    StepOf(tr, acts, a);
    NoneNext(tr, acts, a, a, p);
  }

  lemma WaitGoesOn(tr: seq<Sys>, acts: seq<Action>, a: nat, b: nat, p: nat, k: nat, c: nat) returns (k': nat, c': nat)
    requires Run(tr, acts) && a < b < |acts| && |tr| == |acts| + 1 && p < |tr[b].procs| && SoFar(tr, acts, a, b, p, k, c)
    requires p < |tr[b + 1].procs| && tr[b + 1].procs[p].pc != User
    ensures SoFar(tr, acts, a, b + 1, p, k', c')
  {
    hide Run, Inv, Guard, Apply, AtZombie, NoneFreed, OneFreed, CopyFailed;
    k', c' := k, c;
    StepOf(tr, acts, b);
    CopyNext(acts, a, b, p);
    if acts[b] == Advance(p) && AtZombie(tr[b], p) {
      Parented(tr[b], p);
      FirstFreed(tr, acts, a, b, p);
      k', c' := b, tr[b].procs[p].pc.i;
    } else {
      if acts[b].p == p { OwnWait(tr[b], acts[b], p); } else { OthersWait(tr[b], acts[b], p); }
      if tr[b].procs[p].pc.Reaped? && tr[b].procs[p].pc.r != -1 {
        OneNext(tr, acts, a, b, p, k, c);
      } else {
        NoneNext(tr, acts, a, b, p);
      }
    }
  }

  // A call of wait that begins at step a and returns at step b. It frees one
  // zombie child, exactly one, and returns its pid and exit status; or it
  // returns -1 and frees none, which is when the copy to user memory failed
  // or when the scan ended without a zombie child.
  lemma WaitReaps(tr: seq<Sys>, acts: seq<Action>, a: nat, b: nat, p: nat) returns (k: nat, c: nat)
    requires Waits(tr, acts, a, b, p) && b < |acts| && p < |tr[b + 1].procs| && tr[b + 1].procs[p].pc == User
    ensures var q := tr[b + 1].procs[p];
      && (q.ret == -1 <==> CopyFailed(acts, a, b, p) || (p < |tr[b].procs| && tr[b].procs[p].pc.Scan?))
      && (q.ret == -1 ==> NoneFreed(tr, a, b + 1, p))
      && (q.ret != -1 ==> OneFreed(tr, a, b + 1, p, k, c) && q.ret == tr[k].procs[c].pid && q.got == tr[k].procs[c].xstate)
  {
    k, c := WaitSoFar(tr, acts, a, b, p);
    hide Run, Inv, Guard, Apply, AtZombie, NoneFreed, OneFreed, CopyFailed;
    StepOf(tr, acts, b);
    if acts[b].p == p {
      if acts[b] == Advance(p) && AtZombie(tr[b], p) {
        Parented(tr[b], p);
        FirstFreed(tr, acts, a, b, p);
      } else {
        OwnWait(tr[b], acts[b], p);
        if tr[b].procs[p].pc.Reaped? && tr[b].procs[p].pc.r != -1 {
          OneNext(tr, acts, a, b, p, k, c);
        } else {
          NoneNext(tr, acts, a, b, p);
        }
      }
    } else {
      OthersWait(tr[b], acts[b], p);
    }
  }

  // ---------- no pid is returned twice ----------

  // Nobody has this pid any more, nor will anybody get it.
  ghost predicate Gone(s: Sys, pid: nat) {
    pid < s.nextpid && forall x :: 0 <= x < |s.procs| && s.procs[x].state != Unused ==> s.procs[x].pid != pid
  }

  lemma GoneNext(s: Sys, a: Action, pid: nat)
    requires Inv(s) && Guard(s, a) && Gone(s, pid)
    ensures Gone(Apply(s, a), pid)
  {
    hide Inv, Guard, Apply;
    SameTable(s, a);
    NextPid(s, a);
    forall x | 0 <= x < |s.procs| && Apply(s, a).procs[x].state != Unused ensures Apply(s, a).procs[x].pid != pid {
      PidStep(s, a, x);
    }
  }

  // The pid of a freed child is gone.
  lemma FreedGone(tr: seq<Sys>, acts: seq<Action>, k: nat, c: nat, p: nat)
    requires Run(tr, acts) && k < |acts| && Frees(tr, k, c, p)
    ensures k + 1 < |tr| && Gone(tr[k + 1], tr[k].procs[c].pid)
  {
    hide Run, Inv, Guard, Apply;
    StepOf(tr, acts, k);
    RunPids(tr, acts, k);
    FreedNext(tr, acts, k, c, p);
    NextPid(tr[k], acts[k]);
    var s' := tr[k + 1];
    forall x | 0 <= x < |s'.procs| && s'.procs[x].state != Unused ensures s'.procs[x].pid != tr[k].procs[c].pid {
      PidStep(tr[k], acts[k], x);
    }
  }

  lemma {:induction false} StaysGone(tr: seq<Sys>, acts: seq<Action>, k: nat, m: nat, pid: nat)
    requires Run(tr, acts) && k <= m < |tr| && Gone(tr[k], pid)
    ensures Gone(tr[m], pid)
  {
    hide Inv, Guard, Apply, Gone;
    if k < m {
      StaysGone(tr, acts, k, m - 1, pid);
      RunInv(tr, acts, m - 1);
      GoneNext(tr[m - 1], acts[m - 1], pid);
    }
  }

  // A pid is freed once in a run.
  lemma FreedOnce(tr: seq<Sys>, acts: seq<Action>, k: nat, c: nat, p: nat, k': nat, c': nat, p': nat)
    requires Run(tr, acts) && k <= k' < |acts| && Frees(tr, k, c, p) && Frees(tr, k', c', p')
    requires tr[k].procs[c].pid == tr[k'].procs[c'].pid
    ensures k == k' && c == c' && p == p'
  {
    hide Run;
    if k < k' {
      FreedGone(tr, acts, k, c, p);
      StaysGone(tr, acts, k + 1, k', tr[k].procs[c].pid);
    } else {
      RunPids(tr, acts, k);
    }
  }

  // Two calls of wait that return the same pid are one call.
  lemma ReturnedOnce(tr: seq<Sys>, acts: seq<Action>, a: nat, b: nat, p: nat, a': nat, b': nat, p': nat)
    requires Waits(tr, acts, a, b, p) && b < |acts| && p < |tr[b + 1].procs| && tr[b + 1].procs[p].pc == User
    requires Waits(tr, acts, a', b', p') && b' < |acts| && p' < |tr[b' + 1].procs| && tr[b' + 1].procs[p'].pc == User
    requires tr[b + 1].procs[p].ret == tr[b' + 1].procs[p'].ret != -1
    ensures p == p' && a == a' && b == b'
  {
    hide Run, Frees;
    var k, c := WaitReaps(tr, acts, a, b, p);
    var k', c' := WaitReaps(tr, acts, a', b', p');
    if k <= k' { FreedOnce(tr, acts, k, c, p, k', c', p'); } else { FreedOnce(tr, acts, k', c', p', k, c, p); }
    SameCall(tr, acts, a, b, p, a', b', k);
  }

  lemma SameCall(tr: seq<Sys>, acts: seq<Action>, a: nat, b: nat, p: nat, a': nat, b': nat, k: nat)
    requires Waits(tr, acts, a, b, p) && b < |acts| && p < |tr[b + 1].procs| && tr[b + 1].procs[p].pc == User
    requires Waits(tr, acts, a', b', p) && b' < |acts| && p < |tr[b' + 1].procs| && tr[b' + 1].procs[p].pc == User
    requires a < k <= b && a' < k <= b'
    ensures a == a' && b == b'
  {
    hide Run;
    StartsUser(tr, acts, a, p);
    StartsUser(tr, acts, a', p);
  }

  lemma StartsUser(tr: seq<Sys>, acts: seq<Action>, a: nat, p: nat)
    requires Run(tr, acts) && a < |acts| && acts[a] == WaitStart(p)
    ensures a < |tr| && p < |tr[a].procs| && tr[a].procs[p].pc == User
  {
    hide Run;
    StepOf(tr, acts, a);
  }

  // ---------- calls come to an end ----------

  // How many steps of its own a process in fork, exit or a pass of wait may
  // still take, at most.
  function Rest(pc: Pc, n: nat): nat {
    match pc
    case Fork0(_) => 3
    case Fork1(_) => 2
    case Fork2(_) => 1
    case Reparent(i) => Rounds(n, i) + n + 5
    case WakeInit(i, j) => Rounds(n, i + 1) + Less(n, j) + n + 6
    case Wake(j) => Less(n, j) + 4
    case Locked => 3
    case Zombied => 2
    case Leaving => 1
    case Scan(i, _) => Less(n, i) + 4
    case Checked => 3
    case Sleep1 => 2
    case Sleep2 => 1
    case Reaped(_, _) => 1
    case _ => 0
  }

  function Less(n: nat, i: nat): nat {
    if i <= n then n - i else 0
  }

  // A round of wakeup for each entry from i on.
  function Rounds(n: nat, i: nat): nat {
    Less(n, i) * (n + 2)
  }

  lemma OneRound(n: nat, i: nat)
    requires i < n
    ensures Rounds(n, i) == Rounds(n, i + 1) + n + 2
  {
  }

  lemma OwnStep(s: Sys, p: nat)
    requires Guard(s, Advance(p)) && s.procs[p].pc != Retry && Rest(s.procs[p].pc, |s.procs|) > 0
    requires Forks(s.procs[p].pc) ==> s.procs[p].pc.np < |s.procs| && s.procs[p].pc.np != p
    requires AtZombie(s, p) ==> s.procs[p].pc.i != p
    requires s.procs[p].pc.Reparent? && s.procs[p].pc.i < |s.procs| && s.procs[s.procs[p].pc.i].parent == Some(p) ==>
      s.procs[p].pc.i != p
    ensures p < |AdvanceOf(s, p).procs| && Rest(AdvanceOf(s, p).procs[p].pc, |s.procs|) < Rest(s.procs[p].pc, |s.procs|)
  {
    var pc := s.procs[p].pc;
    if pc.Reparent? || pc.WakeInit? || pc.Wake? {
      OwnLoop(s, p);
    } else if pc.Scan? {
      OwnScan(s, p);
    } else {
      OwnOther(s, p);
    }
  }

  lemma OwnLoop(s: Sys, p: nat)
    requires Guard(s, Advance(p)) && (s.procs[p].pc.Reparent? || s.procs[p].pc.WakeInit? || s.procs[p].pc.Wake?)
    requires s.procs[p].pc.Reparent? && s.procs[p].pc.i < |s.procs| && s.procs[s.procs[p].pc.i].parent == Some(p) ==>
      s.procs[p].pc.i != p
    ensures p < |AdvanceOf(s, p).procs| && Rest(AdvanceOf(s, p).procs[p].pc, |s.procs|) < Rest(s.procs[p].pc, |s.procs|)
  {
    hide Rounds;
    var n, pc := |s.procs|, s.procs[p].pc;
    if pc.Reparent? && pc.i < n { OneRound(n, pc.i); }
  }

  lemma OwnScan(s: Sys, p: nat)
    requires Guard(s, Advance(p)) && s.procs[p].pc.Scan? && (AtZombie(s, p) ==> s.procs[p].pc.i != p)
    ensures p < |AdvanceOf(s, p).procs| && Rest(AdvanceOf(s, p).procs[p].pc, |s.procs|) < Rest(s.procs[p].pc, |s.procs|)
  {
    hide Rounds;
  }

  lemma OwnOther(s: Sys, p: nat)
    requires Guard(s, Advance(p)) && s.procs[p].pc != Retry && Rest(s.procs[p].pc, |s.procs|) > 0
    requires !s.procs[p].pc.Reparent? && !s.procs[p].pc.WakeInit? && !s.procs[p].pc.Wake? && !s.procs[p].pc.Scan?
    requires Forks(s.procs[p].pc) ==> s.procs[p].pc.np < |s.procs| && s.procs[p].pc.np != p
    ensures p < |AdvanceOf(s, p).procs| && Rest(AdvanceOf(s, p).procs[p].pc, |s.procs|) < Rest(s.procs[p].pc, |s.procs|)
  {
    hide Rounds;
  }

  lemma OwnFacts(s: Sys, p: nat)
    requires Inv(s) && p < |s.procs|
    ensures Forks(s.procs[p].pc) ==> s.procs[p].pc.np < |s.procs| && s.procs[p].pc.np != p
    ensures AtZombie(s, p) ==> s.procs[p].pc.i != p
    ensures s.procs[p].parent != Some(p)
    ensures Rest(s.procs[p].pc, |s.procs|) > 0 ==> s.procs[p].pc != User && (s.procs[p].state == Zombie ==> s.procs[p].pc != Dead)
  {
    hide Inv;
    Facts(s, p, p);
    if Forks(s.procs[p].pc) { Facts(s, p, s.procs[p].pc.np); }
    if AtZombie(s, p) { Facts(s, p, s.procs[p].pc.i); }
  }

  // Steps of others, and its own other than Advance, leave a process where it
  // is, or end its call early.
  lemma OtherStep(s: Sys, a: Action, p: nat)
    requires Inv(s) && Guard(s, a) && p < |s.procs| && Rest(s.procs[p].pc, |s.procs|) > 0 && a != Advance(p)
    ensures p < |Apply(s, a).procs|
    ensures var pc, pc' := s.procs[p].pc, Apply(s, a).procs[p].pc;
      pc' == pc || (a == CopyFails(p) && pc.Scan? && pc'.Reaped?) || (a == ForkFail(p) && pc.Fork0? && pc' == User)
  {
    hide Inv, AdvanceOf;
    Facts(s, a.p, p);
    OwnFacts(s, p);
    if a.Advance? { OthersMove(s, a.p, p); }
  }

  // Advance steps of p among acts[a..b].
  function Steps(acts: seq<Action>, a: nat, b: nat, p: nat): nat
    requires a <= b <= |acts|
  {
    if a == b then 0 else Steps(acts, a, b - 1, p) + if acts[b - 1] == Advance(p) then 1 else 0
  }

  // p has been inside a call in all states from a to b.
  ghost predicate Inside(tr: seq<Sys>, a: nat, b: nat, p: nat) {
    b < |tr| && forall i :: a <= i <= b ==>
      p < |tr[i].procs| && tr[i].procs[p].pc != Retry && Rest(tr[i].procs[p].pc, |tr[i].procs|) > 0
  }

  // Every step of its own brings the end of the call nearer, and no other
  // step moves it away.
  lemma CallStep(s: Sys, a: Action, p: nat)
    requires Inv(s) && Guard(s, a) && p < |s.procs| && s.procs[p].pc != Retry && Rest(s.procs[p].pc, |s.procs|) > 0
    ensures |Apply(s, a).procs| == |s.procs|
    ensures Rest(Apply(s, a).procs[p].pc, |s.procs|) + (if a == Advance(p) then 1 else 0) <= Rest(s.procs[p].pc, |s.procs|)
  {
    hide Inv, AdvanceOf, Rounds, AtZombie, Unblocked;
    SameTable(s, a);
    if a == Advance(p) {
      OwnFacts(s, p);
      OwnStep(s, p);
    } else {
      OtherStep(s, a, p);
    }
  }

  // A process takes at most Rest steps of its own before the call is over.
  lemma {:induction false} CallEnds(tr: seq<Sys>, acts: seq<Action>, a: nat, b: nat, p: nat)
    requires Run(tr, acts) && a <= b && Inside(tr, a, b, p) && b <= |acts|
    ensures Rest(tr[b].procs[p].pc, |tr[b].procs|) + Steps(acts, a, b, p) <= Rest(tr[a].procs[p].pc, |tr[a].procs|)
  {
    hide Run, Inv, Guard, Apply, Rest;
    if a < b {
      CallEnds(tr, acts, a, b - 1, p);
      StepOf(tr, acts, b - 1);
      CallStep(tr[b - 1], acts[b - 1], p);
    }
  }

  // In exit, or dead.
  predicate Ending(pc: Pc) {
    Exits(pc) || pc == Zombied || pc == Leaving || pc == Dead
  }

  lemma EndingStep(s: Sys, a: Action, p: nat)
    requires Inv(s) && Guard(s, a) && p < |s.procs| && Ending(s.procs[p].pc) && s.procs[p].pc != Dead
    ensures p < |Apply(s, a).procs| && Ending(Apply(s, a).procs[p].pc) && Apply(s, a).procs[p].status == s.procs[p].status
  {
    hide Inv, AdvanceOf, Rounds;
    SameTable(s, a);
    StatusFromExit(s, a, p);
    OwnFacts(s, p);
    if a == Advance(p) { EndingAdvance(s, p); } else { OtherStep(s, a, p); }
  }

  lemma EndingAdvance(s: Sys, p: nat)
    requires Guard(s, Advance(p)) && Ending(s.procs[p].pc) && s.procs[p].pc != Dead && s.procs[p].parent != Some(p)
    ensures p < |AdvanceOf(s, p).procs| && Ending(AdvanceOf(s, p).procs[p].pc)
  {
  }

  // A process that has called exit is a zombie off its stack, with the status
  // it gave, after at most n * (n + 2) + n + 5 steps of its own.
  lemma {:induction false} ExitEnds(tr: seq<Sys>, acts: seq<Action>, a: nat, b: nat, p: nat, st: int) returns (m: nat)
    requires Run(tr, acts) && a < b <= |acts| && acts[a] == ExitStart(p, st)
    ensures |tr| == |acts| + 1 && a < m <= b && p < |tr[m].procs| && Ending(tr[m].procs[p].pc) && tr[m].procs[p].status == st
    ensures if tr[m].procs[p].pc == Dead then tr[m].procs[p].state == Zombie && tr[m].procs[p].xstate == st
            else m == b && Inside(tr, a + 1, b, p)
    ensures var n := |tr[0].procs|; Steps(acts, a + 1, b, p) >= n * (n + 2) + n + 5 ==> tr[m].procs[p].pc == Dead
  {
    hide Run, Inv, Guard, Rest, Apply, Inside;
    StepOf(tr, acts, a);
    ExitBegins(tr[a], p, st);
    if b == a + 1 {
      m := b;
      InsideFirst(tr, b, p);
    } else {
      m := ExitEnds(tr, acts, a, b - 1, p, st);
      if tr[m].procs[p].pc != Dead {
        m := b;
        StepOf(tr, acts, b - 1);
        EndingStep(tr[b - 1], acts[b - 1], p);
        InsideNext(tr, a + 1, b - 1, p);
      }
    }
    DeadZombie(tr, acts, m, p);
    if tr[m].procs[p].pc != Dead {
      CallEnds(tr, acts, a + 1, b, p);
      StillInside(tr, a + 1, b, p);
    }
  }

  lemma InsideFirst(tr: seq<Sys>, b: nat, p: nat)
    requires b < |tr| && p < |tr[b].procs| && Ending(tr[b].procs[p].pc) && tr[b].procs[p].pc != Dead
    ensures Inside(tr, b, b, p)
  {
    hide Rest;
    NotOver(tr[b].procs[p].pc, |tr[b].procs|);
  }

  lemma InsideNext(tr: seq<Sys>, a: nat, b: nat, p: nat)
    requires Inside(tr, a, b, p) && b + 1 < |tr| && p < |tr[b + 1].procs| && Ending(tr[b + 1].procs[p].pc)
    ensures tr[b + 1].procs[p].pc != Dead ==> Inside(tr, a, b + 1, p)
  {
    hide Rest;
    if tr[b + 1].procs[p].pc != Dead { NotOver(tr[b + 1].procs[p].pc, |tr[b + 1].procs|); }
  }

  lemma StillInside(tr: seq<Sys>, a: nat, b: nat, p: nat)
    requires Inside(tr, a, b, p) && a <= b
    ensures p < |tr[b].procs| && Rest(tr[b].procs[p].pc, |tr[b].procs|) > 0
  {
  }

  lemma NotOver(pc: Pc, n: nat)
    requires Ending(pc) && pc != Dead
    ensures Rest(pc, n) > 0 && pc != Retry
  {
  }

  lemma ExitBegins(s: Sys, p: nat, st: int)
    requires Guard(s, ExitStart(p, st))
    ensures var s' := Apply(s, ExitStart(p, st));
      p < |s'.procs| == |s.procs| && s'.procs[p].pc == Reparent(0) && s'.procs[p].status == st &&
      Rest(s'.procs[p].pc, |s.procs|) == |s.procs| * (|s.procs| + 2) + |s.procs| + 5
  {
  }

  lemma DeadZombie(tr: seq<Sys>, acts: seq<Action>, k: nat, p: nat)
    requires Run(tr, acts) && k < |tr| && p < |tr[k].procs|
    ensures tr[k].procs[p].pc == Dead ==> tr[k].procs[p].state == Zombie && tr[k].procs[p].xstate == tr[k].procs[p].status
  {
    hide Run;
    RunInv(tr, acts, k);
    hide Inv;
    Facts(tr[k], p, p);
  }

  // Whoever is in exit or dead has called exit, with the status it has.
  lemma {:induction false} ExitOf(tr: seq<Sys>, acts: seq<Action>, k: nat, c: nat) returns (e: nat)
    requires Run(tr, acts) && k < |tr| && c < |tr[k].procs| && Ending(tr[k].procs[c].pc)
    ensures e < k <= |acts| && acts[e] == ExitStart(c, tr[k].procs[c].status)
    ensures forall i :: e < i <= k ==> c < |tr[i].procs| && Ending(tr[i].procs[c].pc)
  {
    hide Run, Inv, Guard, Apply;
    Length(tr, acts);
    if k == 0 {
      NobodyEnds(tr, acts, c);
    } else {
      StepOf(tr, acts, k - 1);
      BeforeEnding(tr[k - 1], acts[k - 1], c);
      if acts[k - 1].ExitStart? && acts[k - 1].p == c {
        e := k - 1;
      } else {
        e := ExitOf(tr, acts, k - 1, c);
      }
    }
  }

  lemma NobodyEnds(tr: seq<Sys>, acts: seq<Action>, c: nat)
    requires Run(tr, acts) && c < |tr[0].procs|
    ensures !Ending(tr[0].procs[c].pc)
  {
  }

  lemma BeforeEnding(s: Sys, a: Action, c: nat)
    requires Inv(s) && Guard(s, a) && c < |s.procs| && c < |Apply(s, a).procs| && Ending(Apply(s, a).procs[c].pc)
    ensures if a.ExitStart? && a.p == c then Apply(s, a).procs[c].status == a.status
            else Ending(s.procs[c].pc) && Apply(s, a).procs[c].status == s.procs[c].status
  {
    hide Inv, AdvanceOf;
    StatusFromExit(s, a, c);
    if a.Advance? { BeforeAdvance(s, a.p, c); }
  }

  lemma BeforeAdvance(s: Sys, p: nat, c: nat)
    requires Guard(s, Advance(p)) && c < |s.procs| && c < |AdvanceOf(s, p).procs| && Ending(AdvanceOf(s, p).procs[c].pc)
    ensures Ending(s.procs[c].pc)
  {
    hide AdvanceOf, Ending;
    if c == p { BeforeOwn(s, p); } else { BeforeOther(s, p, c); }
  }

  lemma BeforeOther(s: Sys, p: nat, c: nat)
    requires Guard(s, Advance(p)) && c < |s.procs| && c < |AdvanceOf(s, p).procs| && c != p
    ensures AdvanceOf(s, p).procs[c].pc == s.procs[c].pc || AdvanceOf(s, p).procs[c].pc == User
    ensures Ending(AdvanceOf(s, p).procs[c].pc) ==> Ending(s.procs[c].pc)
  {
    hide Ending, AdvanceOf, Guard;
    EntryOfOther(s, p, c);
    NotEnding();
  }

  // What a step of p does to the entry of another process.
  lemma EntryOfOther(s: Sys, p: nat, c: nat)
    requires Guard(s, Advance(p)) && c < |s.procs| && c < |AdvanceOf(s, p).procs| && c != p
    ensures var x, y := AdvanceOf(s, p).procs[c], s.procs[c];
      x == FreeProc(y) || x == y.(lock := x.lock, parent := x.parent, state := x.state)
  {
    match s.procs[p].pc
    case Fork0(_) =>
    case Fork1(_) =>
    case Fork2(_) =>
    case Reparent(_) =>
    case WakeInit(_, _) =>
    case Wake(_) =>
    case Scan(_, _) =>
    case _ =>
  }

  lemma NotEnding()
    ensures !Ending(User)
  {
  }

  lemma BeforeOwn(s: Sys, p: nat)
    requires Guard(s, Advance(p)) && p < |AdvanceOf(s, p).procs|
    ensures Ending(AdvanceOf(s, p).procs[p].pc) ==> Ending(s.procs[p].pc)
  {
  }

  // The status that wait copies out is the argument of the child's exit.
  lemma WaitStatus(tr: seq<Sys>, acts: seq<Action>, a: nat, b: nat, p: nat) returns (e: nat, c: nat)
    requires Waits(tr, acts, a, b, p) && b < |acts| && p < |tr[b + 1].procs| && tr[b + 1].procs[p].pc == User
    requires tr[b + 1].procs[p].ret != -1
    ensures e < b && acts[e] == ExitStart(c, tr[b + 1].procs[p].got)
    ensures c < |tr[e].procs| && tr[e].procs[c].pid == tr[b + 1].procs[p].ret
  {
    hide Run;
    var k;
    k, c := WaitReaps(tr, acts, a, b, p);
    e := ExitOf(tr, acts, k, c);
    ZombieStatus(tr, acts, k, c);
    TableSize(tr, acts, e);
    TableSize(tr, acts, k);
    SamePid(tr, acts, e, k, c);
  }

  // In exit a process keeps its pid.
  lemma {:induction false} SamePid(tr: seq<Sys>, acts: seq<Action>, e: nat, k: nat, c: nat)
    requires Run(tr, acts) && e < k < |tr| && |tr| == |acts| + 1 && c < |tr[0].procs| && acts[e].ExitStart? && acts[e].p == c
    requires forall i :: e < i <= k ==> c < |tr[i].procs| && Ending(tr[i].procs[c].pc)
    ensures c < |tr[e].procs| && tr[k].procs[c].pid == tr[e].procs[c].pid
  {
    hide Run, Inv, Guard, Apply;
    StepOf(tr, acts, k - 1);
    PidStep(tr[k - 1], acts[k - 1], c);
    EndingExists(tr, acts, k, c);
    if k - 1 > e {
      SamePid(tr, acts, e, k - 1, c);
      NotForked(tr[k - 1], acts[k - 1], c);
    }
  }

  lemma EndingExists(tr: seq<Sys>, acts: seq<Action>, k: nat, c: nat)
    requires Run(tr, acts) && k < |tr| && c < |tr[k].procs| && Ending(tr[k].procs[c].pc)
    ensures tr[k].procs[c].state != Unused
  {
    hide Run;
    RunInv(tr, acts, k);
    hide Inv;
    Facts(tr[k], c, c);
  }

  lemma NotForked(s: Sys, a: Action, c: nat)
    requires Inv(s) && Guard(s, a) && c < |s.procs| && Ending(s.procs[c].pc)
    ensures !(a.ForkStart? && a.np == c)
  {
    hide Inv;
    Facts(s, c, c);
  }

  // ---------- kill ----------

  lemma KilledBefore(s: Sys, a: Action, p: nat)
    requires Guard(s, a) && p < |s.procs| && p < |Apply(s, a).procs|
    ensures Apply(s, a).procs[p].killed ==> a == Kill(p) || s.procs[p].killed
  {
    hide AdvanceOf;
    if a.Advance? { KilledAdvance(s, a.p, p); }
  }

  lemma KilledAdvance(s: Sys, h: nat, p: nat)
    requires Guard(s, Advance(h)) && p < |s.procs| && p < |AdvanceOf(s, h).procs|
    ensures AdvanceOf(s, h).procs[p].killed ==> s.procs[p].killed
  {
    hide AdvanceOf, Guard;
    if p == h { KilledOwn(s, p); } else { EntryOfOther(s, h, p); }
  }

  lemma KilledOwn(s: Sys, p: nat)
    requires Guard(s, Advance(p)) && p < |AdvanceOf(s, p).procs|
    ensures AdvanceOf(s, p).procs[p].killed ==> s.procs[p].killed
  {
  }

  // Whoever is marked as killed has been killed, and since then its entry has
  // not been given to another process.
  lemma {:induction false} KilledByKill(tr: seq<Sys>, acts: seq<Action>, k: nat, p: nat) returns (j: nat)
    requires Run(tr, acts) && k < |tr| && p < |tr[k].procs| && tr[k].procs[p].killed
    ensures j < k <= |acts| && acts[j] == Kill(p)
    ensures forall i :: j < i <= k ==> p < |tr[i].procs| && tr[i].procs[p].killed
  {
    hide Run, Inv, Guard, Apply;
    Length(tr, acts);
    if k == 0 {
      NobodyKilled(tr, acts, p);
    } else {
      StepOf(tr, acts, k - 1);
      KilledBefore(tr[k - 1], acts[k - 1], p);
      j := k - 1;
      if acts[k - 1] != Kill(p) { j := KilledByKill(tr, acts, k - 1, p); }
    }
  }

  lemma NobodyKilled(tr: seq<Sys>, acts: seq<Action>, p: nat)
    requires Run(tr, acts) && p < |tr[0].procs|
    ensures !tr[0].procs[p].killed
  {
  }

  // Past wait's test of killed and before a wakeup.
  predicate Settling(q: Proc) {
    q.pc == Checked || Dozing(q)
  }

  lemma SettlingBefore(s: Sys, a: Action, p: nat)
    requires Inv(s) && Guard(s, a) && p < |s.procs| && p < |Apply(s, a).procs|
    requires Settling(Apply(s, a).procs[p]) && Apply(s, a).procs[p].killed
    ensures (a == Kill(p) && s.procs[p].pc == Checked) || (Settling(s.procs[p]) && s.procs[p].killed)
  {
    hide Inv, AdvanceOf;
    hide Guard;
    KilledBefore(s, a, p);
    OwnLock(s, p);
    if !a.Advance? { SettlingRest(s, a, p); }
    else if a.p == p { SettlingOwn(s, p); }
    else { SettlingOther(s, a.p, p); }
  }

  lemma OwnLock(s: Sys, p: nat)
    requires Inv(s) && p < |s.procs|
    ensures s.procs[p].pc == Sleep1 || s.procs[p].pc == Sleep2 ==> s.procs[p].lock == Some(p)
  {
    hide Inv;
    Facts(s, p, p);
  }

  lemma SettlingRest(s: Sys, a: Action, p: nat)
    requires Guard(s, a) && !a.Advance? && p < |s.procs| && p < |Apply(s, a).procs|
    requires s.procs[p].pc == Sleep1 || s.procs[p].pc == Sleep2 ==> s.procs[p].lock == Some(p)
    ensures Settling(Apply(s, a).procs[p]) ==> (a == Kill(p) && s.procs[p].pc == Checked) || (a != Kill(p) && Settling(s.procs[p]))
  {
    hide AdvanceOf;
  }

  lemma SettlingOther(s: Sys, h: nat, p: nat)
    requires Guard(s, Advance(h)) && p < |s.procs| && p < |AdvanceOf(s, h).procs| && h != p
    ensures Settling(AdvanceOf(s, h).procs[p]) ==> Settling(s.procs[p])
  {
    hide AdvanceOf, Ending, Guard;
    BeforeOther(s, h, p);
    NoNewSleeper(s, h, p);
  }

  lemma NoNewSleeper(s: Sys, h: nat, p: nat)
    requires Guard(s, Advance(h)) && p < |s.procs| && p < |AdvanceOf(s, h).procs| && h != p
    ensures AdvanceOf(s, h).procs[p].state == Sleeping ==> s.procs[p].state == Sleeping
  {
  }

  lemma SettlingOwn(s: Sys, p: nat)
    requires Guard(s, Advance(p)) && p < |AdvanceOf(s, p).procs| && s.procs[p].killed
    ensures Settling(AdvanceOf(s, p).procs[p]) ==> Settling(s.procs[p])
  {
  }

  // A process that is killed and yet asleep in wait was killed between wait's
  // test and its sleep.
  lemma {:induction false} KilledAsleep(tr: seq<Sys>, acts: seq<Action>, k: nat, p: nat) returns (j: nat)
    requires Run(tr, acts) && k < |tr| && p < |tr[k].procs| && Settling(tr[k].procs[p]) && tr[k].procs[p].killed
    ensures j < k <= |acts| && acts[j] == Kill(p) && p < |tr[j].procs| && tr[j].procs[p].pc == Checked
    ensures forall i :: j < i <= k ==> p < |tr[i].procs| && Settling(tr[i].procs[p])
  {
    hide Run, Inv, Guard, Apply, Dozing;
    Length(tr, acts);
    if k == 0 {
      NobodyKilled(tr, acts, p);
    } else {
      StepOf(tr, acts, k - 1);
      SettlingBefore(tr[k - 1], acts[k - 1], p);
      j := k - 1;
      if !(acts[k - 1] == Kill(p) && tr[k - 1].procs[p].pc == Checked) { j := KilledAsleep(tr, acts, k - 1, p); }
    }
  }

  // ---------- such a run ----------

  // Two processes: init, and a child that it has forked.
  function Entry(state: State, parent: Opt, chan: Chan, lock: Opt, killed: bool, pid: nat, pc: Pc): Proc {
    Proc(state, parent, chan, lock, killed, pid, 0, 0, 0, 0, pc)
  }

  function Parent(state: State, killed: bool, pc: Pc): Proc {
    Entry(state, None, if pc == Asleep then OfProc(0) else NoChan,
          if pc == Sleep1 || pc == Sleep2 then Some(0) else None, killed, 1, pc)
  }

  function Child(state: State, parent: Opt, lock: Opt): Proc {
    Entry(state, parent, NoChan, lock, false, if state == Unused then 0 else 2, User)
  }

  function Both2(p: Proc, c: Proc, waiting: bool): Sys {
    Sys([p, c], if waiting then Some(0) else None, 0, if c.state == Unused then 2 else 3)
  }

  function RaceState(i: nat): Sys {
    var kid := Child(Runnable, Some(0), None);
    match i
    case 0 => Both2(Parent(Runnable, false, User), Child(Unused, None, None), false)
    case 1 => Both2(Parent(Running, false, User), Child(Unused, None, None), false)
    case 2 => Both2(Parent(Running, false, Fork0(1)), Child(Used, None, Some(0)), false)
    case 3 => Both2(Parent(Running, false, Fork1(1)), Child(Used, None, None), false)
    case 4 => Both2(Parent(Running, false, Fork2(1)), Child(Used, Some(0), None), false)
    case 5 => Both2(Parent(Running, false, User), kid, false)
    case 6 => Both2(Parent(Running, false, Scan(0, false)), kid, true)
    case 7 => Both2(Parent(Running, false, Scan(1, false)), kid, true)
    case 8 => Both2(Parent(Running, false, Scan(2, true)), kid, true)
    case 9 => Both2(Parent(Running, false, Checked), kid, true)
    case 10 => Both2(Parent(Running, true, Checked), kid, true)
    case 11 => Both2(Parent(Running, true, Sleep1), kid, true)
    case 12 => Both2(Parent(Running, true, Sleep2), kid, false)
    case _ => Both2(Parent(Sleeping, true, Asleep), kid, false)
  }

  function RaceAct(i: nat): Action {
    match i
    case 0 => Schedule(0)
    case 1 => ForkStart(0, 1)
    case 5 => WaitStart(0)
    case 9 => Kill(0)
    case _ => Advance(0)
  }

  ghost predicate Goes(i: nat) {
    Guard(RaceState(i), RaceAct(i)) && RaceState(i + 1) == Apply(RaceState(i), RaceAct(i))
  }

  lemma RaceForks(i: nat)
    requires i < 3
    ensures Goes(i)
  {
  }

  lemma RaceChild(i: nat)
    requires 3 <= i < 5
    ensures Goes(i)
  {
  }

  lemma RaceScans(i: nat)
    requires 5 <= i < 7
    ensures Goes(i)
  {
  }

  lemma RaceChecks(i: nat)
    requires 7 <= i < 9
    ensures Goes(i)
  {
  }

  lemma RaceKills(i: nat)
    requires 9 <= i < 11
    ensures Goes(i)
  {
  }

  lemma RaceSleeps(i: nat)
    requires 11 <= i < 13
    ensures Goes(i)
  {
  }

  lemma RaceStep(i: nat)
    requires i < 13
    ensures Goes(i)
  {
    hide Goes;
    if i < 3 { RaceForks(i); } else if i < 5 { RaceChild(i); } else if i < 7 { RaceScans(i); }
    else if i < 9 { RaceChecks(i); } else if i < 11 { RaceKills(i); } else { RaceSleeps(i); }
  }

  // init waits for its child, is killed after the test, and falls asleep.
  lemma KillLost() returns (tr: seq<Sys>, acts: seq<Action>)
    ensures Run(tr, acts) && |tr| == 14 && |tr[9].procs| == |tr[13].procs| == 2
    ensures acts[9] == Kill(0) && tr[9].procs[0].pc == Checked
    ensures var q := tr[13].procs[0]; q.killed && q.state == Sleeping && q.pc == Asleep
  {
    tr, acts := seq(14, i requires 0 <= i < 14 => RaceState(i)), seq(13, i requires 0 <= i < 13 => RaceAct(i));
    forall i | 0 <= i < |acts| ensures Guard(tr[i], acts[i]) && tr[i + 1] == Apply(tr[i], acts[i]) {
      RaceStep(i);
      assert Goes(i);
    }
    assert Boot(tr[0]);
    hide Guard, Apply;
  }
}
