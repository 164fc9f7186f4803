/** What every system call and interrupt answers and does, field by field, and what becomes of an exit
code and of a sleep over a run. */
module ProcessAnswers {
  import opened Bits
  import opened Keyboard
  import opened Processes
  import opened ProcessSafety
  import opened ProcessProgress

  // ----- which process is chosen -----

  /** The i-th process from position start on, around the list, is ready. */
  predicate ReadyAt(s: State, start: nat, i: nat)
    requires start < |s.list| && i < |s.list|
  {
    var p := s.list[Wrap(|s.list|, start + i)];
    p < |s.procs| && s.procs[p].state == Ready
  }

  /** Counted from behind the current process, or from the head when it is not on the list, the chosen one
      is the first that is ready. */
  lemma PickIs(s: State, start: nat, i: nat)
    requires s.list != [] && Distinct(s.list) && start < |s.list| && i < |s.list|
    requires if s.curr in s.list then s.list[if start == 0 then |s.list| - 1 else start - 1] == s.curr else start == 0
    requires ReadyAt(s, start, i) && forall j: nat :: j < i ==> !ReadyAt(s, start, j)
    ensures Pick(s) == s.list[if start + i < |s.list| then start + i else start + i - |s.list|]
  {
    hide Order;
    var order := Order(s.list, s.curr);
    StartIs(s.list, s.curr, start);
    OrderAt(s.list, s.curr, i);
    forall j: nat | j < i ensures !(order[j] < |s.procs| && s.procs[order[j]].state == Ready) {
      OrderAt(s.list, s.curr, j);
      assert !ReadyAt(s, start, j);
    }
    FirstReadyIs(s.procs, order, i);
  }

  lemma StartIs(list: seq<nat>, curr: nat, start: nat)
    requires list != [] && Distinct(list) && start < |list|
    requires if curr in list then list[if start == 0 then |list| - 1 else start - 1] == curr else start == 0
    ensures Start(list, curr) == start
  {
    if curr in list { DistinctIndex(list, curr, if start == 0 then |list| - 1 else start - 1); }
  }

  lemma {:induction false} FirstReadyIs(procs: seq<Proc>, order: seq<nat>, i: nat)
    requires i < |order| && order[i] < |procs| && procs[order[i]].state == Ready
    requires forall j :: 0 <= j < i ==> !(order[j] < |procs| && procs[order[j]].state == Ready)
    ensures FirstReady(procs, order) == order[i]
    decreases i
  {
    if i > 0 { FirstReadyIs(procs, order[1..], i - 1); }
  }

  /** When no process on the list is ready, the idle process is chosen. */
  lemma IdleIsPicked(s: State)
    requires forall p: nat :: p in s.list && p < |s.procs| ==> s.procs[p].state != Ready
    ensures Pick(s) == 0
  {
    if Pick(s) != 0 { OrderMembers(s.list, s.curr, Pick(s)); }
  }

  // ----- exit codes -----

  /** An exit code is set by the exit of that process, to the number given, and by nothing else. */
  lemma StepExitCode(s: State, e: Event, plain: seq<int>, shifted: seq<int>, t: nat)
    requires Inv(s) && Allowed(s, e) && TablesOk(plain, shifted) && t < |s.procs|
    ensures t < |Step(s, e, plain, shifted).procs|
    ensures Step(s, e, plain, shifted).procs[t].exitCode == if e.Exit? && t == s.curr then e.code else s.procs[t].exitCode
  {
    if Calls(s, e) {
      EnteredKeeps(s, e);
      EnteredCode(s, e, t);
      StepSchedules(s, e, plain, shifted);
      SwitchedCode(Entered(s, e), t);
    }
  }

  lemma EnteredCode(s: State, e: Event, t: nat)
    requires Inv(s) && Calls(s, e) && t < |s.procs|
    ensures |Entered(s, e).procs| == |s.procs|
    ensures Entered(s, e).procs[t].exitCode == if e.Exit? && t == s.curr then e.code else s.procs[t].exitCode
  {
    hide Get;
  }

  lemma SwitchedCode(r: State, t: nat)
    requires Leaving(r) && t < |r.procs|
    ensures |Resume(Switch(r)).procs| == |r.procs| && Resume(Switch(r)).procs[t].exitCode == r.procs[t].exitCode
  {
    hide Resume, PairOk;
    PickOk(r);
    SwitchKeeps(r);
    ResumedCode(Switch(r), t);
  }

  lemma ResumedCode(n: State, t: nat)
    requires Base(n) && n.procs[n.curr].state == Running && t < |n.procs|
    ensures |Resume(n).procs| == |n.procs| && Resume(n).procs[t].exitCode == n.procs[t].exitCode
  {
    assert ProcOk(n, n.curr);
    if n.procs[n.curr].cont.InWait? { ResumedWait(n, n.procs[n.curr].cont.pid); } else { ResumedCalmly(n); }
  }

  /** A process that exits is dead, with the code given. */
  lemma ExitStores(s: State, code: int, plain: seq<int>, shifted: seq<int>)
    requires Inv(s) && Allowed(s, Exit(code)) && TablesOk(plain, shifted)
    ensures var r := Step(s, Exit(code), plain, shifted);
            s.curr < |r.procs| && r.procs[s.curr].state == Dead && r.procs[s.curr].exitCode == code
  {
    StepExitCode(s, Exit(code), plain, shifted, s.curr);
    EnteredKeeps(s, Exit(code));
    StepSchedules(s, Exit(code), plain, shifted);
    SwitchKeeps(Entered(s, Exit(code)));
    SwitchLater(Entered(s, Exit(code)));
    ResumeLater(Switch(Entered(s, Exit(code))));
  }

  /** For the rest of the run it stays dead with that code. */
  lemma ExitCodeStays(ss: seq<State>, es: seq<Event>, plain: seq<int>, shifted: seq<int>, i: nat, j: nat, t: nat, code: int)
    requires Run(ss, es, plain, shifted) && i < j <= |es| && es[i] == Exit(code) && ss[i].curr == t
    ensures t < |ss[j].procs| && ss[j].procs[t].state == Dead && ss[j].procs[t].exitCode == code
  {
    hide Step, Inv, Allowed;
    RunKeeps(ss, es, plain, shifted, i);
    assert Follows(ss, es, plain, shifted, i);
    ExitStores(ss[i], code, plain, shifted);
    RunLater(ss, es, plain, shifted, i + 1, j);
  }

  /** A waiter that goes on after the exit returns the code given to it. */
  lemma WaiterGetsCode(ss: seq<State>, es: seq<Event>, plain: seq<int>, shifted: seq<int>, i: nat, k: nat, p: nat, t: nat, code: int)
    requires Run(ss, es, plain, shifted) && i <= k < |es| && es[i] == Exit(code) && ss[i].curr == t
    requires ss[k].curr < |ss[k].procs| && RingOk(ss[k].kbd) && Chooses(ss[k], es[k], p) && p < |ss[k].procs|
    requires Entered(ss[k], es[k]).procs[p].cont == InWait(t)
    ensures ss[k + 1].curr == p < |ss[k + 1].procs| && ss[k + 1].procs[p].result == code && t !in ss[k + 1].list
  {
    hide Step, Inv, Allowed, Entered;
    RunKeeps(ss, es, plain, shifted, k);
    assert Follows(ss, es, plain, shifted, k);
    WaitReturnsExitCode(ss[k], es[k], plain, shifted, t);
    ExitCodeStays(ss, es, plain, shifted, i, k + 1, t, code);
  }

  /** A wait for a process that has exited already returns the code at once. */
  lemma LateWaitGetsCode(ss: seq<State>, es: seq<Event>, plain: seq<int>, shifted: seq<int>, i: nat, k: nat, t: nat, code: int)
    requires Run(ss, es, plain, shifted) && i < k < |es| && es[i] == Exit(code) && ss[i].curr == t
    requires es[k] == Wait(t) && t in ss[k].list
    ensures ss[k].curr < |ss[k].procs| && ss[k + 1] == Return(ss[k], code)
  {
    hide Inv, Allowed;
    RunKeeps(ss, es, plain, shifted, k);
    assert Follows(ss, es, plain, shifted, k);
    ExitCodeStays(ss, es, plain, shifted, i, k, t, code);
  }

  /** A process that never calls exit keeps the code it was created with, which is -1. */
  lemma {:induction false} NoExitNoCode(ss: seq<State>, es: seq<Event>, plain: seq<int>, shifted: seq<int>, i: nat, j: nat, t: nat)
    requires Run(ss, es, plain, shifted) && i <= j <= |es| && t < |ss[i].procs|
    requires forall k :: i <= k < j ==> !(es[k].Exit? && ss[k].curr == t)
    ensures t < |ss[j].procs| && ss[j].procs[t].exitCode == ss[i].procs[t].exitCode
    decreases j
  {
    hide Step, Inv, Allowed;
    if i < j {
      NoExitNoCode(ss, es, plain, shifted, i, j - 1, t);
      RunKeeps(ss, es, plain, shifted, j - 1);
      assert Follows(ss, es, plain, shifted, j - 1);
      StepExitCode(ss[j - 1], es[j - 1], plain, shifted, t);
    }
  }

  // ----- calls that return at once -----

  /** spawn returns the new pid; the new process is ready, at the head of the list, a child of the caller
      with exit code -1. A spawn that fails returns -1 and does nothing. */
  lemma SpawnAnswers(s: State, ok: bool, plain: seq<int>, shifted: seq<int>)
    requires Inv(s) && TablesOk(plain, shifted)
    ensures var r, n := Step(s, Spawn(ok), plain, shifted), |s.procs|;
            if !ok then r == s.(procs := s.procs[s.curr := s.procs[s.curr].(result := -1)])
            else
              && |r.procs| == n + 1 && r.procs[..n] == s.procs[s.curr := s.procs[s.curr].(result := n)]
              && r.procs[n].ppid == s.curr && r.procs[n].state == Ready && r.procs[n].block == NoBlock && r.procs[n].target == -1
              && r.procs[n].exitCode == -1 && !r.procs[n].cleaned && r.procs[n].cont == User
              && r == s.(procs := r.procs, list := [n] + s.list)
  {
  }

  /** p waits for t. */
  predicate AwaitsPid(p: Proc, t: int) { p.state == Blocked && p.block == OnPid && p.target == t }

  /** Everyone on the list who waits for t has become ready, and nobody else has changed, but for t. */
  ghost predicate WaitersReady(s: State, procs: seq<Proc>, t: nat) {
    && |procs| == |s.procs|
    && forall p: nat {:trigger procs[p]} :: p < |procs| && p != t ==>
         procs[p] == if p in s.list && AwaitsPid(s.procs[p], t) then s.procs[p].(state := Ready, block := NoBlock, target := -1) else s.procs[p]
  }

  /** kill of another process returns 0: it is dead and those who wait for it are ready. Without such a
      process it returns -1. */
  lemma KillAnswers(s: State, pid: int, plain: seq<int>, shifted: seq<int>)
    requires Inv(s) && TablesOk(plain, shifted) && pid != s.curr
    ensures var r := Step(s, Kill(pid), plain, shifted);
            if !OnList(s, pid) then r == s.(procs := s.procs[s.curr := s.procs[s.curr].(result := -1)])
            else
              && |r.procs| == |s.procs| && r.procs[pid] == s.procs[pid].(state := Dead) && r.procs[s.curr].result == 0
              && WaitersReady(s.(procs := s.procs[s.curr := s.procs[s.curr].(result := 0)]), r.procs, pid)
              && r == s.(procs := r.procs)
  {
    assert ProcOk(s, s.curr);
  }

  /** A wait for a pid that is not on the list returns -1; one for a dead process its exit code, and it
      stays on the list; any other blocks. */
  lemma WaitAnswers(s: State, pid: int, plain: seq<int>, shifted: seq<int>)
    requires Inv(s) && TablesOk(plain, shifted)
    ensures var r, me := Step(s, Wait(pid), plain, shifted), s.procs[s.curr];
            && (!OnList(s, pid) ==> r == s.(procs := s.procs[s.curr := me.(result := -1)]))
            && (DeadTarget(s, pid) ==> r == s.(procs := s.procs[s.curr := me.(result := s.procs[pid].exitCode)]))
            && (LiveTarget(s, pid) <==> Calls(s, Wait(pid)))
            && (LiveTarget(s, pid) ==> Entered(s, Wait(pid)) == s.(procs := s.procs[s.curr := me.(state := Blocked, block := OnPid, target := pid, cont := InWait(pid))]))
  {
  }

  /** A character that is waiting is returned, the oldest first; without one getchar blocks, and its
      variant that does not returns -1. */
  lemma GetCharAnswers(s: State, plain: seq<int>, shifted: seq<int>)
    requires Inv(s) && TablesOk(plain, shifted)
    ensures RingOk(s.kbd)
    ensures var r, n, chars := Step(s, GetCharCall, plain, shifted), Step(s, GetCharNb, plain, shifted), Unread(s.kbd);
            && n == s.(procs := n.procs, kbd := n.kbd) && RingOk(n.kbd)
            && n.procs == s.procs[s.curr := s.procs[s.curr].(result := if chars == [] then -1 else chars[0])]
            && Unread(n.kbd) == (if chars == [] then [] else chars[1..])
            && (chars != [] ==> r == n)
            && (chars == [] <==> Calls(s, GetCharCall))
            && (chars == [] ==> Entered(s, GetCharCall) == s.(procs := s.procs[s.curr := s.procs[s.curr].(state := Blocked, block := OnInput, cont := InGetChar)]))
  {
    hide Unread, Get;
    GetIsDequeue(s.kbd);
  }

  // ----- calls that schedule -----

  /** What exit, a fault, sleep and yield have done when schedule is entered. */
  lemma EntersAs(s: State, e: Event)
    requires Inv(s) && Allowed(s, e) && Calls(s, e)
    ensures var r, me := Entered(s, e), s.procs[s.curr];
            && r == s.(procs := r.procs, ticks := if e == Tick then s.ticks + 1 else s.ticks) && |r.procs| == |s.procs|
            && (e.Exit? ==> WaitersReady(s, r.procs, s.curr) && r.procs[s.curr] == me.(state := Dead, exitCode := e.code))
            && (e.Kill? ==> WaitersReady(s, r.procs, s.curr) && r.procs[s.curr] == me.(state := Dead, cont := InCall))
            && (e.Sleep? ==> r.procs == s.procs[s.curr := me.(state := Blocked, block := OnSleep, wakeAt := (s.ticks + e.ms) % 0x1_0000_0000, cont := InCall)])
            && (e == Yield ==> r.procs == s.procs[s.curr := me.(cont := InCall)])
  {
    hide Get;
    assert ProcOk(s, s.curr);
  }

  /** A fault kills the process; whoever is blocked on it as a target becomes ready. */
  lemma FaultEnters(s: State)
    requires Inv(s) && Allowed(s, Fault)
    ensures Calls(s, Fault)
    ensures var procs := Entered(s, Fault).procs;
            && |procs| == |s.procs| && procs[s.curr] == s.procs[s.curr].(state := Dead)
            && forall p: nat {:trigger procs[p]} :: p < |procs| && p != s.curr ==>
                 procs[p] == if p in s.list && s.procs[p].state == Blocked && s.procs[p].target == s.curr
                             then s.procs[p].(state := Ready, target := -1) else s.procs[p]
  {
    assert ProcOk(s, s.curr);
  }

  /** A process chosen in the middle of yield or sleep returns 0; one chosen in the middle of getchar takes
      the oldest character there is, or -1 when somebody else was faster. */
  lemma ChosenReturns(s: State, e: Event, plain: seq<int>, shifted: seq<int>, p: nat)
    requires Inv(s) && Allowed(s, e) && TablesOk(plain, shifted) && Chooses(s, e, p) && p < |s.procs|
    ensures RingOk(s.kbd) && |Entered(s, e).procs| == |s.procs|
    ensures var r, cont, chars := Step(s, e, plain, shifted), Entered(s, e).procs[p].cont, Unread(s.kbd);
            && r.curr == p < |r.procs| && r.procs[p].state == Running && r.procs[p].cont == User && RingOk(r.kbd)
            && (cont == InCall ==> r.procs[p].result == 0 && r.kbd == s.kbd)
            && (cont == User ==> r.procs[p].result == Entered(s, e).procs[p].result && r.kbd == s.kbd)
            && (cont == InGetChar ==> r.procs[p].result == (if chars == [] then -1 else chars[0]) && Unread(r.kbd) == (if chars == [] then [] else chars[1..]))
  {
    hide Unread, Get, Remove;
    EnteredKeeps(s, e);
    StepSchedules(s, e, plain, shifted);
    SwitchKeeps(Entered(s, e));
    ResumeKeeps(Switch(Entered(s, e)));
    KbdKept(s, e);
    GetIsDequeue(s.kbd);
  }

  lemma KbdKept(s: State, e: Event)
    requires Inv(s) && Calls(s, e)
    ensures Entered(s, e).kbd == s.kbd && Switch(Entered(s, e)).kbd == s.kbd
  {
    hide Get;
  }

  // ----- keys -----

  /** The first process on the list that is blocked on input. */
  ghost predicate FirstBlockedReader(s: State, p: nat) {
    exists i :: 0 <= i < |s.list| && s.list[i] == p < |s.procs| && s.procs[p].state == Blocked && s.procs[p].block == OnInput
      && forall j :: 0 <= j < i && s.list[j] < |s.procs| ==> !(s.procs[s.list[j]].state == Blocked && s.procs[s.list[j]].block == OnInput)
  }

  /** A key that gives a character wakes the first process on the list that waits for one, and nobody else;
      any other key wakes nobody. */
  lemma KeyWakes(s: State, code: nat, plain: seq<int>, shifted: seq<int>)
    requires Inv(s) && TablesOk(plain, shifted)
    ensures RingOk(s.kbd)
    ensures var r, c := Step(s, Key(code), plain, shifted), CharOf(s.kbd, code, plain, shifted);
            && r == s.(procs := r.procs, kbd := Typed(s.kbd, code, plain, shifted)) && |r.procs| == |s.procs|
            && forall p: nat {:trigger r.procs[p]} :: p < |s.procs| ==>
                 r.procs[p] == if c != 0 && FirstBlockedReader(s, p) then s.procs[p].(state := Ready, block := NoBlock) else s.procs[p]
  {
    hide Typed, CharOf;
    var r, i := Step(s, Key(code), plain, shifted), FirstReader(s.procs, s.list);
    ReaderIsFirst(s.procs, s.list);
    forall p: nat | p < |s.procs| ensures FirstBlockedReader(s, p) <==> i < |s.list| && s.list[i] == p {
      if i < |s.list| && s.list[i] == p { assert FirstBlockedReader(s, p); }
    }
  }

  lemma {:induction false} ReaderIsFirst(procs: seq<Proc>, list: seq<nat>)
    ensures forall j :: 0 <= j < FirstReader(procs, list) && list[j] < |procs| ==> !(procs[list[j]].state == Blocked && procs[list[j]].block == OnInput)
    ensures FirstReader(procs, list) <= |list|
    ensures FirstReader(procs, list) == |list| || (list[FirstReader(procs, list)] < |procs| && procs[list[FirstReader(procs, list)]].state == Blocked && procs[list[FirstReader(procs, list)]].block == OnInput)
    decreases |list|
  {
    if list != [] { ReaderIsFirst(procs, list[1..]); }
  }

  // ----- sleep -----

  /** The first tick that can wake a process which called sleep(ms) at tick t. */
  function Due(t: nat, ms: nat): nat { if ms == 0 then t + 1 else t + ms }

  ghost predicate Asleep(s: State, p: nat, wakeAt: nat) {
    OnList(s, p) && s.procs[p].state == Blocked && s.procs[p].block == OnSleep && s.procs[p].wakeAt == wakeAt
  }

  /** A blocked process is as schedule found it when the step is over. */
  lemma BlockedStays(s: State, e: Event, plain: seq<int>, shifted: seq<int>, p: nat)
    requires Inv(s) && Allowed(s, e) && TablesOk(plain, shifted) && Calls(s, e) && p < |s.procs| && p in s.list
    requires Entered(s, e).procs[p].state == Blocked
    ensures var r := Step(s, e, plain, shifted); p < |r.procs| && p in r.list && r.procs[p] == Entered(s, e).procs[p]
  {
    hide Step, Entered, Switch, Resume, Leaving, Inv;
    Shape(s);
    EnteredKeeps(s, e);
    SameList(s, e);
    StepSchedules(s, e, plain, shifted);
    BlockedThrough(Entered(s, e), p);
  }

  lemma SameList(s: State, e: Event)
    requires Inv(s) && Calls(s, e)
    ensures Entered(s, e).list == s.list && |Entered(s, e).procs| == |s.procs|
  {
    hide Get;
  }

  lemma BlockedThrough(m: State, p: nat)
    requires Leaving(m) && p < |m.procs| && p in m.list && m.procs[p].state == Blocked
    ensures var r := Resume(Switch(m)); p < |r.procs| && p in r.list && r.procs[p] == m.procs[p]
  {
    hide Resume, PairOk;
    var n := Switch(m);
    SwitchKeeps(m);
    PickOk(m);
    assert ProcOk(m, m.curr) && ProcOk(n, n.curr);
    BlockedResume(n, p);
  }

  lemma BlockedResume(n: State, p: nat)
    requires Base(n) && n.procs[n.curr].state == Running && p < |n.procs| && p in n.list && p != n.curr && n.procs[p].state != Dead
    ensures var r := Resume(n); p < |r.procs| && p in r.list && r.procs[p] == n.procs[p]
  {
    assert ProcOk(n, n.curr);
    if n.procs[n.curr].cont.InWait? {
      ResumedWait(n, n.procs[n.curr].cont.pid);
      RemoveIs(n.list, n.procs[n.curr].cont.pid, p);
    } else {
      ResumedCalmly(n);
    }
  }

  lemma TicksStep(s: State, e: Event, plain: seq<int>, shifted: seq<int>)
    requires Inv(s) && Allowed(s, e) && TablesOk(plain, shifted)
    ensures Step(s, e, plain, shifted).ticks == if e == Tick then s.ticks + 1 else s.ticks
  {
    if Calls(s, e) {
      hide Inv, Step;
      EntersAs(s, e);
      StepSchedules(s, e, plain, shifted);
      TicksThrough(Entered(s, e));
    } else {
      hide Get, Typed;
    }
  }

  lemma TicksThrough(m: State)
    requires m.curr < |m.procs| && RingOk(m.kbd)
    ensures Resume(Switch(m)).ticks == m.ticks
  {
    hide Get, Remove;
  }

  lemma NotIdle(s: State, e: Event)
    requires Inv(s) && Allowed(s, e) && e != Tick && e != Yield && !e.Key?
    ensures s.curr < |s.procs| && RingOk(s.kbd) && s.curr in s.list && s.ticks >= 0
  {
  }

  lemma FallsAsleep(s: State, ms: nat, plain: seq<int>, shifted: seq<int>)
    requires Inv(s) && Allowed(s, Sleep(ms)) && TablesOk(plain, shifted) && s.ticks + ms < WORD
    ensures Asleep(Step(s, Sleep(ms), plain, shifted), s.curr, s.ticks + ms)
  {
    hide Step, Entered, Inv, Base;
    NotIdle(s, Sleep(ms));
    EntersAs(s, Sleep(ms));
    BlockedStays(s, Sleep(ms), plain, shifted, s.curr);
  }

  /** One more step of a sleep. */
  lemma SleepsOn(s: State, e: Event, plain: seq<int>, shifted: seq<int>, p: nat, wakeAt: nat)
    requires Inv(s) && Allowed(s, e) && TablesOk(plain, shifted) && Asleep(s, p, wakeAt)
    ensures var r := Step(s, e, plain, shifted);
            && p < |r.procs|
            && if e == Tick && s.ticks + 1 >= wakeAt then r.procs[p].state == Ready || r.procs[p].state == Running
               else Asleep(r, p, wakeAt) || r.procs[p].state == Dead
  {
    hide Step, Entered, Get;
    SleeperWakes(s, e, plain, shifted, p);
    StepLater(s, e, plain, shifted);
    if Calls(s, e) {
      EnteredKeeps(s, e);
      if Entered(s, e).procs[p].state == Blocked {
        BlockedStays(s, e, plain, shifted, p);
      } else {
        StepSchedules(s, e, plain, shifted);
        SwitchLater(Entered(s, e));
        SwitchKeeps(Entered(s, e));
        ResumeLater(Switch(Entered(s, e)));
        ReadyGoesOn(Entered(s, e), p);
      }
    } else {
      DirectList(s, e, plain, shifted, p);
    }
  }

  lemma ReadyGoesOn(m: State, p: nat)
    requires Leaving(m) && p < |m.procs| && m.procs[p].state == Ready
    ensures var r := Resume(Switch(m)); p < |r.procs| && (r.procs[p].state == Ready || r.procs[p].state == Running)
  {
    hide Resume, PairOk;
    PickOk(m);
    SwitchKeeps(m);
    StateThrough(Switch(m), p);
  }

  lemma StateThrough(n: State, p: nat)
    requires Base(n) && n.procs[n.curr].state == Running && p < |n.procs|
    ensures p < |Resume(n).procs| && Resume(n).procs[p].state == n.procs[p].state
  {
    assert ProcOk(n, n.curr);
    if n.procs[n.curr].cont.InWait? { ResumedWait(n, n.procs[n.curr].cont.pid); } else { ResumedCalmly(n); }
  }

  lemma DirectList(s: State, e: Event, plain: seq<int>, shifted: seq<int>, p: nat)
    requires Inv(s) && TablesOk(plain, shifted) && !Calls(s, e) && OnList(s, p)
    ensures OnList(Step(s, e, plain, shifted), p)
  {
    hide Get, Typed;
  }

  /** sleep(ms) at tick t: the process sleeps on as long as fewer than t + ms ticks have passed (or none,
      for ms = 0), unless it is killed, and the tick that makes it t + ms wakes it. */
  lemma {:induction false} SleepsUntil(ss: seq<State>, es: seq<Event>, plain: seq<int>, shifted: seq<int>, i: nat, j: nat, p: nat, ms: nat)
    requires Run(ss, es, plain, shifted) && i < j <= |es| && es[i] == Sleep(ms) && ss[i].curr == p && ss[i].ticks + ms < WORD
    ensures p < |ss[j].procs| && ss[j].ticks >= ss[i].ticks
    ensures ss[j].ticks < Due(ss[i].ticks, ms) ==> Asleep(ss[j], p, ss[i].ticks + ms) || ss[j].procs[p].state == Dead
    ensures es[j - 1] == Tick && ss[j].ticks == Due(ss[i].ticks, ms) ==> ss[j].procs[p].state != Blocked
    decreases j
  {
    hide Step, Inv, Allowed, Asleep;
    RunKeeps(ss, es, plain, shifted, j - 1);
    assert Follows(ss, es, plain, shifted, j - 1);
    TicksStep(ss[j - 1], es[j - 1], plain, shifted);
    if i + 1 == j {
      FallsAsleep(ss[i], ms, plain, shifted);
      StillThere(ss[j], p, ss[i].ticks + ms);
    } else {
      SleepsUntil(ss, es, plain, shifted, i, j - 1, p, ms);
      StepLater(ss[j - 1], es[j - 1], plain, shifted);
      if Asleep(ss[j - 1], p, ss[i].ticks + ms) { SleepsOn(ss[j - 1], es[j - 1], plain, shifted, p, ss[i].ticks + ms); }
    }
  }

  lemma StillThere(s: State, p: nat, wakeAt: nat)
    requires Asleep(s, p, wakeAt)
    ensures p < |s.procs|
  {
  }
}
