/** What every step of the process protocol keeps. */
module ProcessSafety {
  import opened Bits
  import opened Keyboard
  import opened Processes

  // ----- the invariant -----

  ghost predicate OnList(s: State, p: int) { 0 <= p < |s.procs| && p in s.list }

  ghost predicate DeadTarget(s: State, t: int) { OnList(s, t) && s.procs[t].state == Dead }

  ghost predicate LiveTarget(s: State, t: int) { OnList(s, t) && s.procs[t].state != Dead }

  /** One process on the list. A process blocked on a pid has a target on the list that is not dead; one
      that has been woken from a wait finds its target dead. */
  ghost predicate ListedOk(s: State, p: nat)
    requires p < |s.procs|
  {
    var q := s.procs[p];
    match q.state
    case Running => p == s.curr && q.target == -1 && (q.cont.InWait? ==> DeadTarget(s, q.cont.pid))
    case Ready => q.target == -1 && (q.cont.InWait? ==> DeadTarget(s, q.cont.pid))
    case Blocked =>
      (match q.block
       case OnPid => q.cont == InWait(q.target) && LiveTarget(s, q.target)
       case OnInput => q.cont == InGetChar && q.target == -1
       case OnSleep => q.cont == InCall && q.target == -1
       case NoBlock => false)
    case Dead => true
  }

  ghost predicate ProcOk(s: State, p: nat)
    requires p < |s.procs|
  {
    if p == 0 then
      && (s.procs[0].state == Ready || s.procs[0].state == Running) && (s.procs[0].state == Running ==> s.curr == 0)
      && (s.procs[0].cont == User || s.procs[0].cont == InCall) && s.procs[0].target == -1
    else if p in s.list then ListedOk(s, p)
    else s.procs[p].state == Dead
  }

  /** No two live processes wait for the same pid. */
  ghost predicate PairOk(s: State, p: nat, q: nat)
    requires p < |s.procs| && q < |s.procs|
  {
    p != q && OnList(s, p) && OnList(s, q) && s.procs[p].state != Dead && s.procs[q].state != Dead && s.procs[p].cont.InWait? ==>
      s.procs[q].cont != s.procs[p].cont
  }

  ghost predicate ListOk(s: State) {
    && |s.procs| > 0 && Distinct(s.list) && (forall i :: 0 <= i < |s.list| ==> 0 < s.list[i] < |s.procs|)
    && s.curr < |s.procs| && (s.curr == 0 || s.curr in s.list)
  }

  /** What holds while schedule is at work; the current process may be dead or blocked. */
  ghost predicate Base(s: State) {
    && ListOk(s) && RingOk(s.kbd) && !s.lost && s.procs[s.curr].state != Ready
    && (forall p: nat {:trigger ProcOk(s, p)} :: p < |s.procs| ==> ProcOk(s, p))
    && (forall p: nat, q: nat {:trigger PairOk(s, p, q)} :: p < |s.procs| && q < |s.procs| ==> PairOk(s, p, q))
  }

  /** Between steps the current process runs user code. */
  ghost predicate Inv(s: State) {
    Base(s) && s.procs[s.curr].state == Running && s.procs[s.curr].cont == User
  }

  /** Exactly one process runs, and it is the current one. */
  lemma OneRunning(s: State)
    requires Inv(s)
    ensures forall p: nat :: p < |s.procs| ==> (s.procs[p].state == Running <==> p == s.curr)
  {
    forall p: nat | p < |s.procs| ensures s.procs[p].state == Running <==> p == s.curr { assert ProcOk(s, p); }
  }

  /** Whoever is blocked on a pid waits for a process that is on the list and not dead. */
  lemma WaitersHaveTargets(s: State, p: nat)
    requires Inv(s) && p < |s.procs| && s.procs[p].state == Blocked && s.procs[p].block == OnPid
    ensures LiveTarget(s, s.procs[p].target)
  {
    assert ProcOk(s, p);
  }

  /** What the steps ask of their caller: the idle process only yields, a faulting process is on the list,
      and nobody waits for a process that somebody else is already waiting for. */
  ghost predicate Allowed(s: State, e: Event) {
    && (s.curr == 0 ==> e == Tick || e.Key? || e == Yield)
    && (e.Wait? ==> forall p: nat :: OnList(s, p) && s.procs[p].state == Blocked && s.procs[p].block == OnPid ==> s.procs[p].target != e.pid)
  }

  // ----- list facts -----

  lemma {:induction false} RemoveIs(list: seq<nat>, p: nat, q: nat)
    requires Distinct(list)
    ensures q in Remove(list, p) <==> q in list && q != p
    ensures Distinct(Remove(list, p))
    decreases |list|
  {
    if list != [] {
      RemoveIs(list[1..], p, q);
      assert list == [list[0]] + list[1..];
      if list[0] != p {
        forall i, j | 0 <= i < j < |Remove(list, p)| ensures Remove(list, p)[i] != Remove(list, p)[j] {
          if i == 0 { RemoveIs(list[1..], p, list[0]); }
        }
      }
    }
  }

  lemma OrderMembers(list: seq<nat>, curr: nat, q: nat)
    ensures q in Order(list, curr) <==> q in list
  {
    var k := Index(list, curr);
    if k + 1 < |list| { assert list == list[..k + 1] + list[k + 1..]; }
  }

  // ----- the switch -----

  lemma PickOk(s: State)
    requires Base(s)
    ensures Pick(s) < |s.procs| && (Pick(s) == 0 || (Pick(s) in s.list && s.procs[Pick(s)].state == Ready))
    ensures Pick(s) == s.curr ==> s.curr == 0
  {
    OrderMembers(s.list, s.curr, Pick(s));
  }

  /** After the switch the chosen process runs, possibly with something left to do. */
  lemma SwitchKeeps(s: State)
    requires Leaving(s)
    ensures Base(Switch(s)) && Switch(s).procs[Switch(s).curr].state == Running
  {
    PickOk(s);
    var r := Switch(s);
    assert ProcOk(s, s.curr) && ProcOk(s, r.curr);
    forall p: nat | p < |r.procs| ensures ProcOk(r, p) { SwitchProc(s, p); }
    forall p: nat, q: nat | p < |r.procs| && q < |r.procs| ensures PairOk(r, p, q) { assert PairOk(s, p, q); }
  }

  lemma SwitchProc(s: State, p: nat)
    requires Leaving(s) && p < |s.procs|
    ensures ProcOk(Switch(s), p)
  {
    PickOk(s);
    assert ProcOk(s, p) && ProcOk(s, s.curr) && ProcOk(s, Switch(s).curr);
  }

  /** The continuation runs: a finished wait finds its target dead, returns its exit code and takes it off
      the list. */
  lemma ResumeKeeps(s: State)
    requires Base(s) && s.procs[s.curr].state == Running
    ensures Inv(Resume(s))
    ensures s.procs[s.curr].cont.InWait? ==>
      var t := s.procs[s.curr].cont.pid;
      DeadTarget(s, t) && Resume(s).procs[s.curr].result == s.procs[t].exitCode && t !in Resume(s).list
  {
    assert ProcOk(s, s.curr);
    match s.procs[s.curr].cont
    case InWait(t) =>
      UnlinkKeeps(s, t);
    case _ =>
      ResumeCalm(s);
  }

  lemma ResumeCalm(s: State)
    requires Base(s) && s.procs[s.curr].state == Running && !s.procs[s.curr].cont.InWait?
    ensures Inv(Resume(s))
  {
    var r := Resume(s);
    ResumedCalmly(s);
    hide Resume;
    assert ProcOk(s, s.curr);
    forall p: nat | p < |r.procs| ensures ProcOk(r, p) { assert ProcOk(s, p); }
    forall p: nat, q: nat | p < |r.procs| && q < |r.procs| ensures PairOk(r, p, q) { assert PairOk(s, p, q); }
  }

  lemma ResumedCalmly(s: State)
    requires s.curr < |s.procs| && RingOk(s.kbd) && !s.procs[s.curr].cont.InWait?
    ensures var r := Resume(s);
            && r.list == s.list && r.curr == s.curr && r.ticks == s.ticks && r.lost == s.lost && RingOk(r.kbd)
            && |r.procs| == |s.procs| && (forall p :: 0 <= p < |s.procs| && p != s.curr ==> r.procs[p] == s.procs[p])
            && r.procs[s.curr] == s.procs[s.curr].(cont := User, result := r.procs[s.curr].result)
  {
  }

  lemma ResumedWait(s: State, t: nat)
    requires s.curr < |s.procs| && RingOk(s.kbd) && s.procs[s.curr].cont == InWait(t) && OnList(s, t)
    ensures var r := Resume(s);
            && r.list == Remove(s.list, t) && r.curr == s.curr && r.lost == s.lost && r.kbd == s.kbd
            && r.procs == s.procs[s.curr := s.procs[s.curr].(cont := User, result := s.procs[t].exitCode)]
  {
  }

  lemma UnlinkKeeps(s: State, t: nat)
    requires Base(s) && s.procs[s.curr].state == Running && s.procs[s.curr].cont == InWait(t)
    ensures Inv(Resume(s)) && DeadTarget(s, t) && t !in Resume(s).list && Resume(s).procs[s.curr].result == s.procs[t].exitCode
  {
    hide Resume, Remove;
    var r := Resume(s);
    assert ProcOk(s, s.curr);
    ResumedWait(s, t);
    RemoveIs(s.list, t, t);
    forall q: nat ensures q in r.list <==> q in s.list && q != t { RemoveIs(s.list, t, q); }
    forall i | 0 <= i < |r.list| ensures 0 < r.list[i] < |r.procs| { assert r.list[i] in s.list; }
    forall p: nat | p < |r.procs| ensures ProcOk(r, p) {
      assert ProcOk(s, p);
      assert PairOk(s, s.curr, p);
    }
    forall p: nat, q: nat | p < |r.procs| && q < |r.procs| ensures PairOk(r, p, q) { assert PairOk(s, p, q); }
  }

  // ----- every step keeps the invariant -----

  /** Whether a step calls schedule. */
  predicate Calls(s: State, e: Event)
    requires s.curr < |s.procs| && RingOk(s.kbd)
  {
    match e
    case Kill(pid) => pid == s.curr && s.curr in s.list
    case Wait(pid) => 0 <= pid < |s.procs| && pid in s.list && s.procs[pid].state != Dead
    case GetCharCall => Get(s.kbd).0 < 0
    case Key(_) => false
    case Spawn(_) => false
    case GetCharNb => false
    case _ => true
  }

  /** The state in which such a step enters schedule, with the continuation in place. */
  function Entered(s: State, e: Event): State
    requires s.curr < |s.procs| && RingOk(s.kbd) && Calls(s, e)
  {
    var me := s.procs[s.curr];
    match e
    case Tick => WithCont(s.(ticks := s.ticks + 1, procs := Ticked(s.procs, s.list, s.curr, s.ticks + 1)), User)
    case Fault => WithCont(s.(procs := FaultWoken(s.procs[s.curr := me.(state := Dead)], s.list, s.curr)), User)
    case Exit(code) => WithCont(s.(procs := Woken(s.procs[s.curr := me.(state := Dead, exitCode := code)], s.list, s.curr)), User)
    case Kill(pid) => WithCont(s.(procs := Woken(s.procs[pid := s.procs[pid].(state := Dead)], s.list, pid)), InCall)
    case Wait(pid) => WithCont(SetProc(s, s.curr, me.(state := Blocked, block := OnPid, target := pid)), InWait(pid))
    case Sleep(ms) => WithCont(SetProc(s, s.curr, me.(state := Blocked, block := OnSleep, wakeAt := (s.ticks + ms) % WORD)), InCall)
    case GetCharCall => WithCont(SetProc(s, s.curr, me.(state := Blocked, block := OnInput)), InGetChar)
    case _ => WithCont(s, InCall)
  }

  function WithCont(s: State, cont: Cont): State
    requires s.curr < |s.procs|
  {
    SetProc(s, s.curr, s.procs[s.curr].(cont := cont))
  }

  lemma StepSchedules(s: State, e: Event, plain: seq<int>, shifted: seq<int>)
    requires s.curr < |s.procs| && RingOk(s.kbd) && TablesOk(plain, shifted) && Calls(s, e)
    ensures Entered(s, e).curr == s.curr && |Entered(s, e).procs| == |s.procs| && RingOk(Entered(s, e).kbd)
    ensures Step(s, e, plain, shifted) == Resume(Switch(Entered(s, e)))
  {
    EnteredShape(s, e);
    hide Ticked, Woken, FaultWoken, Resume, Switch, Typed, FirstReader, CharOf;
  }

  lemma EnteredShape(s: State, e: Event)
    requires s.curr < |s.procs| && RingOk(s.kbd) && Calls(s, e)
    ensures Entered(s, e).curr == s.curr && |Entered(s, e).procs| == |s.procs| && RingOk(Entered(s, e).kbd)
  {
  }

  /** What is left of the current process when schedule is entered: it runs on, is blocked, or is dead. */
  ghost predicate Leaving(r: State) {
    Base(r) && (r.procs[r.curr].state == Running ==> r.procs[r.curr].cont == User || r.procs[r.curr].cont == InCall)
  }

  /** A change to single processes that brings nobody back to life and moves no other continuation. */
  ghost predicate Calm(s: State, r: State) {
    && |r.procs| == |s.procs| && r.list == s.list && r.curr == s.curr && !r.lost && RingOk(r.kbd)
    && forall p: nat {:trigger r.procs[p]} :: p < |s.procs| ==>
         && (s.procs[p].state == Dead ==> r.procs[p].state == Dead && r.procs[p].exitCode == s.procs[p].exitCode)
         && (r.procs[p].state != Dead && p != s.curr ==> r.procs[p].cont == s.procs[p].cont)
  }

  lemma CalmPairs(s: State, r: State)
    requires Inv(s) && Calm(s, r)
    requires r.procs[s.curr].state == Dead || !r.procs[s.curr].cont.InWait?
             || forall p: nat :: p != s.curr && OnList(s, p) && s.procs[p].state != Dead ==> s.procs[p].cont != r.procs[s.curr].cont
    ensures forall p: nat, q: nat {:trigger PairOk(r, p, q)} :: p < |r.procs| && q < |r.procs| ==> PairOk(r, p, q)
  {
    forall p: nat, q: nat | p < |r.procs| && q < |r.procs| ensures PairOk(r, p, q) {
      assert PairOk(s, p, q);
      assert r.procs[p].state != Dead ==> s.procs[p].state != Dead;
      assert r.procs[q].state != Dead ==> s.procs[q].state != Dead;
    }
  }

  /** Who was listed in a proper state still is, one process at a time. */
  lemma EnteredProc(s: State, e: Event, p: nat)
    requires Inv(s) && Allowed(s, e) && Calls(s, e) && p < |s.procs|
    ensures ProcOk(Entered(s, e), p)
  {
    assert ProcOk(s, p);
    if p in s.list {
      var q := s.procs[p];
      EnteredTarget(s, e, q.target);
      if q.cont.InWait? { EnteredTarget(s, e, q.cont.pid); }
      if e.Wait? { EnteredTarget(s, e, e.pid); }
      if p == s.curr { EnteredSelf(s, e); } else { EnteredOne(s, e, p); }
    }
  }

  lemma EnteredTarget(s: State, e: Event, t: int)
    requires Inv(s) && Calls(s, e)
    ensures DeadTarget(s, t) ==> DeadTarget(Entered(s, e), t)
    ensures LiveTarget(s, t) && !(t == s.curr && (e.Fault? || e.Exit? || e.Kill?)) ==> LiveTarget(Entered(s, e), t)
    ensures LiveTarget(s, t) && t == s.curr && (e.Fault? || e.Exit? || e.Kill?) ==> DeadTarget(Entered(s, e), t)
  {
  }

  /** What happens before schedule is entered to a process on the list that is not the current one. */
  lemma EnteredOne(s: State, e: Event, p: nat)
    requires Inv(s) && Allowed(s, e) && Calls(s, e) && p < |s.procs| && p in s.list && ListedOk(s, p)
    requires forall t {:trigger DeadTarget(s, t)} :: DeadTarget(s, t) && (t == s.procs[p].target || (s.procs[p].cont.InWait? && t == s.procs[p].cont.pid)) ==> DeadTarget(Entered(s, e), t)
    requires LiveTarget(s, s.procs[p].target) ==>
               if s.procs[p].target == s.curr && (e.Fault? || e.Exit? || e.Kill?) then DeadTarget(Entered(s, e), s.procs[p].target)
               else LiveTarget(Entered(s, e), s.procs[p].target)
    requires p != s.curr
    ensures ListedOk(Entered(s, e), p)
  {
    assert LiveTarget(s, s.procs[p].target) ==> OnList(s, s.procs[p].target);
    EnteredEffect(s, e, p);
    hide DeadTarget, LiveTarget, Entered, Inv, Allowed, Calls;
  }

  lemma EnteredEffect(s: State, e: Event, p: nat)
    requires Inv(s) && Allowed(s, e) && Calls(s, e) && p < |s.procs| && p in s.list && p != s.curr
    ensures var r := Entered(s, e);
            var q := s.procs[p];
            && r.curr == s.curr && |r.procs| == |s.procs|
            && r.procs[p] == match e
                             case Tick => TickOne(q, false, s.ticks + 1)
                             case Fault => if FaultWakes(q, s.curr) then q.(state := Ready, target := -1) else q
                             case Exit(_) => if WaitsFor(q, s.curr) then WakeOne(q) else q
                             case Kill(_) => if WaitsFor(q, s.curr) then WakeOne(q) else q
                             case _ => q
  {
  }

  /** And to the current one. */
  lemma EnteredSelf(s: State, e: Event)
    requires Inv(s) && Allowed(s, e) && Calls(s, e) && s.curr != 0 && ListedOk(s, s.curr)
    requires e.Wait? ==> LiveTarget(Entered(s, e), e.pid)
    ensures ListedOk(Entered(s, e), s.curr)
  {
    hide DeadTarget, LiveTarget;
  }

  lemma EnteredCalm(s: State, e: Event)
    requires Inv(s) && Allowed(s, e) && Calls(s, e)
    ensures var r := Entered(s, e);
            && Calm(s, r) && r.procs[r.curr].state != Ready
            && (r.procs[r.curr].state == Running ==> r.procs[r.curr].cont == User || r.procs[r.curr].cont == InCall)
            && (r.procs[r.curr].state != Dead && r.procs[r.curr].cont.InWait? ==> e.Wait? && r.procs[r.curr].cont == InWait(e.pid))
  {
    assert ProcOk(s, s.curr);
  }

  lemma OnlyWaiter(s: State, e: Event)
    requires Inv(s) && Allowed(s, e) && Calls(s, e) && e.Wait?
    ensures forall p: nat :: p != s.curr && OnList(s, p) && s.procs[p].state != Dead ==> s.procs[p].cont != InWait(e.pid)
  {
    forall p: nat | p != s.curr && OnList(s, p) && s.procs[p].state != Dead ensures s.procs[p].cont != InWait(e.pid) { assert ProcOk(s, p); }
  }

  lemma EnteredKeeps(s: State, e: Event)
    requires Inv(s) && Allowed(s, e) && Calls(s, e)
    ensures Leaving(Entered(s, e)) && Calm(s, Entered(s, e))
  {
    hide Entered;
    var r := Entered(s, e);
    EnteredCalm(s, e);
    forall p: nat | p < |r.procs| ensures ProcOk(r, p) { EnteredProc(s, e, p); }
    if e.Wait? { OnlyWaiter(s, e); }
    CalmPairs(s, r);
  }

  /** The steps that do not call schedule. */
  lemma DirectKeeps(s: State, e: Event, plain: seq<int>, shifted: seq<int>)
    requires Inv(s) && Allowed(s, e) && TablesOk(plain, shifted) && !Calls(s, e) && e != Spawn(true)
    ensures Inv(Step(s, e, plain, shifted)) && Calm(s, Step(s, e, plain, shifted))
  {
    var r := Step(s, e, plain, shifted);
    DirectCalm(s, e, plain, shifted);
    forall p: nat | p < |r.procs| ensures ProcOk(r, p) { DirectProc(s, e, plain, shifted, p); }
    CalmPairs(s, r);
  }

  lemma DirectCalm(s: State, e: Event, plain: seq<int>, shifted: seq<int>)
    requires Inv(s) && Allowed(s, e) && TablesOk(plain, shifted) && !Calls(s, e) && e != Spawn(true)
    ensures var r := Step(s, e, plain, shifted); Calm(s, r) && r.procs[r.curr].state == Running && r.procs[r.curr].cont == User
  {
    assert ProcOk(s, s.curr);
  }

  lemma DirectProc(s: State, e: Event, plain: seq<int>, shifted: seq<int>, p: nat)
    requires Inv(s) && Allowed(s, e) && TablesOk(plain, shifted) && !Calls(s, e) && e != Spawn(true) && p < |s.procs|
    ensures ProcOk(Step(s, e, plain, shifted), p)
  {
    var r := Step(s, e, plain, shifted);
    assert ProcOk(s, p);
    assert ProcOk(s, s.curr);
    DirectCalm(s, e, plain, shifted);
    if p in s.list {
      DirectTarget(s, e, plain, shifted, s.procs[p].target);
      if s.procs[p].cont.InWait? { DirectTarget(s, e, plain, shifted, s.procs[p].cont.pid); }
      DirectOne(s, e, plain, shifted, p);
    }
  }

  lemma DirectTarget(s: State, e: Event, plain: seq<int>, shifted: seq<int>, t: int)
    requires Inv(s) && TablesOk(plain, shifted) && !Calls(s, e) && e != Spawn(true)
    ensures var r := Step(s, e, plain, shifted);
            (DeadTarget(s, t) ==> DeadTarget(r, t)) && (LiveTarget(s, t) ==> if e == Kill(t) then DeadTarget(r, t) else LiveTarget(r, t))
  {
  }

  lemma DirectOne(s: State, e: Event, plain: seq<int>, shifted: seq<int>, p: nat)
    requires Inv(s) && TablesOk(plain, shifted) && !Calls(s, e) && e != Spawn(true) && p < |s.procs| && p in s.list && ListedOk(s, p)
    requires forall t {:trigger DeadTarget(s, t)} :: DeadTarget(s, t) && (t == s.procs[p].target || (s.procs[p].cont.InWait? && t == s.procs[p].cont.pid)) ==> DeadTarget(Step(s, e, plain, shifted), t)
    requires LiveTarget(s, s.procs[p].target) ==>
               if e == Kill(s.procs[p].target) then DeadTarget(Step(s, e, plain, shifted), s.procs[p].target) else LiveTarget(Step(s, e, plain, shifted), s.procs[p].target)
    ensures ListedOk(Step(s, e, plain, shifted), p)
  {
    assert LiveTarget(s, s.procs[p].target) ==> OnList(s, s.procs[p].target);
    DirectEffect(s, e, plain, shifted, p);
    hide DeadTarget, LiveTarget, Step, Inv, Calls;
  }

  /** What a call that does not schedule does to one process. */
  lemma DirectEffect(s: State, e: Event, plain: seq<int>, shifted: seq<int>, p: nat)
    requires Inv(s) && TablesOk(plain, shifted) && !Calls(s, e) && e != Spawn(true) && p < |s.procs| && p in s.list
    ensures var r := Step(s, e, plain, shifted);
            var q, q' := s.procs[p], r.procs[p];
            && r.curr == s.curr && |r.procs| == |s.procs|
            && q' == if e == Kill(p) then q.(state := Dead)
                     else if e.Kill? && OnList(s, e.pid) && WaitsFor(q, e.pid) then WakeOne(q)
                     else if e.Key? && p != s.curr && WantsInput(q) && q'.state != q.state then q.(state := Ready, block := NoBlock)
                     else if p == s.curr then q.(result := q'.result)
                     else q
  {
  }

  lemma SpawnKeeps(s: State, plain: seq<int>, shifted: seq<int>)
    requires Inv(s) && s.curr != 0 && TablesOk(plain, shifted)
    ensures Inv(Step(s, Spawn(true), plain, shifted))
  {
    var r := Step(s, Spawn(true), plain, shifted);
    var n := |s.procs|;
    assert ProcOk(s, s.curr);
    assert r.list == [n] + s.list && |r.procs| == n + 1;
    forall i | 0 <= i < |r.list| ensures 0 < r.list[i] < |r.procs| { if i > 0 { assert r.list[i] == s.list[i - 1]; } }
    forall q: nat ensures q in r.list <==> q == n || q in s.list { }
    assert r.curr in r.list;
    forall p: nat | p < |r.procs| ensures ProcOk(r, p) { if p < n { assert ProcOk(s, p); } }
    forall p: nat, q: nat | p < |r.procs| && q < |r.procs| ensures PairOk(r, p, q) { if p < n && q < n { assert PairOk(s, p, q); } }
  }

  lemma Shape(s: State)
    requires Inv(s)
    ensures s.curr < |s.procs| && RingOk(s.kbd)
  {
  }

  /** Every allowed step keeps the invariant. */
  lemma StepKeeps(s: State, e: Event, plain: seq<int>, shifted: seq<int>)
    requires Inv(s) && Allowed(s, e) && TablesOk(plain, shifted)
    ensures Inv(Step(s, e, plain, shifted))
  {
    Shape(s);
    hide Inv, Base, Step, Entered, Resume, Switch;
    if Calls(s, e) {
      EnteredKeeps(s, e);
      StepSchedules(s, e, plain, shifted);
      SwitchKeeps(Entered(s, e));
      ResumeKeeps(Switch(Entered(s, e)));
    } else if e == Spawn(true) {
      SpawnKeeps(s, plain, shifted);
    } else {
      DirectKeeps(s, e, plain, shifted);
    }
  }

  // ----- over whole runs -----

  /** A run: each state follows from the one before by an allowed step. */
  ghost predicate Run(ss: seq<State>, es: seq<Event>, plain: seq<int>, shifted: seq<int>) {
    && TablesOk(plain, shifted) && |ss| == |es| + 1 && Inv(ss[0])
    && forall k {:trigger Follows(ss, es, plain, shifted, k)} :: 0 <= k < |es| ==> Follows(ss, es, plain, shifted, k)
  }

  ghost predicate Follows(ss: seq<State>, es: seq<Event>, plain: seq<int>, shifted: seq<int>, k: int)
    requires |ss| == |es| + 1 && 0 <= k < |es|
  {
    Allowed(ss[k], es[k]) && ss[k].curr < |ss[k].procs| && RingOk(ss[k].kbd) && TablesOk(plain, shifted)
    && ss[k + 1] == Step(ss[k], es[k], plain, shifted)
  }

  /** The state process_run leaves for the first program. */
  function Boot(): State {
    var idle, first := NewProc(-1), NewProc(-1);
    State([idle, first.(state := Running)], [1], 1, 0, Ring(seq(SIZE, _ => 0), 0, 0, false), false)
  }

  lemma BootOk()
    ensures Inv(Boot())
    ensures Boot().curr == 1 && Boot().list == [1] && |Boot().procs| == 2 && Boot().ticks == 0 && Boot().procs[1].exitCode == -1 && Unread(Boot().kbd) == []
  {
    var s := Boot();
    assert s.list[0] == 1 && 1 in s.list;
    forall p: nat | p < 2 ensures ProcOk(s, p) { }
    forall p: nat, q: nat | p < 2 && q < 2 ensures PairOk(s, p, q) { }
  }

  lemma {:induction false} RunKeeps(ss: seq<State>, es: seq<Event>, plain: seq<int>, shifted: seq<int>, k: nat)
    requires Run(ss, es, plain, shifted) && k <= |es|
    ensures Inv(ss[k])
    decreases k
  {
    hide Inv, Step, Allowed;
    if k > 0 {
      RunKeeps(ss, es, plain, shifted, k - 1);
      assert Follows(ss, es, plain, shifted, k - 1);
      StepKeeps(ss[k - 1], es[k - 1], plain, shifted);
    }
  }

  /** What never changes again: the dead stay dead, with their exit code, and nobody returns to the list. */
  ghost predicate Later(s: State, r: State) {
    && |s.procs| <= |r.procs|
    && forall p: nat {:trigger r.procs[p]} :: p < |s.procs| ==>
         && (s.procs[p].state == Dead ==> r.procs[p].state == Dead && r.procs[p].exitCode == s.procs[p].exitCode)
         && (p !in s.list ==> p !in r.list)
  }

  lemma LaterTrans(s: State, m: State, r: State)
    requires Later(s, m) && Later(m, r)
    ensures Later(s, r)
  {
  }

  lemma SwitchLater(s: State)
    requires Leaving(s)
    ensures Later(s, Switch(s))
  {
    PickOk(s);
    assert ProcOk(s, 0);
  }

  lemma ResumeLater(s: State)
    requires Base(s) && s.procs[s.curr].state == Running
    ensures Later(s, Resume(s))
  {
    assert ProcOk(s, s.curr);
    forall p: nat | p < |s.procs| ensures p !in s.list ==> p !in Resume(s).list {
      if s.procs[s.curr].cont.InWait? { RemoveIs(s.list, s.procs[s.curr].cont.pid, p); }
    }
  }

  /** No step brings a dead process back, changes its exit code, or puts a process on the list again. */
  lemma StepLater(s: State, e: Event, plain: seq<int>, shifted: seq<int>)
    requires Inv(s) && Allowed(s, e) && TablesOk(plain, shifted)
    ensures Later(s, Step(s, e, plain, shifted))
  {
    Shape(s);
    if Calls(s, e) {
      hide Inv, Base, Step, Entered, Resume, Switch;
      EnteredKeeps(s, e);
      StepSchedules(s, e, plain, shifted);
      SwitchKeeps(Entered(s, e));
      SwitchLater(Entered(s, e));
      ResumeLater(Switch(Entered(s, e)));
      LaterTrans(s, Entered(s, e), Switch(Entered(s, e)));
      LaterTrans(s, Switch(Entered(s, e)), Step(s, e, plain, shifted));
    } else if e == Spawn(true) {
      SpawnLater(s, plain, shifted);
    } else {
      DirectKeeps(s, e, plain, shifted);
    }
  }

  lemma SpawnLater(s: State, plain: seq<int>, shifted: seq<int>)
    requires Inv(s) && TablesOk(plain, shifted)
    ensures Later(s, Step(s, Spawn(true), plain, shifted))
  {
  }
}
