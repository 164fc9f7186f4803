/** Bounded waiting, what a finished wait returns, and where the protocol falls short. */
module ProcessProgress {
  import opened Keyboard
  import opened Processes
  import opened ProcessSafety

  // ----- bounded waiting -----

  /** How many processes pick_next looks at before p. */
  function Distance(s: State, p: nat): nat { Index(Order(s.list, s.curr), p) }

  lemma {:induction false} IndexIs(list: seq<nat>, p: nat, i: nat)
    requires i < |list| && list[i] == p && forall j :: 0 <= j < i ==> list[j] != p
    ensures Index(list, p) == i
    decreases i
  {
    if i > 0 {
      assert list[0] != p;
      IndexIs(list[1..], p, i - 1);
    }
  }

  /** Nothing before the chosen process is ready. */
  lemma {:induction false} FirstIsFirst(procs: seq<Proc>, order: seq<nat>, p: nat)
    requires p in order && p < |procs| && procs[p].state == Ready && forall i :: 0 <= i < |order| ==> order[i] != 0
    ensures FirstReady(procs, order) in order && Index(order, FirstReady(procs, order)) <= Index(order, p)
    decreases |order|
  {
    if !(order[0] < |procs| && procs[order[0]].state == Ready) {
      assert order == [order[0]] + order[1..];
      FirstIsFirst(procs, order[1..], p);
    }
  }

  lemma OrderDistinct(list: seq<nat>, curr: nat)
    requires Distinct(list)
    ensures Distinct(Order(list, curr))
  {
  }

  /** Where the order starts. */
  function Start(list: seq<nat>, curr: nat): nat { if Index(list, curr) + 1 < |list| then Index(list, curr) + 1 else 0 }

  function Wrap(n: nat, i: nat): nat { if i < n then i else if i < n + n then i - n else 0 }

  lemma OrderAt(list: seq<nat>, curr: nat, i: nat)
    requires i < |list|
    ensures Wrap(|list|, Start(list, curr) + i) < |list| && Order(list, curr)[i] == list[Wrap(|list|, Start(list, curr) + i)]
  {
  }

  /** After q has been chosen the order starts behind q. */
  lemma Rotated(list: seq<nat>, curr: nat, q: nat, p: nat)
    requires Distinct(list) && q in list && p in list && p != q
    requires Index(Order(list, curr), q) <= Index(Order(list, curr), p)
    ensures Index(Order(list, q), p) == Index(Order(list, curr), p) - Index(Order(list, curr), q) - 1
  {
    hide Order, Index;
    var n := |list|;
    OrderMembers(list, curr, q);
    OrderMembers(list, curr, p);
    OrderDistinct(list, q);
    var i, j := Index(Order(list, curr), q), Index(Order(list, curr), p);
    OrderAt(list, curr, i);
    OrderAt(list, curr, j);
    DistinctIndex(list, q, Wrap(n, Start(list, curr) + i));
    OrderAt(list, q, j - i - 1);
    DistinctIndex(Order(list, q), p, j - i - 1);
  }

  lemma DistinctIndex(list: seq<nat>, p: nat, i: nat)
    requires Distinct(list) && i < |list| && list[i] == p
    ensures Index(list, p) == i
  {
    IndexIs(list, p, i);
  }

  /** Taking a process off the list brings nobody further back. */
  lemma {:induction false} RemoveIndex(list: seq<nat>, t: nat, p: nat)
    requires Distinct(list) && p in list && p != t
    ensures Index(Remove(list, t), p) <= Index(list, p)
    decreases |list|
  {
    assert list == [list[0]] + list[1..];
    if list[0] != t && list[0] != p { RemoveIndex(list[1..], t, p); }
  }

  lemma {:induction false} RemoveAppend(a: seq<nat>, b: seq<nat>, t: nat)
    requires Distinct(a + b)
    ensures Remove(a + b, t) == if t in a then Remove(a, t) + b else a + Remove(b, t)
    decreases |a|
  {
    if a == [] {
      assert a + b == b;
      assert a + Remove(b, t) == Remove(b, t);
    } else {
      assert (a + b)[1..] == a[1..] + b;
      assert a == [a[0]] + a[1..];
      if a[0] == t {
      } else {
        RemoveAppend(a[1..], b, t);
      }
    }
  }

  lemma OrderOf(a: seq<nat>, b: seq<nat>, q: nat)
    requires Distinct(a + b) && a != [] && a[|a| - 1] == q
    ensures Order(a + b, q) == b + a
  {
    assert (a + b)[|a| - 1] == q;
    DistinctIndex(a + b, q, |a| - 1);
    assert (a + b)[|a|..] == b && (a + b)[..|a|] == a;
    if b == [] { assert a + b == b + a; }
  }

  lemma {:induction false} RemoveLast(a: seq<nat>, t: nat)
    requires a != [] && a[|a| - 1] != t
    ensures Remove(a, t) != [] && Remove(a, t)[|Remove(a, t)| - 1] == a[|a| - 1]
    decreases |a|
  {
    if a[0] != t && |a| > 1 { RemoveLast(a[1..], t); }
  }

  /** Unlinking commutes with taking the order from behind q. */
  lemma OrderRemoved(list: seq<nat>, q: nat, t: nat)
    requires Distinct(list) && q in list && t != q
    ensures Order(Remove(list, t), q) == Remove(Order(list, q), t)
  {
    var k := Index(list, q);
    var a, b := list[..k + 1], list[k + 1..];
    assert list == a + b;
    OrderOf(a, b, q);
    RemoveAppend(a, b, t);
    RemoveLast(a, t);
    forall i, j | 0 <= i < j < |b + a| ensures (b + a)[i] != (b + a)[j] { Apart(a, b, i, j); }
    RemoveAppend(b, a, t);
    forall x: nat ensures x in Remove(a + b, t) <==> x in a + b && x != t { RemoveIs(a + b, t, x); }
    RemoveIs(list, t, t);
    if t in a {
      assert t !in b by { if t in b { InBoth(a, b, t); } }
      OrderOf(Remove(a, t), b, q);
    } else {
      OrderOf(a, Remove(b, t), q);
      if t !in b { NotRemoved(a, t); NotRemoved(b, t); }
    }
  }

  lemma Apart(a: seq<nat>, b: seq<nat>, i: nat, j: nat)
    requires Distinct(a + b) && i < j < |b + a|
    ensures (b + a)[i] != (b + a)[j]
  {
    var i', j' := if i < |b| then |a| + i else i - |b|, if j < |b| then |a| + j else j - |b|;
    assert (a + b)[i'] == (b + a)[i] && (a + b)[j'] == (b + a)[j];
  }

  lemma InBoth(a: seq<nat>, b: seq<nat>, t: nat)
    requires Distinct(a + b) && t in a
    ensures t !in b
  {
    var i := Index(a, t);
    assert (a + b)[i] == t;
    forall j | 0 <= j < |b| ensures b[j] != t { assert (a + b)[|a| + j] == b[j]; }
  }

  lemma {:induction false} NotRemoved(a: seq<nat>, t: nat)
    requires t !in a
    ensures Remove(a, t) == a
    decreases |a|
  {
    if a != [] { NotRemoved(a[1..], t); }
  }

  /** A process that is ready before schedule is called still is when it is entered. */
  lemma EnteredReady(s: State, e: Event, p: nat)
    requires Inv(s) && Allowed(s, e) && Calls(s, e) && p < |s.procs| && p != s.curr && s.procs[p].state == Ready
    ensures Entered(s, e).procs[p].state == Ready && Entered(s, e).list == s.list && Entered(s, e).curr == s.curr
  {
  }

  /** The switch and the continuation after it bring a ready process that was not chosen forward. */
  lemma SwitchCloser(r: State, p: nat)
    requires Leaving(r) && OnList(r, p) && r.procs[p].state == Ready && p != r.curr
    requires Pick(r) != p
    ensures OnList(Resume(Switch(r)), p) && Distance(Resume(Switch(r)), p) < Distance(r, p)
  {
    var q := Pick(r);
    OrderMembers(r.list, r.curr, p);
    forall i | 0 <= i < |Order(r.list, r.curr)| ensures Order(r.list, r.curr)[i] != 0 { OrderMembers(r.list, r.curr, 0); }
    FirstIsFirst(r.procs, Order(r.list, r.curr), p);
    PickOk(r);
    OrderMembers(r.list, r.curr, q);
    Rotated(r.list, r.curr, q, p);
    SwitchKeeps(r);
    ResumeCloser(Switch(r), p);
  }

  lemma ResumeCloser(s: State, p: nat)
    requires Base(s) && s.procs[s.curr].state == Running && s.curr in s.list && OnList(s, p) && s.procs[p].state == Ready
    ensures OnList(Resume(s), p) && Distance(Resume(s), p) <= Distance(s, p)
  {
    assert ProcOk(s, s.curr);
    if s.procs[s.curr].cont.InWait? {
      var t := s.procs[s.curr].cont.pid;
      RemoveIs(s.list, t, p);
      OrderRemoved(s.list, s.curr, t);
      OrderMembers(s.list, s.curr, p);
      OrderDistinct(s.list, s.curr);
      RemoveIndex(Order(s.list, s.curr), t, p);
    }
  }

  /** Each call of schedule brings a process that stays ready closer; other steps leave it where it is. */
  lemma StepCloser(s: State, e: Event, plain: seq<int>, shifted: seq<int>, p: nat)
    requires Inv(s) && Allowed(s, e) && TablesOk(plain, shifted) && e != Spawn(true)
    requires OnList(s, p) && s.procs[p].state == Ready && p < |Step(s, e, plain, shifted).procs| && Step(s, e, plain, shifted).procs[p].state == Ready
    ensures OnList(Step(s, e, plain, shifted), p)
    ensures if Calls(s, e) then Distance(Step(s, e, plain, shifted), p) < Distance(s, p) else Distance(Step(s, e, plain, shifted), p) == Distance(s, p)
  {
    if Calls(s, e) {
      EnteredKeeps(s, e);
      EnteredReady(s, e, p);
      StepSchedules(s, e, plain, shifted);
      var r := Entered(s, e);
      SwitchKeeps(r);
      if Pick(r) == p { ChosenRuns(r); }
      SwitchCloser(r, p);
    } else {
      DirectKeeps(s, e, plain, shifted);
    }
  }

  lemma ChosenRuns(r: State)
    requires Leaving(r)
    ensures Pick(r) < |Resume(Switch(r)).procs| && Resume(Switch(r)).procs[Pick(r)].state == Running
  {
    SwitchKeeps(r);
    ResumeKeeps(Switch(r));
  }

  /** The number of calls of schedule in a run. */
  ghost function CallCount(ss: seq<State>, es: seq<Event>): nat
    requires |ss| == |es| + 1 && forall k :: 0 <= k < |ss| ==> ss[k].curr < |ss[k].procs| && RingOk(ss[k].kbd)
  {
    if es == [] then 0 else
      (if Calls(ss[0], es[0]) then 1 else 0) + CallCount(ss[1..], es[1..])
  }

  /** Bounded waiting: while no process is added, a process that stays ready on a list of n is passed over
      by fewer than n calls of schedule. */
  lemma {:induction false} BoundedWaiting(ss: seq<State>, es: seq<Event>, plain: seq<int>, shifted: seq<int>, p: nat)
    requires Run(ss, es, plain, shifted) && (forall k :: 0 <= k < |es| ==> es[k] != Spawn(true))
    requires OnList(ss[0], p) && forall k :: 0 <= k < |ss| ==> p < |ss[k].procs| && ss[k].procs[p].state == Ready
    ensures forall k :: 0 <= k < |ss| ==> ss[k].curr < |ss[k].procs| && RingOk(ss[k].kbd)
    ensures CallCount(ss, es) <= Distance(ss[0], p) < |ss[0].list|
    decreases |es|
  {
    hide Inv, Step, Entered, Calls, Allowed, Distance;
    forall k | 0 <= k < |ss| ensures ss[k].curr < |ss[k].procs| && RingOk(ss[k].kbd) {
      RunKeeps(ss, es, plain, shifted, k);
      Shape(ss[k]);
    }
    DistanceBound(ss[0], p);
    if es != [] {
      assert Follows(ss, es, plain, shifted, 0);
      StepKeeps(ss[0], es[0], plain, shifted);
      StepCloser(ss[0], es[0], plain, shifted, p);
      TailRun(ss, es, plain, shifted);
      BoundedWaiting(ss[1..], es[1..], plain, shifted, p);
    }
  }

  lemma DistanceBound(s: State, p: nat)
    requires OnList(s, p)
    ensures Distance(s, p) < |s.list|
  {
    OrderMembers(s.list, s.curr, p);
  }

  lemma TailRun(ss: seq<State>, es: seq<Event>, plain: seq<int>, shifted: seq<int>)
    requires Run(ss, es, plain, shifted) && es != [] && Inv(ss[1])
    ensures Run(ss[1..], es[1..], plain, shifted)
  {
    forall k | 0 <= k < |es[1..]| ensures Follows(ss[1..], es[1..], plain, shifted, k) { assert Follows(ss, es, plain, shifted, k + 1); }
  }

  // ----- what a finished wait returns -----

  /** From s to r process p has finished its wait for t. */
  ghost predicate WaitDone(s: State, r: State, p: nat, t: int) {
    && r.curr == p < |r.procs| && 0 <= t < |r.procs| && t in s.list && t !in r.list
    && r.procs[t].state == Dead && r.procs[p].result == r.procs[t].exitCode
  }

  /** A process chosen with an unfinished wait returns the exit code of its target, which is dead, and the
      target leaves the list. */
  lemma WaitReturnsExitCode(s: State, e: Event, plain: seq<int>, shifted: seq<int>, t: int)
    requires Inv(s) && Allowed(s, e) && TablesOk(plain, shifted) && Calls(s, e)
    requires Pick(Entered(s, e)) < |s.procs| && Entered(s, e).procs[Pick(Entered(s, e))].cont == InWait(t)
    requires Pick(Entered(s, e)) != s.curr
    ensures WaitDone(s, Step(s, e, plain, shifted), Pick(Entered(s, e)), t)
  {
    var r := Entered(s, e);
    EnteredKeeps(s, e);
    StepSchedules(s, e, plain, shifted);
    SwitchKeeps(r);
    PickOk(r);
    ResumeKeeps(Switch(r));
  }

  /** The dead stay dead with their exit code, and off the list, for the rest of the run. */
  lemma {:induction false} RunLater(ss: seq<State>, es: seq<Event>, plain: seq<int>, shifted: seq<int>, i: nat, j: nat)
    requires Run(ss, es, plain, shifted) && i <= j <= |es|
    ensures Later(ss[i], ss[j])
    decreases j
  {
    hide Step, Inv, Allowed, Later;
    if i < j {
      RunLater(ss, es, plain, shifted, i, j - 1);
      RunKeeps(ss, es, plain, shifted, j - 1);
      assert Follows(ss, es, plain, shifted, j - 1);
      Advance(ss, es, plain, shifted, j - 1);
      LaterTrans(ss[i], ss[j - 1], ss[j]);
    } else {
      Stay(ss[i]);
    }
  }

  lemma Stay(s: State)
    ensures Later(s, s)
  {
  }

  lemma Advance(ss: seq<State>, es: seq<Event>, plain: seq<int>, shifted: seq<int>, k: nat)
    requires |ss| == |es| + 1 && k < |es| && Inv(ss[k]) && Follows(ss, es, plain, shifted, k)
    ensures Later(ss[k], ss[k + 1])
  {
    StepLater(ss[k], es[k], plain, shifted);
  }

  // ----- sleeping -----

  /** A tick wakes a sleeper exactly when its time has come; no other event wakes it, though one may end
      its life. */
  lemma SleeperWakes(s: State, e: Event, plain: seq<int>, shifted: seq<int>, p: nat)
    requires Inv(s) && Allowed(s, e) && TablesOk(plain, shifted) && OnList(s, p) && s.procs[p].state == Blocked && s.procs[p].block == OnSleep
    ensures var r := if Calls(s, e) then Entered(s, e) else Step(s, e, plain, shifted);
            && p < |r.procs| && (r.procs[p].state == Ready <==> e == Tick && s.ticks + 1 >= s.procs[p].wakeAt)
            && (r.procs[p].state == Ready || (r.procs[p].state == Dead && e == Kill(p)) || r.procs[p] == s.procs[p])
  {
    assert ProcOk(s, p) && ProcOk(s, s.curr);
    if Calls(s, e) {
      SleeperEntered(s, e, p);
    } else {
      SleeperStep(s, e, plain, shifted, p);
    }
  }

  lemma SleeperEntered(s: State, e: Event, p: nat)
    requires Inv(s) && Allowed(s, e) && Calls(s, e) && OnList(s, p) && p != s.curr && ListedOk(s, p)
    requires s.procs[p].state == Blocked && s.procs[p].block == OnSleep
    ensures var r := Entered(s, e);
            && p < |r.procs| && (r.procs[p].state == Ready <==> e == Tick && s.ticks + 1 >= s.procs[p].wakeAt)
            && (r.procs[p].state == Ready || (r.procs[p].state == Dead && e == Kill(p)) || r.procs[p] == s.procs[p])
  {
    hide Get;
  }

  lemma SleeperStep(s: State, e: Event, plain: seq<int>, shifted: seq<int>, p: nat)
    requires Inv(s) && Allowed(s, e) && !Calls(s, e) && TablesOk(plain, shifted) && OnList(s, p) && p != s.curr && ListedOk(s, p)
    requires s.procs[p].state == Blocked && s.procs[p].block == OnSleep
    ensures var r := Step(s, e, plain, shifted);
            && p < |r.procs| && r.procs[p].state != Ready
            && ((r.procs[p].state == Dead && e == Kill(p)) || r.procs[p] == s.procs[p])
  {
    hide Typed, Get;
  }

  // ----- where the protocol falls short -----

  /** What a process held is released by a tick that finds it dead on the list, and by nothing else. */
  lemma CleanedByTickOnly(s: State, e: Event, plain: seq<int>, shifted: seq<int>, p: nat)
    requires Inv(s) && Allowed(s, e) && TablesOk(plain, shifted) && p < |s.procs|
    ensures p < |Step(s, e, plain, shifted).procs|
    ensures Step(s, e, plain, shifted).procs[p].cleaned <==> s.procs[p].cleaned || (e == Tick && p in s.list && s.procs[p].state == Dead)
  {
    if Calls(s, e) {
      EnteredKeeps(s, e);
      EnteredCleaned(s, e, p);
      StepSchedules(s, e, plain, shifted);
      SwitchKeeps(Entered(s, e));
      SwitchCleaned(Entered(s, e), p);
    }
  }

  lemma EnteredCleaned(s: State, e: Event, p: nat)
    requires Inv(s) && Allowed(s, e) && Calls(s, e) && p < |s.procs|
    ensures Entered(s, e).procs[p].cleaned <==> s.procs[p].cleaned || (e == Tick && p in s.list && s.procs[p].state == Dead)
  {
  }

  lemma SwitchCleaned(r: State, p: nat)
    requires Leaving(r) && p < |r.procs| && Base(Switch(r)) && Switch(r).procs[Switch(r).curr].state == Running
    ensures p < |Resume(Switch(r)).procs| && Resume(Switch(r)).procs[p].cleaned == r.procs[p].cleaned
  {
    PickOk(r);
    CleanedResume(Switch(r), p);
  }

  lemma CleanedResume(s: State, p: nat)
    requires Base(s) && s.procs[s.curr].state == Running && p < |s.procs|
    ensures p < |Resume(s).procs| && Resume(s).procs[p].cleaned == s.procs[p].cleaned
  {
    assert ProcOk(s, s.curr);
  }

  /** Step k is a tick that finds p dead on the list. */
  ghost predicate Reaped(ss: seq<State>, es: seq<Event>, p: nat, k: int)
    requires |ss| == |es| + 1 && 0 <= k < |es|
  {
    es[k] == Tick && p in ss[k].list && p < |ss[k].procs| && ss[k].procs[p].state == Dead
  }

  /** Over a run: a process has been cleaned up exactly if it had been before, or some tick in between
      found it dead on the list. */
  lemma {:induction false} CleanedIffReaped(ss: seq<State>, es: seq<Event>, plain: seq<int>, shifted: seq<int>, p: nat, i: nat, j: nat)
    requires Run(ss, es, plain, shifted) && i <= j <= |es| && p < |ss[i].procs|
    ensures p < |ss[j].procs|
    ensures ss[j].procs[p].cleaned <==> ss[i].procs[p].cleaned || exists k :: i <= k < j && Reaped(ss, es, p, k)
    decreases j
  {
    hide Step, Inv, Allowed;
    if i < j {
      CleanedIffReaped(ss, es, plain, shifted, p, i, j - 1);
      RunKeeps(ss, es, plain, shifted, j - 1);
      assert Follows(ss, es, plain, shifted, j - 1);
      CleanedByTickOnly(ss[j - 1], es[j - 1], plain, shifted, p);
      assert ss[j].procs[p].cleaned <==> ss[j - 1].procs[p].cleaned || Reaped(ss, es, p, j - 1);
    }
  }

  /** So a process taken off the list before that keeps its address space and stack for ever. */
  lemma NeverCleaned(ss: seq<State>, es: seq<Event>, plain: seq<int>, shifted: seq<int>, p: nat, i: nat, j: nat)
    requires Run(ss, es, plain, shifted) && i <= j <= |es|
    requires p < |ss[i].procs| && p !in ss[i].list && !ss[i].procs[p].cleaned
    ensures p < |ss[j].procs| && !ss[j].procs[p].cleaned
  {
    hide Step, Inv, Allowed;
    CleanedIffReaped(ss, es, plain, shifted, p, i, j);
    forall k | i <= k < j ensures !Reaped(ss, es, p, k) {
      RunLater(ss, es, plain, shifted, i, k);
    }
  }

  function NoKeys(): (k: Ring)
    ensures RingOk(k)
  {
    Ring(seq(SIZE, _ => 0), 0, 0, false)
  }

  /** A parent (1) that waits for its child (2), which is running. */
  function WaitingParent(): State {
    State([NewProc(-1), NewProc(-1).(state := Blocked, block := OnPid, target := 2, cont := InWait(2)), NewProc(1).(state := Running)], [2, 1], 2, 0, NoKeys(), false)
  }

  lemma WaitingParentOk()
    ensures Inv(WaitingParent())
  {
    var s := WaitingParent();
    assert s.list[0] == 2 && s.list[1] == 1;
    assert 2 in s.list && 1 in s.list && 0 !in s.list;
    forall p: nat | p < 3 ensures ProcOk(s, p) { }
    forall p: nat, q: nat | p < 3 && q < 3 ensures PairOk(s, p, q) { }
  }

  /** The child exits and the parent runs before the next tick: the child is gone and was never cleaned up. */
  lemma ChildNeverCleaned(plain: seq<int>, shifted: seq<int>)
    requires TablesOk(plain, shifted)
    ensures Inv(WaitingParent())
    ensures var r := Step(WaitingParent(), Exit(7), plain, shifted);
            |r.procs| == 3 && r.curr == 1 && r.procs[1].result == 7 && r.list == [1] && r.procs[2].state == Dead && !r.procs[2].cleaned
  {
    WaitingParentOk();
    var s := WaitingParent();
    StepSchedules(s, Exit(7), plain, shifted);
    assert Index(s.list, 2) == 0;
  }

  // Two processes waiting for the same pid: steps of any kind, without the rule that forbids it.

  ghost predicate Sound(s: State) { s.curr < |s.procs| && RingOk(s.kbd) }

  ghost predicate AnyRun(ss: seq<State>, es: seq<Event>, plain: seq<int>, shifted: seq<int>) {
    && TablesOk(plain, shifted) && |ss| == |es| + 1
    && forall k {:trigger AnyStep(ss, es, plain, shifted, k)} :: 0 <= k < |es| ==> AnyStep(ss, es, plain, shifted, k)
  }

  ghost predicate AnyStep(ss: seq<State>, es: seq<Event>, plain: seq<int>, shifted: seq<int>, k: int)
    requires TablesOk(plain, shifted) && |ss| == |es| + 1 && 0 <= k < |es|
  {
    Sound(ss[k]) && ss[k + 1] == Step(ss[k], es[k], plain, shifted)
  }

  /** The step lets q go on. */
  ghost predicate Chooses(s: State, e: Event, q: nat)
    requires Sound(s)
  {
    Calls(s, e) && Pick(Entered(s, e)) == q && q != s.curr
  }

  /** Process q has a wait for t to finish, and t is gone; or it is too late already. */
  ghost predicate Orphan(s: State, q: nat, t: int) {
    s.lost || (0 <= t < |s.procs| && t !in s.list && q < |s.procs| && q != s.curr && s.procs[q].cont == InWait(t))
  }

  lemma {:induction false} RemoveSmaller(list: seq<nat>, p: nat, u: nat)
    ensures u in Remove(list, p) ==> u in list
  {
    if list != [] {
      RemoveSmaller(list[1..], p, u);
    }
  }

  lemma EnteredOrphan(s: State, e: Event, q: nat, t: int)
    requires Sound(s) && Calls(s, e) && Orphan(s, q, t)
    ensures Orphan(Entered(s, e), q, t) && Entered(s, e).lost == s.lost
  {
    hide Get;
  }

  lemma SwitchedOrphan(m: State, q: nat, t: int)
    requires Sound(m) && Orphan(m, q, t)
    ensures var r := Resume(Switch(m));
            Orphan(r, q, t) && (Pick(m) == q && (m.lost || q != m.curr) ==> r.lost)
  {
    var n := Switch(m);
    if n.procs[n.curr].cont.InWait? && n.procs[n.curr].cont.pid >= 0 && t >= 0 {
      RemoveSmaller(n.list, n.procs[n.curr].cont.pid, t);
    }
  }

  lemma OrphanDirect(s: State, e: Event, plain: seq<int>, shifted: seq<int>, q: nat, t: int)
    requires Sound(s) && TablesOk(plain, shifted) && !Calls(s, e) && Orphan(s, q, t)
    ensures Orphan(Step(s, e, plain, shifted), q, t)
  {
    hide Get, Typed;
  }

  /** It stays that way until q goes on, and then the kernel follows a pointer to a process that is gone. */
  lemma OrphanStep(s: State, e: Event, plain: seq<int>, shifted: seq<int>, q: nat, t: int)
    requires Sound(s) && TablesOk(plain, shifted) && Orphan(s, q, t)
    ensures Orphan(Step(s, e, plain, shifted), q, t)
    ensures Chooses(s, e, q) ==> Step(s, e, plain, shifted).lost
  {
    if Calls(s, e) {
      EnteredOrphan(s, e, q, t);
      StepSchedules(s, e, plain, shifted);
      SwitchedOrphan(Entered(s, e), q, t);
    } else {
      OrphanDirect(s, e, plain, shifted, q, t);
    }
  }

  /** The first waiter goes on and takes the target off the list. */
  lemma FirstGoesOn(s: State, e: Event, plain: seq<int>, shifted: seq<int>, p: nat, q: nat, t: int)
    requires ButForPairs(s) && TablesOk(plain, shifted) && p != q && p < |s.procs| && q < |s.procs|
    requires s.procs[p].cont == InWait(t) && s.procs[q].cont == InWait(t) && Chooses(s, e, p)
    ensures Orphan(Step(s, e, plain, shifted), q, t)
  {
    hide Entered, Switch, Resume, Step, Orphan;
    StepSchedules(s, e, plain, shifted);
    EnteredWaiters(s, e, p, q, t);
    SwitchToWaiter(Entered(s, e), p, q, t);
    TargetTaken(Switch(Entered(s, e)), q, t);
  }

  lemma SwitchToWaiter(m: State, p: nat, q: nat, t: int)
    requires m.curr < |m.procs| && p < |m.procs| && q < |m.procs| && p != q && Pick(m) == p != m.curr && q != m.curr
    requires m.procs[p].cont == InWait(t) && m.procs[q].cont == InWait(t)
    ensures var n := Switch(m); n.curr == p && |n.procs| == |m.procs| && n.list == m.list && n.kbd == m.kbd && n.procs[p].cont == n.procs[q].cont == InWait(t)
  {
  }

  lemma TargetTaken(n: State, q: nat, t: int)
    requires n.curr < |n.procs| && q < |n.procs| && q != n.curr && Distinct(n.list) && RingOk(n.kbd)
    requires n.procs[n.curr].cont == n.procs[q].cont == InWait(t)
    ensures Orphan(Resume(n), q, t)
  {
    if t >= 0 {
      RemoveIs(n.list, t, t);
    }
  }

  lemma EnteredWaiters(s: State, e: Event, p: nat, q: nat, t: int)
    requires ButForPairs(s) && Calls(s, e) && p < |s.procs| && q < |s.procs|
    requires s.procs[p].cont == InWait(t) && s.procs[q].cont == InWait(t)
    ensures var m := Entered(s, e);
            && m.curr == s.curr && m.curr != p && m.curr != q && m.list == s.list && Distinct(m.list) && |m.procs| == |s.procs|
            && m.procs[p].cont == InWait(t) && m.procs[q].cont == InWait(t)
  {
    hide Get;
  }

  lemma {:induction false} StaysOrphan(ss: seq<State>, es: seq<Event>, plain: seq<int>, shifted: seq<int>, q: nat, t: int, j: nat)
    requires AnyRun(ss, es, plain, shifted) && 1 <= j <= |es| && Orphan(ss[1], q, t)
    ensures Orphan(ss[j], q, t)
    decreases j
  {
    hide Step, Orphan;
    if j > 1 {
      StaysOrphan(ss, es, plain, shifted, q, t, j - 1);
      assert AnyStep(ss, es, plain, shifted, j - 1);
      OrphanStep(ss[j - 1], es[j - 1], plain, shifted, q, t);
    }
  }

  /** Whatever happens after one of two waiters for a pid has gone on: as soon as the other one goes on
      too, the kernel follows a pointer to a process that is gone. */
  lemma SecondWaiterLoses(ss: seq<State>, es: seq<Event>, plain: seq<int>, shifted: seq<int>, p: nat, q: nat, t: int, j: nat)
    requires AnyRun(ss, es, plain, shifted) && 1 <= j < |es| && Sound(ss[0]) && Sound(ss[j])
    requires ButForPairs(ss[0]) && p != q && p < |ss[0].procs| && q < |ss[0].procs|
    requires ss[0].procs[p].cont == InWait(t) && ss[0].procs[q].cont == InWait(t)
    requires Chooses(ss[0], es[0], p) && Chooses(ss[j], es[j], q)
    ensures ss[j + 1].lost
  {
    hide Step, Orphan, Chooses, ButForPairs, Sound;
    assert AnyStep(ss, es, plain, shifted, 0) && AnyStep(ss, es, plain, shifted, j);
    FirstGoesOn(ss[0], es[0], plain, shifted, p, q, t);
    StaysOrphan(ss, es, plain, shifted, q, t, j);
    OrphanStep(ss[j], es[j], plain, shifted, q, t);
  }

  /** Two processes (2 and 3) that wait for the same one, which is running. */
  function TwoWaiters(): State {
    var waiter := NewProc(-1).(state := Blocked, block := OnPid, target := 1, cont := InWait(1));
    State([NewProc(-1), NewProc(-1).(state := Running), waiter, waiter], [1, 2, 3], 1, 0, NoKeys(), false)
  }

  /** The invariant but for the rule that a pid has one waiter. */
  ghost predicate ButForPairs(s: State) {
    && ListOk(s) && RingOk(s.kbd) && !s.lost && s.procs[s.curr].state == Running && s.procs[s.curr].cont == User
    && forall p: nat {:trigger ProcOk(s, p)} :: p < |s.procs| ==> ProcOk(s, p)
  }

  lemma TwoWaitersShape()
    ensures ButForPairs(TwoWaiters())
  {
    var s := TwoWaiters();
    assert s.list[0] == 1 && s.list[1] == 2 && s.list[2] == 3;
    assert 1 in s.list && 2 in s.list && 3 in s.list && 0 !in s.list;
    forall p: nat | p < 4 ensures ProcOk(s, p) { }
  }

  /** The target exits: the first waiter finishes and takes it off the list. */
  lemma FirstWaiter(plain: seq<int>, shifted: seq<int>)
    requires TablesOk(plain, shifted)
    ensures var r := Step(TwoWaiters(), Exit(0), plain, shifted);
            && r.curr == 2 && r.list == [2, 3] && |r.procs| == 4 && !r.lost && r.kbd == NoKeys()
            && r.procs[2].state == Running && r.procs[3].state == Ready && r.procs[3].cont == InWait(1)
  {
    hide Entered, Switch, Resume, Step;
    StepSchedules(TwoWaiters(), Exit(0), plain, shifted);
    TargetExits(Entered(TwoWaiters(), Exit(0)));
    FirstWaiterRuns(Switch(Entered(TwoWaiters(), Exit(0))));
  }

  ghost predicate BothWoken(m: State) {
    && m.curr == 1 && m.list == [1, 2, 3] && |m.procs| == 4 && !m.lost && m.kbd == NoKeys()
    && m.procs[1].state == Dead && m.procs[2].state == Ready && m.procs[3].state == Ready
    && m.procs[2].cont == InWait(1) && m.procs[3].cont == InWait(1)
  }

  ghost predicate FirstChosen(m: State) {
    && m.curr == 2 && m.list == [1, 2, 3] && |m.procs| == 4 && !m.lost && m.kbd == NoKeys()
    && m.procs[2].state == Running && m.procs[3].state == Ready
    && m.procs[2].cont == InWait(1) && m.procs[3].cont == InWait(1)
  }

  lemma TargetExits(m: State)
    requires m == Entered(TwoWaiters(), Exit(0))
    ensures BothWoken(m) && FirstChosen(Switch(m))
  {
    assert BothWoken(m);
    BothChoose(m);
  }

  lemma BothChoose(m: State)
    requires BothWoken(m)
    ensures FirstChosen(Switch(m))
  {
    assert Index(m.list, 1) == 0;
    assert Order(m.list, 1) == [2, 3, 1];
  }

  lemma FirstWaiterRuns(m: State)
    requires FirstChosen(m)
    ensures var r := Resume(m);
            && r.curr == 2 && r.list == [2, 3] && |r.procs| == 4 && !r.lost && r.kbd == NoKeys()
            && r.procs[2].state == Running && r.procs[3].state == Ready && r.procs[3].cont == InWait(1)
  {
  }

  /** The second one, when it runs, looks for a process that is gone. */
  lemma TwoWaitersLose(plain: seq<int>, shifted: seq<int>)
    requires TablesOk(plain, shifted)
    ensures ButForPairs(TwoWaiters())
    ensures var r := Step(TwoWaiters(), Exit(0), plain, shifted);
            RingOk(r.kbd) && r.curr < |r.procs| && !r.lost && Step(r, Yield, plain, shifted).lost
  {
    TwoWaitersShape();
    FirstWaiter(plain, shifted);
    SecondWaiter(Step(TwoWaiters(), Exit(0), plain, shifted), plain, shifted);
  }

  lemma SecondWaiter(r: State, plain: seq<int>, shifted: seq<int>)
    requires TablesOk(plain, shifted) && r.curr == 2 && r.list == [2, 3] && |r.procs| == 4 && r.kbd == NoKeys()
    requires r.procs[3].state == Ready && r.procs[3].cont == InWait(1)
    ensures Step(r, Yield, plain, shifted).lost
  {
    StepSchedules(r, Yield, plain, shifted);
  }
}
