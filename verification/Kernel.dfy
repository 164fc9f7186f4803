/** The kernel's process table as the program keeps it: the list is walked in loops and processes are
changed in place. Every method is proved against Processes.Step. */
module Kernel {
  import opened Bits
  import opened Keyboard
  import opened Processes
  import opened ProcessSafety
  import opened ProcessProgress

  class Table {
    var procs: seq<Proc>
    var list: seq<nat>
    var curr: nat
    var ticks: nat
    var lost: bool
    const kbd: Buffer
    const plain: seq<int>
    const shifted: seq<int>

    ghost function S(): State
      reads this, kbd, kbd.buf
    {
      State(procs, list, curr, ticks, kbd.K(), lost)
    }

    /** What the methods need of the table to be defined at all. */
    ghost predicate Valid()
      reads this, kbd, kbd.buf
    {
      && RingOk(kbd.K()) && TablesOk(plain, shifted) && curr < |procs| && |procs| > 0 && Distinct(list)
      && forall i :: 0 <= i < |list| ==> 0 < list[i] < |procs|
    }

    /** The state in which the first program starts. */
    constructor (p: seq<int>, q: seq<int>)
      requires TablesOk(p, q)
      ensures Valid() && S() == Boot().(kbd := S().kbd) && Unread(S().kbd) == [] && fresh(kbd) && fresh(kbd.buf)
    {
      procs, list, curr, ticks, lost := [NewProc(-1), NewProc(-1).(state := Running)], [1], 1, 0, false;
      plain, shifted := p, q;
      kbd := new Buffer();
    }

    // ----- walking the list -----

    /** process_find */
    method Find(pid: int) returns (found: bool)
      ensures found <==> 0 <= pid && pid in list
    {
      var i := 0;
      while i < |list|
        invariant i <= |list| && forall j :: 0 <= j < i ==> list[j] != pid
      {
        if list[i] == pid {
          return true;
        }
        i := i + 1;
      }
      return false;
    }

    /** proc_unlink */
    method Unlink(p: nat)
      modifies this`list
      ensures list == Remove(old(list), p)
    {
      var i := 0;
      while i < |list| && list[i] != p
        invariant i <= |list| && list == old(list) && Remove(list, p) == list[..i] + Remove(list[i..], p)
      {
        assert list[i..][1..] == list[i + 1..];
        i := i + 1;
      }
      if i < |list| {
        assert list[i..][1..] == list[i + 1..];
        list := list[..i] + list[i + 1..];
      } else {
        assert list[i..] == [] && list[..i] == list;
      }
    }

    /** pick_next: from behind the current process, once around the list. */
    method PickNext() returns (next: nat)
      requires Valid()
      ensures next == Pick(S())
    {
      hide Order, Index;
      var n := |list|;
      var start := Start(list, curr);
      ghost var order := Order(list, curr);
      var i := 0;
      while i < n
        invariant i <= n && FirstReady(procs, order) == FirstReady(procs, order[i..])
      {
        OrderAt(list, curr, i);
        var at := Wrap(n, start + i);
        if procs[list[at]].state == Ready {
          return list[at];
        }
        assert order[i..][1..] == order[i + 1..];
        i := i + 1;
      }
      next := 0;
    }

    /** schedule: switch, and let the chosen process go on where it had called schedule. */
    method Schedule()
      requires Valid()
      modifies this, kbd
      ensures S() == Resume(Switch(old(S())))
    {
      var next := PickNext();
      PickInRange(S());
      if next != curr {
        if procs[curr].state == Running {
          procs := procs[curr := procs[curr].(state := Ready)];
        }
        curr := next;
        procs := procs[next := procs[next].(state := Running)];
      }
      Continue();
    }

    /** The code after the call of schedule. */
    method Continue()
      requires Valid()
      modifies this, kbd
      ensures S() == Resume(old(S()))
    {
      var p := procs[curr];
      match p.cont
      case User =>
      case InCall =>
        procs := procs[curr := p.(cont := User, result := 0)];
      case InWait(t) =>
        var found := Find(t);
        if !found || t >= |procs| {
          lost := true;
        } else {
          procs := procs[curr := p.(cont := User, result := procs[t].exitCode)];
          Unlink(t);
        }
      case InGetChar =>
        var c := kbd.GetChar();
        procs := procs[curr := p.(cont := User, result := c)];
    }

    /** The wake-up loop of exit and kill. */
    method WakeWaiters(pid: nat)
      requires Valid()
      modifies this`procs
      ensures procs == Woken(old(procs), list, pid)
    {
      var i := 0;
      assert Woken(procs, list[..0], pid) == procs;
      while i < |list|
        invariant i <= |list| && procs == Woken(old(procs), list[..i], pid)
      {
        var p := list[i];
        WokenMore(old(procs), list, pid, i);
        if WaitsFor(procs[p], pid) {
          procs := procs[p := WakeOne(procs[p])];
        }
        i := i + 1;
      }
      assert list[..i] == list;
    }

    /** The loop of handle_fault. */
    method WakeAfterFault(pid: nat)
      requires Valid()
      modifies this`procs
      ensures procs == FaultWoken(old(procs), list, pid)
    {
      var i := 0;
      assert FaultWoken(procs, list[..0], pid) == procs;
      while i < |list|
        invariant i <= |list| && procs == FaultWoken(old(procs), list[..i], pid)
      {
        var p := list[i];
        FaultMore(old(procs), list, pid, i);
        if FaultWakes(procs[p], pid) {
          procs := procs[p := procs[p].(state := Ready, target := -1)];
        }
        i := i + 1;
      }
      assert list[..i] == list;
    }

    /** The loop of pit_handler. */
    method TickAll()
      requires Valid()
      modifies this`procs
      ensures procs == Ticked(old(procs), list, curr, ticks)
    {
      var i := 0;
      assert Ticked(procs, list[..0], curr, ticks) == procs;
      while i < |list|
        invariant i <= |list| && procs == Ticked(old(procs), list[..i], curr, ticks)
      {
        var p := list[i];
        TickMore(old(procs), list, curr, ticks, i);
        var q := procs[p];
        if q.state == Dead && !q.cleaned {
          if p != curr {
            procs := procs[p := q.(cleaned := true)];
          }
        } else if q.state == Blocked && q.block == OnSleep && ticks >= q.wakeAt {
          procs := procs[p := q.(state := Ready, block := NoBlock, wakeAt := NEVER)];
        }
        i := i + 1;
      }
      assert list[..i] == list;
    }

    /** The loop of kbd_handler: the first process that waits for input becomes ready. */
    method WakeReader()
      requires Valid()
      modifies this`procs
      ensures var i := FirstReader(old(procs), list);
              procs == if i == |list| then old(procs) else old(procs)[list[i] := old(procs)[list[i]].(state := Ready, block := NoBlock)]
    {
      var i := 0;
      while i < |list|
        invariant i <= |list| && procs == old(procs) && FirstReader(procs, list) == i + FirstReader(procs, list[i..])
      {
        assert list[i..][1..] == list[i + 1..];
        var p := list[i];
        if WantsInput(procs[p]) {
          procs := procs[p := procs[p].(state := Ready, block := NoBlock)];
          return;
        }
        i := i + 1;
      }
    }

    // ----- interrupts -----

    /** int 32: pit_handler, then schedule. */
    method Timer()
      requires Valid()
      modifies this, kbd
      ensures S() == Step(old(S()), Tick, plain, shifted)
    {
      hide Scheduled, Ticked;
      ticks := ticks + 1;
      TickAll();
      Leave(User);
    }

    /** int 33: kbd_handler. */
    method KeyPressed(scancode: nat)
      requires Valid()
      modifies this`procs, kbd, kbd.buf
      ensures S() == Step(old(S()), Key(scancode), plain, shifted)
    {
      var c := kbd.Scancode(scancode, plain, shifted);
      if c != 0 {
        WakeReader();
      }
    }

    /** handle_fault, for a fault in user code. */
    method UserFault()
      requires Valid()
      modifies this, kbd
      ensures S() == Step(old(S()), Fault, plain, shifted)
    {
      hide Scheduled;
      procs := procs[curr := procs[curr].(state := Dead)];
      WakeAfterFault(curr);
      Leave(User);
    }

    // ----- system calls -----

    /** schedule, called with cont left to do. */
    method Leave(cont: Cont)
      requires Valid()
      modifies this, kbd
      ensures S() == Scheduled(old(S()), cont)
    {
      hide Resume, Switch;
      procs := procs[curr := procs[curr].(cont := cont)];
      Schedule();
    }

    method SysExit(code: int)
      requires Valid()
      modifies this, kbd
      ensures S() == Step(old(S()), Exit(code), plain, shifted)
    {
      hide Scheduled;
      procs := procs[curr := procs[curr].(state := Dead, exitCode := code)];
      WakeWaiters(curr);
      Leave(User);
    }

    method SysYield()
      requires Valid()
      modifies this, kbd
      ensures S() == Step(old(S()), Yield, plain, shifted)
    {
      hide Scheduled;
      Leave(InCall);
    }

    /** ok: process_create found a program and memory for it. */
    method SysSpawn(ok: bool)
      requires Valid()
      modifies this`procs, this`list
      ensures S() == Step(old(S()), Spawn(ok), plain, shifted)
    {
      if !ok {
        procs := procs[curr := procs[curr].(result := -1)];
        return;
      }
      var child := |procs|;
      procs := procs[curr := procs[curr].(result := child)] + [NewProc(curr)];
      list := [child] + list;
    }

    method SysKill(pid: int)
      requires Valid()
      modifies this, kbd
      ensures S() == Step(old(S()), Kill(pid), plain, shifted)
    {
      hide Scheduled;
      var found := Find(pid);
      if !found || pid >= |procs| {
        procs := procs[curr := procs[curr].(result := -1)];
        return;
      }
      procs := procs[pid := procs[pid].(state := Dead)];
      WakeWaiters(pid);
      if pid == curr {
        Leave(InCall);
      } else {
        procs := procs[curr := procs[curr].(result := 0)];
      }
    }

    method SysWait(pid: int)
      requires Valid()
      modifies this, kbd
      ensures S() == Step(old(S()), Wait(pid), plain, shifted)
    {
      hide Scheduled;
      var found := Find(pid);
      if !found || pid >= |procs| {
        procs := procs[curr := procs[curr].(result := -1)];
        return;
      }
      if procs[pid].state == Dead {
        procs := procs[curr := procs[curr].(result := procs[pid].exitCode)];
        return;
      }
      procs := procs[curr := procs[curr].(state := Blocked, block := OnPid, target := pid)];
      Leave(InWait(pid));
    }

    method SysSleep(ms: nat)
      requires Valid()
      modifies this, kbd
      ensures S() == Step(old(S()), Sleep(ms), plain, shifted)
    {
      hide Scheduled;
      procs := procs[curr := procs[curr].(state := Blocked, block := OnSleep, wakeAt := (ticks + ms) % WORD)];
      Leave(InCall);
    }

    method SysGetChar()
      requires Valid()
      modifies this, kbd
      ensures S() == Step(old(S()), GetCharCall, plain, shifted)
    {
      hide Scheduled;
      GetNonNegative(kbd.K());
      var c := kbd.GetChar();
      if c < 0 {
        procs := procs[curr := procs[curr].(state := Blocked, block := OnInput)];
        Leave(InGetChar);
      } else {
        procs := procs[curr := procs[curr].(result := c)];
      }
    }

    method SysGetCharNb()
      requires Valid()
      modifies this, kbd
      ensures S() == Step(old(S()), GetCharNb, plain, shifted)
    {
      var c := kbd.GetChar();
      procs := procs[curr := procs[curr].(result := c)];
    }
  }

  /** An empty buffer is left as it is. */
  lemma GetNonNegative(k: Ring)
    requires RingOk(k)
    ensures Get(k).0 < 0 ==> Get(k).1 == k
  {
  }

  lemma FaultMore(procs: seq<Proc>, list: seq<nat>, pid: nat, i: nat)
    requires i < |list| && Distinct(list) && list[i] < |procs|
    ensures var w := FaultWoken(procs, list[..i], pid);
            w[list[i]] == procs[list[i]]
            && FaultWoken(procs, list[..i + 1], pid) == if FaultWakes(w[list[i]], pid) then w[list[i] := w[list[i]].(state := Ready, target := -1)] else w
  {
    assert list[..i + 1] == list[..i] + [list[i]];
  }

  lemma TickMore(procs: seq<Proc>, list: seq<nat>, curr: nat, ticks: nat, i: nat)
    requires i < |list| && Distinct(list) && list[i] < |procs|
    ensures var w := Ticked(procs, list[..i], curr, ticks);
            w[list[i]] == procs[list[i]]
            && Ticked(procs, list[..i + 1], curr, ticks) == w[list[i] := TickOne(w[list[i]], list[i] == curr, ticks)]
  {
    assert list[..i + 1] == list[..i] + [list[i]];
  }

  lemma PickInRange(s: State)
    ensures Pick(s) == 0 || Pick(s) < |s.procs|
  {
  }

  lemma WokenMore(procs: seq<Proc>, list: seq<nat>, pid: nat, i: nat)
    requires i < |list| && Distinct(list) && list[i] < |procs|
    ensures var w := Woken(procs, list[..i], pid);
            w[list[i]] == procs[list[i]]
            && Woken(procs, list[..i + 1], pid) == if WaitsFor(w[list[i]], pid) then w[list[i] := WakeOne(w[list[i]])] else w
  {
    assert list[..i + 1] == list[..i] + [list[i]];
  }
}
