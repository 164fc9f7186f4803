/** The scheduler and the process protocol, one atomic step per system call or interrupt.

A process switched away in the middle of a system call keeps a continuation, which runs as soon as the
process is chosen again. Processes are numbered by pid: 0 is the idle process, which is never on the
list, 1 the first program. */
module Processes {
  import opened Bits
  import opened Keyboard

  datatype PState = Ready | Running | Blocked | Dead
  datatype Block = OnPid | OnInput | OnSleep | NoBlock

  /** What is left to do after schedule returns: nothing, return 0, finish a wait for a pid, or read a
      character. */
  datatype Cont = User | InCall | InWait(pid: int) | InGetChar

  const NEVER: nat := 0xFFFF_FFFF

  /** target is -1 when the process waits for nobody; result is the value of eax it sees. */
  datatype Proc = Proc(ppid: int, target: int, state: PState, block: Block, wakeAt: nat, exitCode: int, cleaned: bool, cont: Cont, result: int)

  /** lost: the kernel has followed a pointer to a process that is gone. */
  datatype State = State(procs: seq<Proc>, list: seq<nat>, curr: nat, ticks: nat, kbd: Ring, lost: bool)

  // ----- list operations -----

  /** proc_unlink */
  function Remove(list: seq<nat>, p: nat): (r: seq<nat>)
  {
    if list == [] then [] else if list[0] == p then list[1..] else [list[0]] + Remove(list[1..], p)
  }

  predicate Distinct(list: seq<nat>) {
    forall i, j :: 0 <= i < j < |list| ==> list[i] != list[j]
  }

  /** Position of p, or the length. */
  function Index(list: seq<nat>, p: nat): (r: nat)
    ensures r <= |list| && (r < |list| ==> list[r] == p) && (p in list <==> r < |list|)
    ensures forall i :: 0 <= i < r ==> list[i] != p
  {
    if list == [] || list[0] == p then 0 else 1 + Index(list[1..], p)
  }

  /** The list in the order pick_next visits it: from behind curr, or from the head. */
  function Order(list: seq<nat>, curr: nat): (r: seq<nat>)
    ensures |r| == |list|
  {
    var k := Index(list, curr);
    if k + 1 < |list| then list[k + 1..] + list[..k + 1] else list
  }

  /** The first ready process in that order; the idle process when there is none. */
  function FirstReady(procs: seq<Proc>, order: seq<nat>): (r: nat)
    ensures r == 0 || (r in order && r < |procs| && procs[r].state == Ready)
  {
    if order == [] then 0
    else if order[0] < |procs| && procs[order[0]].state == Ready then order[0]
    else FirstReady(procs, order[1..])
  }

  // ----- wake-ups -----

  predicate WaitsFor(p: Proc, pid: nat) { p.state == Blocked && p.block == OnPid && p.target == pid }

  function WakeOne(p: Proc): Proc { p.(state := Ready, block := NoBlock, target := -1) }

  /** The loop of exit and kill: whoever waits for pid becomes ready. */
  function Woken(procs: seq<Proc>, list: seq<nat>, pid: nat): (r: seq<Proc>)
    ensures |r| == |procs|
    ensures forall p :: 0 <= p < |procs| ==> r[p] == if p in list && WaitsFor(procs[p], pid) then WakeOne(procs[p]) else procs[p]
  {
    seq(|procs|, p requires 0 <= p < |procs| => if p in list && WaitsFor(procs[p], pid) then WakeOne(procs[p]) else procs[p])
  }

  predicate FaultWakes(p: Proc, pid: nat) { p.target == pid && p.state == Blocked }

  /** The loop of handle_fault looks at the target only, and leaves the reason of the block in place. */
  function FaultWoken(procs: seq<Proc>, list: seq<nat>, pid: nat): (r: seq<Proc>)
    ensures |r| == |procs|
    ensures forall p :: 0 <= p < |procs| ==> r[p] == if p in list && FaultWakes(procs[p], pid) then procs[p].(state := Ready, target := -1) else procs[p]
  {
    seq(|procs|, p requires 0 <= p < |procs| => if p in list && FaultWakes(procs[p], pid) then procs[p].(state := Ready, target := -1) else procs[p])
  }

  /** What a tick does to one process. */
  function TickOne(p: Proc, isCurr: bool, ticks: nat): Proc {
    if p.state == Dead && !p.cleaned then (if isCurr then p else p.(cleaned := true))
    else if p.state != Blocked || p.block != OnSleep || ticks < p.wakeAt then p
    else p.(state := Ready, block := NoBlock, wakeAt := NEVER)
  }

  /** The loop of pit_handler: resources of the dead are released, sleepers whose time has come wake up. */
  function Ticked(procs: seq<Proc>, list: seq<nat>, curr: nat, ticks: nat): (r: seq<Proc>)
    ensures |r| == |procs|
    ensures forall p :: 0 <= p < |procs| ==> r[p] == if p in list then TickOne(procs[p], p == curr, ticks) else procs[p]
  {
    seq(|procs|, p requires 0 <= p < |procs| => if p in list then TickOne(procs[p], p == curr, ticks) else procs[p])
  }

  predicate WantsInput(p: Proc) { p.state == Blocked && p.block == OnInput }

  /** The first process on the list that waits for a key, or the length. */
  function FirstReader(procs: seq<Proc>, list: seq<nat>): (r: nat)
    ensures r <= |list| && (r < |list| ==> list[r] < |procs| && WantsInput(procs[list[r]]))
  {
    if list == [] then 0
    else if list[0] < |procs| && WantsInput(procs[list[0]]) then 0
    else 1 + FirstReader(procs, list[1..])
  }

  // ----- schedule -----

  function Pick(s: State): nat { FirstReady(s.procs, Order(s.list, s.curr)) }

  function SetProc(s: State, p: nat, q: Proc): State
    requires p < |s.procs|
  {
    s.(procs := s.procs[p := q])
  }

  /** The switch itself: a running process goes back to ready, the chosen one runs. */
  function Switch(s: State): (r: State)
    requires s.curr < |s.procs| && |s.procs| > 0
    ensures r.curr == Pick(s) && |r.procs| == |s.procs| && r.list == s.list
  {
    var next := Pick(s);
    if next == s.curr then s else
      var procs := if s.procs[s.curr].state == Running then s.procs[s.curr := s.procs[s.curr].(state := Ready)] else s.procs;
      s.(procs := procs[next := procs[next].(state := Running)], curr := next)
  }

  /** The chosen process goes on where schedule was called. */
  function Resume(s: State): (r: State)
    requires s.curr < |s.procs| && RingOk(s.kbd)
  {
    var p := s.procs[s.curr];
    match p.cont
    case User => s
    case InCall => SetProc(s, s.curr, p.(cont := User, result := 0))
    case InWait(t) =>
      if t < 0 || t >= |s.procs| || t !in s.list then s.(lost := true) else
        SetProc(s, s.curr, p.(cont := User, result := s.procs[t].exitCode)).(list := Remove(s.list, t))
    case InGetChar =>
      var (c, k) := Get(s.kbd);
      SetProc(s, s.curr, p.(cont := User, result := c)).(kbd := k)
  }

  /** schedule, called by a process that has cont left to do. */
  function Scheduled(s: State, cont: Cont): State
    requires s.curr < |s.procs| && RingOk(s.kbd)
  {
    Resume(Switch(SetProc(s, s.curr, s.procs[s.curr].(cont := cont))))
  }

  // ----- the steps -----

  datatype Event =
    | Tick | Key(scancode: nat) | Fault
    | Exit(code: int) | Yield | Spawn(ok: bool) | Kill(pid: int) | Wait(pid: int) | Sleep(ms: nat) | GetCharCall | GetCharNb

  /** A process as process_create leaves it. */
  function NewProc(parent: int): Proc {
    Proc(parent, -1, Ready, NoBlock, NEVER, -1, false, User, 0)
  }

  function Return(s: State, v: int): State
    requires s.curr < |s.procs|
  {
    SetProc(s, s.curr, s.procs[s.curr].(result := v))
  }

  function Step(s: State, e: Event, plain: seq<int>, shifted: seq<int>): State
    requires s.curr < |s.procs| && RingOk(s.kbd) && TablesOk(plain, shifted)
  {
    var me := s.procs[s.curr];
    match e
    case Tick =>
      var t := s.ticks + 1;
      Scheduled(s.(ticks := t, procs := Ticked(s.procs, s.list, s.curr, t)), User)
    case Key(code) =>
      var s1 := s.(kbd := Typed(s.kbd, code, plain, shifted));
      var i := FirstReader(s.procs, s.list);
      if CharOf(s.kbd, code, plain, shifted) == 0 || i == |s.list| then s1
      else SetProc(s1, s.list[i], s1.procs[s.list[i]].(state := Ready, block := NoBlock))
    case Fault =>
      var procs := s.procs[s.curr := me.(state := Dead)];
      Scheduled(s.(procs := FaultWoken(procs, s.list, s.curr)), User)
    case Exit(code) =>
      var procs := s.procs[s.curr := me.(state := Dead, exitCode := code)];
      Scheduled(s.(procs := Woken(procs, s.list, s.curr)), User)
    case Yield =>
      Scheduled(s, InCall)
    case Spawn(ok) =>
      if !ok then Return(s, -1) else
        var s1 := Return(s, |s.procs|);
        s1.(procs := s1.procs + [NewProc(s.curr)], list := [|s.procs|] + s.list)
    case Kill(pid) =>
      if pid < 0 || pid >= |s.procs| || pid !in s.list then Return(s, -1) else
        var procs := s.procs[pid := s.procs[pid].(state := Dead)];
        var s1 := s.(procs := Woken(procs, s.list, pid));
        if pid == s.curr then Scheduled(s1, InCall) else Return(s1, 0)
    case Wait(pid) =>
      if pid < 0 || pid >= |s.procs| || pid !in s.list then Return(s, -1)
      else if s.procs[pid].state == Dead then Return(s, s.procs[pid].exitCode)
      else Scheduled(SetProc(s, s.curr, me.(state := Blocked, block := OnPid, target := pid)), InWait(pid))
    case Sleep(ms) =>
      Scheduled(SetProc(s, s.curr, me.(state := Blocked, block := OnSleep, wakeAt := (s.ticks + ms) % WORD)), InCall)
    case GetCharCall =>
      var (c, k) := Get(s.kbd);
      if c >= 0 then Return(s, c).(kbd := k)
      else Scheduled(SetProc(s, s.curr, me.(state := Blocked, block := OnInput)), InGetChar)
    case GetCharNb =>
      var (c, k) := Get(s.kbd);
      Return(s, c).(kbd := k)
  }
}
