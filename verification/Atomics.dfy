/** The atomic operations my_atomic.h derives from compare-and-swap: their sequential
    meaning, and any number of threads running them in any interleaving. */
module Atomics {
  const MODULUS := 0x1_0000_0000
  type Int32 = x: int | 0 <= x < MODULUS   // a 32-bit value, read as unsigned

  function Wrap(x: int): Int32 { x % 0x1_0000_0000 }

  datatype Op = Add(v: Int32) | Fas(v: Int32) | Load | Store(v: Int32)

  /** What the header comment promises of an operation that runs alone on `x`: the
      new value of the variable, and the value handed back (nothing for a store). */
  function Apply(op: Op, x: Int32): Int32 {
    match op
    case Add(v) => Wrap(x + v)
    case Fas(v) => v
    case Load => x
    case Store(v) => v
  }

  function Answer(op: Op, x: Int32): Int32 {
    if op.Store? then 0 else x
  }

  datatype CasResult = CasResult(ok: bool, a: Int32, cmp: Int32)

  /** Compare and swap: the new variable and the new expected value. */
  function Cas(a: Int32, cmp: Int32, set_: Int32): CasResult {
    if a == cmp then CasResult(true, set_, cmp) else CasResult(false, a, a)
  }

  /** The third argument of the CAS in each macro body: `tmp+v`, `v`, or `ret`. */
  function Desired(op: Op, tmp: Int32): Int32 {
    match op
    case Add(v) => Wrap(tmp + v)
    case Fas(v) => v
    case Store(v) => v
    case Load => tmp
  }

  // ---------- Threads ----------

  /** An operation is named by the moment of its invocation. */
  datatype Thread =
    | Idle
    | Trying(id: nat, op: Op, tmp: Int32)
    | Done(id: nat, op: Op, ret: Int32)

  datatype Event = Inv(tid: nat, op: Op) | Ret(tid: nat, id: nat, ret: Int32)

  /** An operation that took effect when the history had length `at`. */
  datatype Entry = Entry(id: nat, op: Op, ret: Int32, at: nat)

  datatype State = State(
    a: Int32,
    threads: seq<Thread>,
    history: seq<Event>,
    log: seq<Entry>,
    failed: nat,       // CAS attempts of add, fas and store that failed
    succeeded: nat,    // and that succeeded
    staleReads: nat    // invocations whose first read missed the current value
  )

  /** `Invoke` starts an operation whose first read returned `seen`, which need not be
      the current value; `Attempt` is one CAS; `Return` hands the result back. */
  datatype Action = Invoke(i: nat, op: Op, seen: Int32) | Attempt(i: nat) | Return(i: nat)

  predicate Enabled(s: State, act: Action) {
    && act.i < |s.threads|
    && match act
       case Invoke(i, _, _) => s.threads[i].Idle?
       case Attempt(i) => s.threads[i].Trying?
       case Return(i) => s.threads[i].Done?
  }

  function Next(s: State, act: Action): State
    requires Enabled(s, act)
  {
    match act
    case Invoke(i, op, seen) =>
      var tmp := if op.Load? then 0 else seen;
      s.(threads := s.threads[i := Trying(|s.history|, op, tmp)],
         history := s.history + [Inv(i, op)],
         staleReads := s.staleReads + if !op.Load? && seen != s.a then 1 else 0)
    case Attempt(i) =>
      var Trying(id, op, tmp) := s.threads[i];
      var r := Cas(s.a, tmp, Desired(op, tmp));
      if op.Load? then
        Finish(s, i, id, op, r.cmp).(a := r.a)
      else if r.ok then
        Finish(s, i, id, op, if op.Store? then 0 else tmp).(a := r.a, succeeded := s.succeeded + 1)
      else
        s.(threads := s.threads[i := Trying(id, op, r.cmp)], failed := s.failed + 1)
    case Return(i) =>
      var Done(id, op, ret) := s.threads[i];
      s.(threads := s.threads[i := Idle], history := s.history + [Ret(i, id, ret)])
  }

  function Finish(s: State, i: nat, id: nat, op: Op, ret: Int32): State
    requires i < |s.threads|
  {
    s.(threads := s.threads[i := Done(id, op, ret)],
       log := s.log + [Entry(id, op, ret, |s.history|)])
  }

  function Start(a0: Int32, count: nat): State {
    State(a0, seq(count, _ => Idle), [], [], 0, 0, 0)
  }

  predicate CanRun(s: State, acts: seq<Action>)
    decreases |acts|
  {
    acts == [] || (Enabled(s, acts[0]) && CanRun(Next(s, acts[0]), acts[1..]))
  }

  function Run(s: State, acts: seq<Action>): State
    requires CanRun(s, acts)
    decreases |acts|
  {
    if acts == [] then s else Run(Next(s, acts[0]), acts[1..])
  }

  // ---------- Linearizability ----------

  /** The variable after the operations of `log` run one after another from `a0`. */
  function Replay(a0: Int32, log: seq<Entry>): Int32 {
    if log == [] then a0 else Apply(log[|log| - 1].op, Replay(a0, log[..|log| - 1]))
  }

  ghost predicate ReplaysTo(a0: Int32, log: seq<Entry>, a: Int32) {
    && Replay(a0, log) == a
    && forall k :: 0 <= k < |log| ==> log[k].ret == Answer(log[k].op, Replay(a0, log[..k]))
  }

  /** `log` orders the operations of `history` so that running them one at a time gives
      every operation the result it returned and the variable its value, and an operation
      that returned before another was invoked comes first. */
  ghost predicate Linearizes(a0: Int32, history: seq<Event>, log: seq<Entry>, a: Int32) {
    && ReplaysTo(a0, log, a)
    && (forall k :: 0 <= k < |log| ==>
          log[k].id < |history| && history[log[k].id].Inv? && history[log[k].id].op == log[k].op)
    && (forall k, l :: 0 <= k < l < |log| ==> log[k].id != log[l].id)
    && (forall j :: 0 <= j < |history| && history[j].Ret? ==>
          Recorded(log, history[j].id, history[j].ret, j))
    && ReturnsOnce(history)
    && (forall j, k, l |
          0 <= j < |history| && 0 <= k < |log| && 0 <= l < |log| && history[j].Ret? ::
          history[j].id == log[k].id && j < log[l].id ==> k < l)
  }

  /** No operation returns twice. */
  ghost predicate ReturnsOnce(history: seq<Event>) {
    forall j, m :: 0 <= j < m < |history| && history[j].Ret? && history[m].Ret? ==>
      history[j].id != history[m].id
  }

  ghost predicate Returned(history: seq<Event>, id: nat) {
    exists j :: 0 <= j < |history| && history[j].Ret? && history[j].id == id
  }

  /** The operation is in the log with this result, and took effect by then. */
  ghost predicate Recorded(log: seq<Entry>, id: nat, ret: Int32, when: nat) {
    exists k :: 0 <= k < |log| && log[k].id == id && log[k].ret == ret && log[k].at <= when
  }

  /** The entries of the log, in the order in which they took effect. */
  ghost predicate LogOk(s: State) {
    && (forall k :: 0 <= k < |s.log| ==>
          s.log[k].id < s.log[k].at <= |s.history|
          && s.history[s.log[k].id].Inv? && s.history[s.log[k].id].op == s.log[k].op)
    && (forall k, l :: 0 <= k < l < |s.log| ==>
          s.log[k].at <= s.log[l].at && s.log[k].id != s.log[l].id)
  }

  /** A running operation was invoked by its thread and is in the log once it is done. */
  ghost predicate ThreadOk(s: State, i: nat)
    requires i < |s.threads|
  {
    var t := s.threads[i];
    && (!t.Idle? ==> t.id < |s.history| && s.history[t.id] == Inv(i, t.op) && !Returned(s.history, t.id))
    && (t.Trying? ==> forall k :: 0 <= k < |s.log| ==> s.log[k].id != t.id)
    && (t.Done? ==> Recorded(s.log, t.id, t.ret, |s.history|))
  }

  /** A returned operation took effect before it returned. */
  ghost predicate ReturnOk(s: State, j: nat)
    requires j < |s.history|
  {
    s.history[j].Ret? ==> Recorded(s.log, s.history[j].id, s.history[j].ret, j)
  }

  ghost predicate Consistent(a0: Int32, s: State) {
    && ReplaysTo(a0, s.log, s.a)
    && LogOk(s)
    && ReturnsOnce(s.history)
    && ThreadsOk(s)
    && ReturnsOk(s)
  }

  ghost predicate ThreadsOk(s: State) {
    forall i :: 0 <= i < |s.threads| ==> ThreadOk(s, i)
  }

  ghost predicate ReturnsOk(s: State) {
    forall j :: 0 <= j < |s.history| ==> ReturnOk(s, j)
  }

  /** Taking effect at a moment when the variable holds `s.a` extends the replay. */
  lemma ReplayExtend(a0: Int32, log: seq<Entry>, a: Int32, e: Entry)
    requires ReplaysTo(a0, log, a) && e.ret == Answer(e.op, a)
    ensures ReplaysTo(a0, log + [e], Apply(e.op, a))
  {
    var more := log + [e];
    assert more[..|log|] == log;
    forall k | 0 <= k < |more| ensures more[k].ret == Answer(more[k].op, Replay(a0, more[..k])) {
      if k < |log| {
        assert more[..k] == log[..k];
      }
    }
  }

  lemma RecordedGrows(log: seq<Entry>, e: Entry, id: nat, ret: Int32, when: nat, late: nat)
    requires Recorded(log, id, ret, when) && when <= late
    ensures Recorded(log + [e], id, ret, late)
  {
    var k :| 0 <= k < |log| && log[k].id == id && log[k].ret == ret && log[k].at <= when;
    assert (log + [e])[k] == log[k];
  }

  lemma RecordedLater(log: seq<Entry>, id: nat, ret: Int32, when: nat, late: nat)
    requires Recorded(log, id, ret, when) && when <= late
    ensures Recorded(log, id, ret, late)
  {
  }

  /** The state after the operation of thread i takes effect with result `ret`. */
  function Effect(s: State, i: nat, ret: Int32): State
    requires i < |s.threads| && s.threads[i].Trying?
  {
    Finish(s, i, s.threads[i].id, s.threads[i].op, ret).(a := Apply(s.threads[i].op, s.a))
  }

  lemma EffectThreads(s: State, i: nat, ret: Int32)
    requires i < |s.threads| && s.threads[i].Trying?
    requires ThreadsOk(s)
    ensures ThreadsOk(Effect(s, i, ret))
  {
    var s' := Effect(s, i, ret);
    var e := s'.log[|s.log|];
    assert ThreadOk(s, i);
    forall m | 0 <= m < |s.threads| ensures ThreadOk(s', m) {
      assert ThreadOk(s, m);
      if m == i {
        assert e.id == s.threads[i].id && e.ret == ret && e.at <= |s'.history|;
      } else if s.threads[m].Done? {
        RecordedGrows(s.log, e, s.threads[m].id, s.threads[m].ret, |s.history|, |s.history|);
      }
    }
  }

  lemma ConsistentEffect(a0: Int32, s: State, i: nat, ret: Int32)
    requires Consistent(a0, s) && i < |s.threads| && s.threads[i].Trying?
    requires ret == Answer(s.threads[i].op, s.a)
    ensures Consistent(a0, Effect(s, i, ret))
  {
    assert ThreadOk(s, i);
    EffectReplays(a0, s, i, ret);
    EffectLog(s, i, ret);
    EffectThreads(s, i, ret);
    EffectReturns(s, i, ret);
  }

  lemma EffectReplays(a0: Int32, s: State, i: nat, ret: Int32)
    requires ReplaysTo(a0, s.log, s.a) && i < |s.threads| && s.threads[i].Trying?
    requires ret == Answer(s.threads[i].op, s.a)
    ensures ReplaysTo(a0, Effect(s, i, ret).log, Effect(s, i, ret).a)
  {
    ReplayExtend(a0, s.log, s.a, Entry(s.threads[i].id, s.threads[i].op, ret, |s.history|));
  }

  lemma EffectLog(s: State, i: nat, ret: Int32)
    requires LogOk(s) && i < |s.threads| && s.threads[i].Trying? && ThreadOk(s, i)
    ensures LogOk(Effect(s, i, ret))
  {
  }

  lemma EffectReturns(s: State, i: nat, ret: Int32)
    requires ReturnsOk(s) && i < |s.threads| && s.threads[i].Trying?
    ensures ReturnsOk(Effect(s, i, ret))
  {
    var s' := Effect(s, i, ret);
    var e := s'.log[|s.log|];
    forall j | 0 <= j < |s'.history| ensures ReturnOk(s', j) {
      assert ReturnOk(s, j);
      if s.history[j].Ret? {
        RecordedGrows(s.log, e, s.history[j].id, s.history[j].ret, j, j);
      }
    }
  }

  /** A failed CAS changes nothing but the thread's expected value. */
  lemma ConsistentRetry(a0: Int32, s: State, i: nat, tmp: Int32, failed: nat)
    requires Consistent(a0, s) && i < |s.threads| && s.threads[i].Trying?
    ensures Consistent(a0, s.(threads := s.threads[i := s.threads[i].(tmp := tmp)], failed := failed))
  {
    var s' := s.(threads := s.threads[i := s.threads[i].(tmp := tmp)], failed := failed);
    forall m | 0 <= m < |s'.threads| ensures ThreadOk(s', m) {
      assert ThreadOk(s, m);
    }
    SameReturns(s, s');
  }

  lemma SameReturns(s: State, s': State)
    requires ReturnsOk(s) && s'.log == s.log && s'.history == s.history
    ensures ReturnsOk(s')
  {
    forall j | 0 <= j < |s'.history| ensures ReturnOk(s', j) {
      assert ReturnOk(s, j);
    }
  }

  lemma SameFacts(a0: Int32, s: State, s': State)
    requires Consistent(a0, s)
    requires s'.a == s.a && s'.log == s.log && s'.threads == s.threads && s'.history == s.history
    ensures Consistent(a0, s')
  {
    forall m | 0 <= m < |s'.threads| ensures ThreadOk(s', m) {
      assert ThreadOk(s, m);
    }
    SameReturns(s, s');
  }

  /** Invoking and returning add one event and leave the variable and the log alone. */
  ghost predicate OneEvent(s: State, s': State, i: nat, e: Event)
    requires i < |s.threads|
  {
    && s'.log == s.log && s'.history == s.history + [e] && |s'.threads| == |s.threads|
    && (forall m :: 0 <= m < |s.threads| && m != i ==> s'.threads[m] == s.threads[m])
    && if e.Inv?
       then e.tid == i && s'.threads[i].Trying? && s'.threads[i].id == |s.history| && s'.threads[i].op == e.op
       else s.threads[i].Done? && s'.threads[i].Idle?
            && e.id == s.threads[i].id && e.ret == s.threads[i].ret
  }

  lemma EventReturns(s: State, s': State, i: nat, e: Event)
    requires LogOk(s) && ThreadsOk(s) && ReturnsOk(s) && ReturnsOnce(s.history)
    requires i < |s.threads| && OneEvent(s, s', i, e)
    ensures LogOk(s') && ReturnsOk(s') && ReturnsOnce(s'.history)
  {
    assert ThreadOk(s, i);
    forall j | 0 <= j < |s'.history| ensures ReturnOk(s', j) {
      if j < |s.history| {
        assert ReturnOk(s, j);
      }
    }
    forall j, m | 0 <= j < m < |s'.history| && s'.history[j].Ret? && s'.history[m].Ret?
      ensures s'.history[j].id != s'.history[m].id
    {
    }
  }

  lemma EventThread(s: State, s': State, i: nat, e: Event, m: nat)
    requires LogOk(s) && ThreadsOk(s) && ReturnsOk(s)
    requires i < |s.threads| && OneEvent(s, s', i, e) && m < |s.threads|
    ensures ThreadOk(s', m)
  {
    assert ThreadOk(s, m) && ThreadOk(s, i);
    var t := s'.threads[m];
    forall j | 0 <= j < |s.history| && s.history[j].Ret? ensures s.history[j].id < |s.history| {
      assert ReturnOk(s, j);
    }
    if m != i && t.Done? {
      RecordedLater(s.log, t.id, t.ret, |s.history|, |s'.history|);
    }
  }

  lemma ConsistentEvent(a0: Int32, s: State, s': State, i: nat, e: Event)
    requires Consistent(a0, s) && i < |s.threads| && s'.a == s.a && OneEvent(s, s', i, e)
    ensures Consistent(a0, s')
  {
    EventReturns(s, s', i, e);
    forall m | 0 <= m < |s'.threads| ensures ThreadOk(s', m) {
      EventThread(s, s', i, e, m);
    }
  }

  /** An attempt that finds the expected value, or a load, takes effect as a whole. */
  lemma AttemptTakesEffect(s: State, i: nat)
    requires Enabled(s, Attempt(i)) && (s.threads[i].op.Load? || s.a == s.threads[i].tmp)
    ensures var s' := Next(s, Attempt(i));
            var f := Effect(s, i, Answer(s.threads[i].op, s.a));
            s'.a == f.a && s'.log == f.log && s'.threads == f.threads && s'.history == f.history
  {
  }

  lemma ConsistentAttempt(a0: Int32, s: State, i: nat)
    requires Consistent(a0, s) && Enabled(s, Attempt(i))
    ensures Consistent(a0, Next(s, Attempt(i)))
  {
    var t := s.threads[i];
    if t.op.Load? || s.a == t.tmp {
      AttemptTakesEffect(s, i);
      ConsistentEffect(a0, s, i, Answer(t.op, s.a));
      SameFacts(a0, Effect(s, i, Answer(t.op, s.a)), Next(s, Attempt(i)));
    } else {
      ConsistentRetry(a0, s, i, s.a, s.failed + 1);
    }
  }

  lemma ConsistentNext(a0: Int32, s: State, act: Action)
    requires Consistent(a0, s) && Enabled(s, act)
    ensures Consistent(a0, Next(s, act))
  {
    match act
    case Attempt(i) =>
      ConsistentAttempt(a0, s, i);
    case Invoke(i, op, _) =>
      ConsistentEvent(a0, s, Next(s, act), i, Inv(i, op));
    case Return(i) =>
      ConsistentEvent(a0, s, Next(s, act), i, Ret(i, s.threads[i].id, s.threads[i].ret));
  }

  lemma {:induction false} ConsistentRun(a0: Int32, s: State, acts: seq<Action>)
    requires Consistent(a0, s) && CanRun(s, acts)
    ensures Consistent(a0, Run(s, acts))
    decreases |acts|
  {
    if acts != [] {
      ConsistentNext(a0, s, acts[0]);
      ConsistentRun(a0, Next(s, acts[0]), acts[1..]);
    }
  }

  /** An operation that returned took effect before any that is invoked later. */
  lemma RealTime(s: State, j: nat, k: nat, l: nat)
    requires LogOk(s) && j < |s.history| && ReturnOk(s, j)
    requires k < |s.log| && l < |s.log| && s.history[j].Ret?
    requires s.history[j].id == s.log[k].id && j < s.log[l].id
    ensures k < l
  {
  }

  lemma ConsistentLinearizes(a0: Int32, s: State)
    requires Consistent(a0, s)
    ensures Linearizes(a0, s.history, s.log, s.a)
  {
    forall j | 0 <= j < |s.history| && s.history[j].Ret?
      ensures Recorded(s.log, s.history[j].id, s.history[j].ret, j)
    {
      assert ReturnOk(s, j);
    }
    forall j, k, l | 0 <= j < |s.history| && 0 <= k < |s.log| && 0 <= l < |s.log| && s.history[j].Ret?
      ensures s.history[j].id == s.log[k].id && j < s.log[l].id ==> k < l
    {
      if s.history[j].id == s.log[k].id && j < s.log[l].id {
        assert ReturnOk(s, j);
        RealTime(s, j, k, l);
      }
    }
  }

  /** Every interleaving of any number of threads is linearizable, whatever the first
      reads return and however often the variable returns to an earlier value. */
  lemma Linearizable(a0: Int32, count: nat, acts: seq<Action>)
    requires CanRun(Start(a0, count), acts)
    ensures var s := Run(Start(a0, count), acts);
            Linearizes(a0, s.history, s.log, s.a)
  {
    ConsistentRun(a0, Start(a0, count), acts);
    ConsistentLinearizes(a0, Run(Start(a0, count), acts));
  }

  // ---------- Tickets ----------

  ghost predicate OnlyIncrements(history: seq<Event>) {
    forall j :: 0 <= j < |history| && history[j].Inv? ==> history[j].op == Add(1)
  }

  lemma WrapStep(x: int)
    ensures Wrap(Wrap(x) + 1) == Wrap(x + 1)
  {
  }

  lemma {:induction false} ReplayIncrements(a0: Int32, log: seq<Entry>)
    requires forall k :: 0 <= k < |log| ==> log[k].op == Add(1)
    ensures Replay(a0, log) == Wrap(a0 + |log|)
  {
    if log != [] {
      ReplayIncrements(a0, log[..|log| - 1]);
      WrapStep(a0 + |log| - 1);
    }
  }

  lemma TicketOf(a0: Int32, log: seq<Entry>, a: Int32, k: nat)
    requires ReplaysTo(a0, log, a) && k < |log|
    requires forall m :: 0 <= m < |log| ==> log[m].op == Add(1)
    ensures log[k].ret == Wrap(a0 + k)
  {
    ReplayIncrements(a0, log[..k]);
  }

  /** Two operations recorded in a log of at most 2^32 consecutive tickets differ. */
  lemma TicketsDiffer(a0: Int32, log: seq<Entry>, e: Event, f: Event, j: nat, m: nat)
    requires |log| <= MODULUS && forall k :: 0 <= k < |log| ==> log[k].ret == Wrap(a0 + k)
    requires e.Ret? && f.Ret? && e.id != f.id
    requires Recorded(log, e.id, e.ret, j) && Recorded(log, f.id, f.ret, m)
    ensures e.ret != f.ret
  {
  }

  /** When every operation is add(1), the k-th to take effect gets ticket a0 + k, and up
      to 2^32 calls all return different tickets. */
  lemma Tickets(a0: Int32, count: nat, acts: seq<Action>)
    requires CanRun(Start(a0, count), acts)
    requires OnlyIncrements(Run(Start(a0, count), acts).history)
    ensures var s := Run(Start(a0, count), acts);
            && (forall k :: 0 <= k < |s.log| ==> s.log[k].ret == Wrap(a0 + k))
            && (|s.log| <= MODULUS ==> forall j, m | 0 <= j < m < |s.history| ::
                  s.history[j].Ret? && s.history[m].Ret? ==> s.history[j].ret != s.history[m].ret)
  {
    Linearizable(a0, count, acts);
    var s := Run(Start(a0, count), acts);
    forall m | 0 <= m < |s.log| ensures s.log[m].op == Add(1) {
      assert s.history[s.log[m].id].op == s.log[m].op;
    }
    forall k | 0 <= k < |s.log| ensures s.log[k].ret == Wrap(a0 + k) {
      TicketOf(a0, s.log, s.a, k);
    }
    if |s.log| <= MODULUS {
      forall j, m | 0 <= j < m < |s.history| && s.history[j].Ret? && s.history[m].Ret?
        ensures s.history[j].ret != s.history[m].ret
      {
        TicketsDiffer(a0, s.log, s.history[j], s.history[m], j, m);
      }
    }
  }

  /** An operation that runs alone does what the header comment says of it, at its first
      attempt. */
  lemma SoloRun(a0: Int32, op: Op)
    ensures var acts := [Invoke(0, op, a0), Attempt(0), Return(0)];
            CanRun(Start(a0, 1), acts) &&
            var s := Run(Start(a0, 1), acts);
            && s.failed == 0 && s.threads == [Idle]
            && s.a == (match op case Add(v) => (a0 + v) % 0x1_0000_0000 case Fas(v) => v case Load => a0 case Store(v) => v)
            && s.history == [Inv(0, op), Ret(0, 0, if op.Store? then 0 else a0)]
  {
    var s0 := Start(a0, 1);
    var s1 := Next(s0, Invoke(0, op, a0));
    var s2 := Next(s1, Attempt(0));
    var s3 := Next(s2, Return(0));
    assert s3.threads == [Idle] && s3.history == [Inv(0, op), Ret(0, 0, if op.Store? then 0 else a0)];
    RunOfThree(s0, Invoke(0, op, a0), Attempt(0), Return(0));
  }

  lemma RunFirst(s: State, act: Action, rest: seq<Action>)
    requires Enabled(s, act) && CanRun(Next(s, act), rest)
    ensures CanRun(s, [act] + rest) && Run(s, [act] + rest) == Run(Next(s, act), rest)
  {
    assert ([act] + rest)[1..] == rest;
  }

  lemma RunOfThree(s: State, a: Action, b: Action, c: Action)
    requires Enabled(s, a) && Enabled(Next(s, a), b) && Enabled(Next(Next(s, a), b), c)
    ensures CanRun(s, [a, b, c]) && Run(s, [a, b, c]) == Next(Next(Next(s, a), b), c)
  {
    RunFirst(Next(Next(s, a), b), c, []);
    RunFirst(Next(s, a), b, [c]);
    RunFirst(s, a, [b, c]);
    assert [a] + [b, c] == [a, b, c] && [b] + [c] == [b, c] && [c] + [] == [c];
  }

  // ---------- Totals ----------

  /** The values handed back, and the values given to fetch-and-store, in order of effect. */
  function Returns(log: seq<Entry>): seq<Int32> {
    seq(|log|, k requires 0 <= k < |log| => log[k].ret)
  }

  function Given(log: seq<Entry>): seq<Int32> {
    seq(|log|, k requires 0 <= k < |log| => if log[k].op.Fas? || log[k].op.Add? then log[k].op.v else 0)
  }

  function Sum(xs: seq<Int32>): int {
    if xs == [] then 0 else Sum(xs[..|xs| - 1]) + xs[|xs| - 1]
  }

  lemma ReplaysPrefix(a0: Int32, log: seq<Entry>, a: Int32)
    requires ReplaysTo(a0, log, a) && log != []
    ensures var n := |log| - 1;
            var before := Replay(a0, log[..n]);
            && ReplaysTo(a0, log[..n], before)
            && a == Apply(log[n].op, before) && log[n].ret == Answer(log[n].op, before)
  {
    var n := |log| - 1;
    forall k | 0 <= k < n ensures log[..n][k].ret == Answer(log[..n][k].op, Replay(a0, log[..n][..k])) {
      assert log[..n][..k] == log[..k];
    }
  }

  lemma {:induction false} FasConserves(a0: Int32, log: seq<Entry>, a: Int32)
    requires ReplaysTo(a0, log, a) && forall k :: 0 <= k < |log| ==> log[k].op.Fas?
    ensures multiset(Returns(log)) + multiset{a} == multiset{a0} + multiset(Given(log))
    decreases |log|
  {
    if log != [] {
      var n := |log| - 1;
      ReplaysPrefix(a0, log, a);
      FasConserves(a0, log[..n], Replay(a0, log[..n]));
      LastOfLog(log);
      Exchange(multiset(Returns(log[..n])), multiset(Given(log[..n])), a0, log[n].ret, a);
    }
  }

  lemma LastOfLog(log: seq<Entry>)
    requires log != []
    ensures var n := |log| - 1;
            && Returns(log) == Returns(log[..n]) + [log[n].ret]
            && Given(log) == Given(log[..n]) + [Given(log)[n]]
  {
  }

  lemma Exchange(returned: multiset<Int32>, given: multiset<Int32>, a0: Int32, before: Int32, after: Int32)
    requires returned + multiset{before} == multiset{a0} + given
    ensures returned + multiset{before} + multiset{after} == multiset{a0} + (given + multiset{after})
  {
  }

  lemma LogIsInvoked(a0: Int32, count: nat, acts: seq<Action>)
    requires CanRun(Start(a0, count), acts)
    ensures var s := Run(Start(a0, count), acts);
            && ReplaysTo(a0, s.log, s.a)
            && forall k :: 0 <= k < |s.log| ==>
                 s.log[k].id < |s.history| && s.history[s.log[k].id] == Inv(s.history[s.log[k].id].tid, s.log[k].op)
  {
    Linearizable(a0, count, acts);
  }

  /** When every operation is a fetch-and-store, no value is lost and none appears: what was
      returned and what is left are the first value and the values stored. */
  lemma FasTotals(a0: Int32, count: nat, acts: seq<Action>)
    requires CanRun(Start(a0, count), acts)
    requires var s := Run(Start(a0, count), acts);
             forall j :: 0 <= j < |s.history| && s.history[j].Inv? ==> s.history[j].op.Fas?
    ensures var s := Run(Start(a0, count), acts);
            multiset(Returns(s.log)) + multiset{s.a} == multiset{a0} + multiset(Given(s.log))
  {
    var s := Run(Start(a0, count), acts);
    LogIsInvoked(a0, count, acts);
    FasConserves(a0, s.log, s.a);
  }

  lemma SumOne(xs: seq<Int32>, x: Int32)
    ensures Sum(xs + [x]) == Sum(xs) + x
  {
    assert (xs + [x])[..|xs|] == xs;
  }

  lemma WrapAdd(x: int, v: int)
    ensures (x % 0x1_0000_0000 + v) % 0x1_0000_0000 == (x + v) % 0x1_0000_0000
  {
  }

  lemma {:induction false} AddsSum(a0: Int32, log: seq<Entry>)
    requires forall k :: 0 <= k < |log| ==> log[k].op.Add?
    ensures Replay(a0, log) == (a0 + Sum(Given(log))) % 0x1_0000_0000
    decreases |log|
  {
    if log != [] {
      var n := |log| - 1;
      var before, v := log[..n], log[n].op.v;
      AddsSum(a0, before);
      assert Given(log) == Given(before) + [v];
      SumOne(Given(before), v);
      WrapAdd(a0 + Sum(Given(before)), v);
    }
  }

  /** When every operation is an add, the variable ends at the first value plus everything
      added, modulo 2^32. */
  lemma AddTotals(a0: Int32, count: nat, acts: seq<Action>)
    requires CanRun(Start(a0, count), acts)
    requires var s := Run(Start(a0, count), acts);
             forall j :: 0 <= j < |s.history| && s.history[j].Inv? ==> s.history[j].op.Add?
    ensures var s := Run(Start(a0, count), acts);
            s.a == (a0 + Sum(Given(s.log))) % 0x1_0000_0000
  {
    var s := Run(Start(a0, count), acts);
    LogIsInvoked(a0, count, acts);
    AddsSum(a0, s.log);
  }

  lemma LastOfReplay(a0: Int32, log: seq<Entry>, a: Int32)
    requires ReplaysTo(a0, log, a) && log != []
    ensures var last := log[|log| - 1];
            && (last.op.Store? || last.op.Fas? ==> a == last.op.v)
            && (last.op.Add? ==> a == (last.ret + last.op.v) % 0x1_0000_0000)
            && (last.op.Load? ==> a == last.ret)
  {
    ReplaysPrefix(a0, log, a);
  }

  /** What the operation that took effect last leaves behind; a load leaves what it found. */
  lemma LastEffect(a0: Int32, count: nat, acts: seq<Action>)
    requires CanRun(Start(a0, count), acts) && Run(Start(a0, count), acts).log != []
    ensures var s := Run(Start(a0, count), acts);
            var last := s.log[|s.log| - 1];
            && (last.op.Store? || last.op.Fas? ==> s.a == last.op.v)
            && (last.op.Add? ==> s.a == (last.ret + last.op.v) % 0x1_0000_0000)
            && (last.op.Load? ==> s.a == last.ret)
  {
    var s := Run(Start(a0, count), acts);
    LogIsInvoked(a0, count, acts);
    LastOfReplay(a0, s.log, s.a);
  }

  // ---------- Lock-freedom ----------

  /** The thread's next CAS is bound to fail. */
  predicate IsStale(t: Thread, a: Int32) {
    t.Trying? && !t.op.Load? && t.tmp != a
  }

  function Stale(threads: seq<Thread>, a: Int32): nat {
    if threads == [] then 0
    else Stale(threads[..|threads| - 1], a) + if IsStale(threads[|threads| - 1], a) then 1 else 0
  }

  lemma {:induction false} StaleUpdate(threads: seq<Thread>, a: Int32, i: nat, t: Thread)
    requires i < |threads|
    ensures Stale(threads[i := t], a) + (if IsStale(threads[i], a) then 1 else 0)
            == Stale(threads, a) + (if IsStale(t, a) then 1 else 0)
  {
    var n := |threads| - 1;
    if i < n {
      assert threads[i := t][..n] == threads[..n][i := t];
      StaleUpdate(threads[..n], a, i, t);
    } else {
      assert threads[i := t][..n] == threads[..n];
    }
  }

  lemma {:induction false} StaleBelow(threads: seq<Thread>, a: Int32, i: nat)
    requires i < |threads| ==> !IsStale(threads[i], a)
    ensures Stale(threads, a) <= if i < |threads| then |threads| - 1 else |threads|
  {
    if threads != [] {
      StaleBelow(threads[..|threads| - 1], a, i);
    }
  }

  /** Each success spoils the expected value of at most count - 1 other threads, and
      each failure repairs one. */
  ghost predicate Progress(count: nat, s: State) {
    && |s.threads| == count
    && s.failed + Stale(s.threads, s.a) <= (count - 1) * s.succeeded + s.staleReads
  }

  lemma ProgressNext(count: nat, s: State, act: Action)
    requires Progress(count, s) && Enabled(s, act)
    ensures Progress(count, Next(s, act))
  {
    var s' := Next(s, act);
    StaleUpdate(s.threads, s.a, act.i, s'.threads[act.i]);
    if s'.succeeded == s.succeeded + 1 {
      StaleBelow(s'.threads, s'.a, act.i);
      assert (count - 1) * s'.succeeded == (count - 1) * s.succeeded + (count - 1);
    }
  }

  lemma {:induction false} ProgressRun(count: nat, s: State, acts: seq<Action>)
    requires Progress(count, s) && CanRun(s, acts)
    ensures Progress(count, Run(s, acts))
    decreases |acts|
  {
    if acts != [] {
      ProgressNext(count, s, acts[0]);
      ProgressRun(count, Next(s, acts[0]), acts[1..]);
    }
  }

  lemma {:induction false} NoneStale(count: nat, a: Int32)
    ensures Stale(seq(count, _ => Idle), a) == 0
  {
    if count > 0 {
      assert seq(count, _ => Idle)[..count - 1] == seq(count - 1, _ => Idle);
      NoneStale(count - 1, a);
    }
  }

  /** Lock-freedom: with `count` threads, failed attempts are at most count - 1 for each
      success, plus one for each first read that was out of date. */
  lemma LockFree(a0: Int32, count: nat, acts: seq<Action>)
    requires CanRun(Start(a0, count), acts)
    ensures var s := Run(Start(a0, count), acts);
            s.failed <= (count - 1) * s.succeeded + s.staleReads
  {
    NoneStale(count, a0);
    ProgressRun(count, Start(a0, count), acts);
  }

  /** The attempts of a run after which the thread tries again, and those of operations
      other than loads after which it does not. */
  function Attempts(s: State, acts: seq<Action>, again: bool): nat
    requires CanRun(s, acts)
    decreases |acts|
  {
    if acts == [] then 0
    else
      var next, act := Next(s, acts[0]), acts[0];
      (if act.Attempt? && !s.threads[act.i].op.Load? && next.threads[act.i].Trying? == again then 1 else 0)
      + Attempts(next, acts[1..], again)
  }

  /** The counters are exact. */
  lemma {:induction false} AttemptsAreCounted(s: State, acts: seq<Action>)
    requires CanRun(s, acts)
    ensures Run(s, acts).failed == s.failed + Attempts(s, acts, true)
    ensures Run(s, acts).succeeded == s.succeeded + Attempts(s, acts, false)
    decreases |acts|
  {
    if acts != [] {
      AttemptsAreCounted(Next(s, acts[0]), acts[1..]);
    }
  }

  /** Every first read returns the value the variable has at that moment. */
  predicate ReadsCurrent(s: State, acts: seq<Action>)
    requires CanRun(s, acts)
    decreases |acts|
  {
    acts == [] ||
    ((acts[0].Invoke? ==> acts[0].seen == s.a) && ReadsCurrent(Next(s, acts[0]), acts[1..]))
  }

  lemma {:induction false} NoStaleReads(s: State, acts: seq<Action>)
    requires CanRun(s, acts) && ReadsCurrent(s, acts)
    ensures Run(s, acts).staleReads == s.staleReads
    decreases |acts|
  {
    if acts != [] {
      NoStaleReads(Next(s, acts[0]), acts[1..]);
    }
  }

  /** When the first read is made at the invocation, at most count - 1 attempts fail for
      each that succeeds. */
  lemma LockFreeWhenCurrent(a0: Int32, count: nat, acts: seq<Action>)
    requires CanRun(Start(a0, count), acts) && ReadsCurrent(Start(a0, count), acts)
    ensures var s := Run(Start(a0, count), acts);
            s.failed <= (count - 1) * s.succeeded
  {
    LockFree(a0, count, acts);
    NoStaleReads(Start(a0, count), acts);
  }

  // ---------- The macro bodies, under interference ----------

  class Cell {
    var a: Int32
    constructor (a: Int32)
      ensures this.a == a
    {
      this.a := a;
    }
  }

  method AtomicCas(cell: Cell, cmp: Int32, set_: Int32) returns (ok: bool, cmp': Int32)
    modifies cell
    ensures CasResult(ok, cell.a, cmp') == Cas(old(cell.a), cmp, set_)
  {
    ok := cell.a == cmp;
    if ok {
      cell.a := set_;
      cmp' := cmp;
    } else {
      cmp' := cell.a;
    }
  }

  /** What the variable holds when the k-th attempt is made: other threads leave
      `others[k]` in it just before that attempt, and stop when `others` is used up. */
  function Seen(a0: Int32, others: seq<Int32>, k: nat): Int32 {
    if others == [] then a0
    else if k < |others| then others[k]
    else others[|others| - 1]
  }

  /** The value the k-th attempt expects: the first read, then the one found last. */
  function Expected(a0: Int32, others: seq<Int32>, k: nat): Int32 {
    if k == 0 then a0 else Seen(a0, others, k - 1)
  }

  /** The attempts before the k-th did not find the value they expected. */
  ghost predicate FailedBefore(a0: Int32, others: seq<Int32>, k: nat) {
    forall m {:trigger Expected(a0, others, m)} :: 0 <= m < k ==> Seen(a0, others, m) != Expected(a0, others, m)
  }

  method AtomicAdd(cell: Cell, v: Int32, others: seq<Int32>) returns (r: Int32, ghost k: nat)
    modifies cell
    ensures k <= |others| && FailedBefore(old(cell.a), others, k)
    ensures r == Seen(old(cell.a), others, k) == Expected(old(cell.a), others, k)
    ensures cell.a == (r + v) % 0x1_0000_0000
    ensures cell.a == Apply(Add(v), r) && r == Answer(Add(v), r)
  {
    var tmp := cell.a;
    var ok := false;
    var attempt := 0;
    while !ok
      invariant attempt <= |others| + 1 && (!ok ==> attempt <= |others|)
      invariant !ok ==> cell.a == tmp == Expected(old(cell.a), others, attempt)
      invariant FailedBefore(old(cell.a), others, if ok && attempt > 0 then attempt - 1 else attempt)
      invariant ok ==> 0 < attempt && cell.a == Desired(Add(v), tmp) && tmp == Seen(old(cell.a), others, attempt - 1)
                       == Expected(old(cell.a), others, attempt - 1)
      decreases |others| + 1 - attempt, !ok
    {
      if attempt < |others| {
        cell.a := others[attempt];
      }
      ok, tmp := AtomicCas(cell, tmp, Desired(Add(v), tmp));
      attempt := attempt + 1;
    }
    k := attempt - 1;
    return tmp, k;
  }

  method AtomicFas(cell: Cell, v: Int32, others: seq<Int32>) returns (r: Int32, ghost k: nat)
    modifies cell
    ensures k <= |others| && FailedBefore(old(cell.a), others, k)
    ensures r == Seen(old(cell.a), others, k) == Expected(old(cell.a), others, k)
    ensures cell.a == v
    ensures cell.a == Apply(Fas(v), r) && r == Answer(Fas(v), r)
  {
    var tmp := cell.a;
    var ok := false;
    var attempt := 0;
    while !ok
      invariant attempt <= |others| + 1 && (!ok ==> attempt <= |others|)
      invariant !ok ==> cell.a == tmp == Expected(old(cell.a), others, attempt)
      invariant FailedBefore(old(cell.a), others, if ok && attempt > 0 then attempt - 1 else attempt)
      invariant ok ==> 0 < attempt && cell.a == Desired(Fas(v), tmp) && tmp == Seen(old(cell.a), others, attempt - 1)
                       == Expected(old(cell.a), others, attempt - 1)
      decreases |others| + 1 - attempt, !ok
    {
      if attempt < |others| {
        cell.a := others[attempt];
      }
      ok, tmp := AtomicCas(cell, tmp, Desired(Fas(v), tmp));
      attempt := attempt + 1;
    }
    k := attempt - 1;
    return tmp, k;
  }

  method AtomicLoad(cell: Cell) returns (ret: Int32)
    modifies cell
    ensures ret == old(cell.a) && cell.a == old(cell.a)
    ensures ret == Answer(Load, old(cell.a)) && cell.a == Apply(Load, old(cell.a))
  {
    ret := 0;
    var ok;
    ok, ret := AtomicCas(cell, ret, Desired(Load, ret));
  }

  method AtomicStore(cell: Cell, v: Int32, others: seq<Int32>)
    modifies cell
    ensures cell.a == v && forall x :: cell.a == Apply(Store(v), x)
  {
    var r;
    ghost var k;
    r, k := AtomicFas(cell, v, others);
  }
}
