/** Every run of the concurrent protocol is, in tables and answers, one sequential run of the atomic operations,
    in an order that respects which call ended before which began. */
module Linearizability {
  import opened Base
  import opened Domain
  import opened Schema
  import opened Spec
  import opened Protocol
  import opened Shape
  import opened Invariant
  import opened Steps

  // ----- sequential runs -----

  /** An operation with the uuid and timestamp the environment gave it. */
  datatype Invocation = Invocation(op: Op, id: TransferId, at: Time)

  function Serial(db: Tables, ops: seq<Invocation>): Tables {
    if ops == [] then db
    else
      var last := ops[|ops| - 1];
      Apply(Serial(db, ops[..|ops| - 1]), last.op, last.id, last.at).db
  }

  function SerialAnswer(db: Tables, ops: seq<Invocation>, i: nat): Answer
    requires i < |ops|
  {
    Apply(Serial(db, ops[..i]), ops[i].op, ops[i].id, ops[i].at).answer
  }

  function InvocationOf(call: Call): Invocation {
    Invocation(call.op, call.id, call.at)
  }

  function Invocations(s: State, order: seq<CallId>): seq<Invocation>
    requires forall c | c in order :: c in s.calls
  {
    seq(|order|, i requires 0 <= i < |order| => assert order[i] in order; InvocationOf(s.calls[order[i]]))
  }

  // ----- what it means for a run to be linearizable -----

  ghost predicate HasEnded(s: State, c: CallId) {
    c in s.calls && s.calls[c].pc.Finished?
  }

  ghost predicate NotBegun(s: State, c: CallId) {
    c in s.calls && s.calls[c].pc.AtStart?
  }

  ghost predicate AnswersAgree(s: State, db: Tables, order: seq<CallId>, i: nat)
    requires i < |order| && forall c | c in order :: c in s.calls
  {
    var pc := s.calls[order[i]].pc;
    pc.Finished? ==> pc.answer == Unknown || pc.answer == SerialAnswer(db, Invocations(s, order), i)
  }

  ghost predicate Linearizes(run: seq<State>, order: seq<CallId>)
    requires run != []
  {
    var first, last := run[0], run[|run| - 1];
    && (forall c | c in order :: c in last.calls)
    && (forall i, j | 0 <= i < j < |order| :: order[i] != order[j])
    // the tables are those of the sequential run, and so is every answer
    && Serial(first.db, Invocations(last, order)) == last.db
    && (forall i: nat | i < |order| :: AnswersAgree(last, first.db, order, i))
    // every call that reports an outcome is in the sequential run; one that reports an abort is not
    && (forall c | HasEnded(last, c) && !NoEffect(last.calls[c].op, last.calls[c].pc.answer) :: c in order)
    && (forall c | HasEnded(last, c) && last.calls[c].pc.answer == Aborted :: c !in order)
    // no call comes before one that had ended before it began
    && (forall i, j, k | 0 <= i < j < |order| && 0 <= k < |run| && HasEnded(run[k], order[j]) ::
          !NotBegun(run[k], order[i]))
  }

  // ----- the order: effective steps, in the order they were taken -----

  ghost predicate Effective(s: State, k: nat)
    requires k < |s.trace|
  {
    s.trace[k].actor in s.calls && s.calls[s.trace[k].actor].lin == Some(k)
  }

  ghost function Order(s: State, n: nat): seq<CallId>
    requires n <= |s.trace|
  {
    if n == 0 then []
    else if Effective(s, n - 1) then Order(s, n - 1) + [s.trace[n - 1].actor]
    else Order(s, n - 1)
  }

  lemma {:induction false} OrderMembers(s: State, n: nat, c: CallId)
    requires n <= |s.trace|
    ensures c in Order(s, n) <==>
      c in s.calls && s.calls[c].lin.Some? && s.calls[c].lin.value < n && s.trace[s.calls[c].lin.value].actor == c
  {
    if n > 0 {
      OrderMembers(s, n - 1, c);
    }
  }

  lemma {:induction false} OrderAscends(s: State, n: nat, i: nat, j: nat)
    requires n <= |s.trace| && i < j < |Order(s, n)|
    ensures forall c | c in Order(s, n) :: c in s.calls && s.calls[c].lin.Some?
    ensures s.calls[Order(s, n)[i]].lin.value < s.calls[Order(s, n)[j]].lin.value
  {
    var o := Order(s, n);
    forall c | c in o ensures c in s.calls && s.calls[c].lin.Some? { OrderMembers(s, n, c); }
    if Effective(s, n - 1) {
      if j == |o| - 1 {
        OrderMembers(s, n - 1, o[i]);
        assert o[i] in Order(s, n - 1);
      } else {
        OrderAscends(s, n - 1, i, j);
      }
    } else {
      OrderAscends(s, n - 1, i, j);
    }
  }

  lemma SerialAppend(db: Tables, ops: seq<Invocation>, o: Invocation)
    ensures Serial(db, ops + [o]) == Apply(Serial(db, ops), o.op, o.id, o.at).db
  {
    assert (ops + [o])[..|ops + [o]| - 1] == ops;
  }

  lemma OrderInCalls(s: State, n: nat)
    requires n <= |s.trace|
    ensures forall c | c in Order(s, n) :: c in s.calls
  {
    forall c | c in Order(s, n) ensures c in s.calls { OrderMembers(s, n, c); }
  }

  /** What the invariant says about one step of the past. */
  lemma StepInThePast(s: State, k: nat)
    requires Coherent(s) && k < |s.trace|
    ensures if Effective(s, k)
      then TakesEffectAt(s, s.trace[k].actor, s.calls[s.trace[k].actor], k, Unknown)
      else Hist(s, k + 1) == Hist(s, k)
  {
    hide Apply;
    var c := s.trace[k].actor;
    assert PastOk(s, k);
    if Effective(s, k) {
      assert CallOk(s, c, s.calls[c]);
      LinTakesEffect(s, c, s.calls[c], k);
    }
  }

  lemma LinTakesEffect(s: State, c: CallId, call: Call, k: nat)
    requires CallOk(s, c, call) && call.lin == Some(k)
    ensures TakesEffectAt(s, c, call, k, Unknown)
    ensures call.pc.Finished? ==> TakesEffectAt(s, c, call, k, call.pc.answer) && k < call.ended
  {
    hide Apply, Held, Local, ReadsCurrent;
  }

  lemma {:induction false} OrderIsSerial(s: State, n: nat)
    requires Coherent(s) && n <= |s.trace|
    ensures forall c | c in Order(s, n) :: c in s.calls
    ensures Serial(Hist(s, 0), Invocations(s, Order(s, n))) == Hist(s, n)
  {
    hide Coherent, Apply;
    OrderInCalls(s, n);
    if n > 0 {
      OrderIsSerial(s, n - 1);
      StepInThePast(s, n - 1);
      if Effective(s, n - 1) {
        var c := s.trace[n - 1].actor;
        var ops := Invocations(s, Order(s, n - 1));
        assert Invocations(s, Order(s, n)) == ops + [InvocationOf(s.calls[c])];
        SerialAppend(Hist(s, 0), ops, InvocationOf(s.calls[c]));
      }
    }
  }

  lemma {:induction false} OrderPrefix(s: State, m: nat, n: nat)
    requires m <= n <= |s.trace|
    ensures |Order(s, m)| <= |Order(s, n)| && Order(s, m) == Order(s, n)[..|Order(s, m)|]
  {
    if m < n {
      OrderPrefix(s, m, n - 1);
    }
  }

  /** A call's place in the order is the number of effective steps before its own. */
  lemma PlaceOf(s: State, i: nat)
    requires Coherent(s) && i < |Order(s, |s.trace|)|
    ensures var c := Order(s, |s.trace|)[i];
      && c in s.calls && s.calls[c].lin.Some? && s.calls[c].lin.value < |s.trace|
      && Order(s, s.calls[c].lin.value) == Order(s, |s.trace|)[..i]
  {
    hide Coherent;
    var n := |s.trace|;
    var c := Order(s, n)[i];
    assert c in Order(s, n);
    OrderMembers(s, n, c);
    var k := s.calls[c].lin.value;
    assert Order(s, k + 1) == Order(s, k) + [c];
    OrderPrefix(s, k + 1, n);
    OrderPrefix(s, k, n);
    var i' := |Order(s, k)|;
    assert Order(s, n)[i'] == c;
    if i < i' {
      OrderAscends(s, n, i, i');
    } else if i' < i {
      OrderAscends(s, n, i', i);
    }
  }

  lemma AnswersMatch(s: State, i: nat)
    requires Coherent(s) && i < |Order(s, |s.trace|)|
    ensures forall c | c in Order(s, |s.trace|) :: c in s.calls
    ensures AnswersAgree(s, Hist(s, 0), Order(s, |s.trace|), i)
  {
    hide Apply;
    var order := Order(s, |s.trace|);
    OrderInCalls(s, |s.trace|);
    PlaceOf(s, i);
    var c := order[i];
    var k := s.calls[c].lin.value;
    assert CallOk(s, c, s.calls[c]);
    LinTakesEffect(s, c, s.calls[c], k);
    OrderIsSerial(s, k);
    assert Invocations(s, order)[..i] == Invocations(s, Order(s, k));
  }

  // ----- the bookkeeping in the state is the real history of the run -----

  ghost predicate Remembers(run: seq<State>, i: nat)
    requires i < |run|
  {
    && |run[i].trace| == i
    && (forall k: nat | k <= i :: Hist(run[i], k) == run[k].db)
    && (forall c, k: nat | k <= i :: Interval(run, i, c, k))
  }

  ghost predicate Interval(run: seq<State>, i: nat, c: CallId, k: nat)
    requires k <= i < |run|
  {
    && (NotBegun(run[k], c) && !NotBegun(run[i], c) && c in run[i].calls ==> k <= run[i].calls[c].started)
    && (HasEnded(run[k], c) ==> HasEnded(run[i], c) && run[i].calls[c].ended <= k)
  }

  lemma IntervalStep(run: seq<State>, i: nat, c: CallId, d: CallId, k: nat)
    requires i > 0 && k <= i < |run| && Moves(run[i - 1], run[i], d) && |run[i - 1].trace| == i - 1
    requires k < i ==> Interval(run, i - 1, c, k)
    requires HasEnded(run[i], c) ==> run[i].calls[c].ended <= i
    ensures Interval(run, i, c, k)
  {
  }

  lemma SomebodyMoved(run: seq<State>, i: nat) returns (c: CallId)
    requires IsRun(run) && 0 < i < |run|
    ensures Moves(run[i - 1], run[i], c)
  {
    hide Step, CanStep, Moves;
    assert Next(run[i - 1], run[i]);
    var d, a :| CanStep(run[i - 1], d, a) && run[i] == Step(run[i - 1], d, a);
    StepMoves(run[i - 1], d, a);
    c := d;
  }

  lemma {:induction false} RunRemembers(run: seq<State>, i: nat)
    requires IsRun(run) && i < |run|
    ensures Remembers(run, i)
  {
    hide Next, Init;
    if i == 0 {
      InitRemembers(run);
    } else {
      RunRemembers(run, i - 1);
      var d := SomebodyMoved(run, i);
      forall k: nat | k <= i ensures Hist(run[i], k) == run[k].db {
        if k < i {
          assert Hist(run[i - 1], k) == run[k].db;
        }
      }
      forall c, k: nat | k <= i ensures Interval(run, i, c, k) {
        assert k < i ==> Interval(run, i - 1, c, k);
        EndedBookkeeping(run, i);
        IntervalStep(run, i, c, d, k);
      }
    }
  }

  lemma InitRemembers(run: seq<State>)
    requires IsRun(run)
    ensures Remembers(run, 0)
  {
  }

  lemma EndedBookkeeping(run: seq<State>, i: nat)
    requires IsRun(run) && i < |run|
    ensures forall c | HasEnded(run[i], c) :: run[i].calls[c].ended <= |run[i].trace|
  {
    hide IsRun;
    RunHasInv(run, i);
    assert forall c | HasEnded(run[i], c) :: CallOk(run[i], c, run[i].calls[c]);
  }

  // ----- the theorem -----

  lemma RealTimeRespected(run: seq<State>, order: seq<CallId>, i: nat, j: nat, k: nat)
    requires IsRun(run) && order == Order(run[|run| - 1], |run[|run| - 1].trace|)
    requires i < j < |order| && k < |run| && HasEnded(run[k], order[j])
    ensures !NotBegun(run[k], order[i])
  {
    hide IsRun;
    var n := |run| - 1;
    var s := run[n];
    RunHasInv(run, n);
    RunRemembers(run, n);
    PlaceOf(s, i);
    PlaceOf(s, j);
    OrderAscends(s, |s.trace|, i, j);
    var a, b := order[i], order[j];
    assert CallOk(s, a, s.calls[a]) && CallOk(s, b, s.calls[b]);
    LinTakesEffect(s, a, s.calls[a], s.calls[a].lin.value);
    assert Interval(run, n, b, k) && Interval(run, n, a, k);
    LinTakesEffect(s, b, s.calls[b], s.calls[b].lin.value);
    CallsWithEffectHaveBegun(s, a, s.calls[a]);
  }

  lemma CallsWithEffectHaveBegun(s: State, c: CallId, call: Call)
    requires CallOk(s, c, call) && call.lin.Some?
    ensures !call.pc.AtStart?
  {
  }

  /** Linearizability. */
  lemma RunIsLinearizable(run: seq<State>)
    requires IsRun(run)
    ensures exists order :: Linearizes(run, order)
  {
    hide Init, Next, Apply;
    var n := |run| - 1;
    var s := run[n];
    var order := Order(s, |s.trace|);
    RunHasInv(run, n);
    RunRemembers(run, n);
    assert run[0].db == Hist(s, 0);
    OrderInCalls(s, |s.trace|);
    OrderIsSerial(s, |s.trace|);
    forall i, j | 0 <= i < j < |order| ensures order[i] != order[j] {
      OrderAscends(s, |s.trace|, i, j);
    }
    forall i: nat | i < |order| ensures AnswersAgree(s, run[0].db, order, i) {
      AnswersMatch(s, i);
    }
    forall c | HasEnded(s, c)
      ensures !NoEffect(s.calls[c].op, s.calls[c].pc.answer) ==> c in order
      ensures s.calls[c].pc.answer == Aborted ==> c !in order
    {
      EndedIsInOrder(s, c);
    }
    forall i, j, k | 0 <= i < j < |order| && 0 <= k < |run| && HasEnded(run[k], order[j])
      ensures !NotBegun(run[k], order[i])
    {
      RealTimeRespected(run, order, i, j, k);
    }
    assert Linearizes(run, order);
  }

  lemma EndedIsInOrder(s: State, c: CallId)
    requires Coherent(s) && HasEnded(s, c)
    ensures !NoEffect(s.calls[c].op, s.calls[c].pc.answer) ==> c in Order(s, |s.trace|)
    ensures s.calls[c].pc.answer == Aborted ==> c !in Order(s, |s.trace|)
  {
    assert CallOk(s, c, s.calls[c]);
    OrderMembers(s, |s.trace|, c);
  }
}
