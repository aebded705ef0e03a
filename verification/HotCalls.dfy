/**
 * The HotCalls handshake: any number of requesters and one responder share a record under a
 * spinlock. Each section between lock and unlock is one step, and so is each callback; a run is
 * any interleaving of these steps. Tickets number the requests; the code has no such numbers.
 */
module HotCalls {

  const MAX_RETRIES: nat := 10

  datatype Call = Call(ticket: nat, callID: nat, data: nat)

  /** The shared record; the call stands for callID and data. */
  datatype Shared = Shared(call: Call, keepPolling: bool, runFunction: bool, isDone: bool, busy: bool)

  datatype Requester = Idle | Trying(call: Call, retries: nat) | Waiting(call: Call, retries: nat)

  /** Running has copied the call and dropped the lock; Ran has been through the callback. */
  datatype Responder = Polling | Running(call: Call) | Ran(call: Call) | Exited

  /** What a request returned: the number of retries, or -1. */
  datatype Outcome = Outcome(call: Call, code: int)

  /** The last three components record the callbacks run, the results returned and the next ticket. */
  datatype State = State(hot: Shared, requesters: seq<Requester>, responder: Responder,
                         log: seq<Call>, returned: seq<Outcome>, next: nat)

  datatype Action =
    | Begin(r: nat, callID: nat, data: nat)
    | Try(r: nat)
    | Check(r: nat)
    | Poll
    | Callback
    | Finish
    | Stop

  predicate Enabled(s: State, a: Action) {
    match a
    case Begin(r, _, _) => r < |s.requesters| && s.requesters[r].Idle?
    case Try(r) => r < |s.requesters| && s.requesters[r].Trying?
    case Check(r) => r < |s.requesters| && s.requesters[r].Waiting?
    case Poll => s.responder.Polling?
    case Callback => s.responder.Running?
    case Finish => s.responder.Ran?
    case Stop => true
  }

  function TryStep(s: State, r: nat): State
    requires r < |s.requesters| && s.requesters[r].Trying?
  {
    var Trying(call, retries) := s.requesters[r];
    if !s.hot.busy then
      s.(hot := s.hot.(call := call, runFunction := true, isDone := false, busy := true),
         requesters := s.requesters[r := Waiting(call, retries)])
    else if retries + 1 > MAX_RETRIES then
      s.(requesters := s.requesters[r := Idle], returned := s.returned + [Outcome(call, -1)])
    else
      s.(requesters := s.requesters[r := Trying(call, retries + 1)])
  }

  function CheckStep(s: State, r: nat): State
    requires r < |s.requesters| && s.requesters[r].Waiting?
  {
    var Waiting(call, retries) := s.requesters[r];
    if s.hot.isDone then
      s.(hot := s.hot.(busy := false), requesters := s.requesters[r := Idle],
         returned := s.returned + [Outcome(call, retries)])
    else s
  }

  function PollStep(s: State): State {
    if !s.hot.keepPolling then s.(responder := Exited)
    else if s.hot.runFunction then s.(responder := Running(s.hot.call))
    else s
  }

  /** One step, with a callback table of the given length. */
  function Next(entries: nat, s: State, a: Action): State
    requires Enabled(s, a)
  {
    match a
    case Begin(r, callID, data) =>
      s.(requesters := s.requesters[r := Trying(Call(s.next, callID, data), 0)], next := s.next + 1)
    case Try(r) => TryStep(s, r)
    case Check(r) => CheckStep(s, r)
    case Poll => PollStep(s)
    case Callback =>
      s.(responder := Ran(s.responder.call),
         log := if s.responder.call.callID < entries then s.log + [s.responder.call] else s.log)
    case Finish => s.(hot := s.hot.(isDone := true, runFunction := false), responder := Polling)
    case Stop => s.(hot := s.hot.(keepPolling := false))
  }

  predicate Init(s: State) {
    && s.hot.keepPolling && !s.hot.runFunction && !s.hot.isDone && !s.hot.busy
    && (forall r :: 0 <= r < |s.requesters| ==> s.requesters[r].Idle?)
    && s.responder.Polling? && s.log == [] && s.returned == [] && s.next == 0
  }

  ghost predicate IsRun(entries: nat, trace: seq<State>, actions: seq<Action>) {
    && |trace| == |actions| + 1 && Init(trace[0])
    && forall i {:trigger actions[i]} :: 0 <= i < |actions| ==> IsStep(entries, trace[i], actions[i], trace[i + 1])
  }

  predicate IsStep(entries: nat, s: State, a: Action, t: State) {
    Enabled(s, a) && t == Next(entries, s, a)
  }

  // ---------------------------------------------------------------- what every run keeps

  /** No callback has run under the ticket. */
  predicate NotRun(log: seq<Call>, ticket: nat) {
    forall i :: 0 <= i < |log| ==> log[i].ticket != ticket
  }

  /** The callback ran exactly once under the call's ticket, with its callID and data, or not at all if there is none. */
  predicate RunOnce(entries: nat, log: seq<Call>, call: Call) {
    if call.callID < entries then exists i :: 0 <= i < |log| && log[i] == call && forall j :: 0 <= j < |log| && j != i ==> log[j].ticket != call.ticket
    else NotRun(log, call.ticket)
  }

  predicate OutcomeOk(entries: nat, log: seq<Call>, o: Outcome) {
    if o.code == -1 then NotRun(log, o.call.ticket) else 0 <= o.code <= MAX_RETRIES && RunOnce(entries, log, o.call)
  }

  /** The call has been through the callback, or has not reached it. */
  predicate WaitingOk(entries: nat, s: State, call: Call) {
    && s.hot.busy && s.hot.call == call
    && (if s.hot.isDone then !s.hot.runFunction && (s.responder.Polling? || s.responder.Exited?)
        else s.hot.runFunction && (s.responder.Running? || s.responder.Ran? ==> s.responder.call == call))
    && (if s.hot.isDone || s.responder.Ran? then RunOnce(entries, s.log, call) else NotRun(s.log, call.ticket))
  }

  predicate RequesterOk(entries: nat, s: State, r: nat)
    requires r < |s.requesters|
  {
    match s.requesters[r]
    case Idle => true
    case Trying(call, retries) => call.ticket < s.next && retries <= MAX_RETRIES && NotRun(s.log, call.ticket)
    case Waiting(call, retries) => call.ticket < s.next && retries <= MAX_RETRIES && WaitingOk(entries, s, call)
  }

  predicate Active(q: Requester, ticket: nat) {
    !q.Idle? && q.call.ticket == ticket
  }

  /** Tickets in use, returned and recorded are old, and no two requests share one. */
  ghost predicate TicketsOk(s: State) {
    && (forall i :: 0 <= i < |s.log| ==> s.log[i].ticket < s.next)
    && (forall i :: 0 <= i < |s.returned| ==> s.returned[i].call.ticket < s.next)
    && (forall q, r :: 0 <= q < r < |s.requesters| && !s.requesters[q].Idle? ==> !Active(s.requesters[r], s.requesters[q].call.ticket))
    && (forall i, r :: 0 <= i < |s.returned| && 0 <= r < |s.requesters| ==> !Active(s.requesters[r], s.returned[i].call.ticket))
  }

  /** Somebody is between the acceptance of a request and its return. */
  ghost predicate SomeoneWaits(s: State) {
    exists r :: 0 <= r < |s.requesters| && s.requesters[r].Waiting?
  }

  ghost predicate Inv(entries: nat, s: State) {
    && TicketsOk(s)
    && (forall r :: 0 <= r < |s.requesters| ==> RequesterOk(entries, s, r))
    && (forall i :: 0 <= i < |s.returned| ==> OutcomeOk(entries, s.log, s.returned[i]))
    && (forall q, r :: 0 <= q < r < |s.requesters| ==> !(s.requesters[q].Waiting? && s.requesters[r].Waiting?))
    && (s.hot.busy <==> SomeoneWaits(s))
    && (!s.hot.busy ==> !s.hot.runFunction && (s.responder.Polling? || s.responder.Exited?))
  }

  // ---------------------------------------------------------------- every step keeps it

  /** A callback under another ticket changes nothing for this one. */
  lemma OtherRuns(entries: nat, log: seq<Call>, other: Call, call: Call)
    requires other.ticket != call.ticket
    ensures NotRun(log, call.ticket) ==> NotRun(log + [other], call.ticket)
    ensures RunOnce(entries, log, call) ==> RunOnce(entries, log + [other], call)
  {
    if call.callID < entries && RunOnce(entries, log, call) {
      var i :| 0 <= i < |log| && log[i] == call && forall j :: 0 <= j < |log| && j != i ==> log[j].ticket != call.ticket;
      assert (log + [other])[i] == call;
    }
  }

  lemma FirstRun(entries: nat, log: seq<Call>, call: Call)
    requires NotRun(log, call.ticket) && call.callID < entries
    ensures RunOnce(entries, log + [call], call)
  {
    var i := |log|;
    assert (log + [call])[i] == call;
  }

  lemma BeginKeeps(entries: nat, s: State, r: nat, callID: nat, data: nat)
    requires Inv(entries, s) && Enabled(s, Begin(r, callID, data))
    ensures Inv(entries, Next(entries, s, Begin(r, callID, data)))
  {
    hide RunOnce;
    var s' := Next(entries, s, Begin(r, callID, data));
    forall q | 0 <= q < |s'.requesters| ensures RequesterOk(entries, s', q) {
      assert RequesterOk(entries, s, q);
    }
    if s.hot.busy {
      var q :| 0 <= q < |s.requesters| && s.requesters[q].Waiting?;
      assert s'.requesters[q].Waiting?;
    }
    forall q, u | 0 <= q < u < |s'.requesters| && !s'.requesters[q].Idle?
      ensures !Active(s'.requesters[u], s'.requesters[q].call.ticket)
    {
      assert RequesterOk(entries, s, q) && RequesterOk(entries, s, u);
    }
  }

  lemma TryKeeps(entries: nat, s: State, r: nat)
    requires Inv(entries, s) && Enabled(s, Try(r))
    ensures Inv(entries, Next(entries, s, Try(r)))
  {
    hide RunOnce;
    var s' := TryStep(s, r);
    assert RequesterOk(entries, s, r);
    forall q | 0 <= q < |s'.requesters| ensures RequesterOk(entries, s', q) {
      assert RequesterOk(entries, s, q);
    }
    if s.hot.busy {
      var q :| 0 <= q < |s.requesters| && s.requesters[q].Waiting?;
      assert s'.requesters[q].Waiting?;
    } else {
      assert s'.requesters[r].Waiting?;
    }
  }

  lemma CheckKeeps(entries: nat, s: State, r: nat)
    requires Inv(entries, s) && Enabled(s, Check(r))
    ensures Inv(entries, Next(entries, s, Check(r)))
  {
    hide RunOnce, NotRun;
    var s' := CheckStep(s, r);
    assert RequesterOk(entries, s, r);
    forall q | 0 <= q < |s'.requesters| && s.hot.isDone ensures RequesterOk(entries, s', q) {
      assert RequesterOk(entries, s, q);
    }
    if s.hot.isDone {
      assert OutcomeOk(entries, s.log, Outcome(s.requesters[r].call, s.requesters[r].retries));
    }
  }

  lemma ResponderKeeps(entries: nat, s: State, a: Action)
    requires Inv(entries, s) && Enabled(s, a) && (a.Poll? || a.Finish? || a.Stop?)
    ensures Inv(entries, Next(entries, s, a))
  {
    hide RunOnce, NotRun;
    var s' := Next(entries, s, a);
    forall q | 0 <= q < |s'.requesters| ensures RequesterOk(entries, s', q) {
      assert RequesterOk(entries, s, q);
    }
    if s.hot.busy {
      var q :| 0 <= q < |s.requesters| && s.requesters[q].Waiting?;
      assert s'.requesters[q].Waiting? && RequesterOk(entries, s, q);
    }
  }

  lemma CallbackKeeps(entries: nat, s: State)
    requires Inv(entries, s) && Enabled(s, Callback)
    ensures Inv(entries, Next(entries, s, Callback))
  {
    var s' := Next(entries, s, Callback);
    var call := s.responder.call;
    var w :| 0 <= w < |s.requesters| && s.requesters[w].Waiting?;
    assert RequesterOk(entries, s, w);
    assert s.requesters[w].call == call && NotRun(s.log, call.ticket);
    if call.callID < entries {
      FirstRun(entries, s.log, call);
    }
    forall q | 0 <= q < |s'.requesters| && q != w ensures RequesterOk(entries, s', q) {
      assert RequesterOk(entries, s, q);
      if !s.requesters[q].Idle? {
        assert s.requesters[q].call.ticket != call.ticket;
        OtherRuns(entries, s.log, call, s.requesters[q].call);
      }
    }
    forall i | 0 <= i < |s.returned| ensures OutcomeOk(entries, s'.log, s.returned[i]) {
      assert !Active(s.requesters[w], s.returned[i].call.ticket);
      OtherRuns(entries, s.log, call, s.returned[i].call);
    }
    assert SomeoneWaits(s');
  }

  lemma StepKeeps(entries: nat, s: State, a: Action)
    requires Inv(entries, s) && Enabled(s, a)
    ensures Inv(entries, Next(entries, s, a))
  {
    hide Inv, Next;
    match a
    case Begin(r, callID, data) => BeginKeeps(entries, s, r, callID, data);
    case Try(r) => TryKeeps(entries, s, r);
    case Check(r) => CheckKeeps(entries, s, r);
    case Callback => CallbackKeeps(entries, s);
    case _ => ResponderKeeps(entries, s, a);
  }

  lemma RunStep(entries: nat, trace: seq<State>, actions: seq<Action>, n: nat)
    requires IsRun(entries, trace, actions) && 0 < n < |trace|
    ensures Enabled(trace[n - 1], actions[n - 1]) && trace[n] == Next(entries, trace[n - 1], actions[n - 1])
  {
    hide Enabled, Next, Init;
    assert IsStep(entries, trace[n - 1], actions[n - 1], trace[n]);
  }

  lemma {:induction false} EveryRun(entries: nat, trace: seq<State>, actions: seq<Action>, n: nat)
    requires IsRun(entries, trace, actions) && n < |trace|
    ensures Inv(entries, trace[n])
  {
    if n != 0 {
      EveryRun(entries, trace, actions, n - 1);
      RunStep(entries, trace, actions, n);
      StepKeeps(entries, trace[n - 1], actions[n - 1]);
    }
  }

  // ---------------------------------------------------------------- what callers rely on

  /** Results once returned stay recorded. */
  lemma {:induction false} ReturnedStays(entries: nat, trace: seq<State>, actions: seq<Action>, m: nat, n: nat, o: Outcome)
    requires IsRun(entries, trace, actions) && m <= n < |trace| && o in trace[m].returned
    ensures o in trace[n].returned
    decreases n
  {
    if m < n {
      ReturnedStays(entries, trace, actions, m, n - 1, o);
      RunStep(entries, trace, actions, n);
    }
  }

  /**
   * A request that has returned a retry count has had its callback run exactly once, with its own
   * callID and data, or not at all if the table has no such entry; one that has returned -1 has
   * never run. This holds when it returns and in every later state of every run.
   */
  lemma ExactlyOnce(entries: nat, trace: seq<State>, actions: seq<Action>, m: nat, n: nat, o: Outcome)
    requires IsRun(entries, trace, actions) && m <= n < |trace| && o in trace[m].returned
    ensures if o.code == -1 then NotRun(trace[n].log, o.call.ticket)
            else 0 <= o.code <= MAX_RETRIES && RunOnce(entries, trace[n].log, o.call)
  {
    ReturnedStays(entries, trace, actions, m, n, o);
    EveryRun(entries, trace, actions, n);
    var i :| 0 <= i < |trace[n].returned| && trace[n].returned[i] == o;
    assert OutcomeOk(entries, trace[n].log, trace[n].returned[i]);
  }

  // ---------------------------------------------------------------- what the returned number counts

  /** How often requester r tried from step m up to step n. */
  function Tries(actions: seq<Action>, r: nat, m: nat, n: nat): nat
    requires m <= n <= |actions|
  {
    if m == n then 0 else Tries(actions, r, m, n - 1) + (if actions[n - 1] == Try(r) then 1 else 0)
  }

  /** Every one of those tries, up to step n, found the record busy. */
  ghost predicate AllBusy(trace: seq<State>, actions: seq<Action>, r: nat, m: nat, n: nat)
    requires m <= n <= |actions| < |trace|
  {
    forall i {:trigger actions[i]} :: m <= i < n && actions[i] == Try(r) ==> trace[i].hot.busy
  }

  /** Requester r began the call at step m and has not returned from it before the state at n. */
  ghost predicate BeganAt(trace: seq<State>, actions: seq<Action>, r: nat, call: Call, m: nat, n: nat) {
    && m < n <= |actions| < |trace|
    && actions[m] == Begin(r, call.callID, call.data) && trace[m].next == call.ticket
    && forall i {:trigger actions[i]} :: m < i < n ==> !actions[i].Begin? || actions[i].r != r
  }

  /** The call was accepted at step k, by a try that found the record free. */
  ghost predicate AcceptedAt(trace: seq<State>, actions: seq<Action>, r: nat, m: nat, k: nat, n: nat) {
    && m < k < n <= |actions| < |trace|
    && actions[k] == Try(r) && !trace[k].hot.busy
    && AllBusy(trace, actions, r, m, k) && Tries(actions, r, k + 1, n) == 0
  }

  /** A request in progress has tried once for each retry, always in vain, and once more if it was accepted. */
  ghost predicate CountOk(trace: seq<State>, actions: seq<Action>, r: nat, q: Requester, m: nat, n: nat) {
    && !q.Idle? && BeganAt(trace, actions, r, q.call, m, n)
    && (q.Trying? ==> Tries(actions, r, m, n) == q.retries && AllBusy(trace, actions, r, m, n))
    && (q.Waiting? ==> Tries(actions, r, m, n) == q.retries + 1 && exists k :: AcceptedAt(trace, actions, r, m, k, n))
  }

  /** How the last step led to a requester that is not idle. */
  predicate StepOfOne(s: State, a: Action, r: nat, before: Requester, now: Requester) {
    if a.Begin? && a.r == r then now == Trying(Call(s.next, a.callID, a.data), 0)
    else if a == Try(r) then
      before.Trying? && now == (if s.hot.busy then Trying(before.call, before.retries + 1) else Waiting(before.call, before.retries))
    else now == before
  }

  lemma RequesterStep(entries: nat, trace: seq<State>, actions: seq<Action>, n: nat, r: nat)
    requires IsRun(entries, trace, actions) && n < |trace|
    requires r < |trace[n].requesters| && !trace[n].requesters[r].Idle?
    ensures 0 < n && r < |trace[n - 1].requesters|
    ensures StepOfOne(trace[n - 1], actions[n - 1], r, trace[n - 1].requesters[r], trace[n].requesters[r])
  {
    RunStep(entries, trace, actions, n);
  }

  lemma {:induction false} InProgress(entries: nat, trace: seq<State>, actions: seq<Action>, n: nat, r: nat) returns (m: nat)
    requires IsRun(entries, trace, actions) && n < |trace|
    requires r < |trace[n].requesters| && !trace[n].requesters[r].Idle?
    ensures CountOk(trace, actions, r, trace[n].requesters[r], m, n)
    decreases n
  {
    RequesterStep(entries, trace, actions, n, r);
    hide IsRun;
    var a, now := actions[n - 1], trace[n].requesters[r];
    if a.Begin? && a.r == r {
      m := n - 1;
      assert Tries(actions, r, m, m) == 0;
    } else {
      m := InProgress(entries, trace, actions, n - 1, r);
      if a == Try(r) {
        if now.Waiting? {
          assert AcceptedAt(trace, actions, r, m, n - 1, n);
        }
      } else if now.Waiting? {
        var k :| AcceptedAt(trace, actions, r, m, k, n - 1);
        assert AcceptedAt(trace, actions, r, m, k, n);
      }
    }
  }

  /** What a returned number counts: the tries of the request, and what each of them found. */
  ghost predicate CodeCounts(trace: seq<State>, actions: seq<Action>, r: nat, o: Outcome, m: nat, n: nat) {
    && BeganAt(trace, actions, r, o.call, m, n)
    && if o.code == -1 then Tries(actions, r, m, n) == MAX_RETRIES + 1 && AllBusy(trace, actions, r, m, n)
       else Tries(actions, r, m, n) == o.code + 1 && exists k :: AcceptedAt(trace, actions, r, m, k, n)
  }

  /** The step that records a result: the eleventh try in vain, or the check that finds the call done. */
  lemma ReturnStep(entries: nat, trace: seq<State>, actions: seq<Action>, n: nat, o: Outcome) returns (r: nat)
    requires IsRun(entries, trace, actions) && 0 < n < |trace|
    requires o in trace[n].returned && o !in trace[n - 1].returned
    ensures r < |trace[n - 1].requesters|
    ensures var q := trace[n - 1].requesters[r];
            && !q.Idle? && q.call == o.call
            && (if q.Trying? then actions[n - 1] == Try(r) && trace[n - 1].hot.busy && q.retries == MAX_RETRIES && o.code == -1
                else actions[n - 1] == Check(r) && o.code == q.retries)
  {
    RunStep(entries, trace, actions, n);
    EveryRun(entries, trace, actions, n - 1);
    r := actions[n - 1].r;
    assert RequesterOk(entries, trace[n - 1], r);
  }

  /**
   * Every result recorded in any run: the request began at some step m and returned at some step
   * n - 1. If it returned -1 it tried eleven times in between and found the record busy each time;
   * otherwise it tried once more than the number it returned, and only the last try found it free.
   */
  lemma {:induction false} CodeIsRetries(entries: nat, trace: seq<State>, actions: seq<Action>, last: nat, o: Outcome)
    returns (r: nat, m: nat, n: nat)
    requires IsRun(entries, trace, actions) && last < |trace| && o in trace[last].returned
    ensures n <= last && CodeCounts(trace, actions, r, o, m, n)
    ensures o !in trace[n - 1].returned && o in trace[n].returned
    decreases last
  {
    RunStep(entries, trace, actions, last);
    if o in trace[last - 1].returned {
      r, m, n := CodeIsRetries(entries, trace, actions, last - 1, o);
    } else {
      n := last;
      r := ReturnStep(entries, trace, actions, n, o);
      hide Next, Init, IsStep;
      m := InProgress(entries, trace, actions, n - 1, r);
      if trace[n - 1].requesters[r].Waiting? {
        var k :| AcceptedAt(trace, actions, r, m, k, n - 1);
        assert AcceptedAt(trace, actions, r, m, k, n);
      }
    }
  }

  /** In every state of every run the record is busy exactly when one requester waits, and never two do. */
  lemma BusyIffOneWaits(entries: nat, trace: seq<State>, actions: seq<Action>, n: nat, q: nat, r: nat)
    requires IsRun(entries, trace, actions) && n < |trace| && q < |trace[n].requesters| && r < |trace[n].requesters|
    ensures trace[n].hot.busy <==> SomeoneWaits(trace[n])
    ensures trace[n].requesters[q].Waiting? && trace[n].requesters[r].Waiting? ==> q == r
  {
    EveryRun(entries, trace, actions, n);
  }

  /** The responder exits only while polling: no call is then between its start and its completion. */
  lemma NeverExitsMidCall(entries: nat, trace: seq<State>, actions: seq<Action>, n: nat, r: nat)
    requires IsRun(entries, trace, actions) && n < |trace| && trace[n].responder.Exited?
    requires r < |trace[n].requesters| && trace[n].requesters[r].Waiting?
    ensures var call := trace[n].requesters[r].call;
            if trace[n].hot.isDone then RunOnce(entries, trace[n].log, call) else NotRun(trace[n].log, call.ticket)
  {
    EveryRun(entries, trace, actions, n);
    assert RequesterOk(entries, trace[n], r);
  }

  /** The call in the record is not done, and the responder has stopped or will stop before it looks for it. */
  predicate Lost(s: State) {
    !s.hot.isDone && (s.responder.Exited? || (s.responder.Polling? && !s.hot.keepPolling))
  }

  /** A request that was accepted but not picked up when the responder is stopped waits for ever and never runs. */
  lemma {:induction false} Stranded(entries: nat, trace: seq<State>, actions: seq<Action>, m: nat, n: nat, r: nat)
    requires IsRun(entries, trace, actions) && m <= n < |trace| && Lost(trace[m])
    requires r < |trace[m].requesters| && trace[m].requesters[r].Waiting?
    ensures Lost(trace[n]) && r < |trace[n].requesters|
    ensures trace[n].requesters[r] == trace[m].requesters[r] && NotRun(trace[n].log, trace[m].requesters[r].call.ticket)
    decreases n
  {
    EveryRun(entries, trace, actions, n);
    if m < n {
      Stranded(entries, trace, actions, m, n - 1, r);
      EveryRun(entries, trace, actions, n - 1);
      assert RequesterOk(entries, trace[n - 1], r);
      RunStep(entries, trace, actions, n);
    }
    assert RequesterOk(entries, trace[n], r);
  }

  /** Some continuation of the run up to m has a result for the call. */
  ghost predicate CanReturn(entries: nat, trace: seq<State>, m: nat, call: Call)
    requires m < |trace|
  {
    exists trace': seq<State>, actions': seq<Action>, n: nat, code: int ::
      Continues(entries, trace, m, trace', actions', n) && Outcome(call, code) in trace'[n].returned
  }

  /** A run that goes on from the run up to m, or ends there, to a state at n. */
  ghost predicate Continues(entries: nat, trace: seq<State>, m: nat, trace': seq<State>, actions': seq<Action>, n: nat)
    requires m < |trace|
  {
    IsRun(entries, trace', actions') && m <= n < |trace'| && trace'[..m + 1] == trace[..m + 1]
  }

  /** In any state of any run a waiting request can still return if and only if it is not lost. */
  lemma ReturnsIff(entries: nat, trace: seq<State>, actions: seq<Action>, m: nat, r: nat)
    requires IsRun(entries, trace, actions) && m < |trace|
    requires r < |trace[m].requesters| && trace[m].requesters[r].Waiting?
    ensures CanReturn(entries, trace, m, trace[m].requesters[r].call) <==> !Lost(trace[m])
  {
    var call := trace[m].requesters[r].call;
    if Lost(trace[m]) {
      forall trace': seq<State>, actions': seq<Action>, n: nat, code: int | Continues(entries, trace, m, trace', actions', n)
        ensures Outcome(call, code) !in trace'[n].returned
      {
        assert trace'[m] == trace'[..m + 1][m] == trace[m];
        NeverReturns(entries, trace', actions', m, n, r, code);
      }
    } else {
      Returns(entries, trace, actions, m, r);
    }
  }

  /** How many steps the responder is from completing a call that is not lost. */
  function Rank(s: State): nat {
    if s.hot.isDone then 0 else if s.responder.Ran? then 1 else if s.responder.Running? then 2 else 3
  }

  /** The next step towards a result. */
  function Onward(s: State, r: nat): Action {
    if s.hot.isDone then Check(r) else if s.responder.Ran? then Finish else if s.responder.Running? then Callback else Poll
  }

  lemma OnwardCloser(entries: nat, s: State, r: nat)
    requires Inv(entries, s) && r < |s.requesters| && s.requesters[r].Waiting? && !Lost(s)
    ensures Enabled(s, Onward(s, r))
    ensures var s' := Next(entries, s, Onward(s, r));
            if s.hot.isDone then Outcome(s.requesters[r].call, s.requesters[r].retries) in s'.returned
            else s'.requesters == s.requesters && !Lost(s') && Rank(s') < Rank(s)
  {
    assert RequesterOk(entries, s, r);
  }

  lemma {:induction false} Returns(entries: nat, trace: seq<State>, actions: seq<Action>, m: nat, r: nat)
    requires IsRun(entries, trace, actions) && m < |trace|
    requires r < |trace[m].requesters| && trace[m].requesters[r].Waiting? && !Lost(trace[m])
    ensures CanReturn(entries, trace, m, trace[m].requesters[r].call)
    decreases Rank(trace[m])
  {
    var s, a := trace[m], Onward(trace[m], r);
    EveryRun(entries, trace, actions, m);
    OnwardCloser(entries, s, r);
    OneMoreStep(entries, trace, actions, m, a);
    var more, acts := trace[..m + 1] + [Next(entries, s, a)], actions[..m] + [a];
    hide IsRun, Inv, Next, Lost, Onward, Enabled;
    assert more[..m + 1] == trace[..m + 1];
    if s.hot.isDone {
      assert Continues(entries, trace, m, more, acts, m + 1);
    } else {
      Returns(entries, more, acts, m + 1, r);
      var trace': seq<State>, actions': seq<Action>, n: nat, code: int :|
        Continues(entries, more, m + 1, trace', actions', n) && Outcome(s.requesters[r].call, code) in trace'[n].returned;
      assert trace'[..m + 1] == trace'[..m + 2][..m + 1] == more[..m + 2][..m + 1] == more[..m + 1];
      assert Continues(entries, trace, m, trace', actions', n);
    }
  }

  /** A lost request has no result in any later state. */
  lemma NeverReturns(entries: nat, trace: seq<State>, actions: seq<Action>, m: nat, n: nat, r: nat, code: int)
    requires IsRun(entries, trace, actions) && m <= n < |trace| && Lost(trace[m])
    requires r < |trace[m].requesters| && trace[m].requesters[r].Waiting?
    ensures Outcome(trace[m].requesters[r].call, code) !in trace[n].returned
  {
    Stranded(entries, trace, actions, m, n, r);
    EveryRun(entries, trace, actions, n);
    forall i | 0 <= i < |trace[n].returned| ensures trace[n].returned[i].call != trace[m].requesters[r].call {
      assert !Active(trace[n].requesters[r], trace[n].returned[i].call.ticket);
    }
  }

  /** A run can be cut at m and go on with any enabled step. */
  lemma OneMoreStep(entries: nat, trace: seq<State>, actions: seq<Action>, m: nat, a: Action)
    requires IsRun(entries, trace, actions) && m < |trace| && Enabled(trace[m], a)
    ensures IsRun(entries, trace[..m + 1] + [Next(entries, trace[m], a)], actions[..m] + [a])
  {
    hide IsStep, Init;
    var more, acts := trace[..m + 1] + [Next(entries, trace[m], a)], actions[..m] + [a];
    assert more[0] == trace[0] && |more| == |acts| + 1;
    forall i | 0 <= i < |acts| ensures IsStep(entries, more[i], acts[i], more[i + 1]) {
      if i < m {
        assert IsStep(entries, trace[i], actions[i], trace[i + 1]);
      } else {
        LastStep(entries, trace[m], a);
      }
    }
  }

  lemma LastStep(entries: nat, s: State, a: Action)
    requires Enabled(s, a)
    ensures IsStep(entries, s, a, Next(entries, s, a))
  {
  }

  /** The smallest run that strands a request: accepted, then stopped before the responder looks again. */
  lemma StrandingRun(s: State) returns (trace: seq<State>, actions: seq<Action>)
    requires Init(s) && 0 < |s.requesters|
    ensures IsRun(1, trace, actions) && trace[0] == s && |actions| == 4 && 0 < |trace[4].requesters|
    ensures trace[4].responder.Exited? && trace[4].requesters[0].Waiting? && Lost(trace[4])
  {
    var s1 := Next(1, s, Begin(0, 0, 7));
    var s2 := Next(1, s1, Try(0));
    var s3 := Next(1, s2, Stop);
    var s4 := Next(1, s3, Poll);
    trace, actions := [s, s1, s2, s3, s4], [Begin(0, 0, 7), Try(0), Stop, Poll];
  }
}
