/**
 * Connections to hosts: native connects of one host run one after another, every connect attempt and
 * disconnect starts a new generation, and late answers are judged by the generation they belong to.
 *
 * Promises are numbered; each callback of a promise is a step of its own, so any interleaving is a run.
 */
module Connections {
  import opened Options

  /** An attempt waits for another, is with the native side, has been answered, or has settled. */
  datatype Phase = Queued(after: nat) | InFlight(generation: nat) | Answered | Settled

  datatype Attempt = Attempt(host: string, phase: Phase)
  datatype Connection = Connection(signature: string, promise: nat)

  /** A request in flight, with the generation in which it was issued; 0 when there was none yet. */
  datatype Call = Call(host: string, generation: nat, open: bool)

  /** `origin` records the generation whose answer set the support flag; the program does not keep it. */
  datatype Api = Api(
    generations: map<string, nat>,
    support: map<string, bool>,
    connections: map<string, Connection>,
    attempts: seq<Attempt>,
    calls: seq<Call>,
    fired: seq<nat>,
    origin: map<string, nat>)

  const INITIAL := Api(map[], map[], map[], [], [], [], map[])

  datatype Step =
    | Connect(host: string, signature: string, password: bool)
    | Begin(attempt: nat)
    | Answer(attempt: nat, hello: Option<bool>)
    | Finally(attempt: nat)
    | Disconnect(host: string)
    | Request(host: string, preview: bool)
    | Fail(call: nat, lost: bool)
    | Succeed(call: nat)

  function Generation(s: Api, host: string): nat {
    if host in s.generations then s.generations[host] else 0
  }

  // ---------------------------------------------------------------- steps

  predicate Enabled(s: Api, step: Step) {
    match step
    case Begin(i) =>
      i < |s.attempts| && s.attempts[i].phase.Queued? && s.attempts[i].phase.after < |s.attempts|
      && s.attempts[s.attempts[i].phase.after].phase == Settled
    case Answer(i, _) => i < |s.attempts| && s.attempts[i].phase.InFlight?
    case Finally(i) => i < |s.attempts| && s.attempts[i].phase == Answered
    case Fail(c, _) => c < |s.calls| && s.calls[c].open
    case Succeed(c) => c < |s.calls| && s.calls[c].open
    case _ => true
  }

  /** A new generation forgets what the last one supported. */
  function NewGeneration(s: Api, host: string): Api {
    s.(generations := s.generations[host := Generation(s, host) + 1],
       support := s.support - {host}, origin := s.origin - {host})
  }

  /** Whether a connect call shares the pending promise. */
  predicate Shares(s: Api, host: string, signature: string, password: bool) {
    host in s.connections && s.connections[host].signature == signature && !password
  }

  function DoConnect(s: Api, host: string, signature: string, password: bool): Api {
    if Shares(s, host, signature, password) then s
    else
      var id := |s.attempts|;
      var started :=
        if host in s.connections then s.(attempts := s.attempts + [Attempt(host, Queued(s.connections[host].promise))])
        else
          var next := NewGeneration(s, host);
          next.(attempts := s.attempts + [Attempt(host, InFlight(Generation(next, host)))]);
      started.(connections := s.connections[host := Connection(signature, id)])
  }

  function DoBegin(s: Api, i: nat): Api
    requires i < |s.attempts|
  {
    var host := s.attempts[i].host;
    var next := NewGeneration(s, host);
    next.(attempts := s.attempts[i := Attempt(host, InFlight(Generation(next, host)))])
  }

  function DoAnswer(s: Api, i: nat, hello: Option<bool>): Api
    requires i < |s.attempts| && s.attempts[i].phase.InFlight?
  {
    var a := s.attempts[i];
    var next := s.(attempts := s.attempts[i := Attempt(a.host, Answered)]);
    if a.phase.generation == Generation(s, a.host) && hello.Some? then
      next.(support := s.support[a.host := hello.value], origin := s.origin[a.host := a.phase.generation])
    else next
  }

  function DoFinally(s: Api, i: nat): Api
    requires i < |s.attempts|
  {
    var host := s.attempts[i].host;
    s.(attempts := s.attempts[i := Attempt(host, Settled)],
       connections := if host in s.connections && s.connections[host].promise == i then s.connections - {host}
                      else s.connections)
  }

  /** A preview request goes out only to a host known to support it. */
  predicate Sends(s: Api, host: string, preview: bool) {
    preview ==> host in s.support && s.support[host]
  }

  function DoRequest(s: Api, host: string, preview: bool): Api {
    if Sends(s, host, preview) then s.(calls := s.calls + [Call(host, Generation(s, host), true)]) else s
  }

  function DoFail(s: Api, c: nat, lost: bool): Api
    requires c < |s.calls|
  {
    var call := s.calls[c];
    var closed := s.(calls := s.calls[c := call.(open := false)]);
    if lost && call.generation == Generation(s, call.host) then
      closed.(support := s.support - {call.host}, origin := s.origin - {call.host}, fired := s.fired + [c])
    else closed
  }

  function Next(s: Api, step: Step): Api
    requires Enabled(s, step)
  {
    match step
    case Connect(host, signature, password) => DoConnect(s, host, signature, password)
    case Begin(i) => DoBegin(s, i)
    case Answer(i, hello) => DoAnswer(s, i, hello)
    case Finally(i) => DoFinally(s, i)
    case Disconnect(host) => NewGeneration(s, host)
    case Request(host, preview) => DoRequest(s, host, preview)
    case Fail(c, lost) => DoFail(s, c, lost)
    case Succeed(c) => s.(calls := s.calls[c := s.calls[c].(open := false)])
  }

  ghost predicate Run(states: seq<Api>, steps: seq<Step>) {
    && |states| == |steps| + 1 && states[0] == INITIAL
    && forall i {:trigger steps[i]} | 0 <= i < |steps| ::
         Enabled(states[i], steps[i]) && states[i + 1] == Next(states[i], steps[i])
  }

  // ---------------------------------------------------------------- chains

  /** Every earlier attempt of the same host has settled. */
  ghost predicate First(attempts: seq<Attempt>, i: nat)
    requires i < |attempts|
  {
    forall j | 0 <= j < i && attempts[j].host == attempts[i].host :: attempts[j].phase == Settled
  }

  /** `after` is the attempt of the same host directly before `i`. */
  ghost predicate Follows(attempts: seq<Attempt>, i: nat, after: nat)
    requires i < |attempts|
  {
    && after < i && attempts[after].host == attempts[i].host
    && forall j | after < j < i :: attempts[j].host != attempts[i].host
  }

  ghost predicate Chained(attempts: seq<Attempt>) {
    forall i: nat | i < |attempts| ::
      if attempts[i].phase.Queued? then Follows(attempts, i, attempts[i].phase.after) else First(attempts, i)
  }

  /** `promise` is the last attempt of the host, and has not settled. */
  ghost predicate Tail(attempts: seq<Attempt>, host: string, promise: nat) {
    && promise < |attempts| && attempts[promise].host == host && attempts[promise].phase != Settled
    && forall j | promise < j < |attempts| :: attempts[j].host != host
  }

  ghost predicate Tails(attempts: seq<Attempt>, connections: map<string, Connection>) {
    && (forall host | host in connections :: Tail(attempts, host, connections[host].promise))
    && (forall j | 0 <= j < |attempts| && attempts[j].phase != Settled :: attempts[j].host in connections)
  }

  /** A flag is known only from an answer of the current generation. */
  ghost predicate Fresh(s: Api) {
    && s.support.Keys == s.origin.Keys
    && forall host | host in s.origin :: s.origin[host] == Generation(s, host)
  }

  ghost predicate Inv(s: Api) {
    Chained(s.attempts) && Tails(s.attempts, s.connections) && Fresh(s)
  }

  lemma AddKeepsChains(attempts: seq<Attempt>, a: Attempt)
    requires Chained(attempts)
    requires var more := attempts + [a];
      if a.phase.Queued? then Follows(more, |attempts|, a.phase.after) else First(more, |attempts|)
    ensures Chained(attempts + [a])
  {
    var more := attempts + [a];
    forall i: nat | i < |more|
      ensures if more[i].phase.Queued? then Follows(more, i, more[i].phase.after) else First(more, i)
    {
      if i < |attempts| {
        assert more[i] == attempts[i];
      }
    }
  }

  lemma AddKeepsTails(attempts: seq<Attempt>, connections: map<string, Connection>, a: Attempt, signature: string)
    requires Tails(attempts, connections) && a.phase != Settled
    ensures Tails(attempts + [a], connections[a.host := Connection(signature, |attempts|)])
  {
    forall host | host in connections && host != a.host ensures Tail(attempts + [a], host, connections[host].promise) {
      assert Tail(attempts, host, connections[host].promise);
    }
  }

  lemma ConnectKeepsInv(s: Api, host: string, signature: string, password: bool)
    requires Inv(s)
    ensures Inv(DoConnect(s, host, signature, password))
  {
    if !Shares(s, host, signature, password) {
      var next := DoConnect(s, host, signature, password);
      var a := next.attempts[|s.attempts|];
      if host in s.connections {
        assert Tail(s.attempts, host, s.connections[host].promise);
      }
      AddKeepsChains(s.attempts, a);
      AddKeepsTails(s.attempts, s.connections, a, signature);
    }
  }

  /** The attempt whose turn has come: everything before it has settled. */
  lemma NextInLine(s: Api, i: nat)
    requires Inv(s) && Enabled(s, Begin(i))
    ensures First(s.attempts, i)
  {
    var p := s.attempts[i].phase.after;
    assert Follows(s.attempts, i, p);
    assert First(s.attempts, p);
  }

  lemma UpdateKeepsChains(attempts: seq<Attempt>, i: nat, phase: Phase)
    requires Chained(attempts) && i < |attempts| && First(attempts, i) && !phase.Queued?
    requires attempts[i].phase != Settled
    ensures Chained(attempts[i := Attempt(attempts[i].host, phase)])
  {
    var next := attempts[i := Attempt(attempts[i].host, phase)];
    forall k: nat | k < |next|
      ensures if next[k].phase.Queued? then Follows(next, k, next[k].phase.after) else First(next, k)
    {
      if next[k].phase.Queued? {
        assert Follows(attempts, k, attempts[k].phase.after);
      } else if k == i {
        assert First(attempts, i);
      } else {
        assert First(attempts, k);
        assert !(i < k && attempts[i].host == attempts[k].host);
      }
    }
  }

  lemma UpdateKeepsTails(attempts: seq<Attempt>, connections: map<string, Connection>, i: nat, phase: Phase)
    requires Tails(attempts, connections) && i < |attempts| && attempts[i].phase != Settled && phase != Settled
    ensures Tails(attempts[i := Attempt(attempts[i].host, phase)], connections)
  {
    var next := attempts[i := Attempt(attempts[i].host, phase)];
    forall host | host in connections ensures Tail(next, host, connections[host].promise) {
      assert Tail(attempts, host, connections[host].promise);
    }
  }

  lemma BeginKeepsInv(s: Api, i: nat)
    requires Inv(s) && Enabled(s, Begin(i))
    ensures Inv(DoBegin(s, i))
  {
    var phase := DoBegin(s, i).attempts[i].phase;
    NextInLine(s, i);
    UpdateKeepsChains(s.attempts, i, phase);
    UpdateKeepsTails(s.attempts, s.connections, i, phase);
  }

  lemma AnswerKeepsInv(s: Api, i: nat, hello: Option<bool>)
    requires Inv(s) && Enabled(s, Answer(i, hello))
    ensures Inv(DoAnswer(s, i, hello))
  {
    UpdateKeepsChains(s.attempts, i, Answered);
    UpdateKeepsTails(s.attempts, s.connections, i, Answered);
  }

  lemma SettleKeepsTails(attempts: seq<Attempt>, connections: map<string, Connection>, i: nat)
    requires Tails(attempts, connections) && i < |attempts| && attempts[i].phase != Settled && First(attempts, i)
    ensures attempts[i].host in connections
    ensures var host := attempts[i].host;
      Tails(attempts[i := Attempt(host, Settled)],
            if connections[host].promise == i then connections - {host} else connections)
  {
    var host := attempts[i].host;
    var next := attempts[i := Attempt(host, Settled)];
    assert Tail(attempts, host, connections[host].promise);
    forall h | h in connections && (h != host || connections[h].promise != i)
      ensures Tail(next, h, connections[h].promise)
    {
      assert Tail(attempts, h, connections[h].promise);
    }
  }

  lemma FinallyKeepsInv(s: Api, i: nat)
    requires Inv(s) && Enabled(s, Finally(i))
    ensures Inv(DoFinally(s, i))
  {
    assert First(s.attempts, i);
    UpdateKeepsChains(s.attempts, i, Settled);
    SettleKeepsTails(s.attempts, s.connections, i);
  }

  lemma StepKeepsInv(s: Api, step: Step)
    requires Inv(s) && Enabled(s, step)
    ensures Inv(Next(s, step))
  {
    match step
    case Connect(host, signature, password) => ConnectKeepsInv(s, host, signature, password);
    case Begin(i) => BeginKeepsInv(s, i);
    case Answer(i, hello) => AnswerKeepsInv(s, i, hello);
    case Finally(i) => FinallyKeepsInv(s, i);
    case _ =>
  }

  lemma {:induction false} RunKeepsInv(states: seq<Api>, steps: seq<Step>, n: nat)
    requires Run(states, steps) && n <= |steps|
    ensures Inv(states[n])
    decreases n
  {
    if n > 0 {
      RunKeepsInv(states, steps, n - 1);
      assert states[n - 1 + 1] == Next(states[n - 1], steps[n - 1]);
      StepKeepsInv(states[n - 1], steps[n - 1]);
    }
  }

  /**
   * In every run: a host has at most one native connect in flight, the recorded connection is its last
   * attempt whenever one is unsettled, and a known support flag is that of the current generation.
   */
  lemma ConnectsAreSerial(states: seq<Api>, steps: seq<Step>, n: nat, i: nat, j: nat)
    requires Run(states, steps) && n <= |steps|
    requires i < |states[n].attempts| && j < |states[n].attempts|
    requires states[n].attempts[i].host == states[n].attempts[j].host
    requires states[n].attempts[i].phase.InFlight? && states[n].attempts[j].phase.InFlight?
    ensures i == j
    ensures Tails(states[n].attempts, states[n].connections) && Fresh(states[n])
  {
    RunKeepsInv(states, steps, n);
    assert First(states[n].attempts, i) && First(states[n].attempts, j);
  }

  // ---------------------------------------------------------------- disconnect events

  /** The step starts a native connect of the host, or disconnects it. */
  predicate Restarts(s: Api, step: Step, host: string) {
    match step
    case Connect(h, signature, password) => h == host && !Shares(s, h, signature, password) && h !in s.connections
    case Begin(i) => i < |s.attempts| && s.attempts[i].host == host
    case Disconnect(h) => h == host
    case _ => false
  }

  lemma GenerationCounts(s: Api, step: Step, host: string)
    requires Enabled(s, step)
    ensures Generation(Next(s, step), host) == Generation(s, host) + (if Restarts(s, step, host) then 1 else 0)
  {
  }

  /** A counter that goes up by one wherever a flag is set. */
  ghost predicate Counts(counter: seq<nat>, flags: seq<bool>) {
    && |counter| == |flags| + 1
    && forall k {:trigger flags[k]} | 0 <= k < |flags| :: counter[k + 1] == counter[k] + (if flags[k] then 1 else 0)
  }

  lemma {:induction false} CounterTells(counter: seq<nat>, flags: seq<bool>, t: nat, u: nat)
    requires Counts(counter, flags) && t <= u <= |flags|
    ensures counter[u] >= counter[t]
    ensures counter[u] == counter[t] <==> forall k | t <= k < u :: !flags[k]
    decreases u
  {
    if t < u {
      CounterTells(counter, flags, t, u - 1);
      assert flags[u - 1] ==> counter[u] > counter[t];
    }
  }

  ghost function Generations(states: seq<Api>, host: string): (counter: seq<nat>)
    ensures |counter| == |states| && forall i | 0 <= i < |states| :: counter[i] == Generation(states[i], host)
  {
    seq(|states|, i requires 0 <= i < |states| => Generation(states[i], host))
  }

  ghost function RestartFlags(states: seq<Api>, steps: seq<Step>, host: string): (flags: seq<bool>)
    requires |steps| < |states|
    ensures |flags| == |steps| && forall i | 0 <= i < |steps| :: flags[i] == Restarts(states[i], steps[i], host)
  {
    seq(|steps|, i requires 0 <= i < |steps| => Restarts(states[i], steps[i], host))
  }

  lemma RunCounts(states: seq<Api>, steps: seq<Step>, host: string)
    requires Run(states, steps)
    ensures Counts(Generations(states, host), RestartFlags(states, steps, host))
  {
    forall k | 0 <= k < |steps|
      ensures Generation(states[k + 1], host)
              == Generation(states[k], host) + (if Restarts(states[k], steps[k], host) then 1 else 0)
    {
      GenerationCounts(states[k], steps[k], host);
    }
  }

  /** No step from `t` to `u` restarts the host. */
  ghost predicate Quiet(states: seq<Api>, steps: seq<Step>, host: string, t: nat, u: nat)
    requires u <= |steps| < |states|
  {
    forall k | t <= k < u :: !Restarts(states[k], steps[k], host)
  }

  lemma QuietFlags(states: seq<Api>, steps: seq<Step>, host: string, t: nat, u: nat)
    requires u <= |steps| < |states|
    ensures Quiet(states, steps, host, t, u)
            <==> forall k | t <= k < u :: !RestartFlags(states, steps, host)[k]
  {
    var flags := RestartFlags(states, steps, host);
    assert forall k | 0 <= k < |steps| :: flags[k] == Restarts(states[k], steps[k], host);
  }

  lemma GenerationsTell(states: seq<Api>, steps: seq<Step>, host: string, t: nat, u: nat)
    requires Run(states, steps) && t <= u <= |steps|
    ensures Generation(states[u], host) >= Generation(states[t], host)
    ensures Generation(states[u], host) == Generation(states[t], host) <==> Quiet(states, steps, host, t, u)
  {
    RunCounts(states, steps, host);
    CounterTells(Generations(states, host), RestartFlags(states, steps, host), t, u);
    QuietFlags(states, steps, host, t, u);
  }

  lemma {:induction false} CallStays(states: seq<Api>, steps: seq<Step>, c: nat, t: nat, u: nat)
    requires Run(states, steps) && t <= u <= |steps| && c < |states[t].calls|
    ensures c < |states[u].calls|
    ensures states[u].calls[c].host == states[t].calls[c].host
    ensures states[u].calls[c].generation == states[t].calls[c].generation
    decreases u
  {
    if t < u {
      CallStays(states, steps, c, t, u - 1);
      assert states[u - 1 + 1] == Next(states[u - 1], steps[u - 1]);
    }
  }

  /**
   * A failed request announces a lost connection if and only if the native side reported it lost and no
   * connect attempt or disconnect of its host began since the request was issued.
   */
  lemma LostConnectionIsAnnouncedIff(
    states: seq<Api>, steps: seq<Step>, t: nat, u: nat, host: string, preview: bool, lost: bool)
    requires Run(states, steps) && t < u < |steps|
    requires steps[t] == Request(host, preview) && Sends(states[t], host, preview)
    requires steps[u] == Fail(|states[t].calls|, lost)
    ensures states[u + 1].fired == (
              if lost && Quiet(states, steps, host, t, u)
              then states[u].fired + [|states[t].calls|] else states[u].fired)
  {
    var c := |states[t].calls|;
    assert states[t + 1] == Next(states[t], steps[t]);
    assert states[u + 1] == Next(states[u], steps[u]);
    assert Enabled(states[u], steps[u]);
    CallStays(states, steps, c, t + 1, u);
    GenerationsTell(states, steps, host, t, u);
  }

  /** A preview request leaves only while the current generation's own answer says the host supports it. */
  lemma PreviewsNeedTheCurrentAnswer(states: seq<Api>, steps: seq<Step>, n: nat, host: string)
    requires Run(states, steps) && n < |steps| && steps[n] == Request(host, true)
    ensures |states[n + 1].calls| > |states[n].calls| ==>
      && host in states[n].support && states[n].support[host]
      && host in states[n].origin && states[n].origin[host] == Generation(states[n], host)
  {
    RunKeepsInv(states, steps, n);
    assert states[n + 1] == Next(states[n], steps[n]);
  }

  // ---------------------------------------------------------------- the module

  /** The module-level maps, and the promises their callbacks belong to. */
  class ApiModule {
    var connectionGenerations: map<string, nat>
    var changePreviewSupport: map<string, bool>
    var connections: map<string, Connection>
    var attempts: seq<Attempt>
    var calls: seq<Call>
    var fired: seq<nat>
    ghost var origin: map<string, nat>

    ghost function State(): Api
      reads this
    {
      Api(connectionGenerations, changePreviewSupport, connections, attempts, calls, fired, origin)
    }

    constructor ()
      ensures State() == INITIAL && Inv(State())
    {
      connectionGenerations, changePreviewSupport, connections := map[], map[], map[];
      attempts, calls, fired, origin := [], [], [], map[];
    }

    method Restart(host: string) returns (generation: nat)
      modifies this
      ensures State() == NewGeneration(old(State()), host) && generation == Generation(State(), host)
    {
      generation := (if host in connectionGenerations then connectionGenerations[host] else 0) + 1;
      connectionGenerations := connectionGenerations[host := generation];
      changePreviewSupport := changePreviewSupport - {host};
      origin := origin - {host};
    }

    /** The promise the caller gets: the pending one, or a new one behind it. */
    method ConnectHost(host: string, signature: string, password: bool) returns (promise: nat)
      modifies this
      ensures State() == DoConnect(old(State()), host, signature, password)
      ensures promise == State().connections[host].promise
    {
      if host in connections && connections[host].signature == signature && !password {
        return connections[host].promise;
      }
      promise := |attempts|;
      if host in connections {
        attempts := attempts + [Attempt(host, Queued(connections[host].promise))];
      } else {
        var generation := Restart(host);
        attempts := attempts + [Attempt(host, InFlight(generation))];
      }
      connections := connections[host := Connection(signature, promise)];
    }

    method InvokeConnection(attempt: nat)
      requires Enabled(State(), Begin(attempt))
      modifies this
      ensures State() == DoBegin(old(State()), attempt)
    {
      var host := attempts[attempt].host;
      var generation := Restart(host);
      attempts := attempts[attempt := Attempt(host, InFlight(generation))];
    }

    method OnResponse(attempt: nat, hello: Option<bool>)
      requires Enabled(State(), Answer(attempt, hello))
      modifies this
      ensures State() == DoAnswer(old(State()), attempt, hello)
    {
      var a := attempts[attempt];
      var now := if a.host in connectionGenerations then connectionGenerations[a.host] else 0;
      if a.phase.generation == now && hello.Some? {
        changePreviewSupport := changePreviewSupport[a.host := hello.value];
        origin := origin[a.host := now];
      }
      attempts := attempts[attempt := Attempt(a.host, Answered)];
    }

    method OnSettled(attempt: nat)
      requires Enabled(State(), Finally(attempt))
      modifies this
      ensures State() == DoFinally(old(State()), attempt)
    {
      var host := attempts[attempt].host;
      attempts := attempts[attempt := Attempt(host, Settled)];
      if host in connections && connections[host].promise == attempt {
        connections := connections - {host};
      }
    }

    method OnRequestFailed(c: nat, lost: bool)
      requires Enabled(State(), Fail(c, lost))
      modifies this
      ensures State() == DoFail(old(State()), c, lost)
    {
      var call := calls[c];
      calls := calls[c := call.(open := false)];
      var now := if call.host in connectionGenerations then connectionGenerations[call.host] else 0;
      if lost && call.generation == now {
        changePreviewSupport := changePreviewSupport - {call.host};
        origin := origin - {call.host};
        fired := fired + [c];
      }
    }
  }
}
