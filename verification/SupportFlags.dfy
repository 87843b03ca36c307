/**
 * Over every run of connections: what is known about preview support, and which connect calls share a promise.
 */
module SupportFlags {
  import opened Options
  import opened Connections

  // ---------------------------------------------------------------- what is known of a host

  /** The step is the answer of the host's current attempt, and says whether previews are supported. */
  ghost predicate Tells(s: Api, step: Step, host: string, supported: bool) {
    && step.Answer? && step.attempt < |s.attempts| && s.attempts[step.attempt].host == host
    && s.attempts[step.attempt].phase.InFlight?
    && s.attempts[step.attempt].phase.generation == Generation(s, host)
    && step.hello == Some(supported)
  }

  /** The step begins a new generation of the host, or reports that the connection of the current one was lost. */
  ghost predicate Forgets(s: Api, step: Step, host: string) {
    || Restarts(s, step, host)
    || (step.Fail? && step.lost && step.call < |s.calls| && s.calls[step.call].host == host
        && s.calls[step.call].generation == Generation(s, host))
  }

  predicate Knows(s: Api, host: string, supported: bool) {
    host in s.support && s.support[host] == supported
  }

  lemma StepKnows(s: Api, step: Step, host: string, supported: bool)
    requires Enabled(s, step)
    ensures Knows(Next(s, step), host, supported)
            <==> || Tells(s, step, host, supported)
                 || (Knows(s, host, supported) && !Forgets(s, step, host) && !Tells(s, step, host, !supported))
  {
  }

  /** Step `k` is the last that tells or forgets something about the host, and it tells this. */
  ghost predicate ToldLast(states: seq<Api>, steps: seq<Step>, host: string, supported: bool, n: nat, k: nat)
    requires n <= |steps| < |states|
  {
    && k < n && Tells(states[k], steps[k], host, supported)
    && forall m {:trigger steps[m]} | k < m < n ::
         !Forgets(states[m], steps[m], host) && !Tells(states[m], steps[m], host, true)
         && !Tells(states[m], steps[m], host, false)
  }

  lemma ToldNext(states: seq<Api>, steps: seq<Step>, host: string, supported: bool, n: nat, k: nat)
    requires n < |steps| < |states| && k < n
    ensures ToldLast(states, steps, host, supported, n + 1, k)
            <==> && ToldLast(states, steps, host, supported, n, k) && !Forgets(states[n], steps[n], host)
                 && !Tells(states[n], steps[n], host, true) && !Tells(states[n], steps[n], host, false)
  {
  }

  ghost predicate Told(states: seq<Api>, steps: seq<Step>, host: string, supported: bool, n: nat)
    requires n <= |steps| < |states|
  {
    exists k: nat :: ToldLast(states, steps, host, supported, n, k)
  }

  lemma ToldStep(states: seq<Api>, steps: seq<Step>, host: string, supported: bool, n: nat)
    requires n < |steps| < |states|
    ensures Told(states, steps, host, supported, n + 1)
            <==> || Tells(states[n], steps[n], host, supported)
                 || (Told(states, steps, host, supported, n) && !Forgets(states[n], steps[n], host)
                     && !Tells(states[n], steps[n], host, true) && !Tells(states[n], steps[n], host, false))
  {
    if Tells(states[n], steps[n], host, supported) {
      assert ToldLast(states, steps, host, supported, n + 1, n);
    }
    if k: nat :| ToldLast(states, steps, host, supported, n, k) {
      ToldNext(states, steps, host, supported, n, k);
    }
    var next := n + 1;
    if k: nat :| ToldLast(states, steps, host, supported, next, k) {
      if k < n {
        ToldNext(states, steps, host, supported, n, k);
      }
    }
  }

  lemma RunStep(states: seq<Api>, steps: seq<Step>, n: nat)
    requires Run(states, steps) && n < |steps|
    ensures Enabled(states[n], steps[n]) && states[n + 1] == Next(states[n], steps[n])
  {
  }

  lemma TellsOne(s: Api, step: Step, host: string, supported: bool)
    requires Tells(s, step, host, supported)
    ensures !Tells(s, step, host, !supported) && !Forgets(s, step, host)
  {
  }

  /**
   * In every run a host is known to support previews, or known not to, exactly if the answer of an attempt that was
   * the current one said so, and since then no attempt or disconnect began and no lost connection was reported.
   */
  lemma {:induction false} SupportIsKnownIff(
    states: seq<Api>, steps: seq<Step>, host: string, supported: bool, n: nat)
    requires Run(states, steps) && n <= |steps|
    ensures Knows(states[n], host, supported) <==> Told(states, steps, host, supported, n)
    decreases n
  {
    if n > 0 {
      SupportIsKnownIff(states, steps, host, supported, n - 1);
      RunStep(states, steps, n - 1);
      StepKnows(states[n - 1], steps[n - 1], host, supported);
      ToldStep(states, steps, host, supported, n - 1);
      if Knows(states[n - 1], host, supported) && Tells(states[n - 1], steps[n - 1], host, supported) {
        TellsOne(states[n - 1], steps[n - 1], host, supported);
      }
    }
  }

  /** A request goes out exactly if it is no preview, or its host is known to support previews at that moment. */
  lemma RequestGoesOutIff(states: seq<Api>, steps: seq<Step>, n: nat, host: string, preview: bool)
    requires Run(states, steps) && n < |steps| && steps[n] == Request(host, preview)
    ensures if preview ==> Told(states, steps, host, true, n)
            then states[n + 1].calls == states[n].calls + [Call(host, Generation(states[n], host), true)]
            else states[n + 1].calls == states[n].calls
  {
    SupportIsKnownIff(states, steps, host, true, n);
    RunStep(states, steps, n);
  }

  // ---------------------------------------------------------------- shared promises

  /** Every attempt of the host has settled. */
  ghost predicate Idle(attempts: seq<Attempt>, host: string) {
    forall j | 0 <= j < |attempts| && attempts[j].host == host :: attempts[j].phase == Settled
  }

  lemma IdleIff(s: Api, host: string)
    requires Inv(s)
    ensures host in s.connections <==> !Idle(s.attempts, host)
  {
    if host in s.connections {
      assert Tail(s.attempts, host, s.connections[host].promise);
    }
  }

  /**
   * A connect call makes no attempt exactly if an attempt of the host is unsettled, the last such call had the same
   * host data, and no password is given. Otherwise the new attempt is in flight in a new generation if the host was
   * idle, and waits for the last unsettled attempt of the host if not.
   */
  lemma ConnectMakesAttempt(s: Api, host: string, signature: string, password: bool)
    requires Inv(s)
    ensures var next := Next(s, Connect(host, signature, password));
      var shared := !Idle(s.attempts, host) && s.connections[host].signature == signature && !password;
      && (host in s.connections <==> !Idle(s.attempts, host))
      && (shared ==> next == s)
      && (!shared ==>
            && |next.attempts| == |s.attempts| + 1 && s.attempts <= next.attempts
            && next.attempts[|s.attempts|].host == host
            && next.connections == s.connections[host := Connection(signature, |s.attempts|)]
            && if Idle(s.attempts, host) then
                 next.attempts[|s.attempts|].phase == InFlight(Generation(s, host) + 1)
                 && Generation(next, host) == Generation(s, host) + 1
               else
                 next.attempts[|s.attempts|].phase == Queued(s.connections[host].promise)
                 && Tail(s.attempts, host, s.connections[host].promise)
                 && next.generations == s.generations)
  {
    IdleIff(s, host);
    if host in s.connections {
      assert Tail(s.attempts, host, s.connections[host].promise);
    }
  }
}
