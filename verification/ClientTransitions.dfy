/** The transitions of the client state machine, state by state. */
module ClientTransitions {
  import opened Text
  import opened IdLists
  import opened Context
  import opened Objects
  import opened ServerLists
  import opened Bootstrap
  import opened ClientStep
  import opened BootstrapPasses

  // ---------------------------------------------------------------- the bootstrap as a whole

  /** Some server has a bootstrap under way. */
  ghost predicate SomeUnderWay(list: Servers) {
    exists i :: 0 <= i < |list| && list[i].body.status in {HoldOff, Initiated, Pending, Finishing, Failing}
  }

  ghost predicate SomeFinished(list: Servers) {
    exists i :: 0 <= i < |list| && list[i].body.status == Finished
  }

  lemma StatusExact(list: Servers)
    ensures OverallStatus(list) == Pending <==> SomeUnderWay(list)
    ensures OverallStatus(list) == Finished <==> !SomeUnderWay(list) && SomeFinished(list)
    ensures OverallStatus(list) == Status.Failed <==> !SomeUnderWay(list) && !SomeFinished(list)
  {
    if i :| 0 <= i < |list| && Underway(list[i].body.status) {
      assert list[i].body.status in {HoldOff, Initiated, Pending, Finishing, Failing};
    }
    if SomeUnderWay(list) {
      var i :| 0 <= i < |list| && list[i].body.status in {HoldOff, Initiated, Pending, Finishing, Failing};
      assert Underway(list[i].body.status);
    }
    if i :| 0 <= i < |list| && list[i].body.status.Finished? {
      assert list[i].body.status == Finished;
    }
    if SomeFinished(list) {
      var i :| 0 <= i < |list| && list[i].body.status == Finished;
      assert list[i].body.status.Finished?;
    }
  }

  // ---------------------------------------------------------------- where a step leads

  /** The outcome `r` of a step that starts bootstrapping: 5.03 without a bootstrap server,
      else every bootstrap server is on hold with a session if one can be had. */
  ghost predicate Bootstraps(c: Client, r: ClientStep.Outcome, now: int, net: Net) {
    if c.bootstrapServers == [] then r.code == Unavailable && r.client == c.(state := BootstrapRequired)
    else
      && r.code == NoError && r.client.state == Bootstrapping
      && r.client.objects == c.objects && r.client.servers == c.servers
      && |r.client.bootstrapServers| == |c.bootstrapServers|
      && forall i :: 0 <= i < |c.bootstrapServers| ==>
           var a, b := c.bootstrapServers[i], r.client.bootstrapServers[i];
           && b.id == a.id && b.body.status == HoldOff && b.body.registration == now + a.body.lifetime
           && b.body.session == if a.body.session.Some? then a.body.session else net.connect(a.id)
  }

  /** The outcome of a step that starts registering: it goes to REGISTERING if and only if the
      registration starts. */
  predicate Registers(c: Client, r: ClientStep.Outcome, env: Env) {
    && r.code == env.registrationStart
    && r.client == c.(state := if env.registrationStart == NoError then Registering else RegisterRequired)
  }

  /** The outcome of a step that reads the lists: what follows depends on the servers found. */
  ghost predicate Reads(c: Client, r: ClientStep.Outcome, now: int, env: Env) {
    var lists := Refreshed(c.objects, c.bootstrapServers, c.servers);
    var c1 := c.(bootstrapServers := lists.bootstrapServers, servers := lists.servers, state := Initial);
    if lists.check.Bad? then r.code == Unavailable && r.client == c1
    else if lists.check.Fault? then r.code == Crash && r.client == c1
    else if lists.servers != [] then Registers(c1, r, env)
    else Bootstraps(c1, r, now, env.net)
  }

  lemma StartedBootstraps(c: Client, now: int, timeout: int, name: string, env: Env)
    requires c.state == BootstrapRequired
    ensures Bootstraps(c, StepFrom(c, now, timeout, name, env), now, env.net)
  {
    hide Stepped, Started, Refreshed, OverallStatus;
    FirstPass(c.bootstrapServers, now, timeout, name, env.net);
  }

  lemma BootstrapsFrom(c: Client, c': Client, r: ClientStep.Outcome, now: int, net: Net)
    requires Bootstraps(c, r, now, net) && c' == c.(state := c'.state)
    ensures Bootstraps(c', r, now, net)
  {}

  lemma RegisterStep(c: Client, now: int, timeout: int, name: string, env: Env)
    requires c.state == RegisterRequired
    ensures Registers(c, StepFrom(c, now, timeout, name, env), env)
  {
    hide Stepped, Started, Refreshed, OverallStatus;
  }

  lemma InitialStep(c: Client, now: int, timeout: int, name: string, env: Env)
    requires c.state == Initial
    ensures Reads(c, StepFrom(c, now, timeout, name, env), now, env)
  {
    hide Stepped, Started, Refreshed, OverallStatus;
    var lists := Refreshed(c.objects, c.bootstrapServers, c.servers);
    var c1 := c.(bootstrapServers := lists.bootstrapServers, servers := lists.servers);
    if lists.check.Good? {
      if lists.servers != [] {
        RegisterStep(c1.(state := RegisterRequired), now, timeout, name, env);
      } else {
        StartedBootstraps(c1.(state := BootstrapRequired), now, timeout, name, env);
        BootstrapsFrom(c1.(state := BootstrapRequired), c1, StepFrom(c, now, timeout, name, env), now, env.net);
      }
    }
  }

  // ---------------------------------------------------------------- the table

  /** From INITIAL the lists are read: with a server the client registers, else it
      bootstraps. */
  lemma FromInitial(c: Client, now: int, timeout: int, name: string, env: Env)
    requires c.state == Initial && now >= 0
    ensures Reads(c, ClientStepped(c, now, timeout, name, env), now, env)
  {
    hide StepFrom, Reads;
    InitialStep(c, now, timeout, name, env);
  }

  lemma FromBootstrapRequired(c: Client, now: int, timeout: int, name: string, env: Env)
    requires c.state == BootstrapRequired && now >= 0
    ensures Bootstraps(c, ClientStepped(c, now, timeout, name, env), now, env.net)
  {
    hide StepFrom, Bootstraps;
    StartedBootstraps(c, now, timeout, name, env);
  }

  /** While a bootstrap is under way every server passes; once none is, the lists are read
      again if one has finished, and 5.03 is answered if all have failed. */
  lemma FromBootstrapping(c: Client, now: int, timeout: int, name: string, env: Env)
    requires c.state == Bootstrapping && now >= 0
    ensures var r := ClientStepped(c, now, timeout, name, env);
            if SomeUnderWay(c.bootstrapServers) then
              && r.code == NoError && r.client == c.(bootstrapServers := r.client.bootstrapServers)
              && |r.client.bootstrapServers| == |c.bootstrapServers|
              && forall i :: 0 <= i < |c.bootstrapServers| ==>
                   var a, b := c.bootstrapServers[i], r.client.bootstrapServers[i];
                   b.id == a.id && Passed(a.id, a.body, b.body, now, name, env.net)
            else if SomeFinished(c.bootstrapServers) then Reads(c, r, now, env)
            else r.code == Unavailable && r.client == c
  {
    hide Stepped, Started, Refreshed, OverallStatus, Passed, SomeUnderWay, SomeFinished, Bootstraps;
    StatusExact(c.bootstrapServers);
    PassExact(c.bootstrapServers, now, timeout, name, env.net);
    if !SomeUnderWay(c.bootstrapServers) && SomeFinished(c.bootstrapServers) {
      InitialStep(c.(state := Initial), now, timeout, name, env);
    }
  }

  lemma FromRegisterRequired(c: Client, now: int, timeout: int, name: string, env: Env)
    requires c.state == RegisterRequired && now >= 0
    ensures Registers(c, ClientStepped(c, now, timeout, name, env), env)
  {
    hide StepFrom;
    RegisterStep(c, now, timeout, name, env);
  }

  /** REGISTERING ends with READY, or with a bootstrap when the registration failed. */
  lemma FromRegistering(c: Client, now: int, timeout: int, name: string, env: Env)
    requires c.state == Registering && now >= 0
    ensures var r := ClientStepped(c, now, timeout, name, env);
            && (env.registrationStatus == RegFailed ==> Bootstraps(c, r, now, env.net))
            && (env.registrationStatus != RegFailed ==>
                  r.code == NoError
                  && r.client == c.(state := if env.registrationStatus == Registered then Ready else Registering))
  {
    hide Stepped, Started, Refreshed, OverallStatus, Bootstraps;
    if env.registrationStatus == RegFailed {
      StartedBootstraps(c.(state := BootstrapRequired), now, timeout, name, env);
      BootstrapsFrom(c.(state := BootstrapRequired), c, StepFrom(c, now, timeout, name, env), now, env.net);
    }
  }

  /** READY is left only when the registration fails. */
  lemma FromReady(c: Client, now: int, timeout: int, name: string, env: Env)
    requires c.state == Ready && now >= 0
    ensures var r := ClientStepped(c, now, timeout, name, env);
            && (env.registrationStatus == RegFailed ==> Bootstraps(c, r, now, env.net))
            && (env.registrationStatus != RegFailed ==> r.code == NoError && r.client == c)
  {
    hide Stepped, Started, Refreshed, OverallStatus, Bootstraps;
    if env.registrationStatus == RegFailed {
      StartedBootstraps(c.(state := BootstrapRequired), now, timeout, name, env);
      BootstrapsFrom(c.(state := BootstrapRequired), c, StepFrom(c, now, timeout, name, env), now, env.net);
    }
  }

  /** A clock that cannot be read stops the step. */
  lemma NoClock(c: Client, now: int, timeout: int, name: string, env: Env)
    requires now < 0
    ensures ClientStepped(c, now, timeout, name, env) == Outcome(c, InternalError, timeout)
  {}

  // ---------------------------------------------------------------- the timeout

  /** The hold-off times of the servers, as the timeout takes them. */
  ghost predicate LeastHoldOff(list: Servers, t: int, timeout: int) {
    && 0 <= t <= timeout && (forall i :: 0 <= i < |list| ==> t <= list[i].body.lifetime)
    && (t == timeout || exists i :: 0 <= i < |list| && list[i].body.lifetime == t)
  }

  ghost predicate LifetimesKept(a: Servers, b: Servers) {
    |a| == |b| && forall i :: 0 <= i < |a| ==> b[i].body.lifetime == a[i].body.lifetime
  }

  lemma StartTimeout(list: Servers, now: int, timeout: int, name: string, net: Net)
    ensures var r := Stepped(Started(list, net), now, timeout, name, net);
            && LifetimesKept(list, r.0)
            && (timeout >= 0 && (forall i :: 0 <= i < |list| ==> list[i].body.lifetime >= 0) ==>
                  LeastHoldOff(r.0, r.1, timeout))
  {
    hide Stepped, Started;
    StartExact(list, net);
    var started := Started(list, net);
    PassExact(started, now, timeout, name, net);
    if timeout >= 0 && forall i :: 0 <= i < |list| ==> list[i].body.lifetime >= 0 {
      TimeoutExact(started, now, timeout, name, net);
      assert forall i :: 0 <= i < |list| ==> Wait(started[i].body, now) == Some(list[i].body.lifetime);
    }
  }

  ghost predicate NoNegativeTimes(list: Servers) {
    forall i :: 0 <= i < |list| ==> list[i].body.lifetime >= 0
  }

  /** The timeout of a step that was not in a bootstrap: the least hold-off time when it starts
      one, else what it was. */
  ghost predicate StartRule(r: ClientStep.Outcome, timeout: int) {
    if r.client.state == Bootstrapping && r.code == NoError then
      NoNegativeTimes(r.client.bootstrapServers) ==> LeastHoldOff(r.client.bootstrapServers, r.timeout, timeout)
    else r.timeout == timeout
  }

  lemma RequiredTimeout(c: Client, now: int, timeout: int, name: string, env: Env)
    requires c.state == BootstrapRequired && timeout >= 0
    ensures StartRule(StepFrom(c, now, timeout, name, env), timeout)
  {
    hide Stepped, Started, Refreshed, OverallStatus;
    StartTimeout(c.bootstrapServers, now, timeout, name, env.net);
  }

  lemma InitialTimeout(c: Client, now: int, timeout: int, name: string, env: Env)
    requires c.state == Initial && timeout >= 0
    ensures StartRule(StepFrom(c, now, timeout, name, env), timeout)
  {
    hide Stepped, Started, Refreshed, OverallStatus;
    var r := Refreshed(c.objects, c.bootstrapServers, c.servers);
    var c1 := c.(bootstrapServers := r.bootstrapServers, servers := r.servers);
    RequiredTimeout(c1.(state := BootstrapRequired), now, timeout, name, env);
  }

  /** A step that is not in a bootstrap follows that rule; one inside a bootstrap lowers the
      timeout to the least time a server waits for. */
  lemma TimeoutLeft(c: Client, now: int, timeout: int, name: string, env: Env)
    requires now >= 0 && timeout >= 0
    ensures var r, list := ClientStepped(c, now, timeout, name, env), c.bootstrapServers;
            if c.state == Bootstrapping && SomeUnderWay(list) then
              NoNegativeTimes(list) ==>
                && 0 <= r.timeout <= timeout
                && (forall i :: 0 <= i < |list| && Wait(list[i].body, now).Some? ==>
                      r.timeout <= Wait(list[i].body, now).value)
                && (r.timeout == timeout || exists i :: 0 <= i < |list| && Wait(list[i].body, now) == Some(r.timeout))
            else StartRule(r, timeout)
  {
    hide Stepped, Started, Refreshed, OverallStatus, Wait, SomeUnderWay, SomeFinished, LeastHoldOff;
    StatusExact(c.bootstrapServers);
    if c.state == Initial { InitialTimeout(c, now, timeout, name, env); }
    if c.state == BootstrapRequired { RequiredTimeout(c, now, timeout, name, env); }
    if c.state == Registering || c.state == Ready {
      RequiredTimeout(c.(state := BootstrapRequired), now, timeout, name, env);
    }
    if c.state == Bootstrapping {
      InitialTimeout(c.(state := Initial), now, timeout, name, env);
      if NoNegativeTimes(c.bootstrapServers) { TimeoutExact(c.bootstrapServers, now, timeout, name, env.net); }
    }
  }
}
