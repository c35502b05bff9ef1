/** The client state machine `lwm2m_step` (src/lwm2m/core/liblwm2m.c). */
module ClientStep {
  import opened Text
  import opened IdLists
  import opened Context
  import opened Objects
  import opened ServerLists
  import opened Bootstrap

  /** What the network and the registration layer answer during one step. */
  datatype Env = Env(net: Net, registrationStart: Code, registrationStatus: Status)

  datatype Outcome = Outcome(client: Client, code: Code, timeout: int)

  /** How many jumps to `next_step` can still follow. */
  function Jumps(state: State): nat {
    match state
    case Bootstrapping => 2
    case Initial => 1
    case Registering => 1
    case Ready => 1
    case _ => 0
  }

  function BootstrapStepped(c: Client, now: int, timeout: int, name: string, net: Net): Outcome {
    var r := Stepped(c.bootstrapServers, now, timeout, name, net);
    Outcome(c.(bootstrapServers := r.0), NoError, r.1)
  }

  /** The switch over the state, jumps followed. */
  function StepFrom(c: Client, now: int, timeout: int, name: string, env: Env): Outcome
    decreases Jumps(c.state)
  {
    match c.state
    case Initial =>
      var r := Refreshed(c.objects, c.bootstrapServers, c.servers);
      var c1 := c.(bootstrapServers := r.bootstrapServers, servers := r.servers);
      (match r.check
       case Good =>
         var state := if r.servers != [] then RegisterRequired else BootstrapRequired;
         StepFrom(c1.(state := state), now, timeout, name, env)
       case Bad => Outcome(c1, Unavailable, timeout)
       case Fault => Outcome(c1, Crash, timeout))
    case BootstrapRequired =>
      if c.bootstrapServers == [] then Outcome(c, Unavailable, timeout)
      else
        BootstrapStepped(c.(bootstrapServers := Started(c.bootstrapServers, env.net), state := Bootstrapping),
                         now, timeout, name, env.net)
    case Bootstrapping =>
      (match OverallStatus(c.bootstrapServers)
       case Finished => StepFrom(c.(state := Initial), now, timeout, name, env)
       case Failed => Outcome(c, Unavailable, timeout)
       case _ => BootstrapStepped(c, now, timeout, name, env.net))
    case RegisterRequired =>
      if env.registrationStart != NoError then Outcome(c, env.registrationStart, timeout)
      else Outcome(c.(state := Registering), NoError, timeout)
    case Registering =>
      (match env.registrationStatus
       case Registered => Outcome(c.(state := Ready), NoError, timeout)
       case RegFailed => StepFrom(c.(state := BootstrapRequired), now, timeout, name, env)
       case _ => Outcome(c, NoError, timeout))
    case Ready =>
      if env.registrationStatus == RegFailed then StepFrom(c.(state := BootstrapRequired), now, timeout, name, env)
      else Outcome(c, NoError, timeout)
  }

  function ClientStepped(c: Client, now: int, timeout: int, name: string, env: Env): Outcome {
    if now < 0 then Outcome(c, InternalError, timeout) else StepFrom(c, now, timeout, name, env)
  }

  /** `lwm2m_step` up to the calls of the observation, registration and transaction
      layers.  The loop is the label `next_step`. */
  method StepClient(c: Context, now: int, timeout: int, env: Env) returns (code: Code, timeout': int)
    modifies c
    ensures Outcome(c.Value(), code, timeout') == ClientStepped(old(c.Value()), now, timeout, c.endpointName, env)
  {
    hide Stepped, Started, Refreshed, OverallStatus;
    timeout' := timeout;
    if now < 0 { return InternalError, timeout'; }
    while true
      invariant timeout' == timeout
      invariant StepFrom(c.Value(), now, timeout, c.endpointName, env)
             == StepFrom(old(c.Value()), now, timeout, c.endpointName, env)
      decreases Jumps(c.state)
    {
      match c.state {
        case Initial =>
          var check := Refresh(c);
          if check.Bad? { return Unavailable, timeout'; }
          if check.Fault? { return Crash, timeout'; }
          if c.servers != [] { c.state := RegisterRequired; } else { c.state := BootstrapRequired; }
        case BootstrapRequired =>
          if c.bootstrapServers == [] { return Unavailable, timeout'; }
          Start(c, env.net);
          c.state := Bootstrapping;
          timeout' := Step(c, now, timeout', env.net);
          return NoError, timeout';
        case Bootstrapping =>
          var status := GetStatus(c);
          match status {
            case Finished => c.state := Initial;
            case Failed => return Unavailable, timeout';
            case _ =>
              timeout' := Step(c, now, timeout', env.net);
              return NoError, timeout';
          }
        case RegisterRequired =>
          if env.registrationStart != NoError { return env.registrationStart, timeout'; }
          c.state := Registering;
          return NoError, timeout';
        case Registering =>
          match env.registrationStatus {
            case Registered =>
              c.state := Ready;
              return NoError, timeout';
            case RegFailed => c.state := BootstrapRequired;
            case _ => return NoError, timeout';
          }
        case Ready =>
          if env.registrationStatus != RegFailed { return NoError, timeout'; }
          c.state := BootstrapRequired;
      }
    }
  }

  /** The state a jump leads to, if the step jumps. */
  function Jump(c: Client, env: Env): Option<Client> {
    match c.state
    case Initial =>
      var r := Refreshed(c.objects, c.bootstrapServers, c.servers);
      if !r.check.Good? then None
      else
        Some(c.(bootstrapServers := r.bootstrapServers, servers := r.servers,
                state := if r.servers != [] then RegisterRequired else BootstrapRequired))
    case Bootstrapping => if OverallStatus(c.bootstrapServers) == Finished then Some(c.(state := Initial)) else None
    case Registering => if env.registrationStatus == RegFailed then Some(c.(state := BootstrapRequired)) else None
    case Ready => if env.registrationStatus == RegFailed then Some(c.(state := BootstrapRequired)) else None
    case _ => None
  }

  lemma StepJumps(c: Client, now: int, timeout: int, name: string, env: Env)
    requires Jump(c, env).Some?
    ensures Jumps(Jump(c, env).value.state) < Jumps(c.state)
    ensures StepFrom(c, now, timeout, name, env) == StepFrom(Jump(c, env).value, now, timeout, name, env)
  {
    hide Stepped, Started, Refreshed, OverallStatus;
  }

  lemma {:induction false} StepFromSettles(c: Client, now: int, timeout: int, name: string, env: Env)
    ensures var r := StepFrom(c, now, timeout, name, env);
            r.code == NoError ==> r.client.state.Bootstrapping? || r.client.state.Registering? || r.client.state.Ready?
    decreases Jumps(c.state)
  {
    hide Stepped, Started, Refreshed, OverallStatus;
    if Jump(c, env).Some? {
      StepJumps(c, now, timeout, name, env);
      StepFromSettles(Jump(c, env).value, now, timeout, name, env);
    }
  }

  /** A step that answers 0 comes to rest: no refresh, bootstrap or registration is left
      waiting to be started. */
  lemma StepSettles(c: Client, now: int, timeout: int, name: string, env: Env)
    ensures var r := ClientStepped(c, now, timeout, name, env);
            r.code == NoError ==> r.client.state.Bootstrapping? || r.client.state.Registering? || r.client.state.Ready?
  {
    hide StepFrom;
    StepFromSettles(c, now, timeout, name, env);
  }
}
