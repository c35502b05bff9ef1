/** What a pass over the bootstrap servers and the start of a bootstrap do to each server. */
module BootstrapPasses {
  import opened Text
  import opened IdLists
  import opened Context
  import opened Bootstrap

  /** The time of the server has come. */
  predicate Due(s: Server, now: int) {
    s.registration <= now
  }

  /** A bootstrap request can be built: the query with the name fits its buffer of 200 bytes. */
  predicate NameFits(name: string) {
    4 + |name| < 200
  }

  /** One server before and after a pass at time `now`. */
  predicate Passed(id: nat, s: Server, t: Server, now: int, name: string, net: Net) {
    var asks := s.status.HoldOff? && Due(s, now);
    var session := if s.session.Some? then s.session else net.connect(id);
    && (t.status.HoldOff? && !s.status.HoldOff? <==> s.status.Deregistered?)
    && (t.status.Initiated? && !s.status.Initiated? <==> asks && NameFits(name) && session.Some? && net.send(id))
    && (t.status.Failing? && !s.status.Failing? <==>
          (s.status.Pending? && Due(s, now)) || (asks && !NameFits(name)))
    && (t.status.Failed? && !s.status.Failed? <==>
          s.status.Failing? || (asks && NameFits(name) && session.None?))
    && (t.status.Finished? && !s.status.Finished? <==> s.status.Finishing?)
    && (t.status == s.status
        || t.status.HoldOff? || t.status.Initiated? || t.status.Failing? || t.status.Failed? || t.status.Finished?)
    && t.registration == (if s.status.Deregistered? then now + s.lifetime else s.registration)
    && t.session == (if s.status.Finishing? || s.status.Failing? then None
                     else if asks && NameFits(name) then session else s.session)
    && t.shortId == s.shortId && t.lifetime == s.lifetime && t.dirty == s.dirty
  }

  /** How long the server lets the client wait after the pass, if it says so. */
  function Wait(s: Server, now: int): Option<int> {
    if s.status.Deregistered? then Some(s.lifetime)
    else if (s.status.HoldOff? || s.status.Pending?) && !Due(s, now) then Some(s.registration - now)
    else if s.status.Pending? || s.status.Finishing? || s.status.Failing? then Some(0)
    else None
  }

  lemma OnePass(id: nat, s: Server, now: int, timeout: int, name: string, net: Net)
    ensures Passed(id, s, SteppedServer(id, s, now, timeout, name, net).0, now, name, net)
  {}

  lemma OneWait(id: nat, s: Server, now: int, timeout: int, name: string, net: Net)
    requires timeout >= 0
    ensures var r := SteppedServer(id, s, now, timeout, name, net).1;
            r == match Wait(s, now) case None => timeout case Some(w) => if w == 0 || w < timeout then w else timeout
  {
    hide Requested;
  }

  /** A pass changes every server as `Passed` says. */
  lemma {:induction false} PassExact(list: Servers, now: int, timeout: int, name: string, net: Net)
    ensures var r := Stepped(list, now, timeout, name, net).0;
            && |r| == |list|
            && forall i :: 0 <= i < |list| ==>
                 r[i].id == list[i].id && Passed(list[i].id, list[i].body, r[i].body, now, name, net)
    decreases |list|
  {
    hide Passed, SteppedServer;
    if list != [] {
      var e := list[0];
      OnePass(e.id, e.body, now, timeout, name, net);
      PassExact(list[1..], now, SteppedServer(e.id, e.body, now, timeout, name, net).1, name, net);
    }
  }

  /** The timeout becomes the least of what it was and what the servers ask for. */
  lemma {:induction false} TimeoutExact(list: Servers, now: int, timeout: int, name: string, net: Net)
    requires timeout >= 0 && forall i :: 0 <= i < |list| ==> list[i].body.lifetime >= 0
    ensures var t := Stepped(list, now, timeout, name, net).1;
            && 0 <= t <= timeout
            && (forall i :: 0 <= i < |list| && Wait(list[i].body, now).Some? ==> t <= Wait(list[i].body, now).value)
            && (t == timeout || exists i :: 0 <= i < |list| && Wait(list[i].body, now) == Some(t))
    decreases |list|
  {
    hide SteppedServer, Wait;
    if list != [] {
      var e, tail := list[0], list[1..];
      assert forall i :: 0 <= i < |tail| ==> tail[i] == list[i + 1];
      OneWait(e.id, e.body, now, timeout, name, net);
      WaitNotNegative(e.body, now);
      var first := SteppedServer(e.id, e.body, now, timeout, name, net);
      TimeoutExact(tail, now, first.1, name, net);
      var t := Stepped(list, now, timeout, name, net).1;
      forall i | 0 <= i < |list|
        ensures Wait(list[i].body, now).Some? ==> t <= Wait(list[i].body, now).value
      {
        if i > 0 { assert list[i] == tail[i - 1]; }
      }
      if t != first.1 {
        var i :| 0 <= i < |tail| && Wait(tail[i].body, now) == Some(t);
        assert Wait(list[i + 1].body, now) == Some(t);
      } else if first.1 != timeout {
        assert Wait(list[0].body, now) == Some(t);
      }
    }
  }

  lemma WaitNotNegative(s: Server, now: int)
    requires s.lifetime >= 0
    ensures Wait(s, now).Some? ==> Wait(s, now).value >= 0
  {}

  /** A bootstrap starts with every server DEREGISTERED, its session kept or opened. */
  lemma {:induction false} StartExact(list: Servers, net: Net)
    ensures var r := Started(list, net);
            && |r| == |list|
            && forall i :: 0 <= i < |list| ==>
                 && r[i].id == list[i].id
                 && r[i].body == list[i].body.(status := Deregistered,
                                               session := if list[i].body.session.Some? then list[i].body.session
                                                          else net.connect(list[i].id))
    decreases |list|
  {
    if list != [] {
      StartExact(list[1..], net);
    }
  }

  /** The first pass of a bootstrap puts every server on hold for its hold-off time. */
  lemma FirstPass(list: Servers, now: int, timeout: int, name: string, net: Net)
    ensures var r := Stepped(Started(list, net), now, timeout, name, net).0;
            && |r| == |list|
            && forall i :: 0 <= i < |list| ==>
                 && r[i].id == list[i].id
                 && r[i].body.status == HoldOff && r[i].body.registration == now + list[i].body.lifetime
                 && r[i].body.session == (if list[i].body.session.Some? then list[i].body.session
                                          else net.connect(list[i].id))
  {
    hide Stepped, Started;
    StartExact(list, net);
    PassExact(Started(list, net), now, timeout, name, net);
  }

  // ---------------------------------------------------------------- a request in place of the acknowledgement

  /** A server whose acknowledgement was lost becomes PENDING by its first command, but keeps
      the timer it was asked with: the next pass lets it fail if and only if that time has
      come, which is always so when the pass is not before the one that asked. */
  lemma LostAcknowledgement(id: nat, s: Server, now: int, later: int, timeout: int, name: string, net: Net)
    requires s.status.Initiated? || s.status.HoldOff?
    ensures Touched(s, now).status.Pending?
    ensures SteppedServer(id, Touched(s, now), later, timeout, name, net).0.status.Failing? <==>
            s.registration <= later
  {}

  /** It was asked when its time had come. */
  lemma AskedWhenDue(id: nat, s: Server, now: int, timeout: int, name: string, net: Net)
    requires var t := SteppedServer(id, s, now, timeout, name, net).0; t.status.Initiated? && !s.status.Initiated?
    ensures SteppedServer(id, s, now, timeout, name, net).0.registration <= now
  {}
}
