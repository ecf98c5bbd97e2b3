/** The sidecar registrar against the registry: heartbeats, re-registration after a
    404 or a transport error, and a final deregistration, over a network that may
    lose a request or its answer. */
module Lease {
  import opened Common
  import opened Registry

  /** Fate of one POST: the request is lost, it arrives but the answer is lost, or both
      arrive. */
  datatype Delivery = Lost | Unanswered | Answered

  class SidecarRegistrar {
    const self: Registration

    constructor (self: Registration)
      ensures this.self == self
    {
      this.self := self;
    }

    method Register(server: MeshRegistry, fate: Delivery, now: int)
      modifies server
      ensures server.instances == Play(server.ttl, old(server.instances), Sent(fate, Event.Register(self, now)))
    {
      PlayOne(server.ttl, server.instances, Event.Register(self, now));
      if fate != Lost {
        server.Register(self, now);
      }
    }

    /** One heartbeat tick. `now` and `later` are the server's clock readings. */
    method Heartbeat(server: MeshRegistry, beat: Delivery, register: Delivery, now: int, later: int)
      modifies server
      ensures server.instances == Play(server.ttl, old(server.instances),
        HeartbeatRound(old(server.instances), self, beat, register, now, later))
    {
      ghost var before := server.instances;
      var found := false;
      PlayOne(server.ttl, before, Event.Heartbeat(self.instanceId, now));
      if beat != Lost {
        found := server.Heartbeat(self.instanceId, now);
      }
      if beat != Answered {
        Register(server, register, later);
        PlayTwo(server.ttl, before,
          Sent(beat, Event.Heartbeat(self.instanceId, now)), Sent(register, Event.Register(self, later)));
        return;
      }
      if !found {
        Register(server, register, later);
        PlayTwo(server.ttl, before,
          Sent(beat, Event.Heartbeat(self.instanceId, now)), Sent(register, Event.Register(self, later)));
      }
    }

    method Deregister(server: MeshRegistry, fate: Delivery, now: int)
      modifies server
      ensures server.instances ==
        Play(server.ttl, old(server.instances), Sent(fate, Event.Deregister(self.instanceId, now)))
    {
      PlayOne(server.ttl, server.instances, Event.Deregister(self.instanceId, now));
      if fate != Lost {
        var _ := server.Deregister(self.instanceId, now);
      }
    }
  }

  /** What the server sees of a POST. */
  function Sent(fate: Delivery, e: Event): seq<Event> { if fate.Lost? then [] else [e] }

  /** What the server sees of one heartbeat tick. */
  function HeartbeatRound(m: Instances, self: Registration, beat: Delivery, register: Delivery, now: int,
      later: int): seq<Event> {
    Sent(beat, Event.Heartbeat(self.instanceId, now)) +
    if beat.Answered? && self.instanceId in m then [] else Sent(register, Event.Register(self, later))
  }

  lemma PlayOne(ttl: int, m: Instances, e: Event)
    ensures Play(ttl, m, []) == m && Play(ttl, m, [e]) == Step(ttl, m, e)
  {
    assert [e][..0] == [];
  }

  lemma {:induction false} PlayTwo(ttl: int, m: Instances, es: seq<Event>, more: seq<Event>)
    ensures Play(ttl, m, es + more) == Play(ttl, Play(ttl, m, es), more)
  {
    if more == [] {
      assert es + more == es;
    } else {
      var front := more[..|more| - 1];
      assert (es + more)[..|es + more| - 1] == es + front;
      PlayTwo(ttl, m, es, front);
    }
  }

  // ------------------------------------- the protocol as interleaved atomic steps

  /** The client starts by registering, and registers again when a heartbeat got a 404
      or no answer. */
  datatype Phase = Registering | Beating | Stopped

  datatype Sys = Sys(server: Instances, phase: Phase)

  /** Steps of the client, of the cleanup loop, and of everyone else. */
  datatype Move =
    | DoRegister(fate: Delivery, at: int)
    | DoHeartbeat(fate: Delivery, at: int)
    | DoStop(fate: Delivery, at: int)
    | DoSweep(at: int)
    | Other(event: Event)

  function At(mv: Move): int { if mv.Other? then mv.event.at else mv.at }

  ghost predicate Enabled(self: Registration, s: Sys, mv: Move) {
    match mv
    case DoRegister(_, _) => s.phase.Registering?
    case DoHeartbeat(_, _) => s.phase.Beating?
    case DoStop(_, _) => s.phase.Beating?
    case DoSweep(_) => true
    case Other(e) =>
      !Refreshes(e, self.instanceId) && e != Deregister(self.instanceId, e.at)
  }

  /** The event the server executes at this step, if any. */
  function Seen(self: Registration, mv: Move): seq<Event> {
    match mv
    case DoRegister(fate, at) => Sent(fate, Event.Register(self, at))
    case DoHeartbeat(fate, at) => Sent(fate, Event.Heartbeat(self.instanceId, at))
    case DoStop(fate, at) => Sent(fate, Event.Deregister(self.instanceId, at))
    case DoSweep(at) => [Event.Sweep(at)]
    case Other(e) => [e]
  }

  function Serve(ttl: int, m: Instances, seen: seq<Event>): Instances {
    if seen == [] then m else Step(ttl, m, seen[0])
  }

  function NextPhase(self: Registration, s: Sys, mv: Move): Phase {
    match mv
    case DoRegister(_, _) => Beating
    case DoHeartbeat(fate, _) => if fate.Answered? && self.instanceId in s.server then Beating else Registering
    case DoStop(_, _) => Stopped
    case DoSweep(_) => s.phase
    case Other(_) => s.phase
  }

  function MoveStep(ttl: int, self: Registration, s: Sys, mv: Move): Sys {
    Sys(Serve(ttl, s.server, Seen(self, mv)), NextPhase(self, s, mv))
  }

  function Run(ttl: int, self: Registration, mvs: seq<Move>): Sys {
    if mvs == [] then Sys(map[], Registering)
    else MoveStep(ttl, self, Run(ttl, self, mvs[..|mvs| - 1]), mvs[|mvs| - 1])
  }

  ghost predicate Legal(ttl: int, self: Registration, mvs: seq<Move>) {
    InOrder(mvs) && forall k :: 0 <= k < |mvs| ==> Enabled(self, Run(ttl, self, mvs[..k]), mvs[k])
  }

  ghost predicate InOrder(mvs: seq<Move>) {
    forall j, k :: 0 <= j < k < |mvs| ==> At(mvs[j]) <= At(mvs[k])
  }

  /** Instant of the client's latest request that the server executed with success
      (201 or 200), unless a deregistration arrived after it. */
  function Contact(ttl: int, self: Registration, mvs: seq<Move>): Option<int> {
    if mvs == [] then None else
      var before := mvs[..|mvs| - 1];
      NextContact(self, Run(ttl, self, before).server, mvs[|mvs| - 1], Contact(ttl, self, before))
  }

  function NextContact(self: Registration, m: Instances, mv: Move, c: Option<int>): Option<int> {
    match mv
    case DoRegister(fate, at) => if fate.Lost? then c else Some(at)
    case DoHeartbeat(fate, at) => if fate.Lost? || self.instanceId !in m then c else Some(at)
    case DoStop(fate, _) => if fate.Lost? then c else None
    case DoSweep(_) => c
    case Other(_) => c
  }

  /** The server's record is the latest contact, or has lapsed. */
  ghost predicate LeaseInv(ttl: int, id: string, m: Instances, c: Option<int>, now: int) {
    && (c.None? ==> id !in m)
    && (c.Some? ==> if id in m then m[id].lastHeartbeat == c.value else now - c.value > ttl)
  }

  lemma LeaseStep(ttl: int, self: Registration, s: Sys, mv: Move, c: Option<int>, now: int)
    requires LeaseInv(ttl, self.instanceId, s.server, c, At(mv)) && Enabled(self, s, mv) && At(mv) <= now
    ensures LeaseInv(ttl, self.instanceId, MoveStep(ttl, self, s, mv).server, NextContact(self, s.server, mv, c), now)
  {
  }

  lemma {:induction false} LeaseInvHolds(ttl: int, self: Registration, mvs: seq<Move>, now: int)
    requires Legal(ttl, self, mvs)
    requires mvs != [] ==> At(mvs[|mvs| - 1]) <= now
    ensures LeaseInv(ttl, self.instanceId, Run(ttl, self, mvs).server, Contact(ttl, self, mvs), now)
  {
    if mvs != [] {
      var n := |mvs| - 1;
      assert Legal(ttl, self, mvs[..n]) by {
        assert forall k :: 0 <= k < n ==> mvs[..n][..k] == mvs[..k];
      }
      LeaseInvHolds(ttl, self, mvs[..n], At(mvs[n]));
      assert Enabled(self, Run(ttl, self, mvs[..n]), mvs[n]);
      LeaseStep(ttl, self, Run(ttl, self, mvs[..n]), mvs[n], Contact(ttl, self, mvs[..n]), now);
    }
  }

  /** Over every run, under any loss of messages, any cleanup ticks and any traffic of
      other instances: the sidecar is listed exactly while its latest effective contact
      is at most ttl old. */
  lemma ListedExactlyDuringLease(ttl: int, self: Registration, mvs: seq<Move>, now: int)
    requires Legal(ttl, self, mvs)
    requires mvs != [] ==> At(mvs[|mvs| - 1]) <= now
    ensures var c := Contact(ttl, self, mvs);
      IsLive(ttl, Run(ttl, self, mvs).server, self.instanceId, now) <==> c.Some? && now - c.value <= ttl
  {
    LeaseInvHolds(ttl, self, mvs, now);
  }

  ghost predicate NoClientStep(mvs: seq<Move>) {
    forall k :: 0 <= k < |mvs| ==> mvs[k].DoSweep? || mvs[k].Other?
  }

  lemma {:induction false} IdleKeepsContact(ttl: int, self: Registration, mvs: seq<Move>, idle: seq<Move>)
    requires NoClientStep(idle)
    ensures Contact(ttl, self, mvs + idle) == Contact(ttl, self, mvs)
    ensures Run(ttl, self, mvs + idle).phase == Run(ttl, self, mvs).phase
  {
    if idle == [] {
      assert mvs + idle == mvs;
    } else {
      var front := idle[..|idle| - 1];
      IdleKeepsContact(ttl, self, mvs, front);
      assert (mvs + idle)[..|mvs + idle| - 1] == mvs + front;
    }
  }

  /** The history `mvs` followed by one heartbeat round: a beat of any fate and, unless it
      was answered and not with a 404, a registration that arrived, with other steps in
      between. */
  function Recovered(ttl: int, self: Registration, mvs: seq<Move>, beat: Delivery, t: int, idle: seq<Move>,
      fate: Delivery, t': int): seq<Move> {
    var beaten := mvs + [DoHeartbeat(beat, t)];
    if Renewed(ttl, self, mvs, beat) then beaten else beaten + idle + [DoRegister(fate, t')]
  }

  /** The beat itself renews the lease and the client learns it. */
  predicate Renewed(ttl: int, self: Registration, mvs: seq<Move>, beat: Delivery) {
    beat.Answered? && self.instanceId in Run(ttl, self, mvs).server
  }

  /** Recovery: however long the silence before, and whatever became of the beat, one
      heartbeat round whose last request arrives has the sidecar listed again for a whole
      ttl, wherever cleanup falls meanwhile. */
  lemma OneRoundRestores(ttl: int, self: Registration, mvs: seq<Move>, beat: Delivery, t: int, idle: seq<Move>,
                         fate: Delivery, t': int, round: seq<Move>, after: seq<Move>, now: int)
    requires NoClientStep(idle) && NoClientStep(after) && !fate.Lost?
    requires round == Recovered(ttl, self, mvs, beat, t, idle, fate, t')
    requires Legal(ttl, self, round + after) && At((round + after)[|round + after| - 1]) <= now
    requires now - (if Renewed(ttl, self, mvs, beat) then t else t') <= ttl
    ensures IsLive(ttl, Run(ttl, self, round + after).server, self.instanceId, now)
  {
    var contact := if Renewed(ttl, self, mvs, beat) then t else t';
    assert Contact(ttl, self, round + after) == Some(contact) by {
      RoundMakesContact(ttl, self, mvs, beat, t, idle, fate, t');
      IdleKeepsContact(ttl, self, round, after);
    }
    ListedExactlyDuringLease(ttl, self, round + after, now);
  }

  lemma RoundMakesContact(ttl: int, self: Registration, mvs: seq<Move>, beat: Delivery, t: int, idle: seq<Move>,
      fate: Delivery, t': int)
    requires !fate.Lost?
    ensures Contact(ttl, self, Recovered(ttl, self, mvs, beat, t, idle, fate, t'))
      == Some(if Renewed(ttl, self, mvs, beat) then t else t')
  {
    var beaten := mvs + [DoHeartbeat(beat, t)];
    var again := beaten + idle + [DoRegister(fate, t')];
    assert beaten[..|beaten| - 1] == mvs;
    assert again[..|again| - 1] == beaten + idle;
  }

  // --------------------------------------------------- the registrar object as moves

  /** The moves of one heartbeat tick of the registrar. */
  function RoundMoves(m: Instances, self: Registration, beat: Delivery, register: Delivery, now: int,
      later: int): seq<Move> {
    [DoHeartbeat(beat, now)] + if beat.Answered? && self.instanceId in m then [] else [DoRegister(register, later)]
  }

  lemma OneMoreMove(ttl: int, self: Registration, mvs: seq<Move>, mv: Move)
    ensures Run(ttl, self, mvs + [mv]) == MoveStep(ttl, self, Run(ttl, self, mvs), mv)
  {
    assert (mvs + [mv])[..|mvs|] == mvs;
  }

  lemma {:induction false} InOrderOneMore(mvs: seq<Move>, mv: Move)
    requires InOrder(mvs) && (mvs != [] ==> At(mvs[|mvs| - 1]) <= At(mv))
    ensures InOrder(mvs + [mv])
  {
    assert forall j :: 0 <= j < |mvs| ==> At(mvs[j]) <= At(mvs[|mvs| - 1]);
  }

  lemma {:induction false} LegalOneMore(ttl: int, self: Registration, mvs: seq<Move>, mv: Move)
    requires Legal(ttl, self, mvs) && Enabled(self, Run(ttl, self, mvs), mv)
    requires mvs != [] ==> At(mvs[|mvs| - 1]) <= At(mv)
    ensures Legal(ttl, self, mvs + [mv])
  {
    var grown := mvs + [mv];
    assert InOrder(grown) by { InOrderOneMore(mvs, mv); }
    forall k | 0 <= k < |grown| ensures Enabled(self, Run(ttl, self, grown[..k]), grown[k]) {
      if k < |mvs| {
        assert grown[..k] == mvs[..k] && grown[k] == mvs[k];
      } else {
        assert grown[..k] == mvs && grown[k] == mv;
      }
    }
  }

  /** A heartbeat tick extends every run of the protocol by its moves, has the effect on
      the server that the registrar's contract states, and leaves the client beating. */
  lemma {:induction false} HeartbeatIsMoves(ttl: int, self: Registration, mvs: seq<Move>, beat: Delivery,
      register: Delivery, now: int, later: int)
    requires Legal(ttl, self, mvs) && Run(ttl, self, mvs).phase.Beating?
    requires (mvs != [] ==> At(mvs[|mvs| - 1]) <= now) && now <= later
    ensures var m := Run(ttl, self, mvs).server;
      var ran := mvs + RoundMoves(m, self, beat, register, now, later);
      && Legal(ttl, self, ran) && Run(ttl, self, ran).phase.Beating?
      && Run(ttl, self, ran).server == Play(ttl, m, HeartbeatRound(m, self, beat, register, now, later))
  {
    var m := Run(ttl, self, mvs).server;
    var beaten := mvs + [DoHeartbeat(beat, now)];
    var round := RoundMoves(m, self, beat, register, now, later);
    LegalOneMore(ttl, self, mvs, DoHeartbeat(beat, now));
    OneMoreMove(ttl, self, mvs, DoHeartbeat(beat, now));
    PlayOne(ttl, m, Event.Heartbeat(self.instanceId, now));
    var served := Run(ttl, self, beaten).server;
    if beat.Answered? && self.instanceId in m {
      assert mvs + round == beaten;
      assert HeartbeatRound(m, self, beat, register, now, later) == Sent(beat, Event.Heartbeat(self.instanceId, now));
    } else {
      assert mvs + round == beaten + [DoRegister(register, later)];
      LegalOneMore(ttl, self, beaten, DoRegister(register, later));
      OneMoreMove(ttl, self, beaten, DoRegister(register, later));
      PlayOne(ttl, served, Event.Register(self, later));
      PlayTwo(ttl, m, Sent(beat, Event.Heartbeat(self.instanceId, now)), Sent(register, Event.Register(self, later)));
    }
  }

  /** So do the registration at the start and the deregistration at the end. */
  lemma {:induction false} StartAndStopAreMoves(ttl: int, self: Registration, mvs: seq<Move>, fate: Delivery, at: int)
    ensures var m := Run(ttl, self, mvs).server;
      && Run(ttl, self, mvs + [DoRegister(fate, at)]).server == Play(ttl, m, Sent(fate, Event.Register(self, at)))
      && Run(ttl, self, mvs + [DoStop(fate, at)]).server ==
           Play(ttl, m, Sent(fate, Event.Deregister(self.instanceId, at)))
  {
    var m := Run(ttl, self, mvs).server;
    OneMoreMove(ttl, self, mvs, DoRegister(fate, at));
    OneMoreMove(ttl, self, mvs, DoStop(fate, at));
    PlayOne(ttl, m, Event.Register(self, at));
    PlayOne(ttl, m, Event.Deregister(self.instanceId, at));
  }
}
