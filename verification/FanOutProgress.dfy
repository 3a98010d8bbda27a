/** Progress of the fan-out: a batch whose send failed is sent again, and from every reachable state in
    which no client is lost the current batch can reach all clients and the next one can be cut. */
module FanOutProgress {
  import opened Prelude
  import opened Operations
  import opened FanOut
  import opened FanOutClasses

  // ----- clients that can still be served

  /** The current batch and nothing else is on its way to a client that waits for it. */
  ghost predicate OnTheWire(batches: seq<seq<Operation>>, p: Peer)
  {
    && batches != [] && p.cli.loop.Receiving? && p.cli.batch == |batches| - 1
    && p.toClient == [Signal1(|batches|, batches[|batches| - 1], |batches[|batches| - 1]|)]
  }

  /** The client is handing on the current batch. */
  ghost predicate BeingForwarded(batches: seq<seq<Operation>>, p: Peer)
  {
    && batches != [] && p.cli.loop.Forwarding? && p.cli.loop.sig.batch == |batches| && p.cli.batch == |batches| - 1
    && p.cli.loop.k <= |p.cli.loop.sig.mos|
  }

  /** The acknowledgement of the current batch is on its way back. */
  ghost predicate Acknowledged(batches: seq<seq<Operation>>, p: Peer) { |batches| in p.toServer }

  /** The last send failed and did not arrive; the client waits at the batch before. */
  ghost predicate Lost(batches: seq<seq<Operation>>, p: Peer)
  {
    && batches != [] && p.srv.sendError && p.toClient == []
    && p.cli.loop.Receiving? && p.cli.batch == |batches| - 1
  }

  ghost predicate Serviceable(batches: seq<seq<Operation>>, p: Peer)
  {
    && p.srv.connected && !p.srv.dead
    && (p.srv.busy ==>
          || OnTheWire(batches, p) || BeingForwarded(batches, p) || Acknowledged(batches, p) || Lost(batches, p))
  }

  // ----- runs of one connection

  lemma {:induction false} PeerRunConcat(p: Peer, batches: seq<seq<Operation>>, resend: bool, a: seq<Action>, q: Peer,
                                         b: seq<Action>)
    requires PeerRun(p, batches, resend, a) == Some(q)
    ensures PeerRun(p, batches, resend, a + b) == PeerRun(q, batches, resend, b)
    decreases |b|
  {
    if b == [] {
      assert a + b == a;
    } else {
      hide ClientStep, ServerStep;
      assert (a + b)[..|a + b| - 1] == a + b[..|b| - 1];
      PeerRunConcat(p, batches, resend, a, q, b[..|b| - 1]);
    }
  }

  ghost predicate Named(n: Name, actions: seq<Action>)
  {
    forall i :: 0 <= i < |actions| ==> !DistributorAction(actions[i]) && actions[i].name == n
  }

  lemma OneStep(p: Peer, batches: seq<seq<Operation>>, resend: bool, a: Action, q: Peer)
    requires if ClientAction(a) then ClientStep(p, a) == Some(q) else ServerStep(p, batches, resend, a) == Some(q)
    ensures PeerRun(p, batches, resend, [a]) == Some(q)
  {
    assert [a][..0] == [];
    assert PeerRun(p, batches, resend, []) == Some(p);
  }

  /** Reading all acknowledgements frees the client if its batch is among them. */
  lemma {:induction false} Drain(p: Peer, batches: seq<seq<Operation>>, resend: bool, n: Name)
    returns (actions: seq<Action>, q: Peer)
    requires !p.srv.dead
    ensures Named(n, actions) && PeerRun(p, batches, resend, actions) == Some(q)
    ensures q.cli == p.cli && q.toClient == p.toClient
    ensures q.srv == p.srv.(busy := q.srv.busy, sendError := q.srv.sendError)
    ensures q.srv.busy <==> p.srv.busy && p.srv.sendBatch !in p.toServer
    decreases |p.toServer|
  {
    if p.toServer == [] {
      actions, q := [], p;
    } else {
      var first := p.(srv := ReceivedAck(p.srv, p.toServer[0]), toServer := p.toServer[1..]);
      OneStep(p, batches, resend, ReceiveAck(n), first);
      var more;
      more, q := Drain(first, batches, resend, n);
      hide PeerRun;
      PeerRunConcat(p, batches, resend, [ReceiveAck(n)], first, more);
      actions := [ReceiveAck(n)] + more;
      assert p.toServer == [p.toServer[0]] + p.toServer[1..];
    }
  }

  /** Handing on what is left of a batch. */
  lemma {:induction false} ForwardRest(p: Peer, batches: seq<seq<Operation>>, resend: bool, n: Name)
    returns (actions: seq<Action>, q: Peer)
    requires p.cli.loop.Forwarding? && p.cli.loop.k <= |p.cli.loop.sig.mos|
    ensures Named(n, actions) && PeerRun(p, batches, resend, actions) == Some(q)
    ensures q == p.(cli := q.cli) && q.cli.loop == Forwarding(p.cli.loop.sig, |p.cli.loop.sig.mos|)
    decreases |p.cli.loop.sig.mos| - p.cli.loop.k
  {
    if p.cli.loop.k == |p.cli.loop.sig.mos| {
      actions, q := [], p;
    } else {
      var next := p.(cli := Forwarded(p.cli));
      OneStep(p, batches, resend, Forward(n), next);
      var more;
      more, q := ForwardRest(next, batches, resend, n);
      hide PeerRun;
      PeerRunConcat(p, batches, resend, [Forward(n)], next, more);
      actions := [Forward(n)] + more;
    }
  }

  /** A client that is handing on the current batch acknowledges it. */
  lemma ForwardedIsAcknowledged(p: Peer, batches: seq<seq<Operation>>, resend: bool, n: Name)
    returns (actions: seq<Action>, q: Peer)
    requires BeingForwarded(batches, p)
    ensures Named(n, actions) && PeerRun(p, batches, resend, actions) == Some(q)
    ensures Acknowledged(batches, q) && q.srv == p.srv
  {
    var mid;
    actions, mid := ForwardRest(p, batches, resend, n);
    var b := p.cli.loop.sig.batch;
    q := mid.(cli := mid.cli.(loop := AckSent(b), forwarded := mid.cli.forwarded + 1), toServer := mid.toServer + [b]);
    OneStep(mid, batches, resend, Ack(n, true, true), q);
    hide PeerRun;
    PeerRunConcat(p, batches, resend, actions, mid, [Ack(n, true, true)]);
    actions := actions + [Ack(n, true, true)];
    assert q.toServer[|q.toServer| - 1] == |batches|;
  }

  /** A batch on the wire is taken up. */
  lemma ArrivedIsForwarded(p: Peer, batches: seq<seq<Operation>>, resend: bool, n: Name) returns (q: Peer)
    requires OnTheWire(batches, p)
    ensures PeerRun(p, batches, resend, [Accept(n)]) == Some(q) && BeingForwarded(batches, q) && q.srv == p.srv
  {
    q := p.(cli := Received(p.cli, p.toClient[0]), toClient := p.toClient[1..]);
    OneStep(p, batches, resend, Accept(n), q);
  }

  /** Whatever stage the current batch is at on its way, the connection becomes free by itself. */
  lemma Settles(p: Peer, batches: seq<seq<Operation>>, resend: bool, n: Name) returns (actions: seq<Action>, q: Peer)
    requires !p.srv.dead && p.srv.sendBatch == |batches|
    requires !p.srv.busy || OnTheWire(batches, p) || BeingForwarded(batches, p) || Acknowledged(batches, p)
    ensures Named(n, actions) && PeerRun(p, batches, resend, actions) == Some(q)
    ensures !q.srv.busy && q.srv.connected == p.srv.connected && !q.srv.dead && q.srv.push == p.srv.push
  {
    hide PeerRun;
    actions, q := [], p;
    assert PeerRun(p, batches, resend, []) == Some(p) by { NoSteps(p, batches, resend); }
    if p.srv.busy {
      if OnTheWire(batches, q) {
        q := ArrivedIsForwarded(p, batches, resend, n);
        actions := [Accept(n)];
      }
      if !Acknowledged(batches, q) {
        var more, next := ForwardedIsAcknowledged(q, batches, resend, n);
        PeerRunConcat(p, batches, resend, actions, q, more);
        actions, q := actions + more, next;
      }
      var more, next := Drain(q, batches, resend, n);
      PeerRunConcat(p, batches, resend, actions, q, more);
      actions, q := actions + more, next;
    }
  }

  lemma NoSteps(p: Peer, batches: seq<seq<Operation>>, resend: bool)
    ensures PeerRun(p, batches, resend, []) == Some(p)
  {
  }

  // ----- sending again

  /** While a failed send is recorded for a live client, the distributor can push to it again. */
  lemma FailedSendIsRepeatable(s: System, n: Name)
    requires s.dist.Checking? && n in s.peers
    requires s.peers[n].srv.connected && !s.peers[n].srv.dead && s.peers[n].srv.busy && s.peers[n].srv.sendError
    ensures Step(s, CheckAgain(n)) == Some(s.(dist := Resending(n), peers := s.peers[n := ArmPeer(s.peers[n])]))
  {
  }

  /** The second push carries the same batch. */
  lemma SecondPush(p: Peer, batches: seq<seq<Operation>>, n: Name)
    requires p.srv.push.Armed? && batches != []
    ensures var v := p.srv; var sig := Signal1(v.sendBatch, v.sendMos, |v.sendMos|);
            PeerRun(p, batches, true, [Arm(n), Send(n, true, true), Record(n)])
            == Some(p.(srv := v.(push := Idle, busy := true, sendError := false), toClient := p.toClient + [sig]))
  {
    hide PeerRun;
    var v, sig := p.srv, Signal1(p.srv.sendBatch, p.srv.sendMos, |p.srv.sendMos|);
    var p1 := p.(srv := v.(push := Sending, busy := true, sendError := false));
    var p2 := p1.(srv := p1.srv.(push := Sent(false)), toClient := p.toClient + [sig]);
    var p3 := p2.(srv := p2.srv.(push := Idle));
    OneStep(p, batches, true, Arm(n), p1);
    OneStep(p1, batches, true, Send(n, true, true), p2);
    OneStep(p2, batches, true, Record(n), p3);
    PeerRunConcat(p, batches, true, [Arm(n)], p1, [Send(n, true, true)]);
    PeerRunConcat(p, batches, true, [Arm(n)] + [Send(n, true, true)], p2, [Record(n)]);
    assert [Arm(n)] + [Send(n, true, true)] + [Record(n)] == [Arm(n), Send(n, true, true), Record(n)];
  }

  ghost predicate OnlyChanged(s: System, t: System, n: Name)
  {
    && t.batches == s.batches && t.peers.Keys == s.peers.Keys
    && forall m :: m in s.peers && m != n ==> t.peers[m] == s.peers[m]
  }

  /** The connection after a push again that succeeded. */
  function PushedAgain(p: Peer): Peer
  {
    p.(srv := p.srv.(push := Idle, busy := true, sendError := false),
       toClient := p.toClient + [Signal1(p.srv.sendBatch, p.srv.sendMos, |p.srv.sendMos|)])
  }

  /** The whole of a push again: check, arm, send, record, done. */
  lemma PushAgain(init: System, before: seq<Action>, s: System, n: Name) returns (actions: seq<Action>)
    requires After(init, before) == Some(s) && s.dist.Checking? && n in s.peers && s.batches != []
    requires s.peers[n].srv.connected && !s.peers[n].srv.dead && s.peers[n].srv.busy && s.peers[n].srv.sendError
    ensures After(init, before + actions)
            == Some(s.(dist := Checking({}), peers := s.peers[n := PushedAgain(s.peers[n])]))
  {
    hide After, Step;
    FailedSendIsRepeatable(s, n);
    var armed, sent := ArmPeer(s.peers[n]), PushedAgain(s.peers[n]);
    var s1 := s.(dist := Resending(n), peers := s.peers[n := armed]);
    AfterSnoc(init, before, s, CheckAgain(n), s1);
    var push := [Arm(n), Send(n, true, true), Record(n)];
    SecondPush(armed, s.batches, n);
    hide PeerRun;
    assert PeerRun(armed, s.batches, true, push) == Some(sent);
    PeerRunIsSystemRun(init, before + [CheckAgain(n)], s1, n, push);
    var s2 := s1.(peers := s1.peers[n := sent]);
    var t := s2.(dist := Checking({}));
    Resent(s2, n);
    AfterSnoc(init, before + [CheckAgain(n)] + push, s2, ResendDone, t);
    actions := [CheckAgain(n)] + push + [ResendDone];
    assert before + actions == before + [CheckAgain(n)] + push + [ResendDone];
    assert s1.peers[n := sent] == s.peers[n := sent];
  }

  lemma LostIsOnTheWire(batches: seq<seq<Operation>>, p: Peer)
    requires PeerOk(batches, p) && p.srv.push.Idle? && Lost(batches, p)
    ensures OnTheWire(batches, PushedAgain(p))
  {
    SideOfPeer(batches, p);
    hide PeerOk, DeliveredOk;
    assert [] + [Signal1(p.srv.sendBatch, p.srv.sendMos, |p.srv.sendMos|)] == PushedAgain(p).toClient;
  }

  /** A lost batch is put on the wire again. */
  lemma LostIsSentAgain(init: System, before: seq<Action>, s: System, n: Name) returns (actions: seq<Action>, t: System)
    requires Initial(init) && After(init, before) == Some(s) && s.dist.Checking? && n in s.peers
    requires s.peers[n].srv.connected && !s.peers[n].srv.dead && s.peers[n].srv.busy && Lost(s.batches, s.peers[n])
    ensures After(init, before + actions) == Some(t) && t.dist.Checking? && OnlyChanged(s, t, n)
    ensures OnTheWire(s.batches, t.peers[n]) && t.peers[n].srv.connected && !t.peers[n].srv.dead
  {
    RunKeeps(init, before);
    assert PeerOk(s.batches, s.peers[n]) && s.peers[n].srv.push.Idle?;
    hide After, PeerOk, Inv, OnTheWire;
    LostIsOnTheWire(s.batches, s.peers[n]);
    actions := PushAgain(init, before, s, n);
    t := s.(dist := Checking({}), peers := s.peers[n := PushedAgain(s.peers[n])]);
  }

  lemma SideOfPeer(batches: seq<seq<Operation>>, p: Peer)
    requires PeerOk(batches, p)
    ensures SideOk(batches, p.srv, p.cli.forwarded) && DeliveredOk(batches, p.cli)
  {
  }

  lemma Resent(s: System, n: Name)
    requires s.dist == Resending(n) && n in s.peers && s.peers[n].srv.push.Idle?
    ensures Step(s, ResendDone) == Some(s.(dist := Checking({})))
  {
  }

  // ----- all clients

  /** A client that is not lost becomes free by itself. */
  lemma OneSettles(init: System, before: seq<Action>, s: System, n: Name) returns (actions: seq<Action>, t: System)
    requires Initial(init) && After(init, before) == Some(s) && s.dist.Checking? && n in s.peers
    requires Serviceable(s.batches, s.peers[n]) && (s.peers[n].srv.busy ==> !Lost(s.batches, s.peers[n]))
    ensures After(init, before + actions) == Some(t) && t.dist.Checking? && OnlyChanged(s, t, n)
    ensures t.peers[n].srv.connected && !t.peers[n].srv.dead && !t.peers[n].srv.busy
  {
    hide After, PeerRun, OnTheWire, BeingForwarded, Acknowledged, Lost, Inv;
    RunKeeps(init, before);
    IdleIsCurrent(s, n);
    var q;
    actions, q := Settles(s.peers[n], s.batches, false, n);
    PeerRunIsSystemRun(init, before, s, n, actions);
    t := s.(peers := s.peers[n := q]);
  }

  /** One client becomes free; nothing happens to the others. */
  lemma OneBecomesFree(init: System, before: seq<Action>, s: System, n: Name) returns (actions: seq<Action>, t: System)
    requires Initial(init) && After(init, before) == Some(s) && s.dist.Checking? && n in s.peers
    requires Serviceable(s.batches, s.peers[n])
    ensures After(init, before + actions) == Some(t) && t.dist.Checking? && OnlyChanged(s, t, n)
    ensures t.peers[n].srv.connected && !t.peers[n].srv.dead && !t.peers[n].srv.busy
  {
    hide After, BeingForwarded, Acknowledged;
    if s.peers[n].srv.busy && Lost(s.batches, s.peers[n]) {
      var first, mid := LostIsSentAgain(init, before, s, n);
      var more;
      more, t := OneSettles(init, before + first, mid, n);
      actions := first + more;
      assert before + actions == before + first + more;
    } else {
      actions, t := OneSettles(init, before, s, n);
    }
  }

  lemma IdleIsCurrent(s: System, n: Name)
    requires Inv(s) && s.dist.Checking? && n in s.peers
    ensures s.peers[n].srv.push.Idle? && s.peers[n].srv.sendBatch == |s.batches|
  {
    assert PeerOk(s.batches, s.peers[n]);
  }

  ghost predicate AllFree(s: System, names: set<Name>)
  {
    forall n :: n in names && n in s.peers ==>
      s.peers[n].srv.connected && !s.peers[n].srv.dead && !s.peers[n].srv.busy
  }

  lemma {:induction false} AllBecomeFree(init: System, before: seq<Action>, s: System, todo: set<Name>)
    returns (actions: seq<Action>, t: System)
    requires Initial(init) && After(init, before) == Some(s) && s.dist.Checking? && todo <= s.peers.Keys
    requires forall n :: n in todo ==> Serviceable(s.batches, s.peers[n])
    requires AllFree(s, s.peers.Keys - todo)
    ensures After(init, before + actions) == Some(t) && t.dist.Checking?
    ensures t.batches == s.batches && t.peers.Keys == s.peers.Keys && AllFree(t, t.peers.Keys)
    decreases todo
  {
    hide After;
    if todo == {} {
      actions, t := [], s;
      assert before + [] == before;
      assert s.peers.Keys - todo == s.peers.Keys;
    } else {
      var n :| n in todo;
      var first, mid := OneBecomesFree(init, before, s, n);
      hide Serviceable;
      var more;
      more, t := AllBecomeFree(init, before + first, mid, todo - {n});
      actions := first + more;
      assert before + actions == before + first + more;
    }
  }

  lemma {:induction false} AllAreChecked(init: System, before: seq<Action>, s: System, todo: set<Name>)
    returns (actions: seq<Action>, t: System)
    requires After(init, before) == Some(s) && s.dist.Checking? && s.dist.ready + todo == s.peers.Keys
    requires AllFree(s, s.peers.Keys)
    ensures After(init, before + actions) == Some(t) && t == s.(dist := Checking(s.peers.Keys))
    decreases todo
  {
    hide After, Step;
    if todo == {} {
      actions, t := [], s;
      assert before + [] == before;
      assert s.dist.ready == s.peers.Keys;
    } else {
      var n :| n in todo;
      var mid := s.(dist := Checking(s.dist.ready + {n}));
      assert Step(s, CheckReady(n)) == Some(mid) by { FreeIsReady(s, n); }
      AfterSnoc(init, before, s, CheckReady(n), mid);
      var more;
      more, t := AllAreChecked(init, before + [CheckReady(n)], mid, todo - {n});
      actions := [CheckReady(n)] + more;
      assert before + actions == before + [CheckReady(n)] + more;
    }
  }

  lemma FreeIsReady(s: System, n: Name)
    requires s.dist.Checking? && n in s.peers && AllFree(s, s.peers.Keys)
    ensures Step(s, CheckReady(n)) == Some(s.(dist := Checking(s.dist.ready + {n})))
  {
  }

  lemma FreeHasDelivered(s: System, n: Name)
    requires Inv(s) && s.dist.Checking? && n in s.peers && !s.peers[n].srv.busy
    ensures s.peers[n].cli.delivered == Stream(s.batches)
  {
    assert PeerOk(s.batches, s.peers[n]);
    IdleIsCurrent(s, n);
    assert s.batches[..|s.batches|] == s.batches;
  }

  /** From every reachable state in which the distributor is checking its clients and every client is alive
      and either free or somewhere on the way of the current batch, a failed send included, the batch can
      reach all of them and any next batch can be cut. */
  lemma EveryBatchGetsThrough(init: System, before: seq<Action>, s: System) returns (actions: seq<Action>, t: System)
    requires Initial(init) && After(init, before) == Some(s) && s.dist.Checking?
    requires forall n :: n in s.peers ==> Serviceable(s.batches, s.peers[n])
    ensures After(init, before + actions) == Some(t) && t.batches == s.batches && t.peers.Keys == s.peers.Keys
    ensures forall n :: n in t.peers ==> t.peers[n].cli.delivered == Stream(s.batches)
    ensures forall mos :: Step(t, Fetch(mos)).Some?
  {
    hide After, Serviceable;
    var first, mid := AllBecomeFree(init, before, s, s.peers.Keys);
    RunKeeps(init, before + first);
    assert mid.dist.ready <= mid.peers.Keys;
    var more;
    more, t := AllAreChecked(init, before + first, mid, mid.peers.Keys);
    actions := first + more;
    assert before + actions == before + first + more;
    RunKeeps(init, before + actions);
    forall n | n in t.peers ensures t.peers[n].cli.delivered == Stream(s.batches) { FreeHasDelivered(t, n); }
  }

  // ----- a resend that was not needed

  /** A second copy of a batch that did arrive ends the client's loop, after it has handed the batch on
      once. */
  lemma SecondCopyStops(p: Peer, batches: seq<seq<Operation>>, resend: bool, n: Name)
    returns (actions: seq<Action>, q: Peer)
    requires batches != [] && p.cli.loop.Receiving? && p.cli.batch == |batches| - 1
    requires var mos := batches[|batches| - 1]; var sig := Signal1(|batches|, mos, |mos|); p.toClient == [sig, sig]
    ensures Named(n, actions) && PeerRun(p, batches, resend, actions) == Some(q)
    ensures q.cli.loop.Stopped? && q.cli.batch == |batches| && q.toClient == []
  {
    hide PeerRun;
    var sig := p.toClient[0];
    var p1 := p.(cli := p.cli.(loop := Forwarding(sig, 0)), toClient := [sig]);
    assert p.toClient[1..] == [sig];
    OneStep(p, batches, resend, Accept(n), p1);
    var more, p2 := ForwardRest(p1, batches, resend, n);
    PeerRunConcat(p, batches, resend, [Accept(n)], p1, more);
    actions := [Accept(n)] + more;
    var acked := p2.cli.(loop := AckSent(sig.batch), forwarded := p2.cli.forwarded + 1);
    var p3 := p2.(cli := acked, toServer := p2.toServer + [sig.batch]);
    OneStep(p2, batches, resend, Ack(n, true, true), p3);
    PeerRunConcat(p, batches, resend, actions, p2, [Ack(n, true, true)]);
    actions := actions + [Ack(n, true, true)];
    var p4 := p3.(cli := p3.cli.(batch := sig.batch, loop := Receiving));
    OneStep(p3, batches, resend, Advance(n), p4);
    PeerRunConcat(p, batches, resend, actions, p3, [Advance(n)]);
    actions := actions + [Advance(n)];
    q := p4.(cli := p4.cli.(loop := Stopped), toClient := []);
    assert [sig][1..] == [];
    OneStep(p4, batches, resend, Accept(n), q);
    PeerRunConcat(p, batches, resend, actions, p4, [Accept(n)]);
    actions := actions + [Accept(n)];
  }
}
