/** Both ends of a fan-out connection in the form of their source: objects whose methods change their
    fields in place (src/tcpserverclient.go, src/tcpclient.go).  Each method is proved to be a run of
    the steps of module FanOut, so what is proved of every interleaving there holds of these. */
module FanOutClasses {
  import opened Prelude
  import opened Operations
  import opened FanOut

  /** The peer after a sequence of its own steps, if each was possible. */
  function PeerRun(p: Peer, batches: seq<seq<Operation>>, resend: bool, actions: seq<Action>): Option<Peer>
  {
    if actions == [] then Some(p)
    else
      var q := PeerRun(p, batches, resend, actions[..|actions| - 1]);
      var a := actions[|actions| - 1];
      if q.None? then None
      else if ClientAction(a) then ClientStep(q.value, a)
      else ServerStep(q.value, batches, resend, a)
  }

  lemma PeerRunNext(p: Peer, batches: seq<seq<Operation>>, resend: bool, actions: seq<Action>, a: Action, q: Peer)
    requires PeerRun(p, batches, resend, actions) == Some(q)
    ensures PeerRun(p, batches, resend, actions + [a]) ==
            if ClientAction(a) then ClientStep(q, a) else ServerStep(q, batches, resend, a)
  {
    assert (actions + [a])[..|actions|] == actions;
  }

  /** A run of one connection inside the system: its steps are steps of the whole. */
  lemma {:induction false} PeerRunIsSystemRun(init: System, before: seq<Action>, s: System, n: Name,
                                              actions: seq<Action>)
    requires After(init, before) == Some(s) && n in s.peers
    requires forall i :: 0 <= i < |actions| ==> !DistributorAction(actions[i]) && actions[i].name == n
    requires PeerRun(s.peers[n], s.batches, s.dist.Resending?, actions).Some?
    ensures After(init, before + actions) ==
            Some(s.(peers := s.peers[n := PeerRun(s.peers[n], s.batches, s.dist.Resending?, actions).value]))
  {
    if actions == [] {
      assert before + actions == before;
      assert s.peers[n := s.peers[n]] == s.peers;
    } else {
      hide ClientStep, ServerStep;
      var front, a := actions[..|actions| - 1], actions[|actions| - 1];
      PeerRunIsSystemRun(init, before, s, n, front);
      var q := PeerRun(s.peers[n], s.batches, s.dist.Resending?, front).value;
      var t := s.(peers := s.peers[n := q]);
      var r := PeerRun(s.peers[n], s.batches, s.dist.Resending?, actions).value;
      assert Step(t, a) == Some(t.(peers := t.peers[n := r]));
      assert s.peers[n := q][n := r] == s.peers[n := r];
      AfterSnoc(init, before + front, t, a, t.(peers := t.peers[n := r]));
      assert before + actions == before + front + [a];
    }
  }

  class TcpServerClient {
    var dead: bool
    var busy: bool
    var sendBatch: nat
    var sendMos: seq<Operation>
    var sendError: bool

    constructor ()
      ensures View(Idle) == FRESH.srv.(connected := true)
    {
      dead, busy, sendBatch, sendMos, sendError := false, false, 0, [], false;
    }

    ghost function View(push: Push): ServerSide
      reads this
    {
      ServerSide(true, dead, busy, sendBatch, sendMos, sendError, push)
    }

    method SetPush(batch: nat, mos: seq<Operation>)
      modifies this`sendBatch, this`sendMos
      ensures View(Armed) == old(View(Armed)).(sendBatch := batch, sendMos := mos)
    {
      sendBatch, sendMos := batch, mos;
    }

    /** Marks the client busy, sends, and records a failure; a failed send may still arrive. */
    method ClientPush(arrives: bool, ok: bool) returns (sent: seq<Signal1>)
      requires ok ==> arrives
      modifies this`busy, this`sendError
      ensures View(Idle) == old(View(Idle)).(busy := true, sendError := !ok)
      ensures sent == if arrives then [Signal1(sendBatch, sendMos, |sendMos|)] else []
    {
      var signal := Signal1(sendBatch, sendMos, |sendMos|);
      busy, sendError := true, false;
      sent := if arrives then [signal] else [];
      if !ok { sendError := true; }
    }

    /** The push of a new batch, as ClientsPush runs it, is the three server steps. */
    method Push(name: Name, batches: seq<seq<Operation>>, arrives: bool, ok: bool, ghost p: Peer)
      returns (sent: seq<Signal1>)
      requires batches != [] && (ok ==> arrives) && p.srv == View(Armed)
      modifies this`busy, this`sendError, this`sendBatch, this`sendMos
      ensures PeerRun(p, batches, false, [Arm(name), FanOut.Send(name, arrives, ok), Record(name)])
              == Some(p.(srv := View(Idle), toClient := p.toClient + sent))
    {
      SetPush(|batches|, batches[|batches| - 1]);
      sent := ClientPush(arrives, ok);
      PushSteps(p, batches, name, arrives, ok);
    }

    /** One acknowledgement. */
    method ReceivedSignal(ack: nat)
      modifies this`busy, this`sendError
      ensures forall push :: View(push) == ReceivedAck(old(View(push)), ack)
    {
      if sendBatch == ack { busy, sendError := false, false; }
    }
  }

  /** Goes through the clients up to the first that is not ready; one whose last send failed is pushed to again. */
  method ClientsReady(clients: seq<TcpServerClient?>, arrives: bool, ok: bool)
    returns (ready: bool, at: nat, sent: seq<Signal1>)
    requires ok ==> arrives
    modifies (set c | c in clients && c != null :: c)`busy, (set c | c in clients && c != null :: c)`sendError
    ensures at <= |clients| && (ready <==> at == |clients|)
    ensures forall i :: 0 <= i < at ==> clients[i] != null && old(Ready(clients[i].View(Idle)))
    ensures !ready ==> clients[at] == null || !old(Ready(clients[at].View(Idle)))
    ensures var c := if ready then null else clients[at];
            if c != null && old(MustResend(c.View(Idle)))
            then
              && c.View(Idle) == old(c.View(Idle)).(busy := true, sendError := !ok)
              && (forall d :: d in clients && d != null && d != c ==> d.View(Idle) == old(d.View(Idle)))
              && sent == if arrives then [Signal1(c.sendBatch, c.sendMos, |c.sendMos|)] else []
            else sent == [] && forall d :: d in clients && d != null ==> d.View(Idle) == old(d.View(Idle))
  {
    at, sent := 0, [];
    while at < |clients|
      invariant at <= |clients| && sent == []
      invariant forall i :: 0 <= i < at ==> clients[i] != null && Ready(clients[i].View(Idle))
      invariant forall d :: d in clients && d != null ==> d.View(Idle) == old(d.View(Idle))
    {
      var client := clients[at];
      if client == null || client.dead { return false, at, []; }
      if client.busy {
        assert client in (set c | c in clients && c != null :: c);
        if client.sendError { sent := client.ClientPush(arrives, ok); }
        return false, at, sent;
      }
      at := at + 1;
    }
    ready := true;
  }

  lemma NothingRun(p: Peer, batches: seq<seq<Operation>>)
    ensures PeerRun(p, batches, false, []) == Some(p)
  {
  }

  lemma PushSteps(p: Peer, batches: seq<seq<Operation>>, name: Name, arrives: bool, ok: bool)
    requires batches != [] && (ok ==> arrives) && p.srv.push.Armed?
    ensures var mos := batches[|batches| - 1];
            PeerRun(p, batches, false, [Arm(name), FanOut.Send(name, arrives, ok), Record(name)])
            == Some(p.(srv := p.srv.(sendBatch := |batches|, sendMos := mos, busy := true, sendError := !ok,
                                     push := Idle),
                       toClient := p.toClient + if arrives then [Signal1(|batches|, mos, |mos|)] else []))
  {
    hide PeerRun;
    var a, b, c := Arm(name), FanOut.Send(name, arrives, ok), Record(name);
    NothingRun(p, batches);
    var p1 := p.(srv := Load(p.srv, batches, false));
    PeerRunNext(p, batches, false, [], a, p);
    assert [] + [a] == [a] && [a] + [b] == [a, b] && [a, b] + [c] == [a, b, c];
    PeerRunNext(p, batches, false, [a], b, p1);
    var p2 := ServerStep(p1, batches, false, b).value;
    PeerRunNext(p, batches, false, [a, b], c, p2);
  }

  class TcpClient {
    var batch: nat
    var delivered: seq<Operation>             // what went into the operation channel
    ghost var forwarded: nat

    constructor ()
      ensures View(Receiving) == FRESH.cli
    {
      batch, delivered, forwarded := 0, [], 0;
    }

    ghost function View(loop: Loop): ClientSide
      reads this
    {
      ClientSide(batch, loop, delivered, forwarded)
    }

    /** The loop over the operations of an accepted batch. */
    method ForwardAll(name: Name, sig: Signal1, ghost p0: Peer, ghost p: Peer, ghost actions: seq<Action>)
      returns (ghost more: seq<Action>)
      requires p.cli == View(Forwarding(sig, 0)) && PeerRun(p0, [], false, actions) == Some(p)
      requires OwnActions(name, actions)
      modifies this`delivered
      ensures PeerRun(p0, [], false, more) == Some(p.(cli := View(Forwarding(sig, |sig.mos|))))
      ensures OwnActions(name, more)
    {
      more := actions;
      for i := 0 to |sig.mos|
        invariant PeerRun(p0, [], false, more) == Some(p.(cli := View(Forwarding(sig, i)))) && OwnActions(name, more)
      {
        hide PeerRun;
        PeerRunNext(p0, [], false, more, Forward(name), p.(cli := View(Forwarding(sig, i))));
        delivered := delivered + [sig.mos[i]];
        more := more + [Forward(name)];
      }
    }

    /** The acknowledgement of a forwarded batch; on success the batch id advances. */
    method Acknowledge(name: Name, sig: Signal1, arrives: bool, ok: bool, ghost p0: Peer, ghost p: Peer,
                       ghost actions: seq<Action>)
      returns (acked: seq<nat>, ghost more: seq<Action>)
      requires p.cli == View(Forwarding(sig, |sig.mos|)) && PeerRun(p0, [], false, actions) == Some(p)
      requires OwnActions(name, actions)
      requires ok ==> arrives
      modifies this`batch, this`forwarded
      ensures OwnActions(name, more)
      ensures PeerRun(p0, [], false, more)
              == Some(p.(toServer := p.toServer + acked, cli := View(if ok then Receiving else Stopped)))
    {
      hide PeerRun;
      PeerRunNext(p0, [], false, actions, Ack(name, arrives, ok), p);
      more := actions + [Ack(name, arrives, ok)];
      forwarded := forwarded + 1;
      acked := if arrives then [sig.batch] else [];
      if ok {
        ghost var q := p.(toServer := p.toServer + acked, cli := View(AckSent(sig.batch)));
        PeerRunNext(p0, [], false, more, Advance(name), q);
        more := more + [Advance(name)];
        batch := sig.batch;
      }
    }

    /** One turn of the receive loop. */
    method ReceiveOne(name: Name, sig: Signal1, arrives: bool, ok: bool, ghost p0: Peer, ghost p: Peer,
                      ghost actions: seq<Action>)
      returns (goOn: bool, acked: seq<nat>, ghost more: seq<Action>)
      requires p.cli == View(Receiving) && PeerRun(p0, [], false, actions) == Some(p) && OwnActions(name, actions)
      requires p.toClient != [] && p.toClient[0] == sig && (ok ==> arrives)
      modifies this
      ensures OwnActions(name, more)
      ensures PeerRun(p0, [], false, more)
              == Some(p.(toClient := p.toClient[1..], toServer := p.toServer + acked,
                         cli := View(if goOn then Receiving else Stopped)))
    {
      hide PeerRun;
      PeerRunNext(p0, [], false, actions, Accept(name), p);
      more := actions + [Accept(name)];
      if !(sig.batch == batch + 1 && |sig.mos| == sig.count) {
        assert p.toServer + [] == p.toServer;
        return false, [], more;
      }
      ghost var q := p.(toClient := p.toClient[1..], cli := View(Forwarding(sig, 0)));
      more := ForwardAll(name, sig, p0, q, more);
      acked, more := Acknowledge(name, sig, arrives, ok, p0, q.(cli := View(Forwarding(sig, |sig.mos|))), more);
      goOn := ok;
    }

    /** receiveOperations on the messages that arrive; `acks` says how each acknowledgement fares.  It
        ends at the end of the messages, at a message it does not expect, or at a failed
        acknowledgement, and what it did is a run of client steps. */
    method ReceiveOperations(name: Name, sigs: seq<Signal1>, acks: seq<(bool, bool)>, ghost srv: ServerSide)
      returns (acked: seq<nat>, ghost actions: seq<Action>, ghost end: Peer)
      requires |acks| == |sigs| && forall i :: 0 <= i < |acks| ==> (acks[i].1 ==> acks[i].0)
      modifies this
      ensures OwnActions(name, actions)
      ensures PeerRun(Peer(srv, sigs, [], old(View(Receiving))), [], false, actions) == Some(end)
      ensures end.toServer == acked && (end.cli.loop.Stopped? || (end.cli.loop.Receiving? && end.toClient == []))
      ensures end.cli == View(end.cli.loop)
    {
      ghost var p0 := Peer(srv, sigs, [], View(Receiving));
      acked, actions, end := [], [], p0;
      var i, goOn := 0, true;
      while i < |sigs| && goOn
        invariant 0 <= i <= |sigs| && OwnActions(name, actions) && PeerRun(p0, [], false, actions) == Some(end)
        invariant end == Peer(srv, sigs[i..], acked, View(if goOn then Receiving else Stopped))
      {
        hide PeerRun;
        var more;
        assert sigs[i..][1..] == sigs[i + 1..];
        goOn, more, actions := ReceiveOne(name, sigs[i], acks[i].0, acks[i].1, p0, end, actions);
        acked := acked + more;
        i := i + 1;
        end := Peer(srv, sigs[i..], acked, View(if goOn then Receiving else Stopped));
      }
    }
  }

  /** Steps of the client `name`, none of which is an interruption from outside. */
  ghost predicate OwnActions(name: Name, actions: seq<Action>)
  {
    forall i :: 0 <= i < |actions| ==> ClientAction(actions[i]) && !actions[i].Stop? && actions[i].name == name
  }

  /** What a client does alone does not depend on what the server has cut meanwhile. */
  lemma {:induction false} ClientRunsAlone(p: Peer, batches: seq<seq<Operation>>, resend: bool, actions: seq<Action>)
    requires forall i :: 0 <= i < |actions| ==> ClientAction(actions[i])
    ensures PeerRun(p, batches, resend, actions) == PeerRun(p, [], false, actions)
  {
    hide ClientStep;
    if actions != [] { ClientRunsAlone(p, batches, resend, actions[..|actions| - 1]); }
  }
}
