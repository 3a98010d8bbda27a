/**
 The batch fan-out between the replication process and its destinations (src/tcpserver.go,
 src/tcpserverclient.go, src/tcpclient.go) as interleaved steps. Each connection is a pair of FIFO
 channels. A send that reports an error may or may not have delivered its message; connections may
 die and clients may stop at any moment.
 */
module FanOut {
  import opened Prelude
  import opened Operations

  type Name = string

  datatype Signal1 = Signal1(batch: nat, mos: seq<Operation>, count: nat)

  /** Where the server is in pushing to one client (SetPush and ClientPush). */
  datatype Push = Idle | Armed | Sending | Sent(failed: bool)

  /** Where the client is in its receive loop. */
  datatype Loop = Receiving | Forwarding(sig: Signal1, k: nat) | AckSent(batch: nat) | Stopped

  /** TCPServerClient */
  datatype ServerSide = ServerSide(connected: bool, dead: bool, busy: bool,
                                   sendBatch: nat, sendMos: seq<Operation>, sendError: bool, push: Push)

  /** TCPClient; `forwarded` counts the batches handed on completely. */
  datatype ClientSide = ClientSide(batch: nat, loop: Loop, delivered: seq<Operation>, forwarded: nat)

  /** One connection with the messages in flight. */
  datatype Peer = Peer(srv: ServerSide, toClient: seq<Signal1>, toServer: seq<nat>, cli: ClientSide)

  /** Where the distributor is: looking at its clients one by one, pushing again to one of them,
      or waiting for a new batch to be pushed to all. */
  datatype Distributor = Checking(ready: set<Name>) | Resending(name: Name) | Pushing

  /** `batches[i]` holds the operations of batch i+1; the server's BatchID is their number. */
  datatype System = System(batches: seq<seq<Operation>>, dist: Distributor, peers: map<Name, Peer>)
  {
    function BatchId(): nat { |batches| }
  }

  const FRESH: Peer :=
    Peer(ServerSide(false, false, false, 0, [], false, Idle), [], [], ClientSide(0, Receiving, [], 0))

  predicate Initial(s: System)
  {
    s.batches == [] && s.dist == Checking({}) && forall n :: n in s.peers ==> s.peers[n] == FRESH
  }

  datatype Action =
    | Connect(name: Name)
    | CheckReady(name: Name)
    | CheckNotReady(name: Name)
    | CheckAgain(name: Name)                                  // busy with a send error: push again
    | ResendDone
    | Fetch(mos: seq<Operation>)                              // all clients ready: cut the next batch
    | PushDone
    | Arm(name: Name)                                         // SetPush, State = ClientBusy, SendError = nil
    | Send(name: Name, arrives: bool, ok: bool)
    | Record(name: Name)                                      // SendError = err, or nothing
    | ReceiveAck(name: Name)
    | Die(name: Name)
    | Accept(name: Name)
    | Forward(name: Name)
    | Ack(name: Name, arrives: bool, ok: bool)
    | Advance(name: Name)                                     // tc.BatchID = sig.BatchID
    | Stop(name: Name)

  // ----- the server's side of one connection

  /** SetPush (unless this is a repeated push), then the first half of ClientPush. */
  function Load(v: ServerSide, batches: seq<seq<Operation>>, resend: bool): ServerSide
  {
    var w := if resend || batches == [] then v
             else v.(sendBatch := |batches|, sendMos := batches[|batches| - 1]);
    w.(push := Sending, busy := true, sendError := false)
  }

  function ReceivedAck(v: ServerSide, ack: nat): ServerSide
  {
    if ack == v.sendBatch then v.(busy := false, sendError := false) else v
  }

  function ServerStep(p: Peer, batches: seq<seq<Operation>>, resend: bool, a: Action): Option<Peer>
  {
    match a
    case Connect(_) => if p.srv.connected then None else Some(p.(srv := p.srv.(connected := true)))
    case Arm(_) => if p.srv.push.Armed? then Some(p.(srv := Load(p.srv, batches, resend))) else None
    case Send(_, arrives, ok) =>
      if !p.srv.push.Sending? || (ok && !arrives) then None
      else
        var sent := if arrives then [Signal1(p.srv.sendBatch, p.srv.sendMos, |p.srv.sendMos|)] else [];
        Some(p.(srv := p.srv.(push := Sent(!ok)), toClient := p.toClient + sent))
    case Record(_) =>
      if !p.srv.push.Sent? then None
      else Some(p.(srv := p.srv.(push := Idle, sendError := p.srv.sendError || p.srv.push.failed)))
    case ReceiveAck(_) =>
      if p.srv.dead || p.toServer == [] then None
      else Some(p.(srv := ReceivedAck(p.srv, p.toServer[0]), toServer := p.toServer[1..]))
    case Die(_) => Some(p.(srv := p.srv.(dead := true)))
    case _ => None
  }

  // ----- the client's side

  function Received(c: ClientSide, sig: Signal1): ClientSide
  {
    c.(loop := if sig.batch == c.batch + 1 && |sig.mos| == sig.count then Forwarding(sig, 0) else Stopped)
  }

  function Forwarded(c: ClientSide): ClientSide
    requires c.loop.Forwarding? && c.loop.k < |c.loop.sig.mos|
  {
    c.(delivered := c.delivered + [c.loop.sig.mos[c.loop.k]], loop := Forwarding(c.loop.sig, c.loop.k + 1))
  }

  function ClientStep(p: Peer, a: Action): Option<Peer>
  {
    var c := p.cli;
    match a
    case Accept(_) =>
      if !c.loop.Receiving? || p.toClient == [] then None
      else Some(p.(cli := Received(c, p.toClient[0]), toClient := p.toClient[1..]))
    case Forward(_) =>
      if !c.loop.Forwarding? || c.loop.k >= |c.loop.sig.mos| then None else Some(p.(cli := Forwarded(c)))
    case Ack(_, arrives, ok) =>
      if !c.loop.Forwarding? || c.loop.k != |c.loop.sig.mos| || (ok && !arrives) then None
      else
        var b := c.loop.sig.batch;
        Some(p.(cli := c.(loop := if ok then AckSent(b) else Stopped, forwarded := c.forwarded + 1),
                toServer := p.toServer + if arrives then [b] else []))
    case Advance(_) =>
      if !c.loop.AckSent? then None else Some(p.(cli := c.(batch := c.loop.batch, loop := Receiving)))
    case Stop(_) => Some(p.(cli := c.(loop := Stopped)))
    case _ => None
  }

  predicate ClientAction(a: Action) { a.Accept? || a.Forward? || a.Ack? || a.Advance? || a.Stop? }

  function PeerStep(s: System, p: Peer, a: Action): Option<Peer>
  {
    if ClientAction(a) then ClientStep(p, a) else ServerStep(p, s.batches, s.dist.Resending?, a)
  }

  // ----- steps of the distributor

  predicate Ready(v: ServerSide) { v.connected && !v.dead && !v.busy }

  /** clientsReady finds the client busy with a failed send. */
  predicate MustResend(v: ServerSide) { v.connected && !v.dead && v.busy && v.sendError }

  function ArmPeer(p: Peer): Peer { p.(srv := p.srv.(push := Armed)) }

  predicate DistributorAction(a: Action)
  {
    a.CheckReady? || a.CheckNotReady? || a.CheckAgain? || a.ResendDone? || a.Fetch? || a.PushDone?
  }

  function DistributorStep(s: System, a: Action): Option<System>
    requires DistributorAction(a)
  {
    match a
    case CheckReady(n) =>
      if s.dist.Checking? && n in s.peers && Ready(s.peers[n].srv)
      then Some(s.(dist := Checking(s.dist.ready + {n}))) else None
    case CheckNotReady(n) =>
      if s.dist.Checking? && n in s.peers && !Ready(s.peers[n].srv) && !MustResend(s.peers[n].srv)
      then Some(s.(dist := Checking({}))) else None
    case CheckAgain(n) =>
      if s.dist.Checking? && n in s.peers && MustResend(s.peers[n].srv)
      then Some(s.(dist := Resending(n), peers := s.peers[n := ArmPeer(s.peers[n])])) else None
    case ResendDone =>
      if s.dist.Resending? && s.dist.name in s.peers && s.peers[s.dist.name].srv.push.Idle?
      then Some(s.(dist := Checking({}))) else None
    case Fetch(mos) =>
      if s.dist.Checking? && s.dist.ready == s.peers.Keys
      then Some(System(s.batches + [mos], Pushing, map n | n in s.peers :: ArmPeer(s.peers[n]))) else None
    case PushDone =>
      if s.dist.Pushing? && (forall n :: n in s.peers ==> s.peers[n].srv.push.Idle?)
      then Some(s.(dist := Checking({}))) else None
  }

  function Step(s: System, a: Action): Option<System>
  {
    if DistributorAction(a) then DistributorStep(s, a)
    else if a.name in s.peers && PeerStep(s, s.peers[a.name], a).Some?
    then Some(s.(peers := s.peers[a.name := PeerStep(s, s.peers[a.name], a).value]))
    else None
  }

  /** The state after a sequence of actions, if each of them was possible. */
  function After(init: System, actions: seq<Action>): Option<System>
  {
    if actions == [] then Some(init)
    else
      var before := After(init, actions[..|actions| - 1]);
      if before.Some? then Step(before.value, actions[|actions| - 1]) else None
  }

  // ----- the invariant

  function Stream(batches: seq<seq<Operation>>): seq<Operation>
  {
    if batches == [] then [] else Stream(batches[..|batches| - 1]) + batches[|batches| - 1]
  }

  predicate GoodSignal(batches: seq<seq<Operation>>, sig: Signal1)
  {
    1 <= sig.batch <= |batches| && sig.mos == batches[sig.batch - 1] && sig.count == |sig.mos|
  }

  /** What the client has handed on. */
  ghost predicate DeliveredOk(batches: seq<seq<Operation>>, c: ClientSide)
  {
    && c.batch <= |batches| && c.forwarded <= |batches|
    && match c.loop
       case Receiving => c.delivered == Stream(batches[..c.batch]) && c.forwarded == c.batch
       case Forwarding(sig, k) =>
         && GoodSignal(batches, sig) && sig.batch == c.batch + 1 && k <= |sig.mos|
         && c.delivered == Stream(batches[..c.batch]) + sig.mos[..k] && c.forwarded == c.batch
       case AckSent(b) =>
         && b == c.batch + 1 && c.forwarded == b && b <= |batches| && c.delivered == Stream(batches[..b])
       case Stopped =>
         c.batch <= c.forwarded <= c.batch + 1 && Stream(batches[..c.forwarded]) <= c.delivered <= Stream(batches)
  }

  predicate WireOk(batches: seq<seq<Operation>>, toClient: seq<Signal1>)
  {
    forall i :: 0 <= i < |toClient| ==> GoodSignal(batches, toClient[i])
  }

  predicate AcksOk(toServer: seq<nat>, forwarded: nat)
  {
    forall i :: 0 <= i < |toServer| ==> toServer[i] <= forwarded
  }

  predicate SideOk(batches: seq<seq<Operation>>, v: ServerSide, forwarded: nat)
  {
    && |batches| <= forwarded + 1
    && (!v.busy ==> v.sendBatch <= forwarded)
    && (v.sendBatch == |batches| || (v.push.Armed? && v.sendBatch + 1 == |batches|))
    && (v.sendBatch >= 1 ==> GoodSignal(batches, Signal1(v.sendBatch, v.sendMos, |v.sendMos|)))
    && (v.sendBatch == 0 ==> (v.push.Idle? || v.push.Armed?) && !v.sendError)
  }

  ghost predicate PeerOk(batches: seq<seq<Operation>>, p: Peer)
  {
    && DeliveredOk(batches, p.cli) && WireOk(batches, p.toClient)
    && AcksOk(p.toServer, p.cli.forwarded) && SideOk(batches, p.srv, p.cli.forwarded)
  }

  ghost predicate DistributorOk(s: System)
  {
    match s.dist
    case Checking(ready) =>
      && ready <= s.peers.Keys
      && (forall n :: n in s.peers ==> s.peers[n].srv.push.Idle?)
      && (forall n :: n in ready ==> !s.peers[n].srv.busy)
    case Resending(name) =>
      && name in s.peers && s.batches != [] && s.peers[name].srv.sendBatch == |s.batches|
      && (forall n :: n in s.peers && n != name ==> s.peers[n].srv.push.Idle?)
    case Pushing => s.batches != []
  }

  ghost predicate Inv(s: System)
  {
    (forall n :: n in s.peers ==> PeerOk(s.batches, s.peers[n])) && DistributorOk(s)
  }

  // ----- streams

  lemma StreamTake(batches: seq<seq<Operation>>, b: nat)
    requires b < |batches|
    ensures Stream(batches[..b + 1]) == Stream(batches[..b]) + batches[b]
  {
    assert batches[..b + 1][..b] == batches[..b];
  }

  lemma {:induction false} StreamPrefix(batches: seq<seq<Operation>>, b: nat)
    requires b <= |batches|
    ensures Stream(batches[..b]) <= Stream(batches)
    decreases |batches| - b
  {
    if b < |batches| {
      StreamTake(batches, b);
      StreamPrefix(batches, b + 1);
    } else {
      assert batches[..b] == batches;
    }
  }

  // ----- the client's side

  lemma ReceivedKeeps(batches: seq<seq<Operation>>, c: ClientSide, sig: Signal1)
    requires DeliveredOk(batches, c) && c.loop.Receiving? && GoodSignal(batches, sig)
    ensures DeliveredOk(batches, Received(c, sig))
  {
    StreamPrefix(batches, c.batch);
    assert c.delivered == Stream(batches[..c.batch]) + sig.mos[..0];
  }

  lemma ForwardedKeeps(batches: seq<seq<Operation>>, c: ClientSide)
    requires DeliveredOk(batches, c) && c.loop.Forwarding? && c.loop.k < |c.loop.sig.mos|
    ensures DeliveredOk(batches, Forwarded(c))
  {
    var sig, k := c.loop.sig, c.loop.k;
    assert sig.mos[..k + 1] == sig.mos[..k] + [sig.mos[k]];
  }

  /** A batch is acknowledged when all of it has been handed on. */
  lemma AckKeeps(batches: seq<seq<Operation>>, c: ClientSide, ok: bool)
    requires DeliveredOk(batches, c) && c.loop.Forwarding? && c.loop.k == |c.loop.sig.mos|
    ensures var loop := if ok then AckSent(c.loop.sig.batch) else Stopped;
            DeliveredOk(batches, c.(loop := loop, forwarded := c.forwarded + 1))
  {
    StreamTake(batches, c.batch);
    StreamPrefix(batches, c.batch + 1);
    assert c.loop.sig.mos[..c.loop.k] == c.loop.sig.mos;
  }

  lemma StopKeeps(batches: seq<seq<Operation>>, c: ClientSide)
    requires DeliveredOk(batches, c)
    ensures DeliveredOk(batches, c.(loop := Stopped))
  {
    StreamPrefix(batches, c.batch);
    StreamPrefix(batches, c.forwarded);
    if c.loop.Forwarding? {
      StreamTake(batches, c.batch);
      StreamPrefix(batches, c.batch + 1);
    }
  }

  lemma ClientStepKeeps(batches: seq<seq<Operation>>, p: Peer, a: Action)
    requires PeerOk(batches, p) && ClientAction(a) && ClientStep(p, a).Some?
    ensures PeerOk(batches, ClientStep(p, a).value) && ClientStep(p, a).value.srv == p.srv
  {
    var c := p.cli;
    match a {
      case Accept(_) => ReceivedKeeps(batches, c, p.toClient[0]);
      case Forward(_) => ForwardedKeeps(batches, c);
      case Ack(_, _, ok) => AckKeeps(batches, c, ok);
      case Advance(_) =>
      case Stop(_) => StopKeeps(batches, c);
    }
  }

  // ----- the server's side

  lemma ServerStepKeeps(batches: seq<seq<Operation>>, resend: bool, p: Peer, a: Action)
    requires PeerOk(batches, p) && ServerStep(p, batches, resend, a).Some?
    requires a.Arm? ==> batches != [] && (resend ==> p.srv.sendBatch == |batches|)
    ensures var q := ServerStep(p, batches, resend, a).value;
            && PeerOk(batches, q)
            && (!a.Arm? ==> q.srv.sendBatch == p.srv.sendBatch)
            && (!a.Arm? && p.srv.push.Idle? ==> q.srv.push.Idle?)
            && (!a.Arm? && !p.srv.busy ==> !q.srv.busy)
            && (a.Arm? ==> q.srv.sendBatch == |batches|)
  {
    hide DeliveredOk;
  }

  // ----- the distributor

  lemma StreamMore(batches: seq<seq<Operation>>, mos: seq<Operation>, b: nat)
    requires b <= |batches|
    ensures (batches + [mos])[..b] == batches[..b] && Stream(batches + [mos]) == Stream(batches) + mos
  {
    assert (batches + [mos])[..|batches|] == batches;
  }

  lemma DeliveredFetch(batches: seq<seq<Operation>>, c: ClientSide, mos: seq<Operation>)
    requires DeliveredOk(batches, c)
    ensures DeliveredOk(batches + [mos], c)
  {
    hide Stream;
    StreamMore(batches, mos, c.batch);
    StreamMore(batches, mos, c.forwarded);
    if c.loop.AckSent? { StreamMore(batches, mos, c.loop.batch); }
  }

  /** Cutting a new batch leaves everything that refers to earlier batches alone. */
  lemma FetchKeeps(batches: seq<seq<Operation>>, p: Peer, mos: seq<Operation>)
    requires PeerOk(batches, p) && !p.srv.busy && p.srv.push.Idle?
    ensures PeerOk(batches + [mos], ArmPeer(p))
  {
    DeliveredFetch(batches, p.cli, mos);
    hide DeliveredOk;
  }

  lemma DistributorStepKeeps(s: System, a: Action)
    requires Inv(s) && DistributorAction(a) && DistributorStep(s, a).Some?
    ensures Inv(DistributorStep(s, a).value)
  {
    hide DeliveredOk, WireOk, AcksOk;
    var t := DistributorStep(s, a).value;
    if a.Fetch? {
      forall n | n in t.peers ensures PeerOk(t.batches, t.peers[n]) {
        assert n in s.dist.ready;
        FetchKeeps(s.batches, s.peers[n], a.mos);
      }
    }
  }

  lemma StepKeeps(s: System, a: Action)
    requires Inv(s) && Step(s, a).Some?
    ensures Inv(Step(s, a).value)
  {
    hide PeerOk, ServerStep, ClientStep;
    if DistributorAction(a) {
      DistributorStepKeeps(s, a);
    } else {
      var p := s.peers[a.name];
      if ClientAction(a) {
        ClientStepKeeps(s.batches, p, a);
      } else {
        ArmedOnlyWhenDue(s, p, a);
        ServerStepKeeps(s.batches, s.dist.Resending?, p, a);
      }
    }
  }

  lemma ArmedOnlyWhenDue(s: System, p: Peer, a: Action)
    requires Inv(s) && !DistributorAction(a) && !ClientAction(a) && a.name in s.peers && p == s.peers[a.name]
    requires ServerStep(p, s.batches, s.dist.Resending?, a).Some?
    ensures a.Arm? ==> s.batches != [] && !s.dist.Checking?
    ensures a.Arm? && s.dist.Resending? ==> p.srv.sendBatch == |s.batches| && a.name == s.dist.name
  {
    hide PeerOk;
  }

  lemma {:induction false} RunKeeps(init: System, actions: seq<Action>)
    requires Initial(init) && After(init, actions).Some?
    ensures Inv(After(init, actions).value)
  {
    hide Step;
    if actions == [] {
      InitialHolds(init);
    } else {
      var before := actions[..|actions| - 1];
      RunKeeps(init, before);
      StepKeeps(After(init, before).value, actions[|actions| - 1]);
    }
  }

  lemma InitialHolds(s: System)
    requires Initial(s)
    ensures Inv(s)
  {
  }

  // ----- theorems

  /** In every interleaving each client has handed on a duplicate-free, gap-free prefix of the
      server's stream, at most one batch short of it. */
  lemma {:induction false} DeliveredIsPrefix(init: System, actions: seq<Action>, n: Name)
    requires Initial(init) && After(init, actions).Some? && n in After(init, actions).value.peers
    ensures var s := After(init, actions).value; var c := s.peers[n].cli;
            && c.delivered <= Stream(s.batches)
            && Stream(s.batches[..if s.batches == [] then 0 else |s.batches| - 1]) <= c.delivered
  {
    RunKeeps(init, actions);
    var s := After(init, actions).value;
    hide After;
    var p := s.peers[n];
    assert PeerOk(s.batches, p);
    StopKeeps(s.batches, p.cli);
    var m := if s.batches == [] then 0 else |s.batches| - 1;
    var done := s.batches[..p.cli.forwarded];
    StreamPrefix(done, m);
    assert done[..m] == s.batches[..m];
  }

  /** A client waiting for its next batch is at the server's batch or one behind. */
  lemma {:induction false} BatchIdsStayClose(init: System, actions: seq<Action>, n: Name)
    requires Initial(init) && After(init, actions).Some? && n in After(init, actions).value.peers
    ensures var s := After(init, actions).value; var c := s.peers[n].cli;
            && c.batch <= s.BatchId() <= c.forwarded + 1 && c.forwarded <= c.batch + 1
            && (c.loop.Receiving? || c.loop.Forwarding? ==> s.BatchId() <= c.batch + 1)
  {
    RunKeeps(init, actions);
    var s := After(init, actions).value;
    hide After;
    assert PeerOk(s.batches, s.peers[n]);
  }

  // ----- the bound is tight

  lemma AfterSnoc(init: System, actions: seq<Action>, s: System, a: Action, t: System)
    requires After(init, actions) == Some(s) && Step(s, a) == Some(t)
    ensures After(init, actions + [a]) == Some(t)
  {
    assert (actions + [a])[..|actions|] == actions;
  }

  /** A system with the single client "c". */
  function Single(batches: seq<seq<Operation>>, dist: Distributor, p: Peer): System
  {
    System(batches, dist, map["c" := p])
  }

  /** Replacing the only client. */
  lemma SingleStep(batches: seq<seq<Operation>>, dist: Distributor, p: Peer, a: Action)
    requires !DistributorAction(a) && a.name == "c" && PeerStep(Single(batches, dist, p), p, a).Some?
    ensures Step(Single(batches, dist, p), a)
            == Some(Single(batches, dist, PeerStep(Single(batches, dist, p), p, a).value))
  {
    hide PeerStep;
    var q := PeerStep(Single(batches, dist, p), p, a).value;
    assert map["c" := p]["c" := q] == map["c" := q];
  }

  lemma SingleFetch(batches: seq<seq<Operation>>, p: Peer, mos: seq<Operation>)
    ensures Step(Single(batches, Checking({"c"}), p), Fetch(mos)) == Some(Single(batches + [mos], Pushing, ArmPeer(p)))
  {
    var s := Single(batches, Checking({"c"}), p);
    assert s.peers.Keys == {"c"};
    assert (map n | n in s.peers :: ArmPeer(s.peers[n])) == map["c" := ArmPeer(p)];
  }

  /** One more step of the only client. */
  lemma Extend(init: System, actions: seq<Action>, batches: seq<seq<Operation>>, dist: Distributor, p: Peer,
               a: Action, q: Peer)
    requires After(init, actions) == Some(Single(batches, dist, p)) && !DistributorAction(a) && a.name == "c"
    requires PeerStep(Single(batches, dist, p), p, a) == Some(q)
    ensures After(init, actions + [a]) == Some(Single(batches, dist, q))
  {
    SingleStep(batches, dist, p, a);
    AfterSnoc(init, actions, Single(batches, dist, p), a, Single(batches, dist, q));
  }

  const AT_START: System := Single([], Checking({}), FRESH)

  function FirstSignal(first: seq<Operation>): Signal1 { Signal1(1, first, |first|) }

  /** The server's side once the first batch is under way. */
  function FirstPushed(first: seq<Operation>): ServerSide
  {
    FRESH.srv.(connected := true, busy := true, sendBatch := 1, sendMos := first)
  }

  lemma FirstBatchCut(first: seq<Operation>) returns (actions: seq<Action>)
    ensures var srv := FRESH.srv.(connected := true, push := Armed);
            After(AT_START, actions) == Some(Single([first], Pushing, Peer(srv, [], [], FRESH.cli)))
  {
    hide Step;
    var p := Peer(FRESH.srv.(connected := true), [], [], FRESH.cli);
    Extend(AT_START, [], [], Checking({}), FRESH, Connect("c"), p);
    actions := [] + [Connect("c")];
    Checked([], p);
    AfterSnoc(AT_START, actions, Single([], Checking({}), p), CheckReady("c"), Single([], Checking({"c"}), p));
    actions := actions + [CheckReady("c")];
    SingleFetch([], p, first);
    assert [] + [first] == [first];
    AfterSnoc(AT_START, actions, Single([], Checking({"c"}), p), Fetch(first), Single([first], Pushing, ArmPeer(p)));
    actions := actions + [Fetch(first)];
  }

  lemma FirstBatchSent(first: seq<Operation>) returns (actions: seq<Action>)
    ensures After(AT_START, actions)
            == Some(Single([first], Checking({}), Peer(FirstPushed(first), [FirstSignal(first)], [], FRESH.cli)))
  {
    hide Step;
    actions := FirstBatchCut(first);
    var srv, sig := FirstPushed(first), FirstSignal(first);
    var p := Peer(FRESH.srv.(connected := true, push := Armed), [], [], FRESH.cli);
    var p1 := Peer(srv.(push := Sending), [], [], FRESH.cli);
    Extend(AT_START, actions, [first], Pushing, p, Arm("c"), p1);
    actions := actions + [Arm("c")];
    var p2 := Peer(srv.(push := Sent(false)), [sig], [], FRESH.cli);
    assert [] + [sig] == [sig];
    Extend(AT_START, actions, [first], Pushing, p1, Send("c", true, true), p2);
    actions := actions + [Send("c", true, true)];
    var p3 := Peer(srv, [sig], [], FRESH.cli);
    Extend(AT_START, actions, [first], Pushing, p2, Record("c"), p3);
    actions := actions + [Record("c")];
    Pushed([first], p3);
    AfterSnoc(AT_START, actions, Single([first], Pushing, p3), PushDone, Single([first], Checking({}), p3));
    actions := actions + [PushDone];
  }

  /** The client has taken the first batch and handed on its first k operations. */
  lemma {:induction false} FirstBatchForwarded(first: seq<Operation>, k: nat) returns (actions: seq<Action>)
    requires k <= |first|
    ensures var cli := ClientSide(0, Forwarding(FirstSignal(first), k), first[..k], 0);
            After(AT_START, actions) == Some(Single([first], Checking({}), Peer(FirstPushed(first), [], [], cli)))
  {
    hide Step;
    var srv, sig := FirstPushed(first), FirstSignal(first);
    var q := Peer(srv, [], [], ClientSide(0, Forwarding(sig, k), first[..k], 0));
    if k == 0 {
      actions := FirstBatchSent(first);
      assert [sig][1..] == [];
      Extend(AT_START, actions, [first], Checking({}), Peer(srv, [sig], [], FRESH.cli), Accept("c"), q);
      actions := actions + [Accept("c")];
    } else {
      actions := FirstBatchForwarded(first, k - 1);
      var p := Peer(srv, [], [], ClientSide(0, Forwarding(sig, k - 1), first[..k - 1], 0));
      assert first[..k] == first[..k - 1] + [first[k - 1]];
      Extend(AT_START, actions, [first], Checking({}), p, Forward("c"), q);
      actions := actions + [Forward("c")];
    }
  }

  lemma FirstBatchAcknowledged(first: seq<Operation>) returns (actions: seq<Action>)
    ensures var p := Peer(FirstPushed(first).(busy := false), [], [], ClientSide(0, AckSent(1), first, 1));
            After(AT_START, actions) == Some(Single([first], Checking({}), p))
  {
    hide Step;
    actions := FirstBatchForwarded(first, |first|);
    assert first[..|first|] == first;
    var srv := FirstPushed(first);
    var p1 := Peer(srv, [], [], ClientSide(0, Forwarding(FirstSignal(first), |first|), first, 0));
    var p2 := Peer(srv, [], [1], ClientSide(0, AckSent(1), first, 1));
    assert [] + [1] == [1];
    Extend(AT_START, actions, [first], Checking({}), p1, Ack("c", true, true), p2);
    actions := actions + [Ack("c", true, true)];
    var p3 := Peer(srv.(busy := false), [], [], p2.cli);
    assert [1][1..] == [];
    Extend(AT_START, actions, [first], Checking({}), p2, ReceiveAck("c"), p3);
    actions := actions + [ReceiveAck("c")];
  }

  /** Between sending an acknowledgement and recording the batch, a client can be two batches behind:
      the server may already have cut the next batch. So it is for any two batches, of whatever size. */
  lemma TwoBehind(first: seq<Operation>, second: seq<Operation>) returns (actions: seq<Action>)
    ensures Initial(AT_START) && After(AT_START, actions).Some?
    ensures var s := After(AT_START, actions).value;
            && s.batches == [first, second] && "c" in s.peers && s.peers["c"].cli.delivered == first
            && s.BatchId() == s.peers["c"].cli.batch + 2
  {
    hide Step;
    actions := FirstBatchAcknowledged(first);
    var p := Peer(FirstPushed(first).(busy := false), [], [], ClientSide(0, AckSent(1), first, 1));
    Checked([first], p);
    var ready := Single([first], Checking({"c"}), p);
    AfterSnoc(AT_START, actions, Single([first], Checking({}), p), CheckReady("c"), ready);
    actions := actions + [CheckReady("c")];
    SingleFetch([first], p, second);
    var s := Single([first] + [second], Pushing, ArmPeer(p));
    AfterSnoc(AT_START, actions, ready, Fetch(second), s);
    actions := actions + [Fetch(second)];
    assert [first] + [second] == [first, second];
  }

  lemma Checked(batches: seq<seq<Operation>>, p: Peer)
    requires Ready(p.srv)
    ensures Step(Single(batches, Checking({}), p), CheckReady("c")) == Some(Single(batches, Checking({"c"}), p))
  {
    assert {} + {"c"} == {"c"};
  }

  lemma Pushed(batches: seq<seq<Operation>>, p: Peer)
    requires p.srv.push.Idle?
    ensures Step(Single(batches, Pushing, p), PushDone) == Some(Single(batches, Checking({}), p))
  {
  }
}
