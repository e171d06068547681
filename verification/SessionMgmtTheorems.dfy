/** What session management guarantees in every run. */
module SessionMgmtTheorems {
  import opened Options
  import opened Messages
  import opened SessionMgmt
  import opened SessionMgmtProof
  import opened SessionMgmtSteps

  /** However often its connect request is repeated, and also after it was disconnected, a token has at most one server
      session ever, and at most one client session. */
  lemma {:induction false} OneSessionPerToken(w: World, e: Endpoint, f: Endpoint)
    requires Reachable(w) && Exists(w, e) && Exists(w, f)
    requires Birth(w, e).token == Birth(w, f).token && Birth(w, e).isClient == Birth(w, f).isClient
    ensures e == f
  {
    ReachableOk(w);
    assert SessionOk(w, e) && SessionOk(w, f);
  }

  /** A connected client's server session is alive, connected and made for this client. */
  lemma {:induction false} ConnectedMeansLive(w: World, r: nat, num: nat)
    requires Reachable(w) && r < |w.rpcs| && num < |w.rpcs[r].sessions|
    requires w.rpcs[r].sessions[num].Some? && w.rpcs[r].sessions[num].value.isClient
    requires w.rpcs[r].sessions[num].value.state.Connected?
    ensures var s := w.rpcs[r].sessions[num].value;
            && s.client == Endpoint(r, Some(num))
            && s.server.rpc < |w.rpcs| && s.server.num.Some? && s.server.num.value < |w.rpcs[s.server.rpc].sessions|
            && w.rpcs[s.server.rpc].sessions[s.server.num.value]
               == Some(Session(false, s.token, Connected, s.client, s.server))
  {
    ReachableOk(w);
    var e := Endpoint(r, Some(num));
    assert SessionOk(w, e);
    assert SessionOk(w, w.rpcs[r].sessions[num].value.server);
  }

  /** Ring entries and preallocated buffers are conserved: each live session holds kSessionCredits entries and each
      live server session kSessionReqWindow buffers. */
  lemma {:induction false} ResourcesConserved(w: World, r: nat)
    requires Reachable(w) && r < |w.rpcs|
    ensures w.rpcs[r].ring + kSessionCredits * Live(w.rpcs[r].sessions) == kNumRxRingEntries
    ensures w.rpcs[r].ring <= kNumRxRingEntries
    ensures w.rpcs[r].bufs == kSessionReqWindow * LiveServers(w.rpcs[r].sessions)
  {
    ReachableOk(w);
    assert RpcOk(w.rpcs[r]);
  }

  /** The assertions of the handler that a packet goes to. */
  ghost predicate HandlerAsserts(r: Rpc, p: SmPkt) {
    && InRange(r, p)
    && match p
       case ConnectReq(token, _, _) => token in r.tokens ==> r.tokens[token] < |r.sessions|
       case ConnectResp(_, _, client, server) =>
         var s := r.sessions[client.num.value];
         s.Some? && s.value.state.ConnectInProgress? ==>
           s.value.isClient && s.value.client == client && s.value.server.rpc == server.rpc &&
           s.value.server.num == None
       case DisconnectReq(_, client, server) =>
         var s := r.sessions[server.num.value];
         s.Some? ==>
           !s.value.isClient && s.value.state.Connected? && s.value.server == server && s.value.client == client
       case DisconnectResp(err, _, client, server) =>
         var s := r.sessions[client.num.value];
         err.NoError? && (s.Some? ==> s.value.isClient && s.value.state.DisconnectInProgress?
                                      && s.value.client == client && s.value.server == server)
  }

  /** Whatever the network repeats or reorders, no handler assertion fails. */
  lemma {:induction false} HandlersNeverAssert(w: World, p: SmPkt)
    requires Reachable(w) && p in w.net && Target(p) < |w.rpcs|
    ensures HandlerAsserts(w.rpcs[Target(p)], p)
  {
    ReachableOk(w);
    DeliverInRange(w, p);
    assert PktOk(w, p) && RpcOk(w.rpcs[Target(p)]);
    if p.DisconnectReq? { assert SessionOk(w, p.server); }
    if p.ConnectResp? || p.DisconnectResp? { assert SessionOk(w, p.client); }
  }

  // Orphans

  /** A live server session whose client session is gone. */
  ghost predicate Orphan(w: World, e: Endpoint)
    requires SizesOk(w)
  {
    LiveServer(w, e) && Exists(w, Birth(w, e).client) && Now(w, Birth(w, e).client).None?
  }

  ghost predicate LiveServer(w: World, e: Endpoint)
    requires SizesOk(w)
  {
    Exists(w, e) && !Birth(w, e).isClient && Now(w, e).Some?
  }

  /** A server session outlives its client session exactly when that ended with a connect error. */
  lemma {:induction false} OrphansExactly(w: World, e: Endpoint)
    requires Reachable(w) && SizesOk(w) && LiveServer(w, e)
    ensures Exists(w, Birth(w, e).client)
    ensures Now(w, Birth(w, e).client).None? <==> Birth(w, e).token in w.failed
  {
    ReachableOk(w);
    OrphanFailed(w, e);
  }

  lemma {:induction false} OrphanFailed(w: World, e: Endpoint)
    requires Inv(w) && LiveServer(w, e)
    ensures Exists(w, Birth(w, e).client)
    ensures Now(w, Birth(w, e).client).None? <==> Birth(w, e).token in w.failed
  {
    assert SessionOk(w, e);
    var c, token := Birth(w, e).client, Birth(w, e).token;
    assert SessionOk(w, c);
    assert token in w.failed ==> FailedOk(w, token);
    forall s | Created(w, token, s) ensures s == e { assert SessionOk(w, s); }
  }

  /** The guards under which `handle_connect_req_st` creates a session. */
  predicate Accepts(r: Rpc, p: SmPkt, env: Env) {
    && p.ConnectReq? && p.token !in r.tokens && env.transportOk && r.ring >= kSessionCredits && env.resolveOk
    && env.allocs >= kSessionReqWindow
  }

  /** The client session that a packet names is gone. */
  predicate ClientGone(w: World, p: SmPkt) {
    var c := p.client;
    c.rpc < |w.rpcs| && c.num.Some? && c.num.value < |w.rpcs[c.rpc].sessions|
    && w.rpcs[c.rpc].sessions[c.num.value].None?
  }

  /** A client gives up on a connect error while `e`, created for it by another delivery of its request, is live. */
  ghost predicate GivesUp(w: World, step: Step, e: Endpoint)
    requires SizesOk(w) && Enabled(w, step)
  {
    step.Deliver? && var p := step.p;
    InRange(w.rpcs[Target(p)], p) && EndsInError(w.rpcs[Target(p)], p, step.retry)
    && LiveServer(w, e) && Birth(w, e).token == p.token
  }

  /** A connect request whose client session is already gone is accepted. */
  ghost predicate AcceptsLate(w: World, step: Step, e: Endpoint)
    requires Enabled(w, step)
  {
    step.Deliver? && var p := step.p;
    Accepts(w.rpcs[Target(p)], p, step.env) && ClientGone(w, p)
    && e == Endpoint(Target(p), Some(|w.rpcs[Target(p)].sessions|))
  }

  /** A step leaves a new orphan exactly in one of these two ways. */
  lemma {:induction false} NewOrphansExactly(w: World, step: Step, e: Endpoint)
    requires Reachable(w) && SizesOk(w) && Enabled(w, step) && !Orphan(w, e)
    ensures SizesOk(Next(w, step))
    ensures Orphan(Next(w, step), e) <==> GivesUp(w, step, e) || AcceptsLate(w, step, e)
  {
    hide SessionMgmt.Reachable, SessionMgmtProof.SessionOk, SessionMgmtProof.PktOk, SessionMgmtProof.RpcOk;
    ReachableOk(w);
    StepOk(w, step);
    var v := Next(w, step);
    ServersAfter(w, step, e);
    if LiveServer(v, e) { OrphanFailed(v, e); }
    if LiveServer(w, e) { OrphanFailed(w, e); }
    if step.Deliver? && Accepts(w.rpcs[Target(step.p)], step.p, step.env) { LateMeansFailed(w, step.p); }
  }

  /** Which server sessions are live after a step: those that were and are not disconnected, and one that is
      accepted. */
  lemma {:induction false} ServersAfter(w: World, step: Step, e: Endpoint)
    requires Inv(w) && Enabled(w, step)
    ensures var v := Next(w, step);
            && SizesOk(v)
            && (LiveServer(v, e) <==>
                 (LiveServer(w, e) && !(step.Deliver? && step.p.DisconnectReq? && step.p.server == e))
                 || NewServer(w, step, e))
            && (LiveServer(v, e) && Exists(w, e) ==> Birth(v, e) == Birth(w, e))
            && (NewServer(w, step, e) ==> !Exists(w, e) && Exists(v, e) && Birth(v, e).token == step.p.token)
            && v.failed == w.failed +
                 if step.Deliver? && InRange(w.rpcs[Target(step.p)], step.p)
                    && EndsInError(w.rpcs[Target(step.p)], step.p, step.retry) then {step.p.token} else {}
  {
    hide SessionMgmtProof.SessionOk, SessionMgmtProof.PktOk, SessionMgmtProof.RpcOk, SessionMgmt.Handle, LiveServer;
    StepOk(w, step);
    if step.Deliver? {
      DeliverInRange(w, step.p);
      DeliverLive(w, step, e);
      DeliverFails(w, step);
    } else {
      OthersLive(w, step, e);
    }
  }

  lemma {:induction false} DeliverFails(w: World, step: Step)
    requires Enabled(w, step) && step.Deliver? && InRange(w.rpcs[Target(step.p)], step.p)
    ensures Next(w, step).failed ==
            w.failed + if EndsInError(w.rpcs[Target(step.p)], step.p, step.retry) then {step.p.token} else {}
  {
    hide SessionMgmt.Handle;
  }

  /** Steps other than deliveries touch only client sessions. */
  lemma {:induction false} OthersLive(w: World, step: Step, e: Endpoint)
    requires SizesOk(w) && Enabled(w, step) && !step.Deliver? && SizesOk(Next(w, step))
    ensures var v := Next(w, step);
            && (LiveServer(v, e) <==> LiveServer(w, e)) && v.failed == w.failed
            && (LiveServer(v, e) && Exists(w, e) ==> Birth(v, e) == Birth(w, e))
  {
  }

  ghost predicate NewServer(w: World, step: Step, e: Endpoint)
    requires Enabled(w, step)
  {
    step.Deliver? && Accepts(w.rpcs[Target(step.p)], step.p, step.env)
    && e == Endpoint(Target(step.p), Some(|w.rpcs[Target(step.p)].sessions|))
  }

  /** A session number of an Rpc that belongs to a live server session. */
  predicate LiveAt(r: Rpc, n: nat) {
    n < |r.born| && n < |r.sessions| && !r.born[n].isClient && r.sessions[n].Some?
  }

  lemma {:induction false} HandleLive(r: Rpc, me: nat, p: SmPkt, env: Env, retry: bool, n: nat)
    requires |r.born| == |r.sessions| && InRange(r, p)
    requires p.ConnectResp? || p.DisconnectResp? ==> r.born[p.client.num.value].isClient
    ensures var o := Handle(r, me, p, env, retry).rpc;
            && |o.born| == |o.sessions|
            && (LiveAt(o, n) <==>
                 (LiveAt(r, n) && !(p.DisconnectReq? && p.server.num.value == n))
                 || (Accepts(r, p, env) && n == |r.sessions|))
            && r.born <= o.born
            && (Accepts(r, p, env) && n == |r.sessions| ==> n < |o.born| && o.born[n].token == p.token)
  {
  }

  lemma {:induction false} DeliverLive(w: World, step: Step, e: Endpoint)
    requires Inv(w) && Enabled(w, step) && step.Deliver? && InRange(w.rpcs[Target(step.p)], step.p)
    requires Inv(Next(w, step))
    ensures var v := Next(w, step);
            && (LiveServer(v, e) <==>
                 (LiveServer(w, e) && !(step.p.DisconnectReq? && step.p.server == e)) || NewServer(w, step, e))
            && (LiveServer(v, e) && Exists(w, e) ==> Birth(v, e) == Birth(w, e))
            && (NewServer(w, step, e) ==> !Exists(w, e) && Exists(v, e) && Birth(v, e).token == step.p.token)
  {
    hide SessionMgmt.Handle, SessionMgmtProof.SessionOk;
    var p, r := step.p, Target(step.p);
    assert PktOk(w, p) && RpcOk(w.rpcs[r]);
    if e.rpc == r && e.num.Some? {
      HandleLive(w.rpcs[r], r, p, step.env, step.retry, e.num.value);
    }
  }

  /** A connect request that no session was created for: its client session is gone only by an error. */
  lemma {:induction false} LateMeansFailed(w: World, p: SmPkt)
    requires Inv(w) && p in w.net && p.ConnectReq? && Target(p) < |w.rpcs| && p.token !in w.rpcs[Target(p)].tokens
    ensures ClientGone(w, p) <==> p.token in w.failed
  {
    assert PktOk(w, p) && SessionOk(w, p.client);
    assert p.token in w.failed ==> FailedOk(w, p.token);
    forall s | Created(w, p.token, s) ensures false { assert SessionOk(w, s); }
  }

  /** And an orphan stays one: no step ends it. */
  lemma {:induction false} OrphansStay(w: World, step: Step, e: Endpoint)
    requires Reachable(w) && SizesOk(w) && Enabled(w, step) && Orphan(w, e)
    ensures SizesOk(Next(w, step)) && Orphan(Next(w, step), e)
  {
    hide SessionMgmt.Reachable, SessionMgmtProof.SessionOk, SessionMgmtProof.RpcOk;
    ReachableOk(w);
    StepOk(w, step);
    OrphanFailed(w, e);
    assert FailedOk(w, Birth(w, e).token);
    if step.Deliver? && step.p.DisconnectReq? { assert PktOk(w, step.p); }
    ServersAfter(w, step, e);
    OrphanFailed(Next(w, step), e);
  }

  /** And that happens: a connect request that failed for lack of memory succeeds when it is delivered again, and then
      the client ends its session on the error. */
  lemma {:induction false} ErrorsCanOrphan()
    requires kNumRxRingEntries >= kSessionCredits
    ensures exists w :: Reachable(w) && |w.rpcs| == 2 && w.rpcs[0].sessions == [None]
                        && |w.rpcs[1].sessions| == 1 && w.rpcs[1].sessions[0].Some?
  {
    var idle, w0 := Idle(), World([Idle(), Idle()], {}, map[], {});
    var create, fail := Create(0, 1, 7), Deliver(TheReq(), Env(true, true, 0), false);
    var accept := Deliver(TheReq(), Env(true, true, kSessionReqWindow), false);
    var end := Deliver(RespTo(TheReq(), OutOfMemory), Env(true, true, 0), false);
    Connects(w0);
    assert IsInit(w0);
    var w1 := Next(w0, create);
    FailsFirst(w1);
    var w2 := Next(w1, fail);
    RepeatAccepted(w2, TheReq(), Connecting(), idle);
    var w3 := Next(w2, accept);
    EndsOnError(w3);
    var w4 := Next(w3, end);
    hide SessionMgmt.Next, SessionMgmt.Enabled;
    assert Run(w4, [], w4);
    RunCons(w3, end, [], w4);
    RunCons(w2, accept, [end], w4);
    RunCons(w1, fail, [accept, end], w4);
    RunCons(w0, create, [fail, accept, end], w4);
    assert Reachable(w4);
  }

  function Idle(): Rpc { Rpc([], map[], kNumRxRingEntries, 0, true, []) }

  function TheSession(): Session {
    Session(true, 7, ConnectInProgress, Endpoint(0, Some(0)), Endpoint(1, None))
  }

  function TheReq(): SmPkt { SmReq(TheSession()) }

  function Connecting(): Rpc
    requires kNumRxRingEntries >= kSessionCredits
  {
    Rpc([Some(TheSession())], map[], kNumRxRingEntries - kSessionCredits, 0, true, [TheSession()])
  }

  lemma {:induction false} Connects(w: World)
    requires w.rpcs == [Idle(), Idle()] && w.owner == map[] && kNumRxRingEntries >= kSessionCredits
    ensures Enabled(w, Create(0, 1, 7))
    ensures Next(w, Create(0, 1, 7)).rpcs == [Connecting(), Idle()] && TheReq() in Next(w, Create(0, 1, 7)).net
  {
    var o := CreateSession(Idle(), 0, 1, 7);
    assert o.rpc.sessions == [Some(TheSession())] && o.rpc.born == [TheSession()];
    assert w.rpcs[0 := o.rpc] == [Connecting(), Idle()];
  }

  lemma {:induction false} FailsFirst(w: World)
    requires kNumRxRingEntries >= kSessionCredits && w.rpcs == [Connecting(), Idle()] && TheReq() in w.net
    ensures var step := Deliver(TheReq(), Env(true, true, 0), false);
            && Enabled(w, step) && Next(w, step).rpcs == w.rpcs
            && {TheReq(), RespTo(TheReq(), OutOfMemory)} <= Next(w, step).net
  {
  }

  lemma {:induction false} EndsOnError(w: World)
    requires kNumRxRingEntries >= kSessionCredits && |w.rpcs| == 2 && w.rpcs[0] == Connecting()
    requires RespTo(TheReq(), OutOfMemory) in w.net
    ensures var step := Deliver(RespTo(TheReq(), OutOfMemory), Env(true, true, 0), false);
            && Enabled(w, step) && |Next(w, step).rpcs| == 2
            && Next(w, step).rpcs[0].sessions == [None] && Next(w, step).rpcs[1] == w.rpcs[1]
  {
  }

  lemma {:induction false} RepeatAccepted(w: World, req: SmPkt, a: Rpc, b: Rpc)
    requires w.rpcs == [a, b] && req in w.net && req.ConnectReq? && req.server == Endpoint(1, None)
    requires b == Rpc([], map[], kNumRxRingEntries, 0, true, []) && kNumRxRingEntries >= kSessionCredits
    ensures var step := Deliver(req, Env(true, true, kSessionReqWindow), false);
            && Enabled(w, step)
            && var v := Next(w, step);
               |v.rpcs| == 2 && v.rpcs[0] == a && |v.rpcs[1].sessions| == 1 && v.rpcs[1].sessions[0].Some? &&
               w.net <= v.net
  {
  }

  lemma {:induction false} RunCons(w: World, step: Step, rest: seq<Step>, e: World)
    requires Enabled(w, step) && Run(Next(w, step), rest, e)
    ensures Run(w, [step] + rest, e)
  {
    assert ([step] + rest)[1..] == rest;
  }
}
