/** Every step of session management keeps the invariant. */
module SessionMgmtSteps {
  import opened Options
  import opened Messages
  import opened SessionMgmt
  import opened SessionMgmtProof

  lemma {:induction false} StartOk(w: World, r: nat)
    requires Inv(w) && Enabled(w, Start(r))
    ensures Inv(Next(w, Start(r)))
  {
    SameOk(w, Next(w, Start(r)));
  }

  lemma {:induction false} CreateOk(w: World, step: Step)
    requires Inv(w) && step.Create? && Enabled(w, step)
    ensures Inv(Next(w, step))
  {
    var r := step.r;
    var a, v := w.rpcs[r], Next(w, step);
    if a.ring >= kSessionCredits {
      var s := Session(true, step.token, ConnectInProgress, Endpoint(r, Some(|a.sessions|)),
                       Endpoint(step.remote, None));
      AppendEvolves(w, v, r, s);
      LivePush(a.sessions, Some(s));
      RingTake(a.ring, Live(a.sessions));
      assert RpcOk(a);
      AppendOk(w, v, r, s);
    }
  }

  lemma {:induction false} RingTake(ring: nat, live: nat)
    requires ring >= kSessionCredits && ring + kSessionCredits * live == kNumRxRingEntries
    ensures (ring - kSessionCredits) + kSessionCredits * (live + 1) == kNumRxRingEntries
  {
  }

  lemma {:induction false} RingGive(ring: nat, live: nat)
    requires live >= 1 && ring + kSessionCredits * live == kNumRxRingEntries
    ensures (ring + kSessionCredits) + kSessionCredits * (live - 1) == kNumRxRingEntries
    ensures ring + kSessionCredits <= kNumRxRingEntries
  {
    assert kSessionCredits * live == kSessionCredits * (live - 1) + kSessionCredits;
  }

  lemma {:induction false} ResendOk(w: World, r: nat, num: nat)
    requires Inv(w) && Enabled(w, Resend(r, num))
    ensures Inv(Next(w, Resend(r, num)))
  {
    var e := Endpoint(r, Some(num));
    assert Exists(w, e) && SessionOk(w, e);
    SendOk(w, {SmReq(w.rpcs[r].sessions[num].value)});
  }

  lemma {:induction false} RejectOk(w: World, p: SmPkt)
    requires Inv(w) && Enabled(w, Reject(p))
    ensures p.ConnectReq? && Inv(Next(w, Reject(p)))
  {
    assert PktOk(w, p) && RpcOk(w.rpcs[Target(p)]);
    assert p.ConnectReq?;
    SendOk(w, {RespTo(p, InvalidRemoteRpcId)});
  }

  /** A client session moves on to disconnecting and sends the request. */
  lemma {:induction false} LeaveOk(w: World, v: World, x: Endpoint, s: Session)
    requires Inv(w) && Exists(w, x) && Now(w, x).Some? && Birth(w, x).isClient && !Leaving(Now(w, x))
    requires s.isClient && s.token == Birth(w, x).token && s.client == Birth(w, x).client
    requires s.state.DisconnectInProgress? && Created(w, s.token, s.server)
    requires Touched(w, v, x, Some(s)) && v.net == w.net + {SmReq(s)} && v.failed == w.failed
    requires v.rpcs[x.rpc].ring == w.rpcs[x.rpc].ring && v.rpcs[x.rpc].bufs == w.rpcs[x.rpc].bufs
    ensures Inv(v)
  {
    assert SessionOk(w, x) && RpcOk(w.rpcs[x.rpc]);
    TouchEvolves(w, v, x, Some(s));
    LiveUpdate(w.rpcs[x.rpc].sessions, x.num.value, Some(s));
    TokenKeeps(w, v, s.token);
    CreatedKeeps(w, v, s.token, s.server);
    LiveNotFailed(w, x);
    FailedKeeps(w, v);
    TouchOk(w, v, x, Some(s));
  }

  lemma {:induction false} LiveNotFailed(w: World, x: Endpoint)
    requires Inv(w) && Exists(w, x) && Birth(w, x).isClient && Now(w, x).Some?
    ensures Birth(w, x).token !in w.failed
  {
    assert SessionOk(w, x);
    assert Birth(w, x).token in w.failed ==> FailedOk(w, Birth(w, x).token);
  }

  lemma {:induction false} DestroyOk(w: World, r: nat, num: nat)
    requires Inv(w) && Enabled(w, Destroy(r, num))
    ensures Inv(Next(w, Destroy(r, num)))
  {
    var a, v := w.rpcs[r], Next(w, Destroy(r, num));
    var x := Endpoint(r, Some(num));
    if num < |a.sessions| && a.sessions[num].Some? && a.sessions[num].value.isClient
       && a.sessions[num].value.state.Connected?
    {
      assert Exists(w, x) && SessionOk(w, x);
      LeaveOk(w, v, x, a.sessions[num].value.(state := DisconnectInProgress));
    } else {
      assert v.rpcs == w.rpcs && v.net == w.net;
      SendOk(w, {});
    }
  }

  // Deliveries

  lemma {:induction false} DeliverInRange(w: World, p: SmPkt)
    requires Inv(w) && p in w.net && Target(p) < |w.rpcs|
    ensures InRange(w.rpcs[Target(p)], p)
  {
    assert PktOk(w, p);
  }

  lemma {:induction false} ConnectReqOk(w: World, step: Step)
    requires Inv(w) && step.Deliver? && step.p.ConnectReq? && Enabled(w, step)
    ensures Inv(Next(w, step))
  {
    var p, r := step.p, Target(step.p);
    var a, v := w.rpcs[r], Next(w, step);
    var o := HandleConnectReq(a, r, p, step.env);
    assert PktOk(w, p) && RpcOk(a);
    if o.rpc == a {
      assert v.rpcs == w.rpcs;
      if p.token in a.tokens { RepeatOk(w, p); }
      forall q | q in o.sent ensures PktOk(w, q) {}
      SendOk(w, o.sent);
    } else {
      AcceptOk(w, v, p);
    }
  }

  /** A repeated connect request is answered with the session created for it. */
  lemma {:induction false} RepeatOk(w: World, p: SmPkt)
    requires Inv(w) && p in w.net && p.ConnectReq? && p.token in w.rpcs[Target(p)].tokens
    ensures var a := w.rpcs[Target(p)];
            a.tokens[p.token] < |a.sessions| &&
            (a.sessions[a.tokens[p.token]].Some? ==>
              Created(w, p.token, a.sessions[a.tokens[p.token]].value.server))
  {
    assert PktOk(w, p) && RpcOk(w.rpcs[Target(p)]);
    var e := Endpoint(Target(p), Some(w.rpcs[Target(p)].tokens[p.token]));
    assert Exists(w, e) && SessionOk(w, e);
  }

  /** A first connect request creates the token's server session. */
  lemma {:induction false} AcceptOk(w: World, v: World, p: SmPkt)
    requires Inv(w) && p in w.net && p.ConnectReq? && w.rpcs[Target(p)].up
    requires var a := w.rpcs[Target(p)];
             var s := Session(false, p.token, Connected, p.client, Endpoint(p.server.rpc, Some(|a.sessions|)));
             && p.token !in a.tokens && a.ring >= kSessionCredits
             && v == w.(rpcs := w.rpcs[Target(p) :=
                  a.(sessions := a.sessions + [Some(s)], tokens := a.tokens[p.token := |a.sessions|],
                     ring := a.ring - kSessionCredits, bufs := a.bufs + kSessionReqWindow, born := a.born + [s])],
                        net := w.net + {ConnectResp(NoError, p.token, p.client, s.server)})
    ensures Inv(v)
  {
    var r := Target(p);
    var a := w.rpcs[r];
    var s := Session(false, p.token, Connected, p.client, Endpoint(p.server.rpc, Some(|a.sessions|)));
    assert PktOk(w, p) && RpcOk(a);
    AppendEvolves(w, v, r, s);
    LivePush(a.sessions, Some(s));
    RingTake(a.ring, Live(a.sessions));
    assert kSessionReqWindow * (LiveServers(a.sessions) + 1) ==
        kSessionReqWindow * LiveServers(a.sessions) + kSessionReqWindow;
    TokenKeeps(w, v, p.token);
    assert Created(v, p.token, s.server);
    AppendOk(w, v, r, s);
  }

  lemma {:induction false} ConnectRespOk(w: World, step: Step)
    requires Inv(w) && step.Deliver? && step.p.ConnectResp? && Enabled(w, step)
    ensures Inv(Next(w, step))
  {
    var p, r := step.p, Target(step.p);
    DeliverInRange(w, p);
    var a, v := w.rpcs[r], Next(w, step);
    var x := p.client;
    assert PktOk(w, p) && Exists(w, x) && SessionOk(w, x) && RpcOk(a);
    var before := Now(w, x);
    if before.None? || !before.value.state.ConnectInProgress? || (p.err.InvalidRemoteRpcId? && step.retry) {
      assert v.rpcs == w.rpcs;
      SendOk(w, {});
    } else if !p.err.NoError? {
      FailOk(w, v, x);
    } else {
      var s := before.value.(server := p.server,
                             state := if step.env.resolveOk then Connected else DisconnectInProgress);
      if step.env.resolveOk {
        ConnectedOk(w, v, x, s, p);
      } else {
        LeaveOk(w, v, x, s);
      }
    }
  }

  /** A connect error ends a client session that is still connecting. */
  lemma {:induction false} FailOk(w: World, v: World, x: Endpoint)
    requires Inv(w) && Exists(w, x) && Birth(w, x).isClient
    requires Now(w, x).Some? && Now(w, x).value.state.ConnectInProgress?
    requires Touched(w, v, x, None) && v.net == w.net && v.failed == w.failed + {Birth(w, x).token}
    requires v.rpcs[x.rpc].ring == w.rpcs[x.rpc].ring + kSessionCredits && v.rpcs[x.rpc].bufs == w.rpcs[x.rpc].bufs
    ensures Inv(v)
  {
    assert SessionOk(w, x) && RpcOk(w.rpcs[x.rpc]);
    TouchEvolves(w, v, x, None);
    LiveUpdate(w.rpcs[x.rpc].sessions, x.num.value, None);
    RingGive(w.rpcs[x.rpc].ring, Live(w.rpcs[x.rpc].sessions));
    ClientNotNeeded(w, x);
    NowFailed(w, v, x);
    TouchOk(w, v, x, None);
  }

  lemma {:induction false} NowFailed(w: World, v: World, x: Endpoint)
    requires Inv(w) && Evolves(w, v) && Exists(w, x) && Birth(w, x).isClient
    requires Now(w, x).Some? && Now(w, x).value.state.ConnectInProgress? && Exists(v, x) && Now(v, x).None?
    requires v.net == w.net && v.failed == w.failed + {Birth(w, x).token}
    ensures forall t :: t in v.failed ==> FailedOk(v, t)
  {
    var token := Birth(w, x).token;
    assert SessionOk(w, x);
    TokenKeeps(w, v, token);
    assert forall p :: p in w.net && p.token == token ==> PktOk(w, p);
    FailedKeeps(w, v.(failed := w.failed));
    forall t | t in v.failed ensures FailedOk(v, t) {
      if t != token { assert FailedOk(v.(failed := w.failed), t); }
    }
  }

  /** No connected client has a client session as its server session. */
  lemma {:induction false} ClientNotNeeded(w: World, x: Endpoint)
    requires Inv(w) && Exists(w, x) && Birth(w, x).isClient
    ensures NotNeeded(w, x)
  {
    forall e | Exists(w, e) && Now(w, e).Some? && Now(w, e).value.isClient && Now(w, e).value.state.Connected?
      ensures Now(w, e).value.server != x
    {
      assert SessionOk(w, e);
    }
  }

  /** A client connects: the server session exists and, as the client has not asked to disconnect, is alive. */
  lemma {:induction false} ConnectedOk(w: World, v: World, x: Endpoint, s: Session, p: SmPkt)
    requires Inv(w) && p in w.net && p.ConnectResp? && p.err.NoError? && p.client == x && Exists(w, x)
    requires Now(w, x).Some? && Now(w, x).value.state.ConnectInProgress?
    requires s == Now(w, x).value.(server := p.server, state := Connected)
    requires Touched(w, v, x, Some(s)) && v.net == w.net && v.failed == w.failed
    requires v.rpcs[x.rpc].ring == w.rpcs[x.rpc].ring && v.rpcs[x.rpc].bufs == w.rpcs[x.rpc].bufs
    ensures Inv(v)
  {
    assert PktOk(w, p) && SessionOk(w, x) && RpcOk(w.rpcs[x.rpc]);
    TouchEvolves(w, v, x, Some(s));
    LiveUpdate(w.rpcs[x.rpc].sessions, x.num.value, Some(s));
    CreatedKeeps(w, v, s.token, s.server);
    ServerAlive(w, x, p.token, p.server);
    assert Now(v, s.server).Some?;
    FailedKeeps(w, v);
    TouchOk(w, v, x, Some(s));
  }

  /** A server session lives while its client is connecting or connected. */
  lemma {:induction false} ServerAlive(w: World, x: Endpoint, token: nat, server: Endpoint)
    requires Inv(w) && Created(w, token, server) && x == w.owner[token] && !Leaving(Now(w, x))
    ensures Now(w, server).Some?
  {
    var p := DisconnectReq(token, x, server);
    assert p in w.net ==> PktOk(w, p);
    assert SessionOk(w, server);
  }

  lemma {:induction false} DisconnectReqOk(w: World, step: Step)
    requires Inv(w) && step.Deliver? && step.p.DisconnectReq? && Enabled(w, step)
    ensures Inv(Next(w, step))
  {
    var p, r := step.p, Target(step.p);
    DeliverInRange(w, p);
    var a, v := w.rpcs[r], Next(w, step);
    var x := p.server;
    assert PktOk(w, p) && SessionOk(w, x) && RpcOk(a);
    if Now(w, x).None? {
      assert v.rpcs == w.rpcs;
      SendOk(w, {RespTo(p, NoError)});
    } else {
      BuryOk(w, v, p);
    }
  }

  /** The first disconnect request ends the server session. */
  lemma {:induction false} BuryOk(w: World, v: World, p: SmPkt)
    requires Inv(w) && p in w.net && p.DisconnectReq? && Exists(w, p.server) && Now(w, p.server).Some?
    requires var x := p.server;
             && Touched(w, v, x, None) && v.net == w.net + {RespTo(p, NoError)} && v.failed == w.failed
             && v.rpcs[x.rpc].ring == w.rpcs[x.rpc].ring + kSessionCredits
             && v.rpcs[x.rpc].bufs == (if w.rpcs[x.rpc].bufs >= kSessionReqWindow
                                       then w.rpcs[x.rpc].bufs - kSessionReqWindow else 0)
    ensures Inv(v)
  {
    var x := p.server;
    var q := w.rpcs[x.rpc].sessions;
    assert PktOk(w, p) && SessionOk(w, x) && RpcOk(w.rpcs[x.rpc]);
    TouchEvolves(w, v, x, None);
    LiveUpdate(q, x.num.value, None);
    RingGive(w.rpcs[x.rpc].ring, Live(q));
    BufsGive(LiveServers(q));
    LeavingNotNeeded(w, p);
    TokenKeeps(w, v, p.token);
    CreatedKeeps(w, v, p.token, x);
    FailedKeeps(w, v);
    TouchOk(w, v, x, None);
  }

  lemma {:induction false} BufsGive(n: nat)
    requires n >= 1
    ensures kSessionReqWindow * n >= kSessionReqWindow
    ensures kSessionReqWindow * n - kSessionReqWindow == kSessionReqWindow * (n - 1)
  {
    assert kSessionReqWindow * n == kSessionReqWindow * (n - 1) + kSessionReqWindow;
  }

  /** No connected client needs a server session whose disconnect request was sent. */
  lemma {:induction false} LeavingNotNeeded(w: World, p: SmPkt)
    requires Inv(w) && p in w.net && p.DisconnectReq?
    ensures NotNeeded(w, p.server)
  {
    assert PktOk(w, p);
    forall e | Exists(w, e) && Now(w, e).Some? && Now(w, e).value.isClient && Now(w, e).value.state.Connected?
      ensures Now(w, e).value.server != p.server
    {
      assert SessionOk(w, e);
    }
  }

  lemma {:induction false} DisconnectRespOk(w: World, step: Step)
    requires Inv(w) && step.Deliver? && step.p.DisconnectResp? && Enabled(w, step)
    ensures Inv(Next(w, step))
  {
    var p, r := step.p, Target(step.p);
    DeliverInRange(w, p);
    var a, v := w.rpcs[r], Next(w, step);
    var x := p.client;
    assert PktOk(w, p) && SessionOk(w, x) && RpcOk(a);
    if Now(w, x).None? {
      assert v.rpcs == w.rpcs;
      SendOk(w, {});
    } else {
      TouchEvolves(w, v, x, None);
      LiveUpdate(a.sessions, x.num.value, None);
      RingGive(a.ring, Live(a.sessions));
      ClientNotNeeded(w, x);
      CreatedKeeps(w, v, p.token, p.server);
      assert Now(v, p.server).None?;
      FailedKeeps(w, v);
      TouchOk(w, v, x, None);
    }
  }

  lemma {:induction false} StepOk(w: World, step: Step)
    requires Inv(w) && Enabled(w, step)
    ensures Inv(Next(w, step))
  {
    match step
    case Start(r) => StartOk(w, r);
    case Create(_, _, _) => CreateOk(w, step);
    case Resend(r, num) => ResendOk(w, r, num);
    case Destroy(r, num) => DestroyOk(w, r, num);
    case Reject(p) => RejectOk(w, p);
    case Deliver(p, _, _) =>
      match p
      case ConnectReq(_, _, _) => ConnectReqOk(w, step);
      case ConnectResp(_, _, _, _) => ConnectRespOk(w, step);
      case DisconnectReq(_, _, _) => DisconnectReqOk(w, step);
      case DisconnectResp(_, _, _, _) => DisconnectRespOk(w, step);
  }

  lemma {:induction false} RunOk(w: World, steps: seq<Step>, e: World)
    requires Inv(w) && Run(w, steps, e)
    ensures Inv(e)
    decreases |steps|
  {
    if steps != [] {
      StepOk(w, steps[0]);
      RunOk(Next(w, steps[0]), steps[1..], e);
    }
  }

  lemma {:induction false} ReachableOk(w: World)
    requires Reachable(w)
    ensures Inv(w)
  {
    var i: World, steps: seq<Step> :| IsInit(i) && Run(i, steps, w);
    RunOk(i, steps, w);
  }
}
