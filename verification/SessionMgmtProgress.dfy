/**
 * What each session management step does, in every reachable world, and that
 * connecting and disconnecting can always be brought to an end.
 */
module SessionMgmtProgress {
  import opened Options
  import opened Messages
  import opened SessionMgmt
  import opened SessionMgmtProof
  import opened SessionMgmtSteps
  import opened SessionMgmtTheorems

  /** Session `num` of an Rpc, if there is one. */
  function At(r: Rpc, num: Option<nat>): Option<Session> {
    if num.Some? && num.value < |r.sessions| then r.sessions[num.value] else None
  }

  /** The Rpc with session `num` replaced. */
  function With(r: Rpc, num: Option<nat>, s: Option<Session>): Rpc
    requires num.Some? && num.value < |r.sessions|
  {
    r.(sessions := r.sessions[num.value := s])
  }

  // What each step does

  /** A connect response moves only a client session that is still connecting. On success it becomes connected to the
      server session of the response, or starts to disconnect from it when routing does not resolve. On an error it is
      gone and its ring entries are free again, unless the client is to retry. */
  lemma {:induction false} ConnectRespMeans(w: World, p: SmPkt, env: Env, retry: bool)
    requires Reachable(w) && p.ConnectResp? && Enabled(w, Deliver(p, env, retry))
    ensures p.client.num.Some? && p.client.num.value < |w.rpcs[p.client.rpc].sessions|
    ensures var r := w.rpcs[p.client.rpc];
            var v := Next(w, Deliver(p, env, retry));
            var s := At(r, p.client.num);
            if s.None? || !s.value.state.ConnectInProgress? || (p.err.InvalidRemoteRpcId? && retry) then
              v.rpcs == w.rpcs && v.net == w.net
            else if !p.err.NoError? then
              && v.rpcs == w.rpcs[p.client.rpc := With(r, p.client.num, None).(ring := r.ring + kSessionCredits)]
              && v.net == w.net
            else if env.resolveOk then
              var s' := Session(true, p.token, Connected, p.client, p.server);
              v.rpcs == w.rpcs[p.client.rpc := With(r, p.client.num, Some(s'))] && v.net == w.net
            else
              var s' := Session(true, p.token, DisconnectInProgress, p.client, p.server);
              && v.rpcs == w.rpcs[p.client.rpc := With(r, p.client.num, Some(s'))]
              && v.net == w.net + {DisconnectReq(p.token, p.client, p.server)}
  {
    hide SessionMgmt.Reachable;
    ReachableOk(w);
    DeliverInRange(w, p);
    assert PktOk(w, p) && SessionOk(w, p.client);
    assert w.net + {} == w.net && w.rpcs[p.client.rpc := w.rpcs[p.client.rpc]] == w.rpcs;
  }

  /** The server session that a token has, if one was created. */
  ghost predicate HasServer(w: World, token: nat) {
    exists e :: Created(w, token, e)
  }

  /** A connect request for which there is a session already creates none. It is answered with that session while it
      is alive, and not at all afterwards. */
  lemma {:induction false} ConnectReqRepeats(w: World, p: SmPkt, env: Env, retry: bool, e: Endpoint)
    requires Reachable(w) && p.ConnectReq? && Enabled(w, Deliver(p, env, retry)) && Created(w, p.token, e)
    ensures var v := Next(w, Deliver(p, env, retry));
            && e.rpc == p.server.rpc && v.rpcs == w.rpcs
            && v.net == w.net + if At(w.rpcs[e.rpc], e.num).Some? then {ConnectResp(NoError, p.token, p.client, e)}
                                else {}
  {
    hide SessionMgmt.Reachable;
    ReachableOk(w);
    assert PktOk(w, p) && SessionOk(w, e);
    assert w.rpcs[e.rpc := w.rpcs[e.rpc]] == w.rpcs;
  }

  /** The first obstacle that a new connect request meets. */
  function Obstacle(r: Rpc, env: Env): SmErr {
    if !env.transportOk then InvalidTransport
    else if r.ring < kSessionCredits then RingExhausted
    else if !env.resolveOk then RoutingResolutionFailure
    else if env.allocs < kSessionReqWindow then OutOfMemory
    else NoError
  }

  /** A connect request for which there is no session yet is answered with the first obstacle it meets, and then
      nothing is taken. Without one, a connected session for this client takes the next number, its ring entries and
      its buffers, and is what the answer names. */
  lemma {:induction false} ConnectReqIsNew(w: World, p: SmPkt, env: Env, retry: bool)
    requires Reachable(w) && p.ConnectReq? && Enabled(w, Deliver(p, env, retry)) && !HasServer(w, p.token)
    ensures var r, v := w.rpcs[p.server.rpc], Next(w, Deliver(p, env, retry));
            var err := Obstacle(r, env);
            if !err.NoError? then
              v.rpcs == w.rpcs && v.net == w.net + {ConnectResp(err, p.token, p.client, p.server)}
            else
              var e := Endpoint(p.server.rpc, Some(|r.sessions|));
              && |v.rpcs| == |w.rpcs| && (forall k :: 0 <= k < |w.rpcs| && k != e.rpc ==> v.rpcs[k] == w.rpcs[k])
              && v.rpcs[e.rpc].sessions == r.sessions + [Some(Session(false, p.token, Connected, p.client, e))]
              && v.rpcs[e.rpc].ring == r.ring - kSessionCredits && v.rpcs[e.rpc].bufs == r.bufs + kSessionReqWindow
              && v.net == w.net + {ConnectResp(NoError, p.token, p.client, e)} && Created(v, p.token, e)
  {
    hide SessionMgmt.Reachable;
    ReachableOk(w);
    assert PktOk(w, p);
    if p.token in w.rpcs[p.server.rpc].tokens { TokenHasServer(w, p); }
    StepOk(w, Deliver(p, env, retry));
    var r, v := w.rpcs[p.server.rpc], Next(w, Deliver(p, env, retry));
    if Obstacle(r, env).NoError? {
      var e := Endpoint(p.server.rpc, Some(|r.sessions|));
      assert Exists(v, e) && SessionOk(v, e);
    } else {
      assert w.rpcs[p.server.rpc := r] == w.rpcs;
    }
  }

  lemma {:induction false} TokenHasServer(w: World, p: SmPkt)
    requires Inv(w) && p.server.rpc < |w.rpcs| && p.token in w.rpcs[p.server.rpc].tokens
    ensures HasServer(w, p.token)
  {
    var r := w.rpcs[p.server.rpc];
    assert RpcOk(r);
    var e := Endpoint(p.server.rpc, Some(r.tokens[p.token]));
    assert Exists(w, e) && SessionOk(w, e);
    assert Created(w, p.token, e);
  }

  /** A disconnect request is always answered. The server session that it names is gone afterwards; if it was there,
      its ring entries and its buffers are free again. */
  lemma {:induction false} DisconnectReqMeans(w: World, p: SmPkt, env: Env, retry: bool)
    requires Reachable(w) && p.DisconnectReq? && Enabled(w, Deliver(p, env, retry))
    ensures p.server.num.Some? && p.server.num.value < |w.rpcs[p.server.rpc].sessions|
    ensures var r, v := w.rpcs[p.server.rpc], Next(w, Deliver(p, env, retry));
            && v.net == w.net + {DisconnectResp(NoError, p.token, p.client, p.server)}
            && if At(r, p.server.num).None? then v.rpcs == w.rpcs
               else
                 && r.bufs >= kSessionReqWindow
                 && v.rpcs == w.rpcs[p.server.rpc := With(r, p.server.num, None).(
                      ring := r.ring + kSessionCredits, bufs := r.bufs - kSessionReqWindow)]
  {
    hide SessionMgmt.Reachable;
    ReachableOk(w);
    DeliverInRange(w, p);
    var r := w.rpcs[p.server.rpc];
    if At(r, p.server.num).Some? {
      BufsHeld(w, p);
    } else {
      assert w.rpcs[p.server.rpc := r] == w.rpcs;
    }
  }

  lemma {:induction false} BufsHeld(w: World, p: SmPkt)
    requires Inv(w) && p in w.net && p.DisconnectReq? && p.server.rpc < |w.rpcs|
    requires At(w.rpcs[p.server.rpc], p.server.num).Some?
    ensures w.rpcs[p.server.rpc].bufs >= kSessionReqWindow
  {
    var r := w.rpcs[p.server.rpc];
    assert PktOk(w, p) && SessionOk(w, p.server) && RpcOk(r);
    LiveUpdate(r.sessions, p.server.num.value, None);
    BufsGive(LiveServers(r.sessions));
  }

  /** A disconnect response ends a client session that is still there, and its ring entries are free again. */
  lemma {:induction false} DisconnectRespMeans(w: World, p: SmPkt, env: Env, retry: bool)
    requires Reachable(w) && p.DisconnectResp? && Enabled(w, Deliver(p, env, retry))
    ensures p.client.num.Some? && p.client.num.value < |w.rpcs[p.client.rpc].sessions|
    ensures var r, v := w.rpcs[p.client.rpc], Next(w, Deliver(p, env, retry));
            && v.net == w.net
            && if At(r, p.client.num).None? then v.rpcs == w.rpcs
               else v.rpcs == w.rpcs[p.client.rpc := With(r, p.client.num, None).(ring := r.ring + kSessionCredits)]
  {
    hide SessionMgmt.Reachable;
    ReachableOk(w);
    DeliverInRange(w, p);
    assert w.net + {} == w.net && w.rpcs[p.client.rpc := w.rpcs[p.client.rpc]] == w.rpcs;
  }

  /** Creating a session takes ring entries and the next session number, and asks the remote Rpc to connect; without
      enough ring entries nothing happens. */
  lemma {:induction false} CreateMeans(w: World, r: nat, remote: nat, token: nat)
    requires Enabled(w, Create(r, remote, token))
    ensures var v := Next(w, Create(r, remote, token));
            if w.rpcs[r].ring < kSessionCredits then v == w
            else
              var c, s := Endpoint(r, Some(|w.rpcs[r].sessions|)), Endpoint(remote, None);
              && |v.rpcs| == |w.rpcs| && (forall k :: 0 <= k < |w.rpcs| && k != r ==> v.rpcs[k] == w.rpcs[k])
              && v.rpcs[r].sessions == w.rpcs[r].sessions + [Some(Session(true, token, ConnectInProgress, c, s))]
              && v.rpcs[r].ring == w.rpcs[r].ring - kSessionCredits && v.rpcs[r].bufs == w.rpcs[r].bufs
              && v.net == w.net + {ConnectReq(token, c, s)}
  {
  }

  /** Destroying acts on connected client sessions alone, which then ask their server session to disconnect. */
  lemma {:induction false} DestroyMeans(w: World, r: nat, num: nat)
    requires Enabled(w, Destroy(r, num))
    ensures var s, v := At(w.rpcs[r], Some(num)), Next(w, Destroy(r, num));
            if s.None? || !s.value.isClient || !s.value.state.Connected? then v.rpcs == w.rpcs && v.net == w.net
            else
              && v.rpcs == w.rpcs[r := With(w.rpcs[r], Some(num), Some(s.value.(state := DisconnectInProgress)))]
              && v.net == w.net + {DisconnectReq(s.value.token, s.value.client, s.value.server)}
  {
    assert w.net + {} == w.net && w.rpcs[r := w.rpcs[r]] == w.rpcs;
  }

  /** The loss scan sends the request again that the session waits for an answer to. */
  lemma {:induction false} ResendMeans(w: World, r: nat, num: nat)
    requires Enabled(w, Resend(r, num))
    ensures var s, v := w.rpcs[r].sessions[num].value, Next(w, Resend(r, num));
            v == w.(net := w.net + {if s.state.ConnectInProgress? then ConnectReq(s.token, s.client, s.server)
                                    else DisconnectReq(s.token, s.client, s.server)})
  {
  }

  /** The Nexus of an Rpc that is not up answers a connect request with the error that lets the client retry. No other
      request ever reaches it. */
  lemma {:induction false} RejectMeans(w: World, p: SmPkt)
    requires Reachable(w) && Enabled(w, Reject(p))
    ensures p.ConnectReq?
    ensures var v := Next(w, Reject(p));
            v.rpcs == w.rpcs && v.net == w.net + {ConnectResp(InvalidRemoteRpcId, p.token, p.client, p.server)}
  {
    ReachableOk(w);
    RejectOk(w, p);
  }

  // Runs

  ghost predicate Retries(steps: seq<Step>) {
    forall k :: 0 <= k < |steps| ==> steps[k].Resend? || steps[k].Deliver?
  }

  lemma {:induction false} ReachableNext(w: World, step: Step)
    requires Reachable(w) && Enabled(w, step)
    ensures Reachable(Next(w, step))
  {
    hide SessionMgmt.Next, SessionMgmt.Enabled;
    var i: World, steps: seq<Step> :| IsInit(i) && Run(i, steps, w);
    RunAppend(i, steps, w, step);
  }

  lemma {:induction false} RunAppend(w: World, steps: seq<Step>, m: World, step: Step)
    requires Run(w, steps, m) && Enabled(m, step)
    ensures Run(w, steps + [step], Next(m, step))
    decreases |steps|
  {
    hide SessionMgmt.Next, SessionMgmt.Enabled;
    if steps == [] {
      assert [step][1..] == [];
    } else {
      RunAppend(Next(w, steps[0]), steps[1..], m, step);
      assert (steps + [step])[1..] == steps[1..] + [step];
    }
  }

  lemma {:induction false} ThreeSteps(w: World, a: Step, b: Step, c: Step)
    requires Enabled(w, a) && Enabled(Next(w, a), b) && Enabled(Next(Next(w, a), b), c)
    ensures Run(w, [a, b, c], Next(Next(Next(w, a), b), c))
  {
    hide SessionMgmt.Next, SessionMgmt.Enabled;
    var m := Next(Next(w, a), b);
    RunCons(m, c, [], Next(m, c));
    RunCons(Next(w, a), b, [c], Next(m, c));
    RunCons(w, a, [b, c], Next(m, c));
    assert [c] + [] == [c] && [b] + [c] == [b, c] && [a] + [b, c] == [a, b, c];
  }

  /** A client session that is connecting. */
  predicate ConnectingAt(w: World, r: nat, num: nat) {
    r < |w.rpcs| && var s := At(w.rpcs[r], Some(num));
    s.Some? && s.value.isClient && s.value.state.ConnectInProgress?
  }

  /** Its server is up and either has room for the session or has it already. */
  ghost predicate ServerReady(w: World, s: Session) {
    s.server.rpc < |w.rpcs| && w.rpcs[s.server.rpc].up &&
    (w.rpcs[s.server.rpc].ring >= kSessionCredits || HasServer(w, s.token))
  }

  /** A session that is connecting can always become connected, whatever was lost: a run of resent requests and
      deliveries connects it, if its server has room for it or has its session already. */
  lemma {:induction false} CanConnect(w: World, r: nat, num: nat) returns (steps: seq<Step>, v: World)
    requires Reachable(w) && ConnectingAt(w, r, num) && ServerReady(w, w.rpcs[r].sessions[num].value)
    ensures Run(w, steps, v) && Retries(steps) && Reachable(v)
    ensures r < |v.rpcs| && var s := At(v.rpcs[r], Some(num));
            && s.Some? && s.value.isClient && s.value.state.Connected?
            && s.value.token == w.rpcs[r].sessions[num].value.token
  {
    hide SessionMgmt.Reachable, SessionMgmt.Next, SessionMgmt.Enabled, SessionMgmt.Run, HasServer;
    var s := w.rpcs[r].sessions[num].value;
    var env := Env(true, true, kSessionReqWindow);
    var a := Resend(r, num);
    ConnectingKnown(w, r, num);
    ResendMeans(w, r, num);
    ReachableNext(w, a);
    var w1 := Next(w, a);
    SameServer(w, w1, s.token);
    var req := ConnectReq(s.token, s.client, s.server);
    var b := Deliver(req, env, false);
    var e := Answered(w, w1, req, env);
    ReachableNext(w1, b);
    var w2 := Next(w1, b);
    var resp := ConnectResp(NoError, s.token, s.client, e);
    var c := Deliver(resp, env, false);
    CanDeliver(w2, resp, env);
    ConnectRespMeans(w2, resp, env, false);
    ReachableNext(w2, c);
    steps, v := [a, b, c], Next(w2, c);
    ThreeSteps(w, a, b, c);
  }

  lemma {:induction false} SameServer(w: World, v: World, token: nat)
    requires v == w.(net := v.net)
    ensures HasServer(v, token) == HasServer(w, token)
  {
    forall e | Created(w, token, e) ensures Created(v, token, e) {}
    forall e | Created(v, token, e) ensures Created(w, token, e) {}
  }

  lemma {:induction false} CanDeliver(w: World, p: SmPkt, env: Env)
    requires p in w.net && Target(p) < |w.rpcs| && w.rpcs[Target(p)].up
    ensures Enabled(w, Deliver(p, env, false))
  {
  }

  /** A client session knows where it is; an Rpc that has sessions is up. */
  lemma {:induction false} ConnectingKnown(w: World, r: nat, num: nat)
    requires Reachable(w) && ConnectingAt(w, r, num)
    ensures Enabled(w, Resend(r, num)) && w.rpcs[r].up
    ensures var s := w.rpcs[r].sessions[num].value;
            s.client == Endpoint(r, Some(num)) && s.server.rpc != r && s.server.num.None?
  {
    ReachableOk(w);
    var e := Endpoint(r, Some(num));
    assert Exists(w, e) && SessionOk(w, e) && RpcOk(w.rpcs[r]);
  }

  /** The server answers the request of a session that is connecting, and the client still waits. */
  lemma {:induction false} Answered(w: World, w1: World, req: SmPkt, env: Env) returns (e: Endpoint)
    requires req.ConnectReq? && Reachable(w1) && req in w1.net && w1.rpcs == w.rpcs
    requires req.client.rpc < |w.rpcs| && req.server.rpc < |w.rpcs| && req.client.rpc != req.server.rpc
    requires var s := At(w.rpcs[req.client.rpc], req.client.num);
             s.Some? && s.value.state.ConnectInProgress? && ServerReady(w1, s.value) && s.value.token == req.token
             && s.value.server.rpc == req.server.rpc
    requires env == Env(true, true, kSessionReqWindow) && w.rpcs[req.server.rpc].up
    ensures Enabled(w1, Deliver(req, env, false))
    ensures var w2 := Next(w1, Deliver(req, env, false));
            && ConnectResp(NoError, req.token, req.client, e) in w2.net && |w2.rpcs| == |w.rpcs|
            && w2.rpcs[req.client.rpc] == w.rpcs[req.client.rpc]
  {
    hide SessionMgmt.Reachable, SessionMgmt.Next, SessionMgmt.Run, SessionMgmtProof.Created;
    CanDeliver(w1, req, env);
    if HasServer(w1, req.token) {
      e :| Created(w1, req.token, e);
      ConnectReqRepeats(w1, req, env, false, e);
      StillServed(w1, req, e);
    } else {
      ConnectReqIsNew(w1, req, env, false);
      e := Endpoint(req.server.rpc, Some(|w1.rpcs[req.server.rpc].sessions|));
    }
  }

  lemma {:induction false} StillServed(w: World, req: SmPkt, e: Endpoint)
    requires Reachable(w) && req in w.net && req.ConnectReq? && Created(w, req.token, e)
    requires req.client.rpc < |w.rpcs|
    requires var s := At(w.rpcs[req.client.rpc], req.client.num); s.Some? && s.value.state.ConnectInProgress?
    ensures e.rpc < |w.rpcs| && At(w.rpcs[e.rpc], e.num).Some?
  {
    ReachableOk(w);
    assert PktOk(w, req);
    ServerAlive(w, req.client, req.token, e);
  }

  /** A session that asked to disconnect can always finish: a run of resent requests and deliveries ends both sessions.
      The client's ring entries are free again, and the server's with its buffers if its session was still there. */
  lemma {:induction false} CanFinish(w: World, r: nat, num: nat) returns (steps: seq<Step>, v: World)
    requires Reachable(w) && r < |w.rpcs| && At(w.rpcs[r], Some(num)).Some?
    requires var s := At(w.rpcs[r], Some(num)).value; s.isClient && s.state.DisconnectInProgress?
    ensures Run(w, steps, v) && Retries(steps) && Reachable(v) && |v.rpcs| == |w.rpcs|
    ensures v.rpcs[r] == With(w.rpcs[r], Some(num), None).(ring := w.rpcs[r].ring + kSessionCredits)
    ensures var e := w.rpcs[r].sessions[num].value.server;
            && e.rpc < |w.rpcs| && e.rpc != r && e.num.Some? && e.num.value < |w.rpcs[e.rpc].sessions|
            && var o := w.rpcs[e.rpc];
            if At(o, e.num).None? then v.rpcs[e.rpc] == o
            else o.bufs >= kSessionReqWindow
                 && v.rpcs[e.rpc] == With(o, e.num, None).(
                      ring := o.ring + kSessionCredits, bufs := o.bufs - kSessionReqWindow)
  {
    hide SessionMgmt.Reachable, SessionMgmt.Next, SessionMgmt.Enabled, SessionMgmt.Run;
    var s := w.rpcs[r].sessions[num].value;
    var env := Env(true, true, 0);
    var a := Resend(r, num);
    LeavingKnown(w, r, num);
    ResendMeans(w, r, num);
    ReachableNext(w, a);
    var w1 := Next(w, a);
    var req := DisconnectReq(s.token, s.client, s.server);
    var b := Deliver(req, env, false);
    CanDeliver(w1, req, env);
    DisconnectReqMeans(w1, req, env, false);
    ReachableNext(w1, b);
    var w2 := Next(w1, b);
    var resp := DisconnectResp(NoError, s.token, s.client, s.server);
    var c := Deliver(resp, env, false);
    CanDeliver(w2, resp, env);
    DisconnectRespMeans(w2, resp, env, false);
    ReachableNext(w2, c);
    steps, v := [a, b, c], Next(w2, c);
    ThreeSteps(w, a, b, c);
  }

  lemma {:induction false} LeavingKnown(w: World, r: nat, num: nat)
    requires Reachable(w) && r < |w.rpcs| && At(w.rpcs[r], Some(num)).Some?
    requires var s := At(w.rpcs[r], Some(num)).value; s.isClient && s.state.DisconnectInProgress?
    ensures Enabled(w, Resend(r, num)) && w.rpcs[r].up
    ensures var s := w.rpcs[r].sessions[num].value;
            && s.client == Endpoint(r, Some(num)) && s.server.rpc < |w.rpcs| && s.server.rpc != r
            && s.server.num.Some? && s.server.num.value < |w.rpcs[s.server.rpc].sessions| && w.rpcs[s.server.rpc].up
  {
    ReachableOk(w);
    var e := Endpoint(r, Some(num));
    assert Exists(w, e) && SessionOk(w, e) && RpcOk(w.rpcs[r]);
    assert RpcOk(w.rpcs[w.rpcs[r].sessions[num].value.server.rpc]);
  }

  /** A connected session can always be taken down: a run that starts with its destruction ends both sessions, and both
      Rpcs have their ring entries back, the server its buffers too. */
  lemma {:induction false} CanDisconnect(w: World, r: nat, num: nat) returns (steps: seq<Step>, v: World)
    requires Reachable(w) && r < |w.rpcs| && At(w.rpcs[r], Some(num)).Some?
    requires var s := At(w.rpcs[r], Some(num)).value; s.isClient && s.state.Connected?
    ensures Run(w, [Destroy(r, num)] + steps, v) && Retries(steps) && Reachable(v) && |v.rpcs| == |w.rpcs|
    ensures v.rpcs[r] == With(w.rpcs[r], Some(num), None).(ring := w.rpcs[r].ring + kSessionCredits)
    ensures var e := w.rpcs[r].sessions[num].value.server;
            && e.rpc < |w.rpcs| && e.rpc != r && e.num.Some? && e.num.value < |w.rpcs[e.rpc].sessions|
            && var o := w.rpcs[e.rpc];
            o.bufs >= kSessionReqWindow
            && v.rpcs[e.rpc] == With(o, e.num, None).(
                 ring := o.ring + kSessionCredits, bufs := o.bufs - kSessionReqWindow)
  {
    hide SessionMgmt.Reachable, SessionMgmt.Next, SessionMgmt.Run;
    ConnectedMeansLive(w, r, num);
    RpcUp(w, r, num);
    var a := Destroy(r, num);
    DestroyMeans(w, r, num);
    ReachableNext(w, a);
    var w1 := Next(w, a);
    hide SessionMgmt.Enabled;
    steps, v := CanFinish(w1, r, num);
    RunCons(w, a, steps, v);
  }

  lemma {:induction false} RpcUp(w: World, r: nat, num: nat)
    requires Reachable(w) && r < |w.rpcs| && num < |w.rpcs[r].sessions|
    ensures w.rpcs[r].up
  {
    ReachableOk(w);
    assert RpcOk(w.rpcs[r]);
  }
}
