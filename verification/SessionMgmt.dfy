/**
 * Session management: connecting and disconnecting sessions between Rpc
 * endpoints over a network that may lose, repeat and reorder packets.
 */
module SessionMgmt {
  import opened Options
  import opened Messages

  const kNumRxRingEntries: nat

  /** `SessionEndpoint`: an Rpc and a session number there; None for kInvalidSessionNum. */
  datatype Endpoint = Endpoint(rpc: nat, num: Option<nat>)

  datatype SessionState = ConnectInProgress | Connected | DisconnectInProgress

  datatype Session = Session(isClient: bool, token: nat, state: SessionState, client: Endpoint, server: Endpoint)

  datatype SmErr =
    | NoError
    | RingExhausted
    | OutOfMemory
    | RoutingResolutionFailure
    | InvalidRemoteRpcId
    | InvalidTransport

  datatype SmPkt =
    | ConnectReq(token: nat, client: Endpoint, server: Endpoint)
    | ConnectResp(err: SmErr, token: nat, client: Endpoint, server: Endpoint)
    | DisconnectReq(token: nat, client: Endpoint, server: Endpoint)
    | DisconnectResp(err: SmErr, token: nat, client: Endpoint, server: Endpoint)

  datatype Rpc = Rpc(
    sessions: seq<Option<Session>>,     // session_vec_
    tokens: map<nat, nat>,              // conn_req_token_map_
    ring: nat,                          // ring_entries_available_
    bufs: nat,                          // Preallocated response buffers in use
    up: bool,                           // Registered with the Nexus
    // History
    born: seq<Session>)                 // Each session as it was created

  /** What a handler leaves behind and what it sends. */
  datatype Out = Out(rpc: Rpc, sent: set<SmPkt>)

  /** `sm_construct_resp` */
  function RespTo(p: SmPkt, err: SmErr): SmPkt
    requires p.ConnectReq? || p.DisconnectReq?
  {
    if p.ConnectReq? then ConnectResp(err, p.token, p.client, p.server)
    else DisconnectResp(err, p.token, p.client, p.server)
  }

  /** The request that `send_sm_req_st` sends. */
  function SmReq(s: Session): SmPkt {
    if s.state.ConnectInProgress? then ConnectReq(s.token, s.client, s.server)
    else DisconnectReq(s.token, s.client, s.server)
  }

  /** Whether transport and routing information check out, and how many response buffers can be allocated. */
  datatype Env = Env(transportOk: bool, resolveOk: bool, allocs: nat)

  /** `create_session_st` on Rpc `me`, once its arguments have been checked. */
  function CreateSession(r: Rpc, me: nat, remote: nat, token: nat): Out {
    if r.ring < kSessionCredits then Out(r, {})
    else
      var s := Session(true, token, ConnectInProgress, Endpoint(me, Some(|r.sessions|)), Endpoint(remote, None));
      Out(r.(sessions := r.sessions + [Some(s)], ring := r.ring - kSessionCredits, born := r.born + [s]), {SmReq(s)})
  }

  /** `destroy_session_st` of a session without pending requests. */
  function DestroySession(r: Rpc, num: nat): Out {
    if num >= |r.sessions| || r.sessions[num].None? then Out(r, {})
    else
      var s := r.sessions[num].value;
      if !s.isClient || !s.state.Connected? then Out(r, {})
      else
        var s' := s.(state := DisconnectInProgress);
        Out(r.(sessions := r.sessions[num := Some(s')]), {SmReq(s')})
  }

  /** `handle_connect_req_st` */
  function HandleConnectReq(r: Rpc, me: nat, p: SmPkt, env: Env): Out
    requires p.ConnectReq?
  {
    if p.token in r.tokens then
      var num := r.tokens[p.token];
      if num >= |r.sessions| || r.sessions[num].None? || !r.sessions[num].value.state.Connected? then Out(r, {})
      else Out(r, {ConnectResp(NoError, p.token, p.client, r.sessions[num].value.server)})
    else if !env.transportOk then Out(r, {RespTo(p, InvalidTransport)})
    else if r.ring < kSessionCredits then Out(r, {RespTo(p, RingExhausted)})
    else if !env.resolveOk then Out(r, {RespTo(p, RoutingResolutionFailure)})
    else if env.allocs < kSessionReqWindow then Out(r, {RespTo(p, OutOfMemory)})
    else
      var s := Session(false, p.token, Connected, p.client, Endpoint(p.server.rpc, Some(|r.sessions|)));
      Out(r.(sessions := r.sessions + [Some(s)], tokens := r.tokens[p.token := |r.sessions|],
             ring := r.ring - kSessionCredits, bufs := r.bufs + kSessionReqWindow, born := r.born + [s]),
          {ConnectResp(NoError, p.token, p.client, s.server)})
  }

  /** `handle_connect_resp_st` */
  function HandleConnectResp(r: Rpc, p: SmPkt, resolveOk: bool, retry: bool): Out
    requires p.ConnectResp? && p.client.num.Some? && p.client.num.value < |r.sessions|
  {
    var num := p.client.num.value;
    if r.sessions[num].None? || !r.sessions[num].value.state.ConnectInProgress? then Out(r, {})
    else if p.err.InvalidRemoteRpcId? && retry then Out(r, {})
    else if !p.err.NoError? then Out(r.(ring := r.ring + kSessionCredits, sessions := r.sessions[num := None]), {})
    else
      var s := r.sessions[num].value.(server := p.server,
                                      state := if resolveOk then Connected else DisconnectInProgress);
      Out(r.(sessions := r.sessions[num := Some(s)]), if resolveOk then {} else {SmReq(s)})
  }

  /** `handle_disconnect_req_st` */
  function HandleDisconnectReq(r: Rpc, p: SmPkt): Out
    requires p.DisconnectReq? && p.server.num.Some? && p.server.num.value < |r.sessions|
  {
    var num := p.server.num.value;
    if r.sessions[num].None? then Out(r, {RespTo(p, NoError)})
    else
      Out(r.(ring := r.ring + kSessionCredits,
             bufs := if r.bufs >= kSessionReqWindow then r.bufs - kSessionReqWindow else 0,
             sessions := r.sessions[num := None]),
          {RespTo(p, NoError)})
  }

  /** `handle_disconnect_resp_st` */
  function HandleDisconnectResp(r: Rpc, p: SmPkt): Out
    requires p.DisconnectResp? && p.client.num.Some? && p.client.num.value < |r.sessions|
  {
    var num := p.client.num.value;
    if r.sessions[num].None? then Out(r, {})
    else Out(r.(ring := r.ring + kSessionCredits, sessions := r.sessions[num := None]), {})
  }

  // All Rpcs and the network

  datatype World = World(
    rpcs: seq<Rpc>,
    net: set<SmPkt>,                    // Every packet ever sent
    // History
    owner: map<nat, Endpoint>,          // The client session each token was made for
    failed: set<nat>)                   // Tokens whose client session ended with a connect error

  datatype Step =
    | Start(r: nat)
    | Create(r: nat, remote: nat, token: nat)
    | Resend(r: nat, num: nat)          // The management part of `pkt_loss_scan_st`
    | Destroy(r: nat, num: nat)
    | Deliver(p: SmPkt, env: Env, retry: bool)
    | Reject(p: SmPkt)                  // The Nexus of an Rpc that does not exist yet answers for it

  /** Where a packet goes. */
  function Target(p: SmPkt): nat {
    if p.ConnectReq? || p.DisconnectReq? then p.server.rpc else p.client.rpc
  }

  /** The assertions at the top of the handlers: the session number that the handler looks up exists. */
  predicate InRange(r: Rpc, p: SmPkt) {
    match p
    case ConnectReq(_, _, _) => true
    case DisconnectReq(_, _, server) => server.num.Some? && server.num.value < |r.sessions|
    case ConnectResp(_, _, client, _) => client.num.Some? && client.num.value < |r.sessions|
    case DisconnectResp(_, _, client, _) => client.num.Some? && client.num.value < |r.sessions|
  }

  function Handle(r: Rpc, me: nat, p: SmPkt, env: Env, retry: bool): Out
    requires InRange(r, p)
  {
    match p
    case ConnectReq(_, _, _) => HandleConnectReq(r, me, p, env)
    case ConnectResp(_, _, _, _) => HandleConnectResp(r, p, env.resolveOk, retry)
    case DisconnectReq(_, _, _) => HandleDisconnectReq(r, p)
    case DisconnectResp(_, _, _, _) => HandleDisconnectResp(r, p)
  }

  /** Tokens are unique, an Rpc does not connect to itself, and only sent packets arrive. */
  predicate Enabled(w: World, step: Step) {
    match step
    case Start(r) => r < |w.rpcs| && !w.rpcs[r].up
    case Create(r, remote, token) =>
      r < |w.rpcs| && remote < |w.rpcs| && r != remote && w.rpcs[r].up && token !in w.owner
    case Resend(r, num) =>
      r < |w.rpcs| && num < |w.rpcs[r].sessions| && w.rpcs[r].sessions[num].Some?
      && w.rpcs[r].sessions[num].value.isClient && !w.rpcs[r].sessions[num].value.state.Connected?
    case Destroy(r, num) => r < |w.rpcs| && w.rpcs[r].up
    case Deliver(p, _, _) => p in w.net && Target(p) < |w.rpcs| && w.rpcs[Target(p)].up
    case Reject(p) =>
      p in w.net && (p.ConnectReq? || p.DisconnectReq?) && Target(p) < |w.rpcs| && !w.rpcs[Target(p)].up
  }

  function Put(w: World, r: nat, o: Out): World
    requires r < |w.rpcs|
  {
    w.(rpcs := w.rpcs[r := o.rpc], net := w.net + o.sent)
  }

  /** Whether the delivery of a connect error ends the client session. */
  predicate EndsInError(r: Rpc, p: SmPkt, retry: bool)
    requires InRange(r, p)
  {
    p.ConnectResp? && !p.err.NoError? && r.sessions[p.client.num.value].Some?
    && r.sessions[p.client.num.value].value.state.ConnectInProgress? && !(p.err.InvalidRemoteRpcId? && retry)
  }

  function Next(w: World, step: Step): World
    requires Enabled(w, step)
  {
    match step
    case Start(r) => w.(rpcs := w.rpcs[r := w.rpcs[r].(up := true)])
    case Create(r, remote, token) =>
      var o := CreateSession(w.rpcs[r], r, remote, token);
      if |o.rpc.sessions| == |w.rpcs[r].sessions| then w
      else Put(w, r, o).(owner := w.owner[token := Endpoint(r, Some(|w.rpcs[r].sessions|))])
    case Resend(r, num) => w.(net := w.net + {SmReq(w.rpcs[r].sessions[num].value)})
    case Destroy(r, num) => Put(w, r, DestroySession(w.rpcs[r], num))
    case Deliver(p, env, retry) =>
      var r := Target(p);
      if !InRange(w.rpcs[r], p) then w                    // An assertion failure
      else Put(w, r, Handle(w.rpcs[r], r, p, env, retry)).(
        failed := if EndsInError(w.rpcs[r], p, retry) then w.failed + {p.token} else w.failed)
    case Reject(p) => w.(net := w.net + {RespTo(p, InvalidRemoteRpcId)})
  }

  predicate IsInit(w: World) {
    && w.net == {} && w.owner == map[] && w.failed == {}
    && forall r :: 0 <= r < |w.rpcs| ==> w.rpcs[r] == Rpc([], map[], kNumRxRingEntries, 0, w.rpcs[r].up, [])
  }

  ghost predicate Run(w: World, steps: seq<Step>, e: World)
    decreases |steps|
  {
    if steps == [] then w == e else Enabled(w, steps[0]) && Run(Next(w, steps[0]), steps[1..], e)
  }

  ghost predicate Reachable(w: World) {
    exists i: World, steps: seq<Step> :: IsInit(i) && Run(i, steps, w)
  }
}
