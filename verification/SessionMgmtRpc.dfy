/** The session management handlers of one Rpc, which update its session vector, token map and resources. */
module SessionMgmtRpc {
  import opened Options
  import opened Messages
  import opened SessionMgmt
  import opened SessionMgmtProof

  class Endpoint {
    const me: nat
    var sessionVec: seq<Option<Session>>
    var connReqTokenMap: map<nat, nat>
    var ringEntriesAvailable: nat
    var bufs: nat
    ghost var up: bool
    ghost var born: seq<Session>

    ghost function State(): Rpc
      reads this
    {
      Rpc(sessionVec, connReqTokenMap, ringEntriesAvailable, bufs, up, born)
    }

    constructor (me: nat)
      ensures State() == Rpc([], map[], kNumRxRingEntries, 0, false, [])
    {
      this.me := me;
      sessionVec, connReqTokenMap, ringEntriesAvailable, bufs := [], map[], kNumRxRingEntries, 0;
      up, born := false, [];
    }

    /** `create_session_st`; None when the ring is exhausted. */
    method CreateSession(remote: nat, token: nat) returns (num: Option<nat>, sent: set<SmPkt>)
      modifies this
      ensures Out(State(), sent) == SessionMgmt.CreateSession(old(State()), me, remote, token)
      ensures num == if old(ringEntriesAvailable) < kSessionCredits then None else Some(|old(sessionVec)|)
    {
      if ringEntriesAvailable < kSessionCredits { return None, {}; }
      var n := |sessionVec|;
      var session := Session(true, token, ConnectInProgress, SessionMgmt.Endpoint(me, Some(n)),
                             SessionMgmt.Endpoint(remote, None));
      ringEntriesAvailable := ringEntriesAvailable - kSessionCredits;
      sessionVec := sessionVec + [Some(session)];
      born := born + [session];
      return Some(n), {SmReq(session)};
    }

    /** `destroy_session_st` of a session without pending requests. */
    method DestroySession(num: nat) returns (sent: set<SmPkt>)
      modifies this
      ensures Out(State(), sent) == SessionMgmt.DestroySession(old(State()), num)
    {
      if num >= |sessionVec| || sessionVec[num].None? { return {}; }
      var session := sessionVec[num].value;
      if !session.isClient { return {}; }
      if session.state.Connected? {
        session := session.(state := DisconnectInProgress);
        sessionVec := sessionVec[num := Some(session)];
        return {SmReq(session)};
      }
      return {};
    }

    /** Allocate a response buffer for each slot; if one allocation fails, free those made before it. */
    method PreallocBufs(allocs: nat) returns (ok: bool)
      modifies this`bufs
      ensures ok == (kSessionReqWindow <= allocs)
      ensures bufs == old(bufs) + if ok then kSessionReqWindow else 0
    {
      var i := 0;
      while i < kSessionReqWindow
        invariant i <= kSessionReqWindow && i <= allocs && bufs == old(bufs) + i
      {
        if i == allocs {
          var j := 0;
          while j < i
            invariant j <= i && bufs == old(bufs) + i - j
          {
            bufs := bufs - 1;
            j := j + 1;
          }
          return false;
        }
        bufs := bufs + 1;
        i := i + 1;
      }
      return true;
    }

    /** `handle_connect_req_st` */
    method HandleConnectReq(p: SmPkt, env: Env) returns (sent: set<SmPkt>)
      requires p.ConnectReq? && (p.token in connReqTokenMap ==> connReqTokenMap[p.token] < |sessionVec|)
      modifies this
      ensures Out(State(), sent) == SessionMgmt.HandleConnectReq(old(State()), me, p, env)
    {
      if p.token in connReqTokenMap {
        var session := sessionVec[connReqTokenMap[p.token]];
        if session.None? || !session.value.state.Connected? { return {}; }
        return {ConnectResp(NoError, p.token, p.client, session.value.server)};
      }
      if !env.transportOk { return {RespTo(p, InvalidTransport)}; }
      if ringEntriesAvailable < kSessionCredits { return {RespTo(p, RingExhausted)}; }
      if !env.resolveOk { return {RespTo(p, RoutingResolutionFailure)}; }
      var ok := PreallocBufs(env.allocs);
      if !ok { return {RespTo(p, OutOfMemory)}; }
      var num := |sessionVec|;
      var server := p.server.(num := Some(num));
      connReqTokenMap := connReqTokenMap[p.token := num];
      var session := Session(false, p.token, Connected, p.client, server);
      ringEntriesAvailable := ringEntriesAvailable - kSessionCredits;
      sessionVec := sessionVec + [Some(session)];
      born := born + [session];
      return {ConnectResp(NoError, p.token, p.client, session.server)};
    }

    /** `handle_connect_resp_st` */
    method HandleConnectResp(p: SmPkt, resolveOk: bool, retry: bool) returns (sent: set<SmPkt>)
      requires p.ConnectResp? && InRange(State(), p)
      requires var s := sessionVec[p.client.num.value];
               s.Some? && s.value.state.ConnectInProgress? ==> s.value.isClient
      modifies this
      ensures Out(State(), sent) == SessionMgmt.HandleConnectResp(old(State()), p, resolveOk, retry)
    {
      var num := p.client.num.value;
      var session := sessionVec[num];
      if session.None? || !session.value.state.ConnectInProgress? { return {}; }
      if p.err.InvalidRemoteRpcId? && retry { return {}; }
      if !p.err.NoError? {
        ringEntriesAvailable := ringEntriesAvailable + kSessionCredits;
        BurySession(num);
        return {};
      }
      var s := session.value.(server := p.server);
      if !resolveOk {
        s := s.(state := DisconnectInProgress);
        sessionVec := sessionVec[num := Some(s)];
        return {SmReq(s)};
      }
      s := s.(state := Connected);
      sessionVec := sessionVec[num := Some(s)];
      return {};
    }

    /** `handle_disconnect_req_st` */
    method HandleDisconnectReq(p: SmPkt) returns (sent: set<SmPkt>)
      requires p.DisconnectReq? && InRange(State(), p)
      requires sessionVec[p.server.num.value].Some? ==>
                 !sessionVec[p.server.num.value].value.isClient && bufs >= kSessionReqWindow
      modifies this
      ensures Out(State(), sent) == SessionMgmt.HandleDisconnectReq(old(State()), p)
    {
      var num := p.server.num.value;
      if sessionVec[num].None? { return {RespTo(p, NoError)}; }
      ringEntriesAvailable := ringEntriesAvailable + kSessionCredits;
      BurySession(num);
      return {RespTo(p, NoError)};
    }

    /** `handle_disconnect_resp_st` */
    method HandleDisconnectResp(p: SmPkt) returns (sent: set<SmPkt>)
      requires p.DisconnectResp? && InRange(State(), p)
      requires sessionVec[p.client.num.value].Some? ==> sessionVec[p.client.num.value].value.isClient
      modifies this
      ensures Out(State(), sent) == SessionMgmt.HandleDisconnectResp(old(State()), p)
    {
      var num := p.client.num.value;
      if sessionVec[num].None? { return {}; }
      ringEntriesAvailable := ringEntriesAvailable + kSessionCredits;
      BurySession(num);
      return {};
    }

    /** `bury_session_st`: free the buffers of a server session and clear its place. */
    method BurySession(num: nat)
      requires num < |sessionVec| && sessionVec[num].Some?
      requires !sessionVec[num].value.isClient ==> bufs >= kSessionReqWindow
      modifies this`bufs, this`sessionVec
      ensures sessionVec == old(sessionVec)[num := None]
      ensures bufs == old(bufs) - if old(sessionVec)[num].value.isClient then 0 else kSessionReqWindow
    {
      if !sessionVec[num].value.isClient {
        for i := 0 to kSessionReqWindow
          invariant bufs == old(bufs) - i && sessionVec == old(sessionVec)
        {
          bufs := bufs - 1;
        }
      }
      sessionVec := sessionVec[num := None];
    }

    /** `num_active_sessions_st` */
    method NumActiveSessions() returns (ret: nat)
      ensures ret == Live(sessionVec)
    {
      ret := 0;
      for i := 0 to |sessionVec|
        invariant ret == Live(sessionVec[..i])
      {
        if sessionVec[i].Some? { ret := ret + 1; }
        assert sessionVec[..i + 1][..i] == sessionVec[..i];
      }
      assert sessionVec[..|sessionVec|] == sessionVec;
    }
  }
}
