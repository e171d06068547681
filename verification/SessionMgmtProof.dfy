/** What always holds of sessions and management packets. */
module SessionMgmtProof {
  import opened Options
  import opened Messages
  import opened SessionMgmt

  /** The session numbered `e.num` on Rpc `e.rpc`, as it was created. */
  ghost predicate Exists(w: World, e: Endpoint) {
    e.rpc < |w.rpcs| && e.num.Some? && e.num.value < |w.rpcs[e.rpc].born|
  }

  ghost function Birth(w: World, e: Endpoint): Session
    requires Exists(w, e)
  {
    w.rpcs[e.rpc].born[e.num.value]
  }

  ghost predicate SizesOk(w: World) {
    forall r :: 0 <= r < |w.rpcs| ==> |w.rpcs[r].born| == |w.rpcs[r].sessions|
  }

  /** The session that is there now; None once buried. */
  ghost function Now(w: World, e: Endpoint): Option<Session>
    requires SizesOk(w) && Exists(w, e)
  {
    w.rpcs[e.rpc].sessions[e.num.value]
  }

  /** A token belongs to one client session, created for one remote Rpc. */
  ghost predicate TokenOk(w: World, token: nat) {
    && token in w.owner
    && Exists(w, w.owner[token])
    && var b := Birth(w, w.owner[token]);
       b.isClient && b.token == token && b.client == w.owner[token] && b.server.num == None
       && b.server.rpc < |w.rpcs| && b.server.rpc != b.client.rpc
  }

  /** `server` is the server session that was created for a token. */
  ghost predicate Created(w: World, token: nat, server: Endpoint) {
    && TokenOk(w, token)
    && Exists(w, server) && server.rpc == Birth(w, w.owner[token]).server.rpc
    && Birth(w, server) == Session(false, token, Connected, w.owner[token], server)
  }

  // Sessions

  ghost predicate BirthOk(w: World, e: Endpoint)
    requires Exists(w, e)
  {
    var b := Birth(w, e);
    if b.isClient then TokenOk(w, b.token) && w.owner[b.token] == e
    else Created(w, b.token, e) && b.token in w.rpcs[e.rpc].tokens && w.rpcs[e.rpc].tokens[b.token] == e.num.value
  }

  /** A live session is the one created, except that a client learns its server endpoint. */
  ghost predicate LiveOk(w: World, e: Endpoint)
    requires SizesOk(w) && Exists(w, e)
  {
    var b, s := Birth(w, e), Now(w, e);
    s.Some? ==>
      var n := s.value;
      if !b.isClient then n == b
      else
        && n.isClient && n.token == b.token && n.client == b.client
        && (n.state.ConnectInProgress? ==> n.server == b.server)
        && (!n.state.ConnectInProgress? ==> Created(w, n.token, n.server))
        && (n.state.Connected? ==> Now(w, n.server).Some?)
  }

  /** A client session that is past being connected. */
  ghost predicate Leaving(s: Option<Session>) {
    s.None? || s.value.state.DisconnectInProgress?
  }

  /** A server session ends only by its client's disconnect request; a client session ends by an error or after its
      server session has ended. */
  ghost predicate DeadOk(w: World, e: Endpoint)
    requires SizesOk(w) && Exists(w, e)
  {
    var b := Birth(w, e);
    Now(w, e).None? ==>
      if b.isClient then b.token in w.failed || exists s :: Created(w, b.token, s) && Now(w, s).None?
      else DisconnectReq(b.token, b.client, b.server) in w.net
  }

  ghost predicate SessionOk(w: World, e: Endpoint)
    requires SizesOk(w) && Exists(w, e)
  {
    BirthOk(w, e) && LiveOk(w, e) && DeadOk(w, e)
  }

  // Rpcs

  function Live(sessions: seq<Option<Session>>): nat {
    if sessions == [] then 0 else (if sessions[|sessions| - 1].Some? then 1 else 0) + Live(sessions[..|sessions| - 1])
  }

  function LiveServers(sessions: seq<Option<Session>>): nat {
    if sessions == [] then 0
    else (if sessions[|sessions| - 1].Some? && !sessions[|sessions| - 1].value.isClient then 1 else 0)
         + LiveServers(sessions[..|sessions| - 1])
  }

  ghost predicate RpcOk(r: Rpc) {
    && |r.born| == |r.sessions|
    && r.ring + kSessionCredits * Live(r.sessions) == kNumRxRingEntries
    && r.bufs == kSessionReqWindow * LiveServers(r.sessions)
    && (!r.up ==> r.born == [])
    && (forall t :: t in r.tokens ==>
         r.tokens[t] < |r.born| && !r.born[r.tokens[t]].isClient && r.born[r.tokens[t]].token == t)
  }

  // Packets

  ghost predicate PktOk(w: World, p: SmPkt)
    requires SizesOk(w)
  {
    && TokenOk(w, p.token) && p.client == w.owner[p.token]
    && match p
       case ConnectReq(token, _, server) => server == Birth(w, p.client).server
       case ConnectResp(err, token, _, server) =>
         if err.NoError? then Created(w, token, server) else server == Birth(w, p.client).server
       case DisconnectReq(token, _, server) => Created(w, token, server) && Leaving(Now(w, p.client))
                                               && (Now(w, p.client).Some? ==> Now(w, p.client).value.server == server)
       case DisconnectResp(err, token, _, server) =>
         err.NoError? && Created(w, token, server) && Leaving(Now(w, p.client)) && Now(w, server).None?
         && (Now(w, p.client).Some? ==> Now(w, p.client).value.server == server)
  }

  /** A token whose client session ended with a connect error: the session is gone for good, and as it never was
      connected, nobody asked to disconnect. */
  ghost predicate FailedOk(w: World, token: nat)
    requires SizesOk(w)
  {
    && TokenOk(w, token) && Now(w, w.owner[token]).None?
    && forall p :: p in w.net && p.DisconnectReq? ==> p.token != token
  }

  ghost predicate Inv(w: World) {
    && SizesOk(w)
    && (forall t :: t in w.failed ==> FailedOk(w, t))
    && (forall r :: 0 <= r < |w.rpcs| ==> RpcOk(w.rpcs[r]))
    && (forall e :: Exists(w, e) ==> SessionOk(w, e))
    && (forall p :: p in w.net ==> PktOk(w, p))
  }

  // How worlds change

  /** A client that is leaving stays so, and a buried session stays buried. */
  ghost predicate Later(a: Option<Session>, b: Option<Session>) {
    && (a.None? ==> b.None?)
    && (Leaving(a) && b.Some? ==> a == b)
  }

  ghost predicate Evolves(w: World, v: World) {
    && SizesOk(w) && SizesOk(v) && |w.rpcs| == |v.rpcs|
    && (forall r :: 0 <= r < |w.rpcs| ==> w.rpcs[r].born <= v.rpcs[r].born)
    && (forall e :: Exists(w, e) ==> Exists(v, e) && Later(Now(w, e), Now(v, e)))
    && (forall t :: t in w.owner ==> t in v.owner && v.owner[t] == w.owner[t])
    && w.net <= v.net && w.failed <= v.failed
  }

  /** Failed tokens stay so, if the requests to disconnect that are sent are for others. */
  lemma {:induction false} FailedKeeps(w: World, v: World)
    requires Evolves(w, v) && (forall t :: t in w.failed ==> FailedOk(w, t)) && v.failed == w.failed
    requires forall p :: p in v.net && p !in w.net && p.DisconnectReq? ==> p.token !in w.failed
    ensures forall t :: t in v.failed ==> FailedOk(v, t)
  {
    forall t | t in v.failed ensures FailedOk(v, t) {
      assert FailedOk(w, t);
      TokenKeeps(w, v, t);
      assert Later(Now(w, w.owner[t]), Now(v, v.owner[t]));
    }
  }

  lemma {:induction false} TokenKeeps(w: World, v: World, token: nat)
    requires Evolves(w, v) && TokenOk(w, token)
    ensures TokenOk(v, token) && v.owner[token] == w.owner[token]
    ensures Birth(v, v.owner[token]) == Birth(w, w.owner[token])
  {
    var e := w.owner[token];
    assert w.rpcs[e.rpc].born <= v.rpcs[e.rpc].born;
  }

  lemma {:induction false} CreatedKeeps(w: World, v: World, token: nat, server: Endpoint)
    requires Evolves(w, v) && Created(w, token, server)
    ensures Created(v, token, server)
  {
    TokenKeeps(w, v, token);
    assert w.rpcs[server.rpc].born <= v.rpcs[server.rpc].born;
  }

  lemma {:induction false} PktKeeps(w: World, v: World, p: SmPkt)
    requires Evolves(w, v) && PktOk(w, p)
    ensures PktOk(v, p)
  {
    TokenKeeps(w, v, p.token);
    assert Exists(v, p.client) && Later(Now(w, p.client), Now(v, p.client));
    if (p.ConnectResp? && p.err.NoError?) || p.DisconnectReq? || p.DisconnectResp? {
      CreatedKeeps(w, v, p.token, p.server);
    }
    if p.DisconnectResp? { assert Later(Now(w, p.server), Now(v, p.server)); }
  }

  lemma {:induction false} BirthKeeps(w: World, v: World, e: Endpoint)
    requires Evolves(w, v) && Exists(w, e) && BirthOk(w, e)
    requires forall t :: t in w.rpcs[e.rpc].tokens ==>
               t in v.rpcs[e.rpc].tokens && v.rpcs[e.rpc].tokens[t] == w.rpcs[e.rpc].tokens[t]
    ensures Exists(v, e) && Birth(v, e) == Birth(w, e) && BirthOk(v, e)
  {
    var b := Birth(w, e);
    assert w.rpcs[e.rpc].born <= v.rpcs[e.rpc].born;
    TokenKeeps(w, v, b.token);
    if !b.isClient { CreatedKeeps(w, v, b.token, e); }
  }

  lemma {:induction false} LiveKeeps(w: World, v: World, e: Endpoint)
    requires Evolves(w, v) && Exists(w, e) && BirthOk(w, e) && LiveOk(w, e) && Exists(v, e)
    requires Birth(v, e) == Birth(w, e) && Now(v, e) == Now(w, e)
    requires var s := Now(w, e);
             s.Some? && s.value.isClient && s.value.state.Connected? ==>
               Exists(v, s.value.server) && Now(v, s.value.server).Some?
    ensures LiveOk(v, e)
  {
    var s := Now(w, e);
    if s.Some? && s.value.isClient && !s.value.state.ConnectInProgress? {
      CreatedKeeps(w, v, s.value.token, s.value.server);
    }
  }

  lemma {:induction false} DeadKeeps(w: World, v: World, e: Endpoint)
    requires Evolves(w, v) && Exists(w, e) && BirthOk(w, e) && DeadOk(w, e) && Exists(v, e)
    requires Birth(v, e) == Birth(w, e) && Now(v, e) == Now(w, e)
    ensures DeadOk(v, e)
  {
    var b := Birth(w, e);
    if Now(w, e).None? && b.isClient && b.token !in w.failed {
      var s :| Created(w, b.token, s) && Now(w, s).None?;
      CreatedKeeps(w, v, b.token, s);
      assert Later(Now(w, s), Now(v, s));
    }
  }

  // A session changes

  /** Only session `x` and the resources of its Rpc change, and packets may be added. */
  ghost predicate Touched(w: World, v: World, x: Endpoint, b: Option<Session>)
    requires SizesOk(w) && Exists(w, x)
  {
    var r := w.rpcs[x.rpc];
    && |v.rpcs| == |w.rpcs| && v.rpcs == w.rpcs[x.rpc := v.rpcs[x.rpc]]
    && v.rpcs[x.rpc] == r.(sessions := r.sessions[x.num.value := b], ring := v.rpcs[x.rpc].ring,
                           bufs := v.rpcs[x.rpc].bufs)
    && v.owner == w.owner && w.net <= v.net && w.failed <= v.failed
  }

  lemma {:induction false} TouchEvolves(w: World, v: World, x: Endpoint, b: Option<Session>)
    requires SizesOk(w) && Exists(w, x) && Touched(w, v, x, b) && Later(Now(w, x), b)
    ensures Evolves(w, v)
    ensures forall e :: Exists(w, e) <==> Exists(v, e)
    ensures forall e :: Exists(w, e) ==> Birth(v, e) == Birth(w, e) && Now(v, e) == if e == x then b else Now(w, e)
  {
    forall e | Exists(w, e) ensures Exists(v, e) && Birth(v, e) == Birth(w, e)
      && Now(v, e) == (if e == x then b else Now(w, e))
    {
      if e.rpc == x.rpc && e != x { assert e.num.value != x.num.value; }
    }
  }

  /** A connected client's server session is not the one that ends. */
  ghost predicate NotNeeded(w: World, x: Endpoint)
    requires SizesOk(w)
  {
    forall e :: Exists(w, e) && Now(w, e).Some? && Now(w, e).value.isClient && Now(w, e).value.state.Connected?
      ==> Now(w, e).value.server != x
  }

  lemma {:induction false} TouchOk(w: World, v: World, x: Endpoint, b: Option<Session>)
    requires Inv(w) && Exists(w, x) && Touched(w, v, x, b) && Later(Now(w, x), b)
    requires Evolves(w, v) && Exists(v, x)
    requires RpcOk(v.rpcs[x.rpc]) && LiveOk(v, x) && DeadOk(v, x)
    requires forall p :: p in v.net && p !in w.net ==> PktOk(v, p)
    requires b.None? ==> NotNeeded(w, x)
    requires forall t :: t in v.failed ==> FailedOk(v, t)
    ensures Inv(v)
  {
    TouchEvolves(w, v, x, b);
    forall e | Exists(v, e) ensures SessionOk(v, e) {
      assert SessionOk(w, e);
      BirthKeeps(w, v, e);
      if e != x {
        OtherLive(w, v, x, b, e);
        DeadKeeps(w, v, e);
      }
    }
    forall p | p in v.net ensures PktOk(v, p) {
      if p in w.net { PktKeeps(w, v, p); }
    }
  }

  lemma {:induction false} OtherLive(w: World, v: World, x: Endpoint, b: Option<Session>, e: Endpoint)
    requires Inv(w) && Exists(w, x) && Touched(w, v, x, b) && Later(Now(w, x), b) && Evolves(w, v)
    requires b.None? ==> NotNeeded(w, x)
    requires Exists(w, e) && e != x
    ensures Exists(v, e) && LiveOk(v, e)
  {
    TouchEvolves(w, v, x, b);
    assert SessionOk(w, e);
    LiveKeeps(w, v, e);
  }

  // A session is created

  /** Rpc `r` gains one session and perhaps a token. */
  ghost predicate Appended(w: World, v: World, r: nat, s: Session)
    requires SizesOk(w) && r < |w.rpcs|
  {
    var a := w.rpcs[r];
    && |v.rpcs| == |w.rpcs| && v.rpcs == w.rpcs[r := v.rpcs[r]]
    && v.rpcs[r] == a.(sessions := a.sessions + [Some(s)], born := a.born + [s], ring := v.rpcs[r].ring,
                       bufs := v.rpcs[r].bufs, tokens := v.rpcs[r].tokens)
    && (forall t :: t in a.tokens ==> t in v.rpcs[r].tokens && v.rpcs[r].tokens[t] == a.tokens[t])
    && (forall t :: t in w.owner ==> t in v.owner && v.owner[t] == w.owner[t])
    && w.net <= v.net && w.failed == v.failed
  }

  lemma {:induction false} AppendEvolves(w: World, v: World, r: nat, s: Session)
    requires SizesOk(w) && r < |w.rpcs| && Appended(w, v, r, s)
    ensures Evolves(w, v)
    ensures var x := Endpoint(r, Some(|w.rpcs[r].sessions|));
            && Exists(v, x) && Birth(v, x) == s && Now(v, x) == Some(s)
            && forall e :: Exists(v, e) <==> Exists(w, e) || e == x
    ensures forall e :: Exists(w, e) ==> Birth(v, e) == Birth(w, e) && Now(v, e) == Now(w, e)
  {
  }

  lemma {:induction false} AppendOk(w: World, v: World, r: nat, s: Session)
    requires Inv(w) && r < |w.rpcs| && Appended(w, v, r, s)
    requires Evolves(w, v) && RpcOk(v.rpcs[r])
    requires var x := Endpoint(r, Some(|w.rpcs[r].sessions|)); Exists(v, x) && BirthOk(v, x) && LiveOk(v, x)
    requires forall p :: p in v.net && p !in w.net ==> PktOk(v, p) && !p.DisconnectReq?
    ensures Inv(v)
  {
    AppendEvolves(w, v, r, s);
    FailedKeeps(w, v);
    var x := Endpoint(r, Some(|w.rpcs[r].sessions|));
    forall e | Exists(v, e) ensures SessionOk(v, e) {
      if e != x { AppendKeeps(w, v, r, s, e); }
    }
    forall p | p in v.net ensures PktOk(v, p) {
      if p in w.net { PktKeeps(w, v, p); }
    }
  }

  lemma {:induction false} AppendKeeps(w: World, v: World, r: nat, s: Session, e: Endpoint)
    requires Inv(w) && r < |w.rpcs| && Appended(w, v, r, s) && Evolves(w, v) && Exists(w, e)
    ensures Exists(v, e) && SessionOk(v, e)
  {
    AppendEvolves(w, v, r, s);
    assert SessionOk(w, e);
    BirthKeeps(w, v, e);
    LiveKeeps(w, v, e);
    DeadKeeps(w, v, e);
  }

  /** Packets may be added and Rpcs started, and no session changes. */
  ghost predicate Same(w: World, v: World) {
    && |v.rpcs| == |w.rpcs| && v.owner == w.owner && w.net <= v.net && w.failed == v.failed
    && forall r :: 0 <= r < |w.rpcs| ==> v.rpcs[r] == w.rpcs[r].(up := v.rpcs[r].up)
  }

  lemma {:induction false} SameKeeps(w: World, v: World, e: Endpoint)
    requires Inv(w) && Same(w, v) && Evolves(w, v) && Exists(w, e)
    ensures Exists(v, e) && SessionOk(v, e)
  {
    assert SessionOk(w, e);
    BirthKeeps(w, v, e);
    var s := Now(w, e);
    if s.Some? && s.value.isClient && s.value.state.Connected? { assert Exists(v, s.value.server); }
    LiveKeeps(w, v, e);
    DeadKeeps(w, v, e);
  }

  lemma {:induction false} SameOk(w: World, v: World)
    requires Inv(w) && Same(w, v)
    requires forall r :: 0 <= r < |w.rpcs| ==> w.rpcs[r].up ==> v.rpcs[r].up
    requires forall p :: p in v.net && p !in w.net ==> PktOk(w, p) && (p.DisconnectReq? ==> p.token !in w.failed)
    ensures Inv(v)
  {
    assert Evolves(w, v);
    FailedKeeps(w, v);
    forall e | Exists(v, e) ensures SessionOk(v, e) { SameKeeps(w, v, e); }
    forall p | p in v.net ensures PktOk(v, p) { PktKeeps(w, v, p); }
    forall r | 0 <= r < |v.rpcs| ensures RpcOk(v.rpcs[r]) { assert RpcOk(w.rpcs[r]); }
  }

  lemma {:induction false} SendOk(w: World, sent: set<SmPkt>)
    requires Inv(w) && forall p :: p in sent ==> PktOk(w, p) && (p.DisconnectReq? ==> p.token !in w.failed)
    ensures Inv(w.(net := w.net + sent))
  {
    SameOk(w, w.(net := w.net + sent));
  }

  // Resources

  lemma {:induction false} LiveUpdate(q: seq<Option<Session>>, i: nat, b: Option<Session>)
    requires i < |q|
    ensures Live(q[i := b]) == Live(q) - (if q[i].Some? then 1 else 0) + (if b.Some? then 1 else 0)
    ensures LiveServers(q[i := b]) == LiveServers(q) - (if q[i].Some? && !q[i].value.isClient then 1 else 0)
                                      + (if b.Some? && !b.value.isClient then 1 else 0)
    ensures q[i].Some? ==> Live(q) >= 1
    ensures q[i].Some? && !q[i].value.isClient ==> LiveServers(q) >= 1
    decreases |q|
  {
    var n := |q| - 1;
    if i < n {
      LiveUpdate(q[..n], i, b);
      assert q[i := b][..n] == q[..n][i := b];
    } else {
      assert q[i := b][..n] == q[..n];
    }
  }

  lemma {:induction false} LivePush(q: seq<Option<Session>>, b: Option<Session>)
    ensures Live(q + [b]) == Live(q) + (if b.Some? then 1 else 0)
    ensures LiveServers(q + [b]) == LiveServers(q) + (if b.Some? && !b.value.isClient then 1 else 0)
  {
    assert (q + [b])[..|q|] == q;
  }
}
