/** The server's refresh-token store. Token ids are fresh values; signatures and expiry are decided
    when a token is decoded, which either yields its claims or fails. */
module RefreshTokens {
  import opened Options

  datatype Record = Record(id: string, user: string, revoked: bool, replacedBy: Option<string>)

  /** Stored rows by token id (jti). */
  type Store = map<string, Record>

  datatype Claims = Claims(jti: string, sub: string)

  datatype Request =
    | Login(user: string, jti: string, id: string)
    | Refresh(claims: Option<Claims>, active: bool, jti: string, id: string)
    | Logout(claims: Option<Claims>)
    | ChangePassword(user: string)
    | RevokeSession(id: string, user: string)

  datatype Response = Issued(jti: string) | Done | Unauthorized | NotFound

  /** Not revoked and not replaced: the only tokens a refresh accepts. */
  predicate Usable(s: Store, jti: string) {
    jti in s && !s[jti].revoked && s[jti].replacedBy.None?
  }

  /** The store with every row of the given token ids revoked. */
  function Revoke(s: Store, jtis: set<string>): Store {
    map j | j in s :: if j in jtis then s[j].(revoked := true) else s[j]
  }

  function Rotate(s: Store, old_: string, sub: string, jti: string, id: string): Store
    requires old_ in s
  {
    s[old_ := s[old_].(revoked := true, replacedBy := Some(jti))][jti := Record(id, sub, false, None)]
  }

  function ActiveOf(s: Store, user: string): set<string> {
    set j | j in s && s[j].user == user && !s[j].revoked
  }

  function SessionRows(s: Store, id: string, user: string): set<string> {
    set j | j in s && s[j].id == id && s[j].user == user
  }

  datatype Served = Served(s: Store, r: Response)

  function Serve(s: Store, q: Request): Served {
    match q
    case Login(user, jti, id) => Served(s[jti := Record(id, user, false, None)], Issued(jti))
    case Refresh(claims, active, jti, id) =>
      if claims.None? || !Usable(s, claims.value.jti) || !active then Served(s, Unauthorized)
      else Served(Rotate(s, claims.value.jti, claims.value.sub, jti, id), Issued(jti))
    case Logout(claims) =>
      if claims.None? then Served(s, Done) else Served(Revoke(s, {claims.value.jti}), Done)
    case ChangePassword(user) => Served(Revoke(s, ActiveOf(s, user)), Done)
    case RevokeSession(id, user) =>
      if SessionRows(s, id, user) == {} then Served(s, NotFound) else Served(Revoke(s, SessionRows(s, id, user)), Done)
  }

  /** Row ids are primary keys: no two rows share one. */
  ghost predicate UniqueIds(s: Store) {
    forall j, k :: j in s && k in s && s[j].id == s[k].id ==> j == k
  }

  /** Neither the token id nor the row id has been given out before. */
  ghost predicate Unused(s: Store, jti: string, id: string) {
    jti !in s && forall j :: j in s ==> s[j].id != id
  }

  class TokenStore {
    var rows: Store

    ghost predicate Valid() reads this {
      UniqueIds(rows)
    }

    constructor ()
      ensures Valid() && rows == map[]
    {
      rows := map[];
    }

    method IssueRefresh(user: string, jti: string, id: string)
      requires Valid() && Unused(rows, jti, id)
      modifies this
      ensures Valid() && rows == Serve(old(rows), Login(user, jti, id)).s
    {
      rows := rows[jti := Record(id, user, false, None)];
    }

    /** Rotation. `jti` and `id` are the fresh identifiers of the token to be issued. */
    method Refresh(claims: Option<Claims>, active: bool, jti: string, id: string) returns (r: Response)
      requires Valid() && Unused(rows, jti, id)
      modifies this
      ensures Valid() && Served(rows, r) == Serve(old(rows), Request.Refresh(claims, active, jti, id))
    {
      if claims.None? {
        return Unauthorized;
      }
      var presented := claims.value.jti;
      if presented !in rows || rows[presented].revoked || rows[presented].replacedBy.Some? {
        return Unauthorized;
      }
      if !active {
        return Unauthorized;
      }
      rows := rows[presented := rows[presented].(revoked := true, replacedBy := Some(jti))];
      rows := rows[jti := Record(id, claims.value.sub, false, None)];
      return Issued(jti);
    }

    method Logout(claims: Option<Claims>)
      requires Valid()
      modifies this
      ensures Valid() && rows == Serve(old(rows), Request.Logout(claims)).s
    {
      if claims.Some? && claims.value.jti in rows {
        var j := claims.value.jti;
        rows := rows[j := rows[j].(revoked := true)];
      }
    }

    method ChangePassword(user: string)
      requires Valid()
      modifies this
      ensures Valid() && rows == Serve(old(rows), Request.ChangePassword(user)).s
    {
      rows := map j | j in rows :: if rows[j].user == user && !rows[j].revoked then rows[j].(revoked := true)
          else rows[j];
    }

    method RevokeSession(id: string, user: string) returns (r: Response)
      requires Valid()
      modifies this
      ensures Valid() && Served(rows, r) == Serve(old(rows), Request.RevokeSession(id, user))
    {
      var found := SessionRows(rows, id, user);
      if found == {} {
        return NotFound;
      }
      var first :| first in found;
      rows := rows[first := rows[first].(revoked := true)];
      return Done;
    }
  }

  // ---------------------------------------------------------------- rotation chains

  /** The tokens of one login in the order they were issued: each names its successor and is
      revoked; the last has no successor. */
  ghost predicate IsChain(s: Store, chain: seq<string>) {
    && chain != []
    && (forall i :: 0 <= i < |chain| ==> chain[i] in s)
    && (forall i :: 0 <= i < |chain| - 1 ==> s[chain[i]].revoked && s[chain[i]].replacedBy == Some(chain[i + 1]))
    && s[chain[|chain| - 1]].replacedBy == None
  }

  /** The chains of all logins, and the place of every token: its chain and its position there. */
  datatype Ledger = Ledger(chains: seq<seq<string>>, place: map<string, (nat, nat)>)

  ghost predicate HasPlace(l: Ledger, t: string)
    requires t in l.place
  {
    var (c, i) := l.place[t];
    c < |l.chains| && i < |l.chains[c]| && l.chains[c][i] == t
  }

  ghost predicate IsPlace(l: Ledger, c: nat, i: nat)
    requires c < |l.chains| && i < |l.chains[c]|
  {
    l.chains[c][i] in l.place && l.place[l.chains[c][i]] == (c, i)
  }

  /** One chain per login, together covering the store, every token in exactly one place. */
  ghost predicate Chains(s: Store, l: Ledger) {
    && (forall c :: 0 <= c < |l.chains| ==> IsChain(s, l.chains[c]))
    && l.place.Keys == s.Keys
    && (forall t :: t in l.place ==> HasPlace(l, t))
    && (forall c: nat, i: nat :: c < |l.chains| && i < |l.chains[c]| ==> IsPlace(l, c, i))
  }

  /** A usable token is the last of its chain. */
  lemma UsableIsLast(s: Store, l: Ledger, t: string)
    requires Chains(s, l) && Usable(s, t)
    ensures t in l.place && HasPlace(l, t) && l.place[t].1 == |l.chains[l.place[t].0]| - 1
  {
    assert HasPlace(l, t);
    assert IsChain(s, l.chains[l.place[t].0]);
  }

  /** Of all the tokens that descend from one login at most one can be used. */
  lemma OneUsablePerLogin(s: Store, l: Ledger, t: string, u: string)
    requires Chains(s, l) && Usable(s, t) && Usable(s, u) && l.place[t].0 == l.place[u].0
    ensures t == u
  {
    UsableIsLast(s, l, t);
    UsableIsLast(s, l, u);
  }

  lemma {:induction false} ChainElsewhere(s: Store, s': Store, chain: seq<string>)
    requires IsChain(s, chain)
    requires forall i :: 0 <= i < |chain| ==> chain[i] in s' && s'[chain[i]].replacedBy == s[chain[i]].replacedBy
                                              && (s[chain[i]].revoked ==> s'[chain[i]].revoked)
    ensures IsChain(s', chain)
  {
  }

  lemma {:induction false} LoginKeepsChains(s: Store, l: Ledger, user: string, jti: string, id: string)
    requires Chains(s, l) && jti !in s
    ensures Chains(Serve(s, Login(user, jti, id)).s, Ledger(l.chains + [[jti]], l.place[jti := (|l.chains|, 0)]))
  {
    var s' := Serve(s, Login(user, jti, id)).s;
    var l' := Ledger(l.chains + [[jti]], l.place[jti := (|l.chains|, 0)]);
    forall c | 0 <= c < |l'.chains| ensures IsChain(s', l'.chains[c]) {
      if c < |l.chains| {
        assert IsChain(s, l.chains[c]);
        ChainElsewhere(s, s', l.chains[c]);
      }
    }
    forall t | t in l'.place ensures HasPlace(l', t) {
      assert t != jti ==> HasPlace(l, t);
    }
    forall c: nat, i: nat | c < |l'.chains| && i < |l'.chains[c]| ensures IsPlace(l', c, i) {
      assert c < |l.chains| ==> IsPlace(l, c, i);
    }
  }

  lemma {:induction false} RevocationKeepsChains(s: Store, l: Ledger, jtis: set<string>)
    requires Chains(s, l)
    ensures Chains(Revoke(s, jtis), l)
  {
    forall c | 0 <= c < |l.chains| ensures IsChain(Revoke(s, jtis), l.chains[c]) {
      assert IsChain(s, l.chains[c]);
      ChainElsewhere(s, Revoke(s, jtis), l.chains[c]);
    }
  }

  lemma {:induction false} RotationKeepsChain(s: Store, chain: seq<string>, sub: string, jti: string, id: string)
    requires IsChain(s, chain) && jti !in s
    requires forall i :: 0 <= i < |chain| - 1 ==> chain[i] != chain[|chain| - 1]
    ensures IsChain(Rotate(s, chain[|chain| - 1], sub, jti, id), chain + [jti])
  {
  }

  ghost function Extended(l: Ledger, c: nat, jti: string): Ledger
    requires c < |l.chains|
  {
    Ledger(l.chains[c := l.chains[c] + [jti]], l.place[jti := (c, |l.chains[c]|)])
  }

  lemma {:induction false} RotationKeepsPlaces(s: Store, l: Ledger, c: nat, jti: string)
    requires Chains(s, l) && c < |l.chains| && jti !in s
    ensures var l' := Extended(l, c, jti);
            && (forall t :: t in l'.place ==> HasPlace(l', t))
            && (forall d: nat, i: nat :: d < |l'.chains| && i < |l'.chains[d]| ==> IsPlace(l', d, i))
  {
    var l' := Extended(l, c, jti);
    forall t | t in l'.place ensures HasPlace(l', t) {
      if t != jti {
        assert HasPlace(l, t) && l'.place[t] == l.place[t];
        assert l.chains[l.place[t].0] <= l'.chains[l.place[t].0];
      }
    }
    forall d: nat, i: nat | d < |l'.chains| && i < |l'.chains[d]| ensures IsPlace(l', d, i) {
      if d != c || i < |l.chains[c]| {
        assert IsPlace(l, d, i) && l'.chains[d][i] == l.chains[d][i];
      }
    }
  }

  lemma {:induction false} RotationKeepsChains(s: Store, l: Ledger, t: string, sub: string, jti: string, id: string)
    requires Chains(s, l) && Usable(s, t) && jti !in s
    ensures t in l.place && HasPlace(l, t)
    ensures Chains(Rotate(s, t, sub, jti, id), Extended(l, l.place[t].0, jti))
  {
    UsableIsLast(s, l, t);
    var c := l.place[t].0;
    var s', l' := Rotate(s, t, sub, jti, id), Extended(l, c, jti);
    forall d | 0 <= d < |l'.chains| ensures IsChain(s', l'.chains[d]) {
      assert IsChain(s, l.chains[d]);
      if d == c {
        forall i: nat | i < |l.chains[c]| - 1 ensures l.chains[c][i] != l.chains[c][|l.chains[c]| - 1] {
          assert IsPlace(l, c, i) && IsPlace(l, c, |l.chains[c]| - 1);
        }
        RotationKeepsChain(s, l.chains[c], sub, jti, id);
      } else {
        forall i: nat | i < |l.chains[d]| ensures l.chains[d][i] != t && l.chains[d][i] != jti {
          assert IsPlace(l, d, i);
        }
        ChainElsewhere(s, s', l.chains[d]);
      }
    }
    RotationKeepsPlaces(s, l, c, jti);
  }

  // ---------------------------------------------------------------- what a request leaves usable

  /** Exactly which of the stored tokens a request takes out of use: a refresh only the one presented,
      a logout only its own, a password change all of the user's (the caller's own included), a
      session revocation only the row named. */
  predicate Ends(s: Store, q: Request, t: string)
    requires t in s
  {
    match q
    case Login(_, _, _) => false
    case Refresh(claims, active, _, _) => claims.Some? && claims.value.jti == t && active
    case Logout(claims) => claims.Some? && claims.value.jti == t
    case ChangePassword(user) => s[t].user == user
    case RevokeSession(id, user) => s[t].id == id && s[t].user == user
  }

  lemma UsableAfter(s: Store, q: Request, t: string)
    requires t in s && FreshIn(s, q)
    ensures t in Serve(s, q).s
    ensures Usable(Serve(s, q).s, t) <==> Usable(s, t) && !Ends(s, q, t)
  {
    if q.RevokeSession? {
      assert t in SessionRows(s, q.id, q.user) <==> s[t].id == q.id && s[t].user == q.user;
    } else if q.ChangePassword? {
      assert t in ActiveOf(s, q.user) <==> s[t].user == q.user && !s[t].revoked;
    }
  }

  // ---------------------------------------------------------------- whole histories

  /** The identifiers a request would issue are new. */
  ghost predicate FreshIn(s: Store, q: Request) {
    (q.Login? || q.Refresh?) ==> Unused(s, q.jti, q.id)
  }

  function Run(qs: seq<Request>): Store {
    if qs == [] then map[] else Serve(Run(qs[..|qs| - 1]), qs[|qs| - 1]).s
  }

  ghost predicate FreshHistory(qs: seq<Request>) {
    forall k :: 0 <= k < |qs| ==> FreshIn(Run(qs[..k]), qs[k])
  }

  function Logins(qs: seq<Request>): seq<string> {
    if qs == [] then []
    else Logins(qs[..|qs| - 1]) + if qs[|qs| - 1].Login? then [qs[|qs| - 1].jti] else []
  }

  lemma FreshPrefix(qs: seq<Request>)
    requires FreshHistory(qs) && qs != []
    ensures FreshHistory(qs[..|qs| - 1]) && FreshIn(Run(qs[..|qs| - 1]), qs[|qs| - 1])
  {
    var n := |qs| - 1;
    forall k | 0 <= k < n ensures FreshIn(Run(qs[..n][..k]), qs[..n][k]) {
      assert qs[..n][..k] == qs[..k];
      assert FreshIn(Run(qs[..k]), qs[k]);
    }
  }

  ghost predicate StartsAt(chains: seq<seq<string>>, logins: seq<string>) {
    |chains| == |logins| && forall c :: 0 <= c < |chains| ==> chains[c] != [] && chains[c][0] == logins[c]
  }

  lemma {:induction false} ServeKeepsChains(s: Store, q: Request, l: Ledger, logins: seq<string>) returns (l': Ledger)
    requires Chains(s, l) && FreshIn(s, q) && StartsAt(l.chains, logins)
    ensures Chains(Serve(s, q).s, l')
    ensures StartsAt(l'.chains, logins + if q.Login? then [q.jti] else [])
  {
    l' := l;
    match q
    case Login(user, jti, id) =>
      LoginKeepsChains(s, l, user, jti, id);
      l' := Ledger(l.chains + [[jti]], l.place[jti := (|l.chains|, 0)]);
    case Refresh(claims, active, jti, id) =>
      if Serve(s, q).r.Issued? {
        RotationKeepsChains(s, l, claims.value.jti, claims.value.sub, jti, id);
        l' := Extended(l, l.place[claims.value.jti].0, jti);
      }
    case Logout(claims) =>
      if claims.Some? {
        RevocationKeepsChains(s, l, {claims.value.jti});
      }
    case ChangePassword(user) =>
      RevocationKeepsChains(s, l, ActiveOf(s, user));
    case RevokeSession(id, user) =>
      RevocationKeepsChains(s, l, SessionRows(s, id, user));
  }

  /** In every history the rotation links of each login form one finite chain from the token issued
      at that login, and these chains make up the whole store. */
  lemma {:induction false} LoginsFormChains(qs: seq<Request>) returns (l: Ledger)
    requires FreshHistory(qs)
    ensures Chains(Run(qs), l) && StartsAt(l.chains, Logins(qs))
  {
    if qs == [] {
      return Ledger([], map[]);
    }
    var n := |qs| - 1;
    FreshPrefix(qs);
    var before := LoginsFormChains(qs[..n]);
    l := ServeKeepsChains(Run(qs[..n]), qs[n], before, Logins(qs[..n]));
  }

  /** Row ids stay unique, so a session id never names two rows. */
  lemma {:induction false} IdsStayUnique(qs: seq<Request>)
    requires FreshHistory(qs)
    ensures UniqueIds(Run(qs))
  {
    if qs != [] {
      FreshPrefix(qs);
      IdsStayUnique(qs[..|qs| - 1]);
    }
  }

  lemma {:induction false} DeadStaysDead(qs: seq<Request>, k: nat, t: string)
    requires FreshHistory(qs) && k <= |qs| && t in Run(qs[..k]) && !Usable(Run(qs[..k]), t)
    ensures t in Run(qs) && !Usable(Run(qs), t)
    decreases |qs|
  {
    hide Serve, FreshIn, FreshHistory;
    if k == |qs| {
      assert qs[..k] == qs;
    } else {
      var n := |qs| - 1;
      FreshPrefix(qs);
      assert qs[..n][..k] == qs[..k];
      DeadStaysDead(qs[..n], k, t);
      UsableAfter(Run(qs[..n]), qs[n], t);
    }
  }

  ghost predicate AcceptedAt(qs: seq<Request>, k: nat, t: string) {
    k < |qs| && qs[k].Refresh? && qs[k].claims.Some? && qs[k].claims.value.jti == t
        && Serve(Run(qs[..k]), qs[k]).r.Issued?
  }

  /** A refresh token is accepted at most once in any history, whatever logins, logouts, password
      changes and revocations happen in between. */
  lemma {:induction false} AcceptedOnce(qs: seq<Request>, j: nat, k: nat, t: string)
    requires FreshHistory(qs) && j < k && AcceptedAt(qs, j, t)
    ensures !AcceptedAt(qs, k, t)
  {
    assert FreshIn(Run(qs[..j]), qs[j]);
    hide FreshHistory;
    if k < |qs| {
      var now := qs[..j + 1];
      assert now[..j] == qs[..j];
      FreshUpTo(qs, k);
      assert qs[..k][..j + 1] == now;
      DeadStaysDead(qs[..k], j + 1, t);
    }
  }

  lemma FreshUpTo(qs: seq<Request>, k: nat)
    requires FreshHistory(qs) && k <= |qs|
    ensures FreshHistory(qs[..k])
  {
    forall m | 0 <= m < k ensures FreshIn(Run(qs[..k][..m]), qs[..k][m]) {
      assert qs[..k][..m] == qs[..m];
      assert FreshIn(Run(qs[..m]), qs[m]);
    }
  }
}
