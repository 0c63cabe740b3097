/** Whose tokens a chain holds: over every history, the tokens that descend from a login belong to the
    user who logged in. */
module TokenOwners {
  import opened Options
  import opened RefreshTokens

  /** The user a request issues a token to: the one logging in, or the one the presented token names. */
  function Recipient(q: Request): string
    requires q.Login? || (q.Refresh? && q.claims.Some?)
  {
    if q.Login? then q.user else q.claims.value.sub
  }

  /** The user a token was issued to, read off the requests and the answers they got. */
  function IssuedTo(qs: seq<Request>, jti: string): Option<string> {
    if qs == [] then None
    else
      var n := |qs| - 1;
      if Serve(Run(qs[..n]), qs[n]).r == Issued(jti) then Some(Recipient(qs[n]))
      else IssuedTo(qs[..n], jti)
  }

  /** Tokens are signed: the claims of a presented token name the user it was issued to. */
  ghost predicate GenuineClaims(qs: seq<Request>) {
    forall k :: 0 <= k < |qs| ==> GenuineAt(qs, k)
  }

  ghost predicate GenuineAt(qs: seq<Request>, k: nat)
    requires k < |qs|
  {
    qs[k].Refresh? && qs[k].claims.Some? ==>
      var owner := IssuedTo(qs[..k], qs[k].claims.value.jti);
      owner.Some? ==> owner.value == qs[k].claims.value.sub
  }

  /** The users of the logins, in order. */
  function LoginUsers(qs: seq<Request>): (users: seq<string>)
    ensures |users| == |Logins(qs)|
  {
    if qs == [] then []
    else LoginUsers(qs[..|qs| - 1]) + if qs[|qs| - 1].Login? then [qs[|qs| - 1].user] else []
  }

  lemma GenuinePrefix(qs: seq<Request>)
    requires GenuineClaims(qs) && qs != []
    ensures GenuineClaims(qs[..|qs| - 1]) && GenuineAt(qs, |qs| - 1)
  {
    var n := |qs| - 1;
    forall k | 0 <= k < n ensures GenuineAt(qs[..n], k) {
      assert qs[..n][..k] == qs[..k];
      assert GenuineAt(qs, k);
    }
  }

  // ---------------------------------------------------------------- the stored user

  /** What one request does to the users stored: it keeps them and adds at most the recipient's token. */
  lemma ServeUsers(s: Store, q: Request)
    requires FreshIn(s, q)
    ensures var r := Serve(s, q);
            && (forall t :: t in s ==> t in r.s && r.s[t].user == s[t].user)
            && (forall t :: t in r.s && t !in s ==> r.r == Issued(t) && r.s[t].user == Recipient(q))
            && (r.r.Issued? ==>
                  && (q.Login? || (q.Refresh? && q.claims.Some?))
                  && r.r.jti == q.jti && q.jti in r.s && q.jti !in s)
  {
  }

  /** A stored token is stored under the user it was issued to. */
  lemma {:induction false} StoredUnderOwner(qs: seq<Request>, t: string)
    requires FreshHistory(qs)
    ensures t in Run(qs) ==> IssuedTo(qs, t) == Some(Run(qs)[t].user)
    ensures t !in Run(qs) ==> IssuedTo(qs, t) == None
  {
    if qs != [] {
      var n := |qs| - 1;
      FreshPrefix(qs);
      StoredUnderOwner(qs[..n], t);
      ServeUsers(Run(qs[..n]), qs[n]);
      hide Serve, FreshIn, FreshHistory;
    }
  }

  /** A token's successor is stored under the same user. */
  ghost predicate LinksKeepUser(s: Store) {
    forall t :: t in s && s[t].replacedBy.Some? ==> LinkKeepsUser(s, t)
  }

  ghost predicate LinkKeepsUser(s: Store, t: string)
    requires t in s && s[t].replacedBy.Some?
  {
    s[t].replacedBy.value in s && s[s[t].replacedBy.value].user == s[t].user
  }

  lemma {:induction false} ServeKeepsLinks(s: Store, q: Request)
    requires FreshIn(s, q) && LinksKeepUser(s)
    requires q.Refresh? && q.claims.Some? && q.claims.value.jti in s ==>
               s[q.claims.value.jti].user == q.claims.value.sub
    ensures LinksKeepUser(Serve(s, q).s)
  {
    var r := Serve(s, q).s;
    forall t | t in r && r[t].replacedBy.Some? ensures LinkKeepsUser(r, t) {
      assert t in s && s[t].replacedBy.Some? ==> LinkKeepsUser(s, t);
    }
  }

  lemma {:induction false} LinksAlwaysKeepUser(qs: seq<Request>)
    requires FreshHistory(qs) && GenuineClaims(qs)
    ensures LinksKeepUser(Run(qs))
  {
    if qs != [] {
      var n := |qs| - 1;
      FreshPrefix(qs);
      GenuinePrefix(qs);
      LinksAlwaysKeepUser(qs[..n]);
      if qs[n].Refresh? && qs[n].claims.Some? {
        StoredUnderOwner(qs[..n], qs[n].claims.value.jti);
      }
      hide Serve, FreshIn, FreshHistory, GenuineClaims, LinksKeepUser, IssuedTo;
      ServeKeepsLinks(Run(qs[..n]), qs[n]);
    }
  }

  lemma {:induction false} LoginsAreStored(qs: seq<Request>, c: nat)
    requires FreshHistory(qs) && c < |Logins(qs)|
    ensures Logins(qs)[c] in Run(qs) && Run(qs)[Logins(qs)[c]].user == LoginUsers(qs)[c]
  {
    var n := |qs| - 1;
    FreshPrefix(qs);
    ServeUsers(Run(qs[..n]), qs[n]);
    if c < |Logins(qs[..n])| {
      LoginsAreStored(qs[..n], c);
    }
  }

  lemma {:induction false} ChainKeepsUser(s: Store, chain: seq<string>, i: nat)
    requires IsChain(s, chain) && LinksKeepUser(s) && i < |chain|
    ensures s[chain[i]].user == s[chain[0]].user
  {
    if i > 0 {
      var k := i - 1;
      ChainKeepsUser(s, chain, k);
      assert s[chain[k]].replacedBy == Some(chain[k + 1]);
      assert LinkKeepsUser(s, chain[k]);
    }
  }

  /** Every token of a chain belongs to the user of the login that began it. */
  lemma {:induction false} ChainBelongsToLogin(qs: seq<Request>, l: Ledger, c: nat, i: nat)
    requires FreshHistory(qs) && GenuineClaims(qs) && Chains(Run(qs), l) && StartsAt(l.chains, Logins(qs))
    requires c < |l.chains| && i < |l.chains[c]|
    ensures l.chains[c][i] in Run(qs) && Run(qs)[l.chains[c][i]].user == LoginUsers(qs)[c]
    ensures IssuedTo(qs, l.chains[c][i]) == Some(LoginUsers(qs)[c])
  {
    LinksAlwaysKeepUser(qs);
    LoginsAreStored(qs, c);
    assert IsChain(Run(qs), l.chains[c]);
    StoredUnderOwner(qs, l.chains[c][i]);
    hide Run, FreshHistory, GenuineClaims, Chains, LinksKeepUser, IssuedTo;
    ChainKeepsUser(Run(qs), l.chains[c], i);
  }

  // ---------------------------------------------------------------- what a password change ends

  /** After a password change no token that descends from a login of that user is usable, and the tokens
      of other users' logins are usable or not as before. */
  lemma {:induction false} PasswordChangeEndsLogins(qs: seq<Request>, u: string, l: Ledger, c: nat, i: nat)
    requires FreshHistory(qs) && GenuineClaims(qs) && Chains(Run(qs), l) && StartsAt(l.chains, Logins(qs))
    requires c < |l.chains| && i < |l.chains[c]|
    ensures var after := Run(qs + [ChangePassword(u)]);
            Usable(after, l.chains[c][i]) <==> LoginUsers(qs)[c] != u && Usable(Run(qs), l.chains[c][i])
  {
    var all := qs + [ChangePassword(u)];
    assert all[..|all| - 1] == qs;
    ChainBelongsToLogin(qs, l, c, i);
    UsableAfter(Run(qs), ChangePassword(u), l.chains[c][i]);
  }

  /** Likewise a session revocation ends nothing that descends from another user's login. */
  lemma {:induction false} RevocationSparesOthers(qs: seq<Request>, id: string, u: string, l: Ledger, c: nat, i: nat)
    requires FreshHistory(qs) && GenuineClaims(qs) && Chains(Run(qs), l) && StartsAt(l.chains, Logins(qs))
    requires c < |l.chains| && i < |l.chains[c]| && LoginUsers(qs)[c] != u
    ensures Usable(Run(qs + [RevokeSession(id, u)]), l.chains[c][i]) <==> Usable(Run(qs), l.chains[c][i])
  {
    var all := qs + [RevokeSession(id, u)];
    assert all[..|all| - 1] == qs;
    ChainBelongsToLogin(qs, l, c, i);
    UsableAfter(Run(qs), RevokeSession(id, u), l.chains[c][i]);
  }

  /** In the store an issued token can be used, and belongs to the user asking for it. */
  lemma IssuedIsUsable(s: Store, q: Request)
    requires FreshIn(s, q) && Serve(s, q).r.Issued?
    ensures var r := Serve(s, q); Usable(r.s, r.r.jti) && r.s[r.r.jti].user == Recipient(q) && r.s[r.r.jti].id == q.id
  {
  }
}
