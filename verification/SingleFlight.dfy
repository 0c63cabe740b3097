/** The browser side of token rotation: concurrent API calls and refresh ticks share one refresh
    request. Code between two awaits runs without interruption, so each such stretch is one step. */
module SingleFlight {
  import opened Options
  import RefreshTokens

  /** Who waits for a refresh: an API call (had there been an access token when it began?), the
      periodic tick, or the session restore after a page load. */
  datatype Waiter = Call(had: bool) | Ticking | Restoring

  /** A suspended asynchronous function: waiting for the answer to a request, for the shared refresh,
      or about to resume with the result of that refresh. */
  datatype Task = Sent(had: bool, auth: bool, retried: bool) | Waiting(w: Waiter) | Resumed(w: Waiter, ok: bool)

  /** A login or refresh answer, with the time at which it is taken up. */
  datatype Body = Body(refresh: Option<string>, expiresIn: Option<real>, at: real)

  /** Module variables and session storage of one tab: whether it holds an access token, when that
      expires, its refresh token, and the promise shared by concurrent refreshes. `flight` is the token
      of the refresh request in flight, and `stored` the copy in session storage. */
  datatype Client = Client(access: bool, expiresAt: Option<real>, token: Option<string>, stored: Option<string>,
                           flight: Option<string>, tasks: map<nat, Task>)

  const REFRESH_MARGIN_SEC := 90.0

  datatype Input =
    | StartCall(id: nat, auth: bool)
    | Answered(id: nat, unauthorized: bool)
    | Tick(id: nat, now: real)
    | Restore(id: nat)
    | Resume(id: nat)
    | RefreshDone(issued: Option<Body>)
    | SignOut
    | Establish(login: Body)
    | Reload

  predicate Enabled(c: Client, x: Input) {
    match x
    case StartCall(id, _) => id !in c.tasks
    case Answered(id, _) => id in c.tasks && c.tasks[id].Sent?
    case Tick(id, _) => id !in c.tasks
    case Restore(id) => id !in c.tasks
    case Resume(id) => id in c.tasks && c.tasks[id].Resumed?
    case RefreshDone(_) => c.flight.Some?
    case SignOut => true
    case Establish(_) => true
    case Reload => true
  }

  /** An answer without a refresh token, or with an empty one, leaves the old token in place; without
      a lifetime, or with a lifetime of zero, it leaves the expiry unknown. */
  function Persisted(c: Client, body: Body): Client {
    var d := c.(access := true,
                expiresAt := if body.expiresIn.Some? && body.expiresIn.value != 0.0
                             then Some(body.at + body.expiresIn.value) else None);
    if Renews(body) then d.(token := body.refresh, stored := body.refresh) else d
  }

  predicate Renews(body: Body) {
    body.refresh.Some? && body.refresh.value != ""
  }

  function Cleared(c: Client): Client {
    c.(access := false, expiresAt := None, token := None, stored := None)
  }

  /** The access token expires within the margin; when its expiry is unknown it never does. */
  predicate Due(c: Client, now: real) {
    c.expiresAt.Some? && c.expiresAt.value - now <= REFRESH_MARGIN_SEC
  }

  /** Task `id` asks for a refresh: refused without a token, otherwise it joins the refresh in flight
      or starts one. */
  function Asked(c: Client, id: nat, w: Waiter): Client {
    if c.token.None? then c.(tasks := c.tasks[id := Resumed(w, false)])
    else c.(flight := if c.flight.None? then c.token else c.flight, tasks := c.tasks[id := Waiting(w)])
  }

  function Woken(tasks: map<nat, Task>, ok: bool): map<nat, Task> {
    map i | i in tasks :: if tasks[i].Waiting? then Resumed(tasks[i].w, ok) else tasks[i]
  }

  function Ended(c: Client, id: nat): Client {
    c.(tasks := c.tasks - {id})
  }

  function ClientStep(c: Client, x: Input): Client
    requires Enabled(c, x)
  {
    match x
    case StartCall(id, auth) => c.(tasks := c.tasks[id := Sent(c.access, auth, false)])
    case Answered(id, unauthorized) =>
      var t := c.tasks[id];
      if unauthorized && !t.auth && !t.retried then Asked(c, id, Call(t.had))
      else if unauthorized && t.had then Ended(Cleared(c), id)
      else Ended(c, id)
    case Tick(id, now) => if Due(c, now) && c.token.Some? then Asked(c, id, Ticking) else c
    case Restore(id) => if c.access || c.token.None? then c else Asked(c, id, Restoring)
    case Resume(id) =>
      (match c.tasks[id].w
       case Call(had) =>
         if c.tasks[id].ok then c.(tasks := c.tasks[id := Sent(had, false, true)])
         else Ended(if had then Cleared(c) else c, id)
       case Ticking => Ended(if c.tasks[id].ok then c else Cleared(c), id)
       case Restoring =>
         if c.tasks[id].ok then c.(tasks := c.tasks[id := Sent(c.access, true, false)])
         else Ended(Cleared(c), id))
    case RefreshDone(issued) =>
      var d := if issued.Some? then Persisted(c, issued.value) else c;
      d.(flight := None, tasks := Woken(c.tasks, issued.Some?))
    case SignOut => Cleared(c)
    case Establish(login) => Persisted(c, login)
    case Reload => Client(false, None, c.stored, c.stored, None, map[])
  }

  class Tab {
    var accessToken: bool
    var expiresAt: Option<real>
    var refreshToken: Option<string>
    var storedToken: Option<string>
    var refreshInFlight: Option<string>
    var tasks: map<nat, Task>

    ghost function State(): Client reads this {
      Client(accessToken, expiresAt, refreshToken, storedToken, refreshInFlight, tasks)
    }

    /** Loading the page: only session storage survives. */
    constructor (surviving: Option<string>)
      ensures State() == Client(false, None, surviving, surviving, None, map[])
    {
      accessToken, expiresAt, refreshToken, storedToken := false, None, surviving, surviving;
      refreshInFlight, tasks := None, map[];
    }

    method PersistSession(body: Body)
      modifies `accessToken, `expiresAt, `refreshToken, `storedToken
      ensures State() == Persisted(old(State()), body)
    {
      accessToken := true;
      expiresAt := if body.expiresIn.Some? && body.expiresIn.value != 0.0 then Some(body.at + body.expiresIn.value)
          else None;
      if body.refresh.Some? && body.refresh.value != "" {
        refreshToken := body.refresh;
        storedToken := body.refresh;
      }
    }

    method ClearSession()
      modifies `accessToken, `expiresAt, `refreshToken, `storedToken
      ensures State() == Cleared(old(State()))
    {
      accessToken := false;
      expiresAt := None;
      refreshToken := None;
      storedToken := None;
    }

    method TryRefresh(id: nat, w: Waiter)
      modifies `refreshInFlight, `tasks
      ensures State() == Asked(old(State()), id, w)
    {
      if refreshToken.None? {
        tasks := tasks[id := Resumed(w, false)];
        return;
      }
      if refreshInFlight.None? {
        refreshInFlight := refreshToken;
      }
      tasks := tasks[id := Waiting(w)];
    }

    method BeginCall(id: nat, auth: bool)
      requires Enabled(State(), StartCall(id, auth))
      modifies `tasks
      ensures State() == ClientStep(old(State()), StartCall(id, auth))
    {
      tasks := tasks[id := Sent(accessToken, auth, false)];
    }

    method OnResponse(id: nat, unauthorized: bool)
      requires Enabled(State(), Answered(id, unauthorized))
      modifies this
      ensures State() == ClientStep(old(State()), Answered(id, unauthorized))
    {
      var t := tasks[id];
      if unauthorized && !t.auth && !t.retried {
        TryRefresh(id, Call(t.had));
        return;
      }
      if unauthorized && t.had {
        ClearSession();
      }
      tasks := tasks - {id};
    }

    /** The time left is counted from zero up; a tick does nothing while it is unknown. */
    method SessionSecondsLeft(now: real) returns (left: Option<real>)
      ensures left.Some? <==> expiresAt.Some?
      ensures left.Some? ==> left.value >= 0.0 && (left.value <= REFRESH_MARGIN_SEC <==> Due(State(), now))
    {
      if expiresAt.None? {
        return None;
      }
      left := Some(if expiresAt.value - now > 0.0 then expiresAt.value - now else 0.0);
    }

    method OnTick(id: nat, now: real)
      requires Enabled(State(), Tick(id, now))
      modifies this
      ensures State() == ClientStep(old(State()), Tick(id, now))
    {
      var left := SessionSecondsLeft(now);
      if left.Some? && left.value <= REFRESH_MARGIN_SEC && refreshToken.Some? {
        TryRefresh(id, Ticking);
      }
    }

    method RestoreSession(id: nat)
      requires Enabled(State(), Restore(id))
      modifies this
      ensures State() == ClientStep(old(State()), Restore(id))
    {
      if accessToken || refreshToken.None? {
        return;
      }
      TryRefresh(id, Restoring);
    }

    method OnResume(id: nat)
      requires Enabled(State(), Resume(id))
      modifies this
      ensures State() == ClientStep(old(State()), Resume(id))
    {
      var Resumed(w, ok) := tasks[id];
      if ok && w.Call? {
        tasks := tasks[id := Sent(w.had, false, true)];
      } else if ok && w.Restoring? {
        tasks := tasks[id := Sent(accessToken, true, false)];
      } else {
        if !ok && (w.Call? ==> w.had) {
          ClearSession();
        }
        tasks := tasks - {id};
      }
    }

    /** The refresh request comes back, with a new token or without. */
    method OnRefreshDone(issued: Option<Body>)
      requires Enabled(State(), RefreshDone(issued))
      modifies this
      ensures State() == ClientStep(old(State()), RefreshDone(issued))
    {
      if issued.Some? {
        PersistSession(issued.value);
      }
      refreshInFlight := None;
      tasks := map i | i in tasks :: if tasks[i].Waiting? then Resumed(tasks[i].w, issued.Some?) else tasks[i];
    }
  }

  // ---------------------------------------------------------------- what a refresh leads to

  /** Task `id` asked for a refresh and was refused, or waits for the refresh in flight. */
  ghost predicate Asking(c: Client, d: Client, id: nat) {
    && id in d.tasks
    && (c.token.None? ==> d.tasks[id].Resumed? && !d.tasks[id].ok && d.flight == c.flight)
    && (c.token.Some? ==> d.tasks[id].Waiting? && d.flight == if c.flight.Some? then c.flight else c.token)
  }

  /** A tick asks for a refresh exactly when there is a token and the access token is known to expire
      within 90 seconds; otherwise it changes nothing. */
  lemma TickAsksWhen(c: Client, id: nat, now: real)
    requires Enabled(c, Tick(id, now))
    ensures var d := ClientStep(c, Tick(id, now));
            if c.token.Some? && c.expiresAt.Some? && c.expiresAt.value <= now + 90.0 then Asking(c, d, id) else d == c
  {
  }

  /** The refresh in flight ends in `issued`, and then task `id`, which waited for it, resumes. */
  function Settled(c: Client, issued: Option<Body>, id: nat): Client
    requires c.flight.Some? && id in c.tasks && c.tasks[id].Waiting?
  {
    ClientStep(ClientStep(c, RefreshDone(issued)), Resume(id))
  }

  /** A failed refresh ends the session for a tick, for the restore and for a call made within a session;
      a successful one is followed by the call again, by the question who is signed in, or by nothing,
      with the token and lifetime it brought. */
  lemma RefreshDecides(c: Client, issued: Option<Body>, id: nat)
    requires c.flight.Some? && id in c.tasks && c.tasks[id].Waiting?
    ensures var d := Settled(c, issued, id);
            var w := c.tasks[id].w;
            && d.flight.None?
            && if issued.None? then
                 && id !in d.tasks
                 && if w == Call(false) then d.token == c.token && d.access == c.access
                    else d.token.None? && d.stored.None? && !d.access && d.expiresAt.None?
               else
                 && d.access
                 && d.token == (if issued.value.refresh.None? || issued.value.refresh == Some("") then c.token
                                else issued.value.refresh)
                 && (issued.value.expiresIn.Some? && issued.value.expiresIn.value != 0.0 ==>
                       d.expiresAt == Some(issued.value.at + issued.value.expiresIn.value))
                 && match w
                    case Call(had) => id in d.tasks && d.tasks[id] == Sent(had, false, true)
                    case Restoring => id in d.tasks && d.tasks[id] == Sent(true, true, false)
                    case Ticking => id !in d.tasks
  {
  }

  // ---------------------------------------------------------------- tab and server together

  /** What happened to the tab's refresh requests: a token was presented, or a presented token's
      request ended without a new session. */
  datatype Event = Presented(t: string) | Failed(t: string)

  /** `answer` is the server's answer to the refresh in flight; `stray` the tokens of requests the tab
      gave up on that may still reach the server; `granted` the tokens of login answers on their way. */
  datatype World = World(client: Client, server: RefreshTokens.Store, answer: Option<RefreshTokens.Response>,
                         stray: set<string>, granted: set<string>, log: seq<Event>)

  datatype Action =
    | Local(x: Input)
    | Serve(genuine: bool, active: bool, jti: string, row: string)
    | Deliver(expiresIn: Option<real>, at: real)
    | Lose
    | ServeStray(t: string, genuine: bool, active: bool, jti: string, row: string)
    | Grant(user: string, jti: string, row: string)
    | Elsewhere(q: RefreshTokens.Request)

  /** The claims of a presented token, unless its signature or expiry is refused. */
  function ClaimsOf(s: RefreshTokens.Store, t: string, genuine: bool): Option<RefreshTokens.Claims> {
    if genuine then Some(RefreshTokens.Claims(t, if t in s then s[t].user else "")) else None
  }

  function RefreshOf(w: World, t: string, genuine: bool, active: bool, jti: string,
                     row: string): RefreshTokens.Request {
    RefreshTokens.Request.Refresh(ClaimsOf(w.server, t, genuine), active, jti, row)
  }

  /** Presented, and no failure since. */
  predicate Spent(log: seq<Event>, t: string) {
    log != [] && (log[|log| - 1] == Presented(t)
                  || (log[|log| - 1] != Failed(t) && Spent(log[..|log| - 1], t)))
  }

  /** A request the server may see: whatever identifiers it issues were never used before, neither by
      the server nor in the tab. */
  ghost predicate Admissible(w: World, q: RefreshTokens.Request) {
    && RefreshTokens.FreshIn(w.server, q)
    && ((q.Login? || q.Refresh?) ==>
          q.jti != "" && !Spent(w.log, q.jti) && w.client.token != Some(q.jti) && q.jti !in w.granted
          && w.answer != Some(RefreshTokens.Issued(q.jti)))
  }

  ghost predicate Can(w: World, a: Action) {
    match a
    case Local(x) =>
      && Enabled(w.client, x) && !x.RefreshDone?
      && (x.Establish? ==> x.login.refresh.Some? && x.login.refresh.value in w.granted)
    case Serve(g, act, jti, row) =>
      w.client.flight.Some? && w.answer.None? && Admissible(w, RefreshOf(w, w.client.flight.value, g, act, jti, row))
    case Deliver(_, _) => w.client.flight.Some? && w.answer.Some?
    case Lose => w.client.flight.Some?
    case ServeStray(t, g, act, jti, row) => t in w.stray && Admissible(w, RefreshOf(w, t, g, act, jti, row))
    case Grant(user, jti, row) => Admissible(w, RefreshTokens.Login(user, jti, row))
    case Elsewhere(q) => Admissible(w, q)
  }

  /** The tab takes a step: a refresh that starts is presented, one that is abandoned has failed. */
  function Moved(w: World, x: Input): World
    requires Enabled(w.client, x)
  {
    var c := ClientStep(w.client, x);
    if w.client.flight.None? && c.flight.Some? then w.(client := c, log := w.log + [Presented(c.flight.value)])
    else if w.client.flight.Some? && c.flight.None? then Abandoned(w).(client := c)
    else w.(client := c)
  }

  function Abandoned(w: World): World
    requires w.client.flight.Some?
  {
    w.(answer := None, log := w.log + [Failed(w.client.flight.value)],
       stray := if w.answer.None? then w.stray + {w.client.flight.value} else w.stray)
  }

  ghost function Next(w: World, a: Action): World
    requires Can(w, a)
  {
    match a
    case Local(x) =>
      var m := Moved(w, x);
      if x.Establish? then m.(granted := w.granted - {x.login.refresh.value})
      else if x.Reload? then m.(granted := {})
      else m
    case Serve(g, act, jti, row) =>
      var served := RefreshTokens.Serve(w.server, RefreshOf(w, w.client.flight.value, g, act, jti, row));
      w.(server := served.s, answer := Some(served.r))
    case Deliver(expiresIn, at) =>
      if w.answer.value.Issued?
      then w.(client := ClientStep(w.client, RefreshDone(Some(Body(Some(w.answer.value.jti), expiresIn, at)))),
              answer := None)
      else w.(client := ClientStep(w.client, RefreshDone(None)), answer := None, log := w.log
              + [Failed(w.client.flight.value)])
    case Lose => Abandoned(w).(client := ClientStep(w.client, RefreshDone(None)))
    case ServeStray(t, g, act, jti, row) =>
      w.(server := RefreshTokens.Serve(w.server, RefreshOf(w, t, g, act, jti, row)).s, stray := w.stray - {t})
    case Grant(user, jti, row) =>
      w.(server := RefreshTokens.Serve(w.server, RefreshTokens.Login(user, jti, row)).s, granted := w.granted + {jti})
    case Elsewhere(q) => w.(server := RefreshTokens.Serve(w.server, q).s)
  }

  /** A freshly loaded page, with whatever token session storage still held. */
  ghost predicate Start(w: World) {
    && w.client == Client(false, None, w.client.stored, w.client.stored, None, map[])
    && w.answer.None? && w.stray == {} && w.granted == {} && w.log == []
  }

  ghost predicate Path(run: seq<World>, acts: seq<Action>) {
    && |run| == |acts| + 1
    && Start(run[0])
    && forall k :: 0 <= k < |acts| ==> Steps(run, acts, k)
  }

  ghost predicate Steps(run: seq<World>, acts: seq<Action>, k: nat)
    requires k < |acts| < |run|
  {
    Can(run[k], acts[k]) && run[k + 1] == Next(run[k], acts[k])
  }

  // ---------------------------------------------------------------- one presentation per token

  /** No token is presented while an earlier presentation of it has not failed. */
  ghost predicate Clean(log: seq<Event>) {
    forall j :: 0 <= j < |log| && log[j].Presented? ==> !Spent(log[..j], log[j].t)
  }

  /** Session storage mirrors the token; a token the tab holds or is about to receive is unspent, save
      the one in flight; tasks wait only while a refresh is in flight. */
  ghost predicate Calm(w: World) {
    && Clean(w.log)
    && w.client.stored == w.client.token
    && (w.client.token.Some? && Spent(w.log, w.client.token.value) ==> w.client.flight == w.client.token)
    && (forall t :: t in w.granted ==> !Spent(w.log, t) && w.client.token != Some(t))
    && (w.answer.Some? ==> w.client.flight.Some?)
    && (w.answer.Some? && w.answer.value.Issued? ==>
          w.answer.value.jti != "" && !Spent(w.log, w.answer.value.jti) && w.client.token != Some(w.answer.value.jti)
              && w.answer.value.jti !in w.granted)
    && NobodyStranded(w.client)
  }

  lemma {:induction false} CleanExtends(log: seq<Event>, e: Event)
    requires Clean(log) && (e.Presented? ==> !Spent(log, e.t))
    ensures Clean(log + [e])
    ensures forall t :: Spent(log + [e], t) <==> e == Presented(t) || (e != Failed(t) && Spent(log, t))
  {
    var more := log + [e];
    assert more[..|log|] == log;
    forall j | 0 <= j < |more| && more[j].Presented? ensures !Spent(more[..j], more[j].t) {
      assert j < |log| ==> more[..j] == log[..j];
    }
  }

  /** Tasks wait only while a refresh is in flight. */
  ghost predicate NobodyStranded(c: Client) {
    c.flight.None? ==> forall i :: i in c.tasks ==> !c.tasks[i].Waiting?
  }

  /** A step of the tab alone keeps the token, drops it or takes the one of a login, and keeps the
      refresh in flight, starts one with the token held, or abandons it by a page load. */
  lemma {:induction false} TabMoves(c: Client, x: Input)
    requires Enabled(c, x) && !x.RefreshDone? && c.stored == c.token && NobodyStranded(c)
    ensures var d := ClientStep(c, x);
            && d.stored == d.token
            && NobodyStranded(d)
            && (if x.Establish? && Renews(x.login) then d.token == x.login.refresh
                else d.token == c.token || d.token.None?)
            && (d.flight == c.flight
                || (c.flight.None? && d.flight.Some? && d.flight == c.token && d.token == c.token)
                || (x.Reload? && d.flight.None?))
            && (x.Reload? ==> d.flight.None?)
  {
  }

  lemma {:induction false} MoveStaysCalm(w: World, x: Input)
    requires Calm(w) && Can(w, Local(x))
    ensures Calm(Next(w, Local(x)))
  {
    TabMoves(w.client, x);
    hide ClientStep, NobodyStranded;
    var c := ClientStep(w.client, x);
    if w.client.flight.None? && c.flight.Some? {
      assert c.flight == w.client.token;
      CleanExtends(w.log, Presented(c.flight.value));
    } else if w.client.flight.Some? && c.flight.None? {
      CleanExtends(w.log, Failed(w.client.flight.value));
    }
  }

  lemma {:induction false} StepStaysCalm(w: World, a: Action)
    requires Calm(w) && Can(w, a)
    ensures Calm(Next(w, a))
  {
    match a
    case Local(x) => MoveStaysCalm(w, x);
    case Deliver(_, _) =>
      if !w.answer.value.Issued? {
        CleanExtends(w.log, Failed(w.client.flight.value));
      }
    case Lose => CleanExtends(w.log, Failed(w.client.flight.value));
    case Serve(_, _, _, _) =>
    case ServeStray(_, _, _, _, _) =>
    case Grant(_, _, _) =>
    case Elsewhere(_) =>
  }

  lemma {:induction false} RunStaysCalm(run: seq<World>, acts: seq<Action>, k: nat)
    requires Path(run, acts) && k < |run|
    ensures Calm(run[k])
  {
    if k > 0 {
      RunStaysCalm(run, acts, k - 1);
      assert Steps(run, acts, k - 1);
      StepStaysCalm(run[k - 1], acts[k - 1]);
    }
  }

  lemma {:induction false} SpentUntilFailed(log: seq<Event>, i: nat, t: string)
    requires i < |log| && log[i] == Presented(t) && !Spent(log, t)
    ensures exists k :: i < k < |log| && log[k] == Failed(t)
  {
    var n := |log| - 1;
    if log[n] != Failed(t) {
      assert i < n;
      SpentUntilFailed(log[..n], i, t);
      var k :| i < k < n && log[..n][k] == Failed(t);
      assert log[k] == Failed(t);
    }
  }

  /** In every interleaving of calls, ticks, page loads, logins, logouts, lost answers and whatever else
      happens at the server, a tab presents a refresh token again only after the earlier request with
      it ended without a session. */
  lemma {:induction false} PresentedOnceUnlessFailed(run: seq<World>, acts: seq<Action>, k: nat, i: nat, j: nat,
                                                     t: string)
    requires Path(run, acts) && k < |run|
    requires i < j < |run[k].log| && run[k].log[i] == Presented(t) && run[k].log[j] == Presented(t)
    ensures exists m :: i < m < j && run[k].log[m] == Failed(t)
  {
    RunStaysCalm(run, acts, k);
    var log := run[k].log;
    assert !Spent(log[..j], log[j].t);
    SpentUntilFailed(log[..j], i, t);
    var m :| i < m < j && log[..j][m] == Failed(t);
    assert log[m] == Failed(t);
  }

  // ---------------------------------------------------------------- undisturbed runs

  /** The token the session rests on: the answer on its way, else the one in flight, else the one held. */
  function Live(w: World): Option<string> {
    if w.client.flight.None? then w.client.token
    else if w.answer.Some? && w.answer.value.Issued? then Some(w.answer.value.jti)
    else w.client.flight
  }

  /** Steps of one tab left alone: answers are delivered, nobody signs in or out in it, it is not
      reloaded during a refresh, its tokens have not expired, the user stays active, and nothing that
      happens at the server takes its live token out of use. */
  ghost predicate Undisturbed(w: World, a: Action) {
    match a
    case Local(x) => !x.SignOut? && !x.Establish? && (x.Reload? ==> w.client.flight.None?)
    case Serve(genuine, active, _, _) => genuine && active
    case Deliver(_, _) => true
    case Lose => false
    case ServeStray(_, _, _, _, _) => true
    case Grant(_, _, _) => true
    case Elsewhere(q) => Live(w).Some? && Live(w).value in w.server ==> !RefreshTokens.Ends(w.server, q, Live(w).value)
  }

  ghost predicate QuietPath(run: seq<World>, acts: seq<Action>) {
    && Path(run, acts)
    && (run[0].client.token.Some? ==> RefreshTokens.Usable(run[0].server, run[0].client.token.value))
    && forall k :: 0 <= k < |acts| ==> Undisturbed(run[k], acts[k])
  }

  ghost predicate NoFailure(log: seq<Event>) {
    forall j :: 0 <= j < |log| ==> log[j].Presented?
  }

  /** The live token is usable, no refresh has failed, and every answer on its way brings a token. */
  ghost predicate Sound(w: World) {
    && w.stray == {}
    && NoFailure(w.log)
    && (Live(w).Some? ==> RefreshTokens.Usable(w.server, Live(w).value))
    && (w.client.flight.Some? ==> w.client.token.None? || w.client.token == w.client.flight)
    && (w.answer.Some? ==> w.client.flight.Some? && w.answer.value.Issued? && w.answer.value.jti != "")
  }

  lemma {:induction false} StepStaysSound(w: World, a: Action)
    requires Sound(w) && w.client.stored == w.client.token && Can(w, a) && Undisturbed(w, a)
    ensures Sound(Next(w, a))
  {
    match a
    case Local(_) =>
    case Serve(g, act, jti, row) =>
    case Deliver(_, _) =>
    case ServeStray(_, _, _, _, _) =>
    case Grant(user, jti, row) =>
      if Live(w).Some? {
        RefreshTokens.UsableAfter(w.server, RefreshTokens.Login(user, jti, row), Live(w).value);
      }
    case Elsewhere(q) =>
      if Live(w).Some? {
        RefreshTokens.UsableAfter(w.server, q, Live(w).value);
      }
  }

  lemma {:induction false} RunStaysSound(run: seq<World>, acts: seq<Action>, k: nat)
    requires QuietPath(run, acts) && k < |run|
    ensures Sound(run[k])
  {
    if k > 0 {
      RunStaysSound(run, acts, k - 1);
      RunStaysCalm(run, acts, k - 1);
      assert Steps(run, acts, k - 1);
      StepStaysSound(run[k - 1], acts[k - 1]);
    }
  }

  /** Left alone, concurrent calls and ticks in any interleaving present every refresh token at most
      once, the server accepts each, and the token the tab goes on with is usable. */
  lemma {:induction false} PresentedAtMostOnce(run: seq<World>, acts: seq<Action>, k: nat)
    requires QuietPath(run, acts) && k < |run|
    ensures NoFailure(run[k].log)
    ensures forall i, j :: 0 <= i < j < |run[k].log| ==> run[k].log[i] != run[k].log[j]
    ensures run[k].answer.Some? ==> run[k].answer.value.Issued?
    ensures Live(run[k]).Some? ==> RefreshTokens.Usable(run[k].server, Live(run[k]).value)
  {
    RunStaysSound(run, acts, k);
    var log := run[k].log;
    forall i, j | 0 <= i < j < |log| ensures log[i] != log[j] {
      if log[i] == log[j] {
        PresentedOnceUnlessFailed(run, acts, k, i, j, log[i].t);
        assert false;
      }
    }
  }

  // ---------------------------------------------------------------- when a session ends

  /** A 401 that is not answered by a refresh although there was a session: the retried call was
      refused again, or the call went to an authentication endpoint. */
  predicate Dismissed(w: World, a: Action) {
    && a.Local? && a.x.Answered? && a.x.unauthorized && a.x.id in w.client.tasks
    && w.client.tasks[a.x.id].Sent? && w.client.tasks[a.x.id].had
    && (w.client.tasks[a.x.id].auth || w.client.tasks[a.x.id].retried)
  }

  /** There is a token and no task is about to learn that its refresh failed. */
  ghost predicate SignedIn(w: World) {
    w.client.token.Some? && forall i :: i in w.client.tasks && w.client.tasks[i].Resumed? ==> w.client.tasks[i].ok
  }

  /** Left alone, a session ends in exactly one way: a call is dismissed. So a wrong current password,
      refused with a 401 by an authentication endpoint, signs the user out. */
  lemma {:induction false} SessionEndsExactlyWhen(w: World, a: Action)
    requires Sound(w) && SignedIn(w) && w.client.stored == w.client.token && Can(w, a) && Undisturbed(w, a)
    ensures Dismissed(w, a) <==> Next(w, a).client.token.None?
    ensures !Dismissed(w, a) ==> SignedIn(Next(w, a))
  {
  }

  lemma {:induction false} SessionSurvives(run: seq<World>, acts: seq<Action>, k: nat)
    requires QuietPath(run, acts) && run[0].client.token.Some? && k < |run|
    requires forall m :: 0 <= m < k ==> !Dismissed(run[m], acts[m])
    ensures SignedIn(run[k])
  {
    if k > 0 {
      SessionSurvives(run, acts, k - 1);
      RunStaysSound(run, acts, k - 1);
      RunStaysCalm(run, acts, k - 1);
      assert Steps(run, acts, k - 1);
      SessionEndsExactlyWhen(run[k - 1], acts[k - 1]);
    }
  }

  // ---------------------------------------------------------------- a wrong password ends a session

  const STORED: RefreshTokens.Store := map["t" := RefreshTokens.Record("r", "u", false, None)]

  const ROTATED: RefreshTokens.Store := map["t" := RefreshTokens.Record("r", "u", true, Some("n")),
                                            "n" := RefreshTokens.Record("s", "u", false, None)]

  const RESTORING: map<nat, Task> := map[0 := Waiting(Restoring)]
  const RESTORED: map<nat, Task> := map[0 := Resumed(Restoring, true)]

  /** The page is loaded, its session restored, and a call to an authentication endpoint (number 1, say
      to change the password, with a wrong current one) is answered with a 401. */
  const VISIT := [Local(Restore(0)), Serve(true, true, "n", "s"), Deliver(Some(900.0), 0.0), Local(StartCall(1, true)),
                  Local(Answered(1, true))]

  const WORLDS := [
    World(Client(false, None, Some("t"), Some("t"), None, map[]), STORED, None, {}, {}, []),
    World(Client(false, None, Some("t"), Some("t"), Some("t"), RESTORING), STORED, None, {}, {}, [Presented("t")]),
    World(Client(false, None, Some("t"), Some("t"), Some("t"), RESTORING), ROTATED, Some(RefreshTokens.Issued("n")),
          {}, {},
          [Presented("t")]),
    World(Client(true, Some(900.0), Some("n"), Some("n"), None, RESTORED), ROTATED, None, {}, {}, [Presented("t")]),
    World(Client(true, Some(900.0), Some("n"), Some("n"), None, RESTORED[1 := Sent(true, true, false)]), ROTATED, None,
          {}, {},
          [Presented("t")]),
    World(Client(false, None, None, None, None, RESTORED), ROTATED, None, {}, {}, [Presented("t")])
  ]

  ghost predicate GoesOn(k: nat)
    requires k < 5
  {
    Steps(WORLDS, VISIT, k) && Undisturbed(WORLDS[k], VISIT[k])
  }

  lemma VisitRestores()
    ensures GoesOn(0)
  {
    assert map[][0 := Waiting(Restoring)] == RESTORING;
  }

  lemma VisitIsServed()
    ensures GoesOn(1)
  {
    var w := WORLDS[1];
    var q := RefreshOf(w, "t", true, true, "n", "s");
    assert RefreshTokens.Usable(STORED, "t");
    assert RefreshTokens.Rotate(STORED, "t", "u", "n", "s") == ROTATED;
    assert RefreshTokens.Serve(STORED, q) == RefreshTokens.Served(ROTATED, RefreshTokens.Issued("n"));
    assert [Presented("t")][..0] == [];
    assert !Spent(w.log, "n");
  }

  lemma VisitIsAnswered()
    ensures GoesOn(2)
  {
    assert Woken(RESTORING, true) == RESTORED;
  }

  lemma VisitCalls()
    ensures GoesOn(3)
  {
  }

  lemma VisitIsDismissed()
    ensures GoesOn(4) && Dismissed(WORLDS[4], VISIT[4])
  {
    assert RESTORED[1 := Sent(true, true, false)] - {1} == RESTORED;
  }

  /** So an undisturbed run can end without a session although the tab's token was still usable. */
  lemma WrongPasswordEndsSession()
    ensures QuietPath(WORLDS, VISIT) && Dismissed(WORLDS[4], VISIT[4])
    ensures WORLDS[4].client.token == Some("n") && WORLDS[5].client.token == None
    ensures RefreshTokens.Usable(WORLDS[5].server, "n")
  {
    VisitRestores();
    VisitIsServed();
    VisitIsAnswered();
    VisitCalls();
    VisitIsDismissed();
    hide Steps, Undisturbed, Dismissed;
    forall k: nat | k < |VISIT| ensures GoesOn(k) {
      assert k == 0 || k == 1 || k == 2 || k == 3 || k == 4;
    }
  }
}
