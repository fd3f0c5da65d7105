/** The gateway client's token cache (internal/services/gateway.go getToken, authenticate). */
module Gateway {
  import opened Wrappers

  const SECOND := 1_000_000_000
  const BUFFER := 60 * SECOND

  /** How an api_login ends: an error or a refusal, or a body with an access token whose exp claim may be unreadable. */
  datatype Login = Refused | Answered(access: string, exp: Option<int>)

  /** One getToken: the time of the check, the time the login returned if there was one, and its outcome. */
  datatype Call = Call(now: int, done: int, login: Login)

  datatype Token = Token(tok: string, expiry: int)

  /** The cached token is still good: it does not expire within the next 60 seconds. */
  predicate Fresh(t: Token, now: int) {
    t.tok != "" && now + BUFFER < t.expiry
  }

  /** The login yields a token with an expiry (section 4.1.4 of RFC 7519: seconds since the epoch). */
  predicate Succeeds(login: Login) {
    login.Answered? && login.access != "" && login.exp.Some?
  }

  predicate LogsIn(t: Token, c: Call) {
    !Fresh(t, c.now) && Succeeds(c.login)
  }

  function After(t: Token, c: Call): Token {
    if LogsIn(t, c) then Token(c.login.access, c.login.exp.value * SECOND) else t
  }

  class GatewayClient {
    var tok: string
    var expiry: int

    ghost function State(): Token
      reads this
    {
      Token(tok, expiry)
    }

    constructor ()
      ensures State() == Token("", 0)
    {
      tok, expiry := "", 0;
    }

    /** getToken, under its mutex. A failed login leaves token and expiry as they were. */
    method GetToken(c: Call) returns (r: Option<string>)
      modifies this
      ensures State() == After(old(State()), c)
      ensures old(tok) != "" && c.now + 60_000_000_000 < old(expiry) ==> r == Some(old(tok)) && State() == old(State())
      ensures !(old(tok) != "" && c.now + 60_000_000_000 < old(expiry)) ==>
                if c.login.Answered? && c.login.access != "" && c.login.exp.Some?
                then r == Some(c.login.access) && State() == Token(c.login.access, c.login.exp.value * 1_000_000_000)
                else r == None && State() == old(State())
    {
      if tok != "" && c.now + BUFFER < expiry {
        return Some(tok);
      }
      var ok := Authenticate(c.login);
      if !ok { return None; }
      r := Some(tok);
    }

    /** authenticate: both fields change together, or neither does. */
    method Authenticate(login: Login) returns (ok: bool)
      modifies this
      ensures ok == (login.Answered? && login.access != "" && login.exp.Some?)
      ensures State() == if ok then Token(login.access, login.exp.value * 1_000_000_000) else old(State())
    {
      if login.Refused? { return false; }
      if login.access == "" { return false; }
      if login.exp.None? { return false; }
      tok := login.access;
      expiry := login.exp.value * SECOND;
      ok := true;
    }
  }

  /** The state after a list of calls, and the return times of their successful logins. */
  datatype Run = Run(token: Token, logins: seq<int>)

  function RunOf(calls: seq<Call>): Run {
    if calls == [] then Run(Token("", 0), []) else
      var before, c := RunOf(calls[..|calls| - 1]), calls[|calls| - 1];
      Run(After(before.token, c), if LogsIn(before.token, c) then before.logins + [c.done] else before.logins)
  }

  /** The calls come one after another, on one clock. */
  predicate Ordered(calls: seq<Call>) {
    && (forall i :: 0 <= i < |calls| ==> calls[i].now <= calls[i].done)
    && (forall i, j :: 0 <= i < j < |calls| ==> calls[i].done <= calls[j].now)
  }

  /** Every token issued lives at least `life` after its login returned. */
  predicate LongLived(calls: seq<Call>, life: int) {
    forall i :: 0 <= i < |calls| && Succeeds(calls[i].login) ==>
           calls[i].login.exp.value * SECOND >= calls[i].done + life
  }

  /** The cached token is that of the last login. */
  lemma {:induction false} TokenOfLastLogin(calls: seq<Call>, life: int)
    requires Ordered(calls) && LongLived(calls, life)
    ensures var r := RunOf(calls);
            && (r.logins == [] ==> r.token.tok == "")
            && (r.logins != [] ==> r.token.tok != "" && r.token.expiry >= r.logins[|r.logins| - 1] + life)
            && forall i :: 0 <= i < |r.logins| ==> exists k :: 0 <= k < |calls| && r.logins[i] == calls[k].done
  {
    if calls != [] {
      var before, c := calls[..|calls| - 1], calls[|calls| - 1];
      TokenOfLastLogin(before, life);
      var r, b := RunOf(calls), RunOf(before);
      forall i | 0 <= i < |r.logins| ensures exists k :: 0 <= k < |calls| && r.logins[i] == calls[k].done {
        if i < |b.logins| {
          var k :| 0 <= k < |before| && b.logins[i] == before[k].done;
          assert calls[k] == before[k];
        } else {
          assert r.logins[i] == calls[|calls| - 1].done;
        }
      }
    }
  }

  function Times(n: int, d: int): int { n * d }

  lemma {:induction false} RateBound(calls: seq<Call>, life: int)
    requires Ordered(calls) && LongLived(calls, life)
    ensures var ls := RunOf(calls).logins;
            ls != [] ==> ls[|ls| - 1] - ls[0] >= Times(|ls| - 1, life - BUFFER)
  {
    if calls != [] {
      var before, c := calls[..|calls| - 1], calls[|calls| - 1];
      RateBound(before, life);
      TokenOfLastLogin(before, life);
      var b := RunOf(before);
      if LogsIn(b.token, c) && b.logins != [] {
        var n := |b.logins|;
        assert c.done >= c.now >= b.token.expiry - BUFFER >= b.logins[n - 1] + life - BUFFER;
        OneMore(n, life - BUFFER);
      }
    }
  }

  /**
   The login rate bound: if every issued token lives longer than 60 seconds, n successful logins
   take at least n - 1 times the excess.
   */
  lemma LoginRateBound(calls: seq<Call>, life: int)
    requires Ordered(calls) && LongLived(calls, life)
    ensures var ls := RunOf(calls).logins;
            ls != [] ==> ls[|ls| - 1] - ls[0] >= (|ls| - 1) * (life - 60_000_000_000)
  {
    RateBound(calls, life);
  }

  lemma OneMore(n: int, d: int)
    ensures Times(n, d) == Times(n - 1, d) + d && Times(0, d) == 0
  {
  }

  /** Without that, no bound: tokens that expire within 60 seconds of their login are never reused. */
  lemma {:induction false} ShortLivedNeverReused(calls: seq<Call>)
    requires Ordered(calls)
    requires forall i :: 0 <= i < |calls| ==>
             Succeeds(calls[i].login) && calls[i].login.exp.value * SECOND <= calls[i].done + 60_000_000_000
    ensures |RunOf(calls).logins| == |calls|
    ensures calls != [] ==> RunOf(calls).token.expiry <= calls[|calls| - 1].done + BUFFER
  {
    if calls != [] {
      ShortLivedNeverReused(calls[..|calls| - 1]);
    }
  }

  /** Call k is the last one that logged in. */
  predicate LastLogin(calls: seq<Call>, k: nat) {
    && k < |calls| && LogsIn(RunOf(calls[..k]).token, calls[k])
    && forall j :: k < j < |calls| ==> !LogsIn(RunOf(calls[..j]).token, calls[j])
  }

  /** What is handed out from the cache is the token of the last login, and lives for more than another 60 seconds. */
  lemma ServedTokenLives(calls: seq<Call>, c: Call) returns (k: nat)
    requires Fresh(RunOf(calls).token, c.now)
    ensures LastLogin(calls, k)
    ensures RunOf(calls).token == Token(calls[k].login.access, calls[k].login.exp.value * SECOND)
    ensures calls[k].login.exp.value * 1_000_000_000 - c.now > 60_000_000_000
    ensures RunOf(calls + [c]) == RunOf(calls)
  {
    assert (calls + [c])[..|calls|] == calls;
    k := TokenOfLast(calls);
  }

  lemma {:induction false} TokenOfLast(calls: seq<Call>) returns (k: nat)
    requires RunOf(calls).token.tok != ""
    ensures LastLogin(calls, k)
    ensures RunOf(calls).token == Token(calls[k].login.access, calls[k].login.exp.value * SECOND)
  {
    var m := |calls| - 1;
    if LogsIn(RunOf(calls[..m]).token, calls[m]) {
      k := m;
    } else {
      k := TokenOfLast(calls[..m]);
      assert calls[..m][..k] == calls[..k] && calls[..m][k] == calls[k];
      forall j | k < j < |calls| ensures !LogsIn(RunOf(calls[..j]).token, calls[j]) {
        if j < m { assert calls[..m][..j] == calls[..j] && calls[..m][j] == calls[j]; }
      }
    }
  }
}
