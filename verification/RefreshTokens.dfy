// Refresh-token rotation (apps/api/app/routes/auth.py), as serial steps over the user and token tables.
module RefreshTokens {
  import opened Options

  // A password verifies against the stored one; argon2 is not modelled further.
  datatype User = User(active: bool, password: string)

  // A row of the token table. A row's id, and the raw token that hashes to it, are its position in the table.
  datatype Token = Token(user: nat, expiresAt: int, idleExpiresAt: Option<int>, revokedAt: Option<int>, replacedBy: Option<nat>)

  datatype State = State(users: seq<User>, tokens: seq<Token>)

  const FOURTEEN_DAYS := 14 * 24 * 60 * 60

  predicate Expired(t: Token, now: int) {
    t.expiresAt <= now || (t.idleExpiresAt.Some? && t.idleExpiresAt.value <= now)
  }

  predicate Live(t: Token) {
    t.revokedAt.None?
  }

  // ---------------------------------------------------------------- steps

  // `token` is whatever the caller presents; positions outside the table stand for strings that hash to no row.
  datatype Event =
    | Login(user: nat, password: string, now: int, expiresAt: int)
    | Refresh(token: nat, now: int, expiresAt: int)
    | Logout(user: nat, token: nat, now: int)
    | ChangePassword(user: nat, current: string, next: string, now: int)
    | UsersChange(users: seq<User>)

  predicate LoginAllowed(s: State, user: nat, password: string) {
    user < |s.users| && s.users[user].active && s.users[user].password == password
  }

  predicate RefreshAllowed(s: State, token: nat, now: int) {
    && token < |s.tokens| && s.tokens[token].user < |s.users|
    && Live(s.tokens[token]) && s.users[s.tokens[token].user].active && !Expired(s.tokens[token], now)
  }

  predicate LogoutAllowed(s: State, user: nat, token: nat, now: int) {
    && user < |s.users| && s.users[user].active
    && token < |s.tokens| && s.tokens[token].user == user && Live(s.tokens[token]) && !Expired(s.tokens[token], now)
  }

  predicate Succeeds(s: State, e: Event) {
    match e
    case Login(user, password, _, _) => LoginAllowed(s, user, password)
    case Refresh(token, now, _) => RefreshAllowed(s, token, now)
    case Logout(user, token, now) => LogoutAllowed(s, user, token, now)
    case ChangePassword(user, current, _, _) => LoginAllowed(s, user, current)
    case UsersChange(users) => |users| >= |s.users|
  }

  function FreshToken(user: nat, now: int, expiresAt: int): Token {
    Token(user, expiresAt, Some(now + FOURTEEN_DAYS), None, None)
  }

  function RevokeAll(tokens: seq<Token>, user: nat, now: int): (r: seq<Token>)
    ensures |r| == |tokens|
  {
    seq(|tokens|, i requires 0 <= i < |tokens| =>
      if tokens[i].user == user && Live(tokens[i]) then tokens[i].(revokedAt := Some(now)) else tokens[i])
  }

  // A refused request changes nothing.
  function Step(s: State, e: Event): State {
    if !Succeeds(s, e) then s
    else
      match e
      case Login(user, _, now, expiresAt) => s.(tokens := s.tokens + [FreshToken(user, now, expiresAt)])
      case Refresh(token, now, expiresAt) =>
        var replaced := s.tokens[token].(revokedAt := Some(now), replacedBy := Some(|s.tokens|));
        s.(tokens := s.tokens[token := replaced] + [FreshToken(s.tokens[token].user, now, expiresAt)])
      case Logout(_, token, now) => s.(tokens := s.tokens[token := s.tokens[token].(revokedAt := Some(now))])
      case ChangePassword(user, _, next, now) =>
        State(s.users[user := s.users[user].(password := next)], RevokeAll(s.tokens, user, now))
      case UsersChange(users) => s.(users := users)
  }

  ghost predicate Run(states: seq<State>, events: seq<Event>) {
    && |states| == |events| + 1
    && states[0].tokens == []
    && forall i :: 0 <= i < |events| ==> states[i + 1] == Step(states[i], events[i])
  }

  // ---------------------------------------------------------------- the tables as an object

  class AuthTables {
    var users: seq<User>
    var tokens: seq<Token>

    function View(): State
      reads this
    {
      State(users, tokens)
    }

    constructor (users: seq<User>)
      ensures View() == State(users, [])
    {
      this.users, tokens := users, [];
    }

    method Login(user: nat, password: string, now: int, expiresAt: int) returns (issued: Option<nat>)
      modifies this
      ensures View() == Step(old(View()), Event.Login(user, password, now, expiresAt))
      ensures issued == if LoginAllowed(old(View()), user, password) then Some(|old(tokens)|) else None
    {
      if user >= |users| || !users[user].active || users[user].password != password {
        return None;
      }
      issued := Some(|tokens|);
      tokens := tokens + [Token(user, expiresAt, Some(now + FOURTEEN_DAYS), None, None)];
    }

    method Refresh(token: nat, now: int, expiresAt: int) returns (issued: Option<nat>)
      requires forall i :: 0 <= i < |tokens| ==> tokens[i].user < |users|
      modifies this
      ensures View() == Step(old(View()), Event.Refresh(token, now, expiresAt))
      ensures issued == if RefreshAllowed(old(View()), token, now) then Some(|old(tokens)|) else None
    {
      if token >= |tokens| {
        return None;
      }
      var row := tokens[token];
      if row.revokedAt.Some? || row.expiresAt <= now || !users[row.user].active {
        return None;
      }
      if row.idleExpiresAt.Some? && row.idleExpiresAt.value <= now {
        return None;
      }
      var newId := |tokens|;
      tokens := tokens + [Token(row.user, expiresAt, Some(now + FOURTEEN_DAYS), None, None)];
      tokens := tokens[token := row.(revokedAt := Some(now), replacedBy := Some(newId))];
      return Some(newId);
    }

    method Logout(user: nat, token: nat, now: int) returns (ok: bool)
      modifies this
      ensures View() == Step(old(View()), Event.Logout(user, token, now))
      ensures ok == LogoutAllowed(old(View()), user, token, now)
    {
      if user >= |users| || !users[user].active || token >= |tokens| || tokens[token].user != user {
        return false;
      }
      if tokens[token].revokedAt.Some? || Expired(tokens[token], now) {
        return false;
      }
      tokens := tokens[token := tokens[token].(revokedAt := Some(now))];
      return true;
    }

    method ChangePassword(user: nat, current: string, next: string, now: int) returns (ok: bool)
      modifies this
      ensures View() == Step(old(View()), Event.ChangePassword(user, current, next, now))
      ensures ok == LoginAllowed(old(View()), user, current)
    {
      if user >= |users| || !users[user].active || users[user].password != current {
        return false;
      }
      users := users[user := users[user].(password := next)];
      for i := 0 to |tokens|
        modifies this`tokens
        invariant |tokens| == |old(tokens)|
        invariant forall k :: 0 <= k < i ==> tokens[k] == RevokeAll(old(tokens), user, now)[k]
        invariant forall k :: i <= k < |tokens| ==> tokens[k] == old(tokens)[k]
      {
        if tokens[i].user == user && tokens[i].revokedAt.None? {
          tokens := tokens[i := tokens[i].(revokedAt := Some(now))];
        }
      }
      return true;
    }
  }

  // ---------------------------------------------------------------- the links

  // A replaced token is revoked; its successor is a later token of the same user and replaces nothing else.
  ghost predicate Linked(tokens: seq<Token>) {
    && (forall i :: 0 <= i < |tokens| && tokens[i].replacedBy.Some? ==> LinkOk(tokens, i))
    && (forall i, j :: 0 <= i < j < |tokens| && tokens[i].replacedBy.Some? ==> tokens[i].replacedBy != tokens[j].replacedBy)
  }

  ghost predicate LinksOk(s: State) {
    Linked(s.tokens) && forall i :: 0 <= i < |s.tokens| ==> s.tokens[i].user < |s.users|
  }

  predicate LinkOk(tokens: seq<Token>, i: nat)
    requires i < |tokens| && tokens[i].replacedBy.Some?
  {
    && i < tokens[i].replacedBy.value < |tokens|
    && !Live(tokens[i]) && tokens[tokens[i].replacedBy.value].user == tokens[i].user
  }

  lemma {:induction false} LinksKept(s: State, e: Event)
    requires LinksOk(s)
    ensures LinksOk(Step(s, e))
  {
    if Succeeds(s, e) {
      match e
      case Refresh(token, now, expiresAt) =>
        RotationLinks(s.tokens, token, s.tokens[token].(revokedAt := Some(now), replacedBy := Some(|s.tokens|)),
                      FreshToken(s.tokens[token].user, now, expiresAt));
      case Login(user, _, now, expiresAt) => SameLinks(s.tokens, s.tokens + [FreshToken(user, now, expiresAt)]);
      case _ => SameLinks(s.tokens, Step(s, e).tokens);
    }
  }

  // The row of a refresh gets its link, to the row that is added.
  lemma {:induction false} RotationLinks(tokens: seq<Token>, i: nat, spent: Token, added: Token)
    requires Linked(tokens) && i < |tokens| && tokens[i].replacedBy.None?
    requires !Live(spent) && spent.replacedBy == Some(|tokens|) && spent.user == tokens[i].user
    requires added.replacedBy.None? && added.user == tokens[i].user
    ensures Linked(tokens[i := spent] + [added])
  {
    var t := tokens[i := spent] + [added];
    forall k | 0 <= k < |t| && t[k].replacedBy.Some? ensures LinkOk(t, k) {
      if k != i { assert LinkOk(tokens, k); }
    }
    forall k, l | 0 <= k < l < |t| && t[k].replacedBy.Some? ensures t[k].replacedBy != t[l].replacedBy {
      if k != i { assert LinkOk(tokens, k); }
      if l != i && t[l].replacedBy.Some? { assert LinkOk(tokens, l); }
    }
  }

  // Revocations and new rows without a link leave the links as they are.
  lemma {:induction false} SameLinks(tokens: seq<Token>, t: seq<Token>)
    requires Linked(tokens) && |tokens| <= |t|
    requires forall k :: 0 <= k < |tokens| ==>
               t[k].replacedBy == tokens[k].replacedBy && t[k].user == tokens[k].user && (Live(t[k]) ==> Live(tokens[k]))
    requires forall k :: |tokens| <= k < |t| ==> t[k].replacedBy.None?
    ensures Linked(t)
  {
    forall k | 0 <= k < |t| && t[k].replacedBy.Some? ensures LinkOk(t, k) { assert LinkOk(tokens, k); }
  }

  lemma {:induction false} RunLinks(states: seq<State>, events: seq<Event>, i: nat)
    requires Run(states, events) && i < |states|
    ensures LinksOk(states[i])
  {
    if i > 0 {
      RunLinks(states, events, i - 1);
      LinksKept(states[i - 1], events[i - 1]);
      assert states[i] == Step(states[i - 1], events[i - 1]);
    }
  }

  // The token and those that replaced it, one after the other.
  ghost function Chain(tokens: seq<Token>, i: nat): (r: seq<nat>)
    requires Linked(tokens) && i < |tokens|
    ensures r != [] && r[0] == i
    decreases |tokens| - i
  {
    if tokens[i].replacedBy.None? then [i]
    else
      assert LinkOk(tokens, i);
      [i] + Chain(tokens, tokens[i].replacedBy.value)
  }

  // A chain never comes back: it climbs through later and later tokens of one user, and only its last can be live.
  lemma {:induction false} ChainIsSimple(tokens: seq<Token>, i: nat)
    requires Linked(tokens) && i < |tokens|
    ensures var c := Chain(tokens, i);
            && (forall a :: 0 <= a < |c| ==> i <= c[a] < |tokens| && tokens[c[a]].user == tokens[i].user)
            && (forall a, b :: 0 <= a < b < |c| ==> c[a] < c[b])
            && (forall a :: 0 <= a < |c| - 1 ==> !Live(tokens[c[a]]) && tokens[c[a]].replacedBy == Some(c[a + 1]))
            && tokens[c[|c| - 1]].replacedBy.None?
    decreases |tokens| - i
  {
    if tokens[i].replacedBy.Some? {
      assert LinkOk(tokens, i);
      ChainIsSimple(tokens, tokens[i].replacedBy.value);
    }
  }

  // Nothing but its predecessor leads to a token.
  lemma {:induction false} ChainReaches(tokens: seq<Token>, i: nat, k: nat)
    requires Linked(tokens) && i < |tokens| && k in Chain(tokens, i) && k != i
    ensures exists p :: p in Chain(tokens, i) && p < |tokens| && tokens[p].replacedBy == Some(k)
  {
    ChainIsSimple(tokens, i);
    var c := Chain(tokens, i);
    var a :| 0 <= a < |c| && c[a] == k;
    assert c[a - 1] in c && tokens[c[a - 1]].replacedBy == Some(c[a - 1 + 1]);
  }

  lemma {:induction false} ChainGoesOn(tokens: seq<Token>, i: nat, k: nat)
    requires Linked(tokens) && i < |tokens| && k in Chain(tokens, i) && k < |tokens| && tokens[k].replacedBy.Some?
    ensures tokens[k].replacedBy.value in Chain(tokens, i)
  {
    ChainIsSimple(tokens, i);
    var c := Chain(tokens, i);
    var a :| 0 <= a < |c| && c[a] == k;
    assert a < |c| - 1 && c[a + 1] in c;
  }

  // Two chains that share a token are one chain, entered at different places.
  lemma {:induction false} ChainsMeet(tokens: seq<Token>, i: nat, j: nat, k: nat)
    requires Linked(tokens) && i < |tokens| && j < |tokens|
    requires k in Chain(tokens, i) && k in Chain(tokens, j)
    ensures i in Chain(tokens, j) || j in Chain(tokens, i)
    decreases 2 * |tokens| - i - j, if j < i then 1 else 0
  {
    ChainIsSimple(tokens, i);
    ChainIsSimple(tokens, j);
    if i < j {
      assert LinkOk(tokens, i);
      var next := tokens[i].replacedBy.value;
      ChainsMeet(tokens, next, j, k);
      if next in Chain(tokens, j) && next != j {
        ChainReaches(tokens, j, next);
        var p :| p in Chain(tokens, j) && p < |tokens| && tokens[p].replacedBy == Some(next);
        assert p == i;
      }
    } else if j < i {
      ChainsMeet(tokens, j, i, k);
    }
  }

  // A token that replaced none.
  ghost predicate IsRoot(tokens: seq<Token>, r: nat) {
    r < |tokens| && forall i :: 0 <= i < |tokens| ==> tokens[i].replacedBy != Some(r)
  }

  lemma {:induction false} RootExists(tokens: seq<Token>, k: nat) returns (r: nat)
    requires Linked(tokens) && k < |tokens|
    ensures IsRoot(tokens, r) && k in Chain(tokens, r)
    decreases k
  {
    if IsRoot(tokens, k) {
      r := k;
      assert Chain(tokens, k)[0] == k;
    } else {
      var i :| 0 <= i < |tokens| && tokens[i].replacedBy == Some(k);
      assert LinkOk(tokens, i);
      r := RootExists(tokens, i);
      ChainGoesOn(tokens, r, i);
    }
  }

  // The chains of the roots are disjoint and cover the table: every token is in the chain of exactly one root.
  lemma {:induction false} OneRootEach(tokens: seq<Token>, k: nat) returns (r: nat)
    requires Linked(tokens) && k < |tokens|
    ensures IsRoot(tokens, r) && k in Chain(tokens, r)
    ensures forall other :: IsRoot(tokens, other) && k in Chain(tokens, other) ==> other == r
  {
    r := RootExists(tokens, k);
    forall other | IsRoot(tokens, other) && k in Chain(tokens, other) ensures other == r {
      ChainsMeet(tokens, r, other, k);
      if other != r {
        if r in Chain(tokens, other) { ChainReaches(tokens, other, r); } else { ChainReaches(tokens, r, other); }
      }
    }
  }

  // ---------------------------------------------------------------- rows over time

  // Rows are never removed, a revoked row never changes again, and no row changes its user or its expiry.
  ghost predicate Grows(a: seq<Token>, b: seq<Token>) {
    |a| <= |b| && forall i :: 0 <= i < |a| ==> RowKept(a[i], b[i])
  }

  predicate RowKept(t: Token, u: Token) {
    && (!Live(t) ==> u == t)
    && u.user == t.user && u.expiresAt == t.expiresAt && u.idleExpiresAt == t.idleExpiresAt
  }

  lemma {:induction false} RunGrows(states: seq<State>, events: seq<Event>, a: nat, b: nat)
    requires Run(states, events) && a <= b < |states|
    ensures Grows(states[a].tokens, states[b].tokens)
    decreases b - a
  {
    if a < b {
      RunGrows(states, events, a, b - 1);
      assert states[b] == Step(states[b - 1], events[b - 1]);
      assert Grows(states[b - 1].tokens, states[b].tokens);
    }
  }

  // ---------------------------------------------------------------- who may add a row, and how long it can be used

  predicate RightPassword(s: State, user: nat, password: string) {
    user < |s.users| && s.users[user].active && password == s.users[user].password
  }

  // The row is there, unrevoked, not over either of its times, and its user is active.
  predicate Usable(s: State, token: nat, now: int) {
    && token < |s.tokens| && s.tokens[token].revokedAt == None
    && now < s.tokens[token].expiresAt && (s.tokens[token].idleExpiresAt.Some? ==> now < s.tokens[token].idleExpiresAt.value)
    && s.tokens[token].user < |s.users| && s.users[s.tokens[token].user].active
  }

  // A login with the right password or a refresh with a usable token.
  predicate AddsRow(s: State, e: Event) {
    (e.Login? && RightPassword(s, e.user, e.password)) || (e.Refresh? && Usable(s, e.token, e.now))
  }

  // Nothing else ever adds a row, and these add one.
  lemma {:induction false} RowsAdded(states: seq<State>, events: seq<Event>, i: nat)
    requires Run(states, events) && i < |events|
    ensures |states[i + 1].tokens| == |states[i].tokens| + if AddsRow(states[i], events[i]) then 1 else 0
  {
    assert states[i + 1] == Step(states[i], events[i]);
  }

  // Every row was added by one of these and keeps the times it was given then: the given expiry, and fourteen days.
  lemma {:induction false} IssuedBy(states: seq<State>, events: seq<Event>, n: nat, k: nat) returns (j: nat)
    requires Run(states, events) && n < |states| && k < |states[n].tokens|
    ensures j < n && AddsRow(states[j], events[j]) && |states[j].tokens| == k
    ensures states[n].tokens[k].expiresAt == events[j].expiresAt
    ensures states[n].tokens[k].idleExpiresAt == Some(events[j].now + 1209600)
  {
    assert states[n] == Step(states[n - 1], events[n - 1]);
    RowsAdded(states, events, n - 1);
    if k < |states[n - 1].tokens| {
      j := IssuedBy(states, events, n - 1, k);
      RunGrows(states, events, n - 1, n);
      assert RowKept(states[n - 1].tokens[k], states[n].tokens[k]);
    } else {
      j := n - 1;
    }
  }

  // A token that a refresh or a logout accepts was issued by such a step, at most fourteen days before and before the expiry
  // given there.
  lemma {:induction false} UsedInTime(states: seq<State>, events: seq<Event>, i: nat) returns (j: nat)
    requires Run(states, events) && i < |events| && (events[i].Refresh? || events[i].Logout?)
    requires states[i + 1] != states[i]
    ensures j < i && AddsRow(states[j], events[j]) && |states[j].tokens| == events[i].token
    ensures events[i].now < events[j].expiresAt && events[i].now < events[j].now + 1209600
  {
    assert states[i + 1] == Step(states[i], events[i]);
    j := IssuedBy(states, events, i, events[i].token);
  }

  // Step a is a password change with the right current password.
  ghost predicate RightChange(states: seq<State>, events: seq<Event>, a: nat)
    requires a < |events| && |states| == |events| + 1
  {
    events[a].ChangePassword? && RightPassword(states[a], events[a].user, events[a].current)
  }

  // Between a password change and the next change to that user, by him or by an administrator.
  ghost predicate PasswordKept(events: seq<Event>, user: nat, a: nat, b: nat)
    requires b <= |events|
  {
    forall i :: a < i < b ==> !events[i].UsersChange? && (events[i].ChangePassword? ==> events[i].user != user)
  }

  // ... exactly the new password lets the user in.
  lemma {:induction false} OnlyNewPassword(states: seq<State>, events: seq<Event>, a: nat, b: nat)
    requires Run(states, events) && a < b < |events| && RightChange(states, events, a)
    requires PasswordKept(events, events[a].user, a, b)
    requires events[b].Login? && events[b].user == events[a].user
    ensures |states[b + 1].tokens| == |states[b].tokens| + if events[b].password == events[a].next then 1 else 0
  {
    PasswordStays(states, events, a, b);
    RowsAdded(states, events, b);
  }

  lemma {:induction false} PasswordStays(states: seq<State>, events: seq<Event>, a: nat, b: nat)
    requires Run(states, events) && a < b <= |events| && RightChange(states, events, a)
    requires PasswordKept(events, events[a].user, a, b)
    ensures events[a].user < |states[b].users|
    ensures states[b].users[events[a].user].active && states[b].users[events[a].user].password == events[a].next
  {
    assert states[b] == Step(states[b - 1], events[b - 1]);
    if b > a + 1 {
      PasswordStays(states, events, a, b - 1);
    }
  }

  // ---------------------------------------------------------------- the chains of logins

  // Step i is a login that issues row r.
  ghost predicate Issues(states: seq<State>, events: seq<Event>, i: nat, r: nat)
    requires |states| == |events| + 1
  {
    && i < |events| && events[i].Login? && RightPassword(states[i], events[i].user, events[i].password)
    && |states[i].tokens| == r
  }

  lemma {:induction false} StepLinks(s: State, e: Event, r: nat)
    requires Linked(s.tokens) && r < |Step(s, e).tokens| && IsRoot(Step(s, e).tokens, r)
    ensures r < |s.tokens| ==> IsRoot(s.tokens, r)
    ensures r >= |s.tokens| ==> r == |s.tokens| && e.Login? && Succeeds(s, e) && Step(s, e).tokens[r].user == e.user
  {
    var t := Step(s, e).tokens;
    forall i | r < |s.tokens| && 0 <= i < |s.tokens| ensures s.tokens[i].replacedBy != Some(r) {
      if s.tokens[i].replacedBy.Some? { assert LinkOk(s.tokens, i); }
      assert t[i].replacedBy != Some(r);
    }
    if Succeeds(s, e) && e.Refresh? { assert t[e.token].replacedBy == Some(|s.tokens|); }
  }

  // The tokens that replaced none are those that logins issued.
  lemma {:induction false} RootIsLogin(states: seq<State>, events: seq<Event>, n: nat, r: nat) returns (i: nat)
    requires Run(states, events) && n < |states| && r < |states[n].tokens| && IsRoot(states[n].tokens, r)
    ensures i < n && Issues(states, events, i, r) && events[i].user == states[n].tokens[r].user
  {
    assert states[n] == Step(states[n - 1], events[n - 1]);
    RunLinks(states, events, n - 1);
    StepLinks(states[n - 1], events[n - 1], r);
    if r < |states[n - 1].tokens| {
      i := RootIsLogin(states, events, n - 1, r);
      RunGrows(states, events, n - 1, n);
      assert RowKept(states[n - 1].tokens[r], states[n].tokens[r]);
    } else {
      i := n - 1;
    }
  }

  lemma {:induction false} LoginIsRoot(states: seq<State>, events: seq<Event>, n: nat, i: nat, r: nat)
    requires Run(states, events) && i < n < |states| && Issues(states, events, i, r)
    ensures IsRoot(states[n].tokens, r)
  {
    var s, e := states[n - 1], events[n - 1];
    assert states[n] == Step(s, e);
    RunLinks(states, events, n - 1);
    if n == i + 1 {
      forall k | 0 <= k < |s.tokens| && s.tokens[k].replacedBy.Some? ensures s.tokens[k].replacedBy.value < r {
        assert LinkOk(s.tokens, k);
      }
    } else {
      LoginIsRoot(states, events, n - 1, i, r);
    }
  }

  lemma {:induction false} IssuesOnce(states: seq<State>, events: seq<Event>, i: nat, j: nat, r: nat)
    requires Run(states, events) && Issues(states, events, i, r) && Issues(states, events, j, r)
    ensures i == j
  {
    assert states[i + 1] == Step(states[i], events[i]) && states[j + 1] == Step(states[j], events[j]);
    if i < j { RunGrows(states, events, i + 1, j); }
    if j < i { RunGrows(states, events, j + 1, i); }
  }

  // In every run each token is in the chain of exactly one login, which was its own user's, and is the end of that chain
  // if it is live.
  lemma {:induction false} RunChains(states: seq<State>, events: seq<Event>, n: nat, k: nat) returns (i: nat, r: nat)
    requires Run(states, events) && n < |states| && k < |states[n].tokens|
    ensures i < n && Issues(states, events, i, r) && events[i].user == states[n].tokens[k].user
    ensures Linked(states[n].tokens) && r < |states[n].tokens| && k in Chain(states[n].tokens, r)
    ensures forall j: nat, other: nat ::
              j < n && Issues(states, events, j, other) && other < |states[n].tokens| && k in Chain(states[n].tokens, other)
              ==> j == i && other == r
    ensures Live(states[n].tokens[k]) ==> var c := Chain(states[n].tokens, r); k == c[|c| - 1]
  {
    RunLinks(states, events, n);
    r := OneRootEach(states[n].tokens, k);
    ChainIsSimple(states[n].tokens, r);
    i := RootIsLogin(states, events, n, r);
    forall j: nat, other: nat | j < n && Issues(states, events, j, other) && other < |states[n].tokens| && k in Chain(states[n].tokens, other)
      ensures j == i && other == r
    {
      LoginIsRoot(states, events, n, j, other);
      IssuesOnce(states, events, i, j, r);
    }
  }

  // ---------------------------------------------------------------- what revocation means

  // Once revoked, whether by rotation, logout or a password change, a token is never accepted again.
  lemma {:induction false} RevokedForGood(states: seq<State>, events: seq<Event>, a: nat, b: nat, i: nat, e: Event)
    requires Run(states, events) && a <= b < |states| && i < |states[a].tokens| && !Live(states[a].tokens[i])
    requires (e.Refresh? || e.Logout?) && e.token == i
    ensures !Succeeds(states[b], e) && Step(states[b], e) == states[b]
    ensures i < |states[b].tokens| && states[b].tokens[i] == states[a].tokens[i]
  {
    RunGrows(states, events, a, b);
    assert RowKept(states[a].tokens[i], states[b].tokens[i]);
  }

  // A refresh token is spent by its first use.
  lemma {:induction false} RefreshOnlyOnce(states: seq<State>, events: seq<Event>, a: nat, b: nat)
    requires Run(states, events) && a < b < |events| && events[a].Refresh? && events[b].Refresh?
    requires events[a].token == events[b].token && Succeeds(states[a], events[a])
    ensures !Succeeds(states[b], events[b])
  {
    assert states[a + 1] == Step(states[a], events[a]);
    RevokedForGood(states, events, a + 1, b, events[a].token, events[b]);
  }

  // After a password change none of the user's earlier tokens can refresh or log out again.
  lemma {:induction false} PasswordChangeLocksOut(states: seq<State>, events: seq<Event>, a: nat, b: nat, i: nat, e: Event)
    requires Run(states, events) && a < b < |states| && events[a].ChangePassword? && Succeeds(states[a], events[a])
    requires i < |states[a].tokens| && states[a].tokens[i].user == events[a].user
    requires (e.Refresh? || e.Logout?) && e.token == i
    ensures !Succeeds(states[b], e)
  {
    assert states[a + 1] == Step(states[a], events[a]);
    RevokedForGood(states, events, a + 1, b, i, e);
  }

  // Nor do they have descendants: every later token of the user is in the chain of a login after the change.
  lemma {:induction false} LaterTokensAreNewFamilies(states: seq<State>, events: seq<Event>, a: nat, b: nat, k: nat) returns (i: nat, r: nat)
    requires Run(states, events) && a < b < |states| && events[a].ChangePassword? && Succeeds(states[a], events[a])
    requires |states[a].tokens| <= k < |states[b].tokens| && states[b].tokens[k].user == events[a].user
    ensures a < i < b && Issues(states, events, i, r) && events[i].user == events[a].user
    ensures Linked(states[b].tokens) && r < |states[b].tokens| && k in Chain(states[b].tokens, r)
  {
    i, r := RunChains(states, events, b, k);
    LoginIsRoot(states, events, b, i, r);
    LaterRoots(states, events, a, b, k, r);
    assert states[i + 1] == Step(states[i], events[i]);
    if i < a { RunGrows(states, events, i + 1, a); }
  }

  lemma {:induction false} LaterRoots(states: seq<State>, events: seq<Event>, a: nat, b: nat, k: nat, r: nat)
    requires Run(states, events) && a < b < |states| && events[a].ChangePassword? && Succeeds(states[a], events[a])
    requires |states[a].tokens| <= k < |states[b].tokens| && states[b].tokens[k].user == events[a].user
    requires Linked(states[b].tokens) && IsRoot(states[b].tokens, r) && k in Chain(states[b].tokens, r)
    ensures r >= |states[a].tokens|
  {
    var before, now, n := states[a + 1].tokens, states[b].tokens, |states[a].tokens|;
    assert states[a + 1] == Step(states[a], events[a]);
    RunLinks(states, events, a + 1);
    RunGrows(states, events, a + 1, b);
    ChainIsSimple(now, r);
    assert forall i :: 0 <= i < n && before[i].user == events[a].user ==> !Live(before[i]);
    forall i | 0 <= i < n && now[i].user == events[a].user && now[i].replacedBy.Some?
      ensures now[i].replacedBy.value < n
    {
      assert RowKept(before[i], now[i]) && now[i] == before[i];
      assert LinkOk(before, i);
    }
    if r < n { StaysBelow(now, r, n); }
  }

  // A chain that starts below n, where no link of its user leads over n, stays below n.
  lemma {:induction false} StaysBelow(tokens: seq<Token>, i: nat, n: nat)
    requires Linked(tokens) && i < |tokens| && i < n
    requires forall x :: 0 <= x < n && x < |tokens| && tokens[x].user == tokens[i].user && tokens[x].replacedBy.Some? ==>
               tokens[x].replacedBy.value < n
    ensures forall k :: k in Chain(tokens, i) ==> k < n
    decreases |tokens| - i
  {
    if tokens[i].replacedBy.Some? {
      assert LinkOk(tokens, i);
      StaysBelow(tokens, tokens[i].replacedBy.value, n);
    }
  }

  // ---------------------------------------------------------------- conservation of live tokens

  function LiveCount(tokens: seq<Token>, user: nat): nat {
    if tokens == [] then 0
    else
      var last := tokens[|tokens| - 1];
      LiveCount(tokens[..|tokens| - 1], user) + if last.user == user && Live(last) then 1 else 0
  }

  function Counts(t: Token, user: nat): nat {
    if t.user == user && Live(t) then 1 else 0
  }

  lemma {:induction false} LiveAppend(tokens: seq<Token>, t: Token, user: nat)
    ensures LiveCount(tokens + [t], user) == LiveCount(tokens, user) + Counts(t, user)
  {
    assert (tokens + [t])[..|tokens|] == tokens;
  }

  lemma {:induction false} LiveUpdate(tokens: seq<Token>, i: nat, t: Token, user: nat)
    requires i < |tokens|
    ensures LiveCount(tokens[i := t], user) + Counts(tokens[i], user) == LiveCount(tokens, user) + Counts(t, user)
  {
    var n := |tokens| - 1;
    if i < n {
      LiveUpdate(tokens[..n], i, t, user);
      assert tokens[i := t][..n] == tokens[..n][i := t];
    } else {
      assert tokens[i := t][..n] == tokens[..n];
    }
  }

  lemma {:induction false} LiveAfterRevoke(tokens: seq<Token>, changed: nat, now: int, user: nat)
    ensures LiveCount(RevokeAll(tokens, changed, now), user) == if user == changed then 0 else LiveCount(tokens, user)
  {
    if tokens != [] {
      var n := |tokens| - 1;
      LiveAfterRevoke(tokens[..n], changed, now, user);
      assert RevokeAll(tokens, changed, now)[..n] == RevokeAll(tokens[..n], changed, now);
    }
  }

  // Logins add a live token, logouts take one away, a refresh trades one for one, and a password change clears them all.
  ghost function Ledger(states: seq<State>, events: seq<Event>, n: nat, user: nat): int
    requires |states| == |events| + 1 && n < |states|
  {
    if n == 0 then 0
    else
      var before, s, e := Ledger(states, events, n - 1, user), states[n - 1], events[n - 1];
      if !Succeeds(s, e) then before
      else if e.Login? && e.user == user then before + 1
      else if e.Logout? && e.user == user then before - 1
      else if e.ChangePassword? && e.user == user then 0
      else before
  }

  lemma {:induction false} StepCounts(s: State, e: Event, user: nat)
    requires Succeeds(s, e)
    ensures LiveCount(Step(s, e).tokens, user)
            == if e.Login? && e.user == user then LiveCount(s.tokens, user) + 1
               else if e.Logout? && e.user == user then LiveCount(s.tokens, user) - 1
               else if e.ChangePassword? && e.user == user then 0
               else LiveCount(s.tokens, user)
  {
    match e
    case Login(u, _, now, expiresAt) => LiveAppend(s.tokens, FreshToken(u, now, expiresAt), user);
    case Refresh(i, now, expiresAt) =>
      var spent := s.tokens[i].(revokedAt := Some(now), replacedBy := Some(|s.tokens|));
      LiveUpdate(s.tokens, i, spent, user);
      LiveAppend(s.tokens[i := spent], FreshToken(s.tokens[i].user, now, expiresAt), user);
    case Logout(u, i, now) => LiveUpdate(s.tokens, i, s.tokens[i].(revokedAt := Some(now)), user);
    case ChangePassword(u, _, _, now) => LiveAfterRevoke(s.tokens, u, now, user);
    case UsersChange(_) =>
  }

  lemma {:induction false} LiveTokensConserved(states: seq<State>, events: seq<Event>, n: nat, user: nat)
    requires Run(states, events) && n < |states|
    ensures LiveCount(states[n].tokens, user) == Ledger(states, events, n, user)
  {
    if n > 0 {
      LiveTokensConserved(states, events, n - 1, user);
      assert states[n] == Step(states[n - 1], events[n - 1]);
      if Succeeds(states[n - 1], events[n - 1]) { StepCounts(states[n - 1], events[n - 1], user); }
    }
  }
}
