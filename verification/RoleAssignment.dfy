/** Role assignment by `assign_role`, and the history of role changes it keeps. */
module RoleAssignment {

  /** One row of user_role_history. */
  datatype Change = Change(user: nat, previous: nat, given: nat, changedBy: nat)

  /** Roles have a level; every user has a role. */
  datatype State = State(roles: map<nat, int>, users: map<nat, nat>, history: seq<Change>)

  predicate Valid(s: State)
  {
    forall u | u in s.users :: s.users[u] in s.roles
  }

  function Level(s: State, u: nat): int
    requires Valid(s) && u in s.users
  {
    s.roles[s.users[u]]
  }

  /** The caller of an assignment is a signed-in user; roles may be created at any level. */
  datatype Call =
    | AssignRole(role: nat, user: nat, caller: nat)
    | CreateRole(id: nat, level: int)

  datatype Reply = Success | NotFound | Forbidden | NotStored

  class RoleApi {
    var roles: map<nat, int>
    var users: map<nat, nat>
    var history: seq<Change>

    ghost function Now(): State
      reads this
    {
      State(roles, users, history)
    }

    method Assign(role: nat, user: nat, caller: nat) returns (reply: Reply)
      requires Valid(Now()) && caller in users
      modifies this
      ensures (Now(), reply) == Step(old(Now()), AssignRole(role, user, caller))
    {
      if role !in roles {
        return NotFound;
      }
      if roles[role] >= roles[users[caller]] {
        return Forbidden;
      }
      if user !in users {
        return NotFound;
      }
      history := history + [Change(user, users[user], role, caller)];
      users := users[user := role];
      reply := Success;
    }
  }

  /** Whether the assignment goes through: only the new role's level and the caller's matter, not the user's own. */
  predicate Assignable(s: State, role: nat, user: nat, caller: nat)
    requires Valid(s)
  {
    role in s.roles && user in s.users && caller in s.users && s.roles[role] < Level(s, caller)
  }

  function Step(s: State, c: Call): (r: (State, Reply))
    requires Valid(s)
    ensures Valid(r.0)
  {
    match c
    case AssignRole(role, user, caller) =>
      if Assignable(s, role, user, caller) then
        (s.(users := s.users[user := role], history := s.history + [Change(user, s.users[user], role, caller)]), Success)
      else (s, if role in s.roles && caller in s.users && s.roles[role] >= Level(s, caller) then Forbidden else NotFound)
    case CreateRole(id, level) =>
      if id in s.roles then (s, NotStored) else (s.(roles := s.roles[id := level]), Success)
  }

  function Run(s: State, calls: seq<Call>): (t: State)
    requires Valid(s)
    ensures Valid(t)
    decreases |calls|
  {
    if calls == [] then s else Step(Run(s, calls[..|calls| - 1]), calls[|calls| - 1]).0
  }

  // ---- One assignment ---------------------------------------------------------------------

  /**
   An assignment is refused for a missing role, then for a role not below the caller's own, then for a missing user.
   Otherwise that user gets the role and the history one more row; nothing else changes.
   */
  lemma AssignExact(s: State, role: nat, user: nat, caller: nat)
    requires Valid(s) && caller in s.users
    ensures var (t, reply) := Step(s, AssignRole(role, user, caller));
      && (reply == if role !in s.roles then NotFound
                   else if s.roles[role] >= s.roles[s.users[caller]] then Forbidden
                   else if user !in s.users then NotFound
                   else Success)
      && (reply != Success ==> t == s)
      && (reply == Success ==>
            && t.roles == s.roles && t.users.Keys == s.users.Keys && t.users[user] == role
            && (forall u | u in s.users && u != user :: t.users[u] == s.users[u])
            && |t.history| == |s.history| + 1 && t.history[..|s.history|] == s.history
            && var c := t.history[|s.history|];
               c.user == user && c.previous == s.users[user] && c.given == role && c.changedBy == caller)
  {
  }

  // ---- Nobody rises above the top ---------------------------------------------------------

  predicate AtMost(s: State, top: int)
    requires Valid(s)
  {
    forall u | u in s.users :: Level(s, u) <= top
  }

  function Holders(s: State, top: int): set<nat>
    requires Valid(s)
  {
    set u | u in s.users && Level(s, u) == top
  }

  /**
   Main result. No run of assignments and new roles lifts anyone above the highest level held at its start, or gives
   that level to a user who did not hold it.
   */
  lemma {:induction false} TopNeverRises(s: State, calls: seq<Call>, top: int)
    requires Valid(s) && AtMost(s, top)
    ensures AtMost(Run(s, calls), top) && Holders(Run(s, calls), top) <= Holders(s, top)
    decreases |calls|
  {
    if calls != [] {
      var before := Run(s, calls[..|calls| - 1]);
      TopNeverRises(s, calls[..|calls| - 1], top);
      StepNeverRises(before, calls[|calls| - 1], top);
    }
  }

  lemma StepNeverRises(s: State, c: Call, top: int)
    requires Valid(s) && AtMost(s, top)
    ensures AtMost(Step(s, c).0, top) && Holders(Step(s, c).0, top) <= Holders(s, top)
  {
  }

  /**
   Since the target's own level is not looked at, the top level can be vacated: a call does so exactly when it assigns a
   role to its only holder, who may be above the caller.
   */
  lemma TopLostExactly(s: State, c: Call, top: int)
    requires Valid(s) && AtMost(s, top) && Holders(s, top) != {}
    ensures Holders(Step(s, c).0, top) == {} <==>
      c.AssignRole? && Assignable(s, c.role, c.user, c.caller) && Holders(s, top) == {c.user}
  {
    var t := Step(s, c).0;
    var u :| u in Holders(s, top);
    if c.AssignRole? && Assignable(s, c.role, c.user, c.caller) {
      assert Level(s, c.caller) <= top;
      forall v | v in s.users && v != c.user ensures Level(t, v) == Level(s, v) {}
      assert Holders(t, top) == Holders(s, top) - {c.user};
    } else {
      assert Level(t, u) == top;
      assert u in Holders(t, top);
    }
  }

  /** A level-4 caller takes the level-5 role from its only holder, and nobody holds it any more. */
  lemma LowerCallerVacatesTop()
    ensures
      var s := State(map[0 := 1, 1 := 4, 2 := 5], map[7 := 2, 8 := 1], []);
      && Valid(s) && AtMost(s, 5) && Holders(s, 5) == {7} && Level(s, 8) == 4
      && Step(s, AssignRole(0, 7, 8)).1 == Success && Holders(Step(s, AssignRole(0, 7, 8)).0, 5) == {}
  {
    var s := State(map[0 := 1, 1 := 4, 2 := 5], map[7 := 2, 8 := 1], []);
    assert 7 in Holders(s, 5);
    assert Holders(s, 5) == {7};
    TopLostExactly(s, AssignRole(0, 7, 8), 5);
  }

  // ---- The history ------------------------------------------------------------------------

  /** The role the history gives a user who started with `first`. */
  function RoleAfter(first: nat, history: seq<Change>, u: nat): nat
  {
    if history == [] then first
    else if history[|history| - 1].user == u then history[|history| - 1].given
    else RoleAfter(first, history[..|history| - 1], u)
  }

  /** Each change starts from the role the user then had, and gives a role below the one the changer then had. */
  predicate Chained(s: State, roles: map<nat, int>, history: seq<Change>)
  {
    forall i | 0 <= i < |history| :: ChainedAt(s, roles, history[..i], history[i])
  }

  predicate ChainedAt(s: State, roles: map<nat, int>, earlier: seq<Change>, c: Change)
  {
    && c.user in s.users && c.previous == RoleAfter(s.users[c.user], earlier, c.user)
    && c.changedBy in s.users
    && var held := RoleAfter(s.users[c.changedBy], earlier, c.changedBy);
       c.given in roles && held in roles && roles[c.given] < roles[held]
  }

  /** The history replayed from the starting roles gives the current ones, and every change in it is chained. */
  predicate HistoryExplains(s: State, t: State)
  {
    && t.users.Keys == s.users.Keys
    && (forall u | u in t.users :: t.users[u] == RoleAfter(s.users[u], t.history, u))
    && Chained(s, t.roles, t.history)
  }

  lemma MoreRoles(s: State, roles: map<nat, int>, id: nat, level: int, history: seq<Change>)
    requires Chained(s, roles, history) && id !in roles
    ensures Chained(s, roles[id := level], history)
  {
  }

  lemma ChangeKeepsChain(s: State, roles: map<nat, int>, history: seq<Change>, c: Change)
    requires Chained(s, roles, history) && ChainedAt(s, roles, history, c)
    ensures Chained(s, roles, history + [c])
  {
    var longer := history + [c];
    forall i | 0 <= i < |longer| ensures ChainedAt(s, roles, longer[..i], longer[i]) {
      if i < |history| {
        assert longer[..i] == history[..i];
        assert ChainedAt(s, roles, history[..i], history[i]);
      } else {
        assert longer[..i] == history;
      }
    }
  }

  lemma StepExplained(s: State, t: State, c: Call)
    requires Valid(t) && HistoryExplains(s, t)
    ensures HistoryExplains(s, Step(t, c).0)
  {
    match c
    case CreateRole(id, level) =>
      if id !in t.roles { MoreRoles(s, t.roles, id, level, t.history); }
    case AssignRole(role, user, caller) =>
      if Assignable(t, role, user, caller) {
        var change := Change(user, t.users[user], role, caller);
        ChangeKeepsChain(s, t.roles, t.history, change);
        assert (t.history + [change])[..|t.history|] == t.history;
      }
  }

  /**
   Main result. Over every run each user's changes form a chain from the role held at the start to the current role,
   and every change was made by someone then above the role given.
   */
  lemma {:induction false} HistoryReplays(s: State, calls: seq<Call>)
    requires Valid(s) && s.history == []
    ensures HistoryExplains(s, Run(s, calls))
    decreases |calls|
  {
    if calls != [] {
      HistoryReplays(s, calls[..|calls| - 1]);
      StepExplained(s, Run(s, calls[..|calls| - 1]), calls[|calls| - 1]);
    }
  }
}
