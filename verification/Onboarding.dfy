/**
 Staff onboarding requests: submitted, approved by a manager of the department, then approved a second time, which
 provisions the user; or rejected in either phase. The second approval asks for no level and no other person. Calls are
 those that passed the `onboarding.manage` check.
 */
module Onboarding {
  import opened Optional

  /** `level` is None for a caller without a role, `department` for one without a staff profile or department. */
  datatype Caller = Caller(id: nat, level: Maybe<int>, department: Maybe<string>)

  datatype Proposal = Proposal(name: string, email: string, role: nat, department: string)

  datatype Status = PendingManager | PendingAdmin | Approved | Rejected

  datatype Request = Request(
    requestedBy: nat,
    proposal: Proposal,
    status: Status,
    managerApprovedBy: Maybe<nat>,
    rejectionReason: Maybe<string>,
    approvedBy: Maybe<nat>,
    provisioned: Maybe<nat>)

  datatype User = User(email: string, role: nat, active: bool, deleted: bool)

  datatype State = State(requests: map<nat, Request>, users: map<nat, User>)

  /**
   New keys are chosen by the caller's side; `stored` says whether the remaining constraints (user name, staff code,
   references) let the transaction commit. AddUser is any other code that creates a user, EditUser any that changes one:
   activation, a new role or address, deactivation, and deletion, which only sets a mark.
   */
  datatype Call =
    | Submit(rid: nat, caller: Caller, proposal: Proposal, stored: bool)
    | ManagerApprove(rid: nat, caller: Caller)
    | Approve(rid: nat, caller: Caller, newUser: nat, stored: bool)
    | Reject(rid: nat, caller: Caller, reason: Maybe<string>)
    | AddUser(id: nat, user: User)
    | EditUser(id: nat, user: User)

  datatype Reply = Success | NotFound | BadRequest | Forbidden | NotStored

  predicate EmailFree(users: map<nat, User>, email: string)
  {
    forall u | u in users :: users[u].email != email
  }

  predicate CanInsert(users: map<nat, User>, id: nat, user: User)
  {
    id !in users && EmailFree(users, user.email)
  }

  function RoleLevel(c: Caller): int
  {
    if c.level.Some? then c.level.value else 1
  }

  function NewRequest(c: Caller, p: Proposal): Request
  {
    Request(c.id, p, PendingManager, None, None, None, None)
  }

  function NewUser(p: Proposal): User
  {
    User(p.email, p.role, false, false)
  }

  class OnboardingApi {
    var requests: map<nat, Request>
    var users: map<nat, User>

    ghost function Now(): State
      reads this
    {
      State(requests, users)
    }

    method SubmitOnboarding(rid: nat, caller: Caller, p: Proposal, stored: bool) returns (reply: Reply)
      modifies this
      ensures (Now(), reply) == Step(old(Now()), Submit(rid, caller, p, stored))
    {
      if rid in requests || !stored {
        return NotStored;
      }
      requests := requests[rid := NewRequest(caller, p)];
      reply := Success;
    }

    method ManagerApproveOnboarding(rid: nat, caller: Caller) returns (reply: Reply)
      modifies this
      ensures (Now(), reply) == Step(old(Now()), ManagerApprove(rid, caller))
    {
      if RoleLevel(caller) < 4 {
        return Forbidden;
      }
      if rid !in requests {
        return NotFound;
      }
      var r := requests[rid];
      if r.status != PendingManager {
        return BadRequest;
      }
      if caller.department != Some(r.proposal.department) {
        return Forbidden;
      }
      requests := requests[rid := r.(status := PendingAdmin, managerApprovedBy := Some(caller.id))];
      reply := Success;
    }

    method ApproveOnboarding(rid: nat, caller: Caller, newUser: nat, stored: bool) returns (reply: Reply)
      modifies this
      ensures (Now(), reply) == Step(old(Now()), Approve(rid, caller, newUser, stored))
    {
      if rid !in requests {
        return NotFound;
      }
      var r := requests[rid];
      if r.status == PendingManager {
        return BadRequest;
      }
      if r.status != PendingAdmin {
        return BadRequest;
      }
      var user := NewUser(r.proposal);
      if !CanInsert(users, newUser, user) || !stored {
        return NotStored;
      }
      users := users[newUser := user];
      requests := requests[rid := r.(status := Approved, approvedBy := Some(caller.id), provisioned := Some(newUser))];
      reply := Success;
    }

    method RejectOnboarding(rid: nat, caller: Caller, reason: Maybe<string>) returns (reply: Reply)
      modifies this
      ensures (Now(), reply) == Step(old(Now()), Reject(rid, caller, reason))
    {
      if rid !in requests {
        return NotFound;
      }
      var r := requests[rid];
      if r.status != PendingManager && r.status != PendingAdmin {
        return BadRequest;
      }
      if r.status == PendingManager {
        if RoleLevel(caller) < 4 {
          return Forbidden;
        }
        if caller.department != Some(r.proposal.department) {
          return Forbidden;
        }
        r := r.(rejectionReason := reason);
      }
      requests := requests[rid := r.(status := Rejected, approvedBy := Some(caller.id))];
      reply := Success;
    }
  }

  // ---- One call ---------------------------------------------------------------------------

  /** A manager of the request's own department. */
  predicate Manages(c: Caller, p: Proposal)
  {
    RoleLevel(c) >= 4 && c.department == Some(p.department)
  }

  /** When a call succeeds. */
  predicate Succeeds(s: State, c: Call)
  {
    match c
    case Submit(rid, _, _, stored) => stored && rid !in s.requests
    case ManagerApprove(rid, caller) =>
      rid in s.requests && s.requests[rid].status == PendingManager && Manages(caller, s.requests[rid].proposal)
    case Approve(rid, _, newUser, stored) =>
      stored && rid in s.requests && s.requests[rid].status == PendingAdmin
      && CanInsert(s.users, newUser, NewUser(s.requests[rid].proposal))
    case Reject(rid, caller, _) =>
      rid in s.requests
      && (s.requests[rid].status == PendingAdmin
          || (s.requests[rid].status == PendingManager && Manages(caller, s.requests[rid].proposal)))
    case AddUser(id, user) => CanInsert(s.users, id, user)
    case EditUser(id, user) => id in s.users && EmailFree(s.users - {id}, user.email)
  }

  /** The reply to a call that does not succeed. */
  function Refusal(s: State, c: Call): Reply
  {
    match c
    case Submit(_, _, _, _) => NotStored
    case ManagerApprove(rid, caller) =>
      if RoleLevel(caller) < 4 then Forbidden
      else if rid !in s.requests then NotFound
      else if s.requests[rid].status != PendingManager then BadRequest
      else Forbidden
    case Approve(rid, _, _, _) =>
      if rid !in s.requests then NotFound
      else if s.requests[rid].status != PendingAdmin then BadRequest
      else NotStored
    case Reject(rid, _, _) =>
      if rid !in s.requests then NotFound
      else if s.requests[rid].status.Approved? || s.requests[rid].status.Rejected? then BadRequest
      else Forbidden
    case AddUser(_, _) => NotStored
    case EditUser(id, _) => if id in s.users then NotStored else NotFound
  }

  /** The state after a call that succeeds. */
  function Effect(s: State, c: Call): State
    requires Succeeds(s, c)
  {
    match c
    case Submit(rid, caller, p, _) => s.(requests := s.requests[rid := NewRequest(caller, p)])
    case ManagerApprove(rid, caller) =>
      s.(requests := s.requests[rid := s.requests[rid].(status := PendingAdmin, managerApprovedBy := Some(caller.id))])
    case Approve(rid, caller, u, _) =>
      var r := s.requests[rid];
      State(s.requests[rid := r.(status := Approved, approvedBy := Some(caller.id), provisioned := Some(u))],
            s.users[u := NewUser(r.proposal)])
    case Reject(rid, caller, reason) =>
      var r := s.requests[rid];
      var why := if r.status == PendingManager then reason else r.rejectionReason;
      s.(requests := s.requests[rid := r.(status := Rejected, approvedBy := Some(caller.id), rejectionReason := why)])
    case AddUser(id, user) => s.(users := s.users[id := user])
    case EditUser(id, user) => s.(users := s.users[id := user])
  }

  function Step(s: State, c: Call): (State, Reply)
  {
    if Succeeds(s, c) then (Effect(s, c), Success) else (s, Refusal(s, c))
  }

  // ---- Runs -------------------------------------------------------------------------------

  /** The state after a run of calls from a database without requests. */
  function Run(users: map<nat, User>, calls: seq<Call>): State
  {
    if calls == [] then State(map[], users)
    else Step(Run(users, calls[..|calls| - 1]), calls[|calls| - 1]).0
  }

  predicate About(c: Call, rid: nat)
  {
    !c.AddUser? && !c.EditUser? && c.rid == rid
  }

  /** The calls about one request that succeeded, in order. */
  function History(users: map<nat, User>, calls: seq<Call>, rid: nat): seq<Call>
  {
    if calls == [] then []
    else
      var before, last := calls[..|calls| - 1], calls[|calls| - 1];
      History(users, before, rid) + if About(last, rid) && Succeeds(Run(users, before), last) then [last] else []
  }

  /** The request is submitted, and by then nothing else has happened to it. */
  predicate Submitted(h: seq<Call>, r: Request)
  {
    |h| >= 1 && h[0].Submit? && r.requestedBy == h[0].caller.id && r.proposal == h[0].proposal
  }

  /** The manager's approval came second, from a manager of the request's department. */
  predicate ManagerApproved(h: seq<Call>, r: Request)
  {
    |h| >= 2 && h[1].ManagerApprove? && Manages(h[1].caller, r.proposal) && r.managerApprovedBy == Some(h[1].caller.id)
  }

  /** The only five histories a request can have, each with the fields it leaves in the request. */
  predicate Lawful(h: seq<Call>, r: Request)
  {
    && Submitted(h, r)
    && match r.status
       case PendingManager =>
         |h| == 1 && r.managerApprovedBy.None? && r.approvedBy.None? && r.provisioned.None? && r.rejectionReason.None?
       case PendingAdmin =>
         |h| == 2 && ManagerApproved(h, r) && r.approvedBy.None? && r.provisioned.None? && r.rejectionReason.None?
       case Approved =>
         |h| == 3 && ManagerApproved(h, r) && h[2].Approve? && r.rejectionReason.None?
         && r.approvedBy == Some(h[2].caller.id) && r.provisioned == Some(h[2].newUser)
       case Rejected =>
         && r.provisioned.None?
         && ((|h| == 2 && h[1].Reject? && Manages(h[1].caller, r.proposal) && r.managerApprovedBy.None?
              && r.approvedBy == Some(h[1].caller.id) && r.rejectionReason == h[1].reason)
             || (|h| == 3 && ManagerApproved(h, r) && h[2].Reject? && r.approvedBy == Some(h[2].caller.id)
                 && r.rejectionReason.None?))
  }

  lemma CallKeepsLawful(s: State, c: Call, rid: nat, h: seq<Call>)
    requires if rid in s.requests then Lawful(h, s.requests[rid]) else h == []
    ensures var s2 := Step(s, c).0; var h2 := h + if About(c, rid) && Succeeds(s, c) then [c] else [];
      if rid in s2.requests then Lawful(h2, s2.requests[rid]) else h2 == []
  {
  }

  /**
   Main result. Over every run, a request's successful calls are one of five histories, which its fields record: so an
   approved request was first approved by a level-4 manager of its own department, and nothing follows an approval or a
   rejection.
   */
  lemma {:induction false} HistoryLawful(users: map<nat, User>, calls: seq<Call>, rid: nat)
    ensures var s := Run(users, calls); var h := History(users, calls, rid);
      if rid in s.requests then Lawful(h, s.requests[rid]) else h == []
  {
    if calls != [] {
      var before, last := calls[..|calls| - 1], calls[|calls| - 1];
      HistoryLawful(users, before, rid);
      CallKeepsLawful(Run(users, before), last, rid, History(users, before, rid));
    }
  }

  predicate Finished(s: State, rid: nat)
  {
    rid in s.requests && (s.requests[rid].status.Approved? || s.requests[rid].status.Rejected?)
  }

  /** Approved and rejected are absorbing: no later run changes anything in such a request. */
  lemma {:induction false} FinishedStays(users: map<nat, User>, calls: seq<Call>, later: seq<Call>, rid: nat)
    requires Finished(Run(users, calls), rid)
    ensures rid in Run(users, calls + later).requests
    ensures Run(users, calls + later).requests[rid] == Run(users, calls).requests[rid]
  {
    if later == [] {
      assert calls + later == calls;
    } else {
      var before := later[..|later| - 1];
      FinishedStays(users, calls, before, rid);
      assert (calls + later)[..|calls + later| - 1] == calls + before;
    }
  }

  // ---- Who is needed ----------------------------------------------------------------------

  /** The second approval looks at nothing about its caller. */
  lemma ApprovalAsksNothing(s: State, rid: nat, a: Caller, b: Caller, newUser: nat, stored: bool)
    ensures Succeeds(s, Approve(rid, a, newUser, stored)) <==> Succeeds(s, Approve(rid, b, newUser, stored))
  {
  }

  /** One person alone can submit, manager-approve and approve a request, exactly if a manager of its department. */
  lemma OnePersonExactly(users: map<nat, User>, rid: nat, c: Caller, p: Proposal, newUser: nat)
    requires CanInsert(users, newUser, NewUser(p))
    ensures var s := Run(users, [Submit(rid, c, p, true), ManagerApprove(rid, c), Approve(rid, c, newUser, true)]);
      rid in s.requests && (s.requests[rid].status.Approved? <==> Manages(c, p))
  {
    var submit, manage, approve := Submit(rid, c, p, true), ManagerApprove(rid, c), Approve(rid, c, newUser, true);
    RunLast(users, [], submit);
    RunLast(users, [submit], manage);
    RunLast(users, [submit, manage], approve);
    assert [] + [submit] == [submit];
    assert [submit] + [manage] == [submit, manage];
    assert [submit, manage] + [approve] == [submit, manage, approve];
  }

  lemma RunLast(users: map<nat, User>, calls: seq<Call>, c: Call)
    ensures Run(users, calls + [c]) == Step(Run(users, calls), c).0
  {
    assert (calls + [c])[..|calls|] == calls;
  }

  /** What a successful approval leaves: one new user, as proposed and not yet active, and the marks on the request. */
  lemma ApprovalProvisions(s: State, rid: nat, c: Caller, u: nat)
    requires Step(s, Approve(rid, c, u, true)).1 == Success
    ensures var t := Step(s, Approve(rid, c, u, true)).0;
      && rid in s.requests && u !in s.users && t.users.Keys == s.users.Keys + {u}
      && t.users[u].email == s.requests[rid].proposal.email && t.users[u].role == s.requests[rid].proposal.role
      && !t.users[u].active && !t.users[u].deleted
      && (forall v | v in s.users :: t.users[v] == s.users[v] && s.users[v].email != s.requests[rid].proposal.email)
      && t.requests.Keys == s.requests.Keys && (forall q | q in s.requests && q != rid :: t.requests[q] == s.requests[q])
      && t.requests[rid].status == Approved && t.requests[rid].provisioned == Some(u) && t.requests[rid].approvedBy == Some(c.id)
  {
  }

  /** A level of 4 or above in the department. */
  predicate SeniorIn(c: Caller, department: string)
  {
    c.level.Some? && c.level.value >= 4 && c.department == Some(department)
  }

  lemma {:induction false} HistoryIsFromCalls(users: map<nat, User>, calls: seq<Call>, rid: nat)
    ensures forall c | c in History(users, calls, rid) :: c in calls && About(c, rid)
  {
    if calls != [] { HistoryIsFromCalls(users, calls[..|calls| - 1], rid); }
  }

  predicate SeniorApproval(c: Call, rid: nat, department: string)
  {
    c.ManagerApprove? && c.rid == rid && SeniorIn(c.caller, department)
  }

  /** An approved request owes its approval to a call by a level-4 member of its own department, or above. */
  lemma ApprovedNeedsSenior(users: map<nat, User>, calls: seq<Call>, rid: nat)
    requires rid in Run(users, calls).requests && Run(users, calls).requests[rid].status == Approved
    ensures exists c | c in calls :: SeniorApproval(c, rid, Run(users, calls).requests[rid].proposal.department)
  {
    HistoryLawful(users, calls, rid);
    HistoryIsFromCalls(users, calls, rid);
    var c := History(users, calls, rid)[1];
    assert c in History(users, calls, rid);
  }

  /** The reply to a manager's approval: the first of the handler's checks that fails, in its order. */
  lemma ManagerReply(s: State, rid: nat, c: Caller)
    ensures Step(s, ManagerApprove(rid, c)).1 ==
      if c.level == None || c.level.value < 4 then Forbidden
      else if rid !in s.requests then NotFound
      else if s.requests[rid].status != PendingManager then BadRequest
      else if c.department != Some(s.requests[rid].proposal.department) then Forbidden
      else Success
  {
  }

  lemma ApproveReply(s: State, rid: nat, c: Caller, u: nat, stored: bool)
    ensures Step(s, Approve(rid, c, u, stored)).1 ==
      if rid !in s.requests then NotFound
      else if s.requests[rid].status != PendingAdmin then BadRequest
      else if !stored || u in s.users || exists v | v in s.users :: s.users[v].email == s.requests[rid].proposal.email then NotStored
      else Success
  {
  }

  lemma RejectReply(s: State, rid: nat, c: Caller, reason: Maybe<string>)
    ensures Step(s, Reject(rid, c, reason)).1 ==
      if rid !in s.requests then NotFound
      else if s.requests[rid].status == Approved || s.requests[rid].status == Rejected then BadRequest
      else if s.requests[rid].status == PendingAdmin || SeniorIn(c, s.requests[rid].proposal.department) then Success
      else Forbidden
  {
  }

  lemma SubmitReply(s: State, rid: nat, c: Caller, p: Proposal, stored: bool)
    ensures Step(s, Submit(rid, c, p, stored)).1 == if rid in s.requests || !stored then NotStored else Success
  {
  }

  /** A call that does not succeed changes nothing. */
  lemma RefusedChangesNothing(s: State, c: Call)
    ensures Step(s, c).1 != Success ==> Step(s, c).0 == s
  {
  }

  // ---- Provisioned users ------------------------------------------------------------------

  /** The users other code has changed during the run. */
  function EditedUsers(users: map<nat, User>, calls: seq<Call>): set<nat>
  {
    if calls == [] then {}
    else
      var before, last := calls[..|calls| - 1], calls[|calls| - 1];
      EditedUsers(users, before) + if last.EditUser? && Succeeds(Run(users, before), last) then {last.id} else {}
  }

  /** The request's user exists and, unless edited since, is inactive with the proposed address and role. */
  predicate ProvisionedFor(s: State, edited: set<nat>, rid: nat)
    requires rid in s.requests && s.requests[rid].provisioned.Some?
  {
    var u := s.requests[rid].provisioned.value;
    var p := s.requests[rid].proposal;
    && u in s.users
    && (u !in edited ==>
          s.users[u].email == p.email && s.users[u].role == p.role && !s.users[u].active && !s.users[u].deleted)
  }

  /** A user for every approved request and no other, and never one user for two requests. */
  predicate UsersMatch(s: State, edited: set<nat>)
  {
    && (forall rid | rid in s.requests :: s.requests[rid].provisioned.Some? <==> s.requests[rid].status.Approved?)
    && (forall rid | rid in s.requests && s.requests[rid].provisioned.Some? :: ProvisionedFor(s, edited, rid))
    && (forall a, b | a in s.requests && b in s.requests && a != b && s.requests[a].provisioned.Some? ::
          s.requests[a].provisioned != s.requests[b].provisioned)
  }

  lemma CallKeepsUsers(s: State, edited: set<nat>, c: Call)
    requires UsersMatch(s, edited) && Succeeds(s, c)
    ensures UsersMatch(Effect(s, c), edited + if c.EditUser? then {c.id} else {})
  {
    var t, now := Effect(s, c), edited + if c.EditUser? then {c.id} else {};
    forall rid | rid in t.requests && t.requests[rid].provisioned.Some? ensures ProvisionedFor(t, now, rid) {
      if rid in s.requests && s.requests[rid].provisioned.Some? {
        assert ProvisionedFor(s, edited, rid);
      }
    }
    if c.Approve? {
      forall rid | rid in s.requests && s.requests[rid].provisioned.Some? ensures s.requests[rid].provisioned.value != c.newUser {
        assert ProvisionedFor(s, edited, rid);
      }
    }
  }

  function ApprovedRequests(s: State): set<nat>
  {
    set rid | rid in s.requests && s.requests[rid].status.Approved?
  }

  /** The users created by other code during the run. */
  function OtherUsers(users: map<nat, User>, calls: seq<Call>): nat
  {
    if calls == [] then 0
    else
      var before, last := calls[..|calls| - 1], calls[|calls| - 1];
      OtherUsers(users, before) + if last.AddUser? && Succeeds(Run(users, before), last) then 1 else 0
  }

  lemma InsertCounts<V>(m: map<nat, V>, k: nat, v: V)
    requires k !in m
    ensures |m[k := v]| == |m| + 1
  {
    assert m[k := v].Keys == m.Keys + {k};
  }

  lemma ApprovalCounts(s: State, c: Call)
    requires Succeeds(s, c)
    ensures ApprovedRequests(Effect(s, c)) == ApprovedRequests(s) + if c.Approve? then {c.rid} else {}
  {
  }

  lemma CallCountsUsers(s: State, c: Call)
    requires Succeeds(s, c)
    ensures |Effect(s, c).users| - |ApprovedRequests(Effect(s, c))|
         == |s.users| - |ApprovedRequests(s)| + if c.AddUser? then 1 else 0
  {
    ApprovalCounts(s, c);
    if c.Approve? {
      InsertCounts(s.users, c.newUser, NewUser(s.requests[c.rid].proposal));
      assert c.rid !in ApprovedRequests(s);
    } else if c.AddUser? {
      InsertCounts(s.users, c.id, c.user);
    } else if c.EditUser? {
      assert s.users[c.id := c.user].Keys == s.users.Keys;
      assert |s.users[c.id := c.user]| == |s.users|;
    }
  }

  /**
   Main result. Over every run each approved request has its own user, with the proposed address and role until other code
   edits it, no other request has one, and the users grow by exactly the approved requests and the users other code created.
   */
  lemma {:induction false} UsersProvisioned(users: map<nat, User>, calls: seq<Call>)
    ensures var s := Run(users, calls);
      UsersMatch(s, EditedUsers(users, calls)) && |s.users| == |users| + OtherUsers(users, calls) + |ApprovedRequests(s)|
  {
    if calls != [] {
      var before, last := calls[..|calls| - 1], calls[|calls| - 1];
      var s := Run(users, before);
      UsersProvisioned(users, before);
      if Succeeds(s, last) {
        CallKeepsUsers(s, EditedUsers(users, before), last);
        CallCountsUsers(s, last);
      }
    }
  }
}
